/** The ip_range content entity: its creation defaults, accessors and save hook. */
module IpRangeEntity {
  import opened Wrappers
  import opened IpAddress
  import opened Storage

  /** The keys of the `$values` array that preCreate looks at. */
  datatype RangeValues = RangeValues(organization: Option<OrgId>, uid: Option<UserId>)

  /**
   * preCreate: the organization route parameter, when present, overwrites the
   * organization; `$values += ['uid' => current user]` fills the owner only
   * when none was given.
   */
  function PreCreate(values: RangeValues, routeOrganization: Option<OrgId>, currentUser: UserId): (r: RangeValues)
    ensures r.organization == (if routeOrganization.Some? then routeOrganization else values.organization)
    ensures values.uid.Some? ==> r.uid == values.uid
    ensures values.uid.None? ==> r.uid == Some(currentUser)
  {
    RangeValues(
      if routeOrganization.Some? then routeOrganization else values.organization,
      if values.uid.Some? then values.uid else Some(currentUser))
  }

  /** Running preCreate twice with the same context changes nothing more. */
  lemma PreCreateIdempotent(values: RangeValues, routeOrganization: Option<OrgId>, currentUser: UserId)
    ensures PreCreate(PreCreate(values, routeOrganization, currentUser), routeOrganization, currentUser)
         == PreCreate(values, routeOrganization, currentUser)
  {
  }

  class IpRange {
    var id: Option<RangeId>
    var organization: OrgId
    var ipStart: Address
    var ipEnd: Address
    var title: string
    var registrars: seq<RegistrarId>
    var status: bool
    var uid: UserId

    /** A new, unsaved range; status has its field default FALSE. */
    constructor (organization: OrgId, ipStart: Address, ipEnd: Address, uid: UserId)
      ensures id.None? && !IsRegistered()
      ensures this.organization == organization && this.ipStart == ipStart && this.ipEnd == ipEnd
      ensures this.uid == uid && registrars == [] && title == ""
    {
      id := None;
      this.organization := organization;
      this.ipStart := ipStart;
      this.ipEnd := ipEnd;
      title := "";
      registrars := [];
      status := false;
      this.uid := uid;
    }

    /** The entity object storage hands out for a stored row. */
    constructor FromRow(id: RangeId, row: RangeRow)
      ensures this.id == Some(id) && Row() == row
    {
      this.id := Some(id);
      organization := row.organization;
      ipStart := row.start;
      ipEnd := row.end;
      title := row.title;
      registrars := row.registrars;
      status := row.status;
      uid := row.uid;
    }

    /** The field values save() persists. */
    function Row(): RangeRow
      reads this
    {
      RangeRow(organization, ipStart, ipEnd, title, registrars, status, uid)
    }

    function GetTitle(): string
      reads this
    {
      title
    }

    method SetTitle(t: string)
      modifies this`title
      ensures GetTitle() == t
    {
      title := t;
    }

    function IsRegistered(): bool
      reads this
    {
      status
    }

    method SetStatus(s: bool)
      modifies this`status
      ensures IsRegistered() == s
    {
      status := s;
    }

    /** preSave: the title is derived from the endpoints, whatever it was. */
    method PreSave()
      modifies this`title
      ensures title == RangeTitle(ipStart, ipEnd)
    {
      SetTitle(RangeTitle(ipStart, ipEnd));
    }

    /** save(): runs preSave, then writes the entity; a new entity receives its id. */
    method Save(store: EntityStore) returns (result: SaveResult)
      requires store.Valid()
      modifies this`id, this`title, store`ranges, store`nextRangeId, store`log
      ensures store.Valid()
      ensures id.Some? && Row() == Retitled(old(Row()))
      ensures result == (if old(id).None? then SavedNew else SavedUpdated)
      ensures old(id).Some? ==> id == old(id)
      ensures old(id).None? ==> id.value !in old(store.ranges)
      ensures store.ranges == old(store.ranges)[id.value := Retitled(old(Row()))]
      ensures store.log == old(store.log) + [RangeSaved(id.value)]
      ensures old(store.TitlesDerived()) ==> store.TitlesDerived()
    {
      PreSave();
      var saved;
      saved, result := store.WriteRange(id, Row());
      id := Some(saved);
    }

    /** delete(): removes a loaded range from storage. */
    method Delete(store: EntityStore)
      requires id.Some? && id.value in store.ranges
      modifies store`ranges, store`log
      ensures store.ranges == old(store.ranges) - {id.value}
      ensures store.log == old(store.log) + [RangeDeleted(id.value)]
    {
      store.DeleteRange(id.value);
    }
  }

  /** storage->load(id): a fresh entity object for a stored range, or null. */
  method Load(store: EntityStore, id: RangeId) returns (e: IpRange?)
    ensures (e == null) == (id !in store.ranges)
    ensures e != null ==> fresh(e) && e.id == Some(id) && e.Row() == store.ranges[id]
  {
    if id in store.ranges {
      e := new IpRange.FromRow(id, store.ranges[id]);
    } else {
      e := null;
    }
  }
}

/** The `load($id)?->delete()` loops the confirm and delete forms run over a list of range ids. */
module RangeDeletion {
  import opened Storage
  import IpRangeEntity

  /** The ids of a reference list, as a set. */
  function Ids(ids: seq<RangeId>): set<RangeId> {
    set id | id in ids
  }

  /**
   * Loads each listed range and deletes it when it loads; ids that no longer
   * load (never stored, or deleted by an earlier iteration) are skipped.
   */
  method DeleteLoaded(store: EntityStore, ids: seq<RangeId>)
    requires store.Valid()
    modifies store`ranges, store`log
    ensures store.Valid()
    ensures store.ranges == old(store.ranges) - Ids(ids)
    ensures store.log == old(store.log) + Deletions(ids, old(store.ranges).Keys)
  {
    ghost var m0, log0 := store.ranges, store.log;
    for i := 0 to |ids|
      invariant store.Valid()
      invariant store.ranges == m0 - Ids(ids[..i])
      invariant store.log == log0 + Deletions(ids[..i], m0.Keys)
    {
      assert ids[..i + 1][..i] == ids[..i] && ids[..i + 1][i] == ids[i];
      assert Ids(ids[..i + 1]) == Ids(ids[..i]) + {ids[i]};
      var range := IpRangeEntity.Load(store, ids[i]);
      if range != null {
        range.Delete(store);
      }
    }
    assert ids[..|ids|] == ids;
  }
}
