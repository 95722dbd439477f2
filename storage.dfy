/**
 * The entity storage the module runs against: the persisted IP ranges and IP
 * changes, the IP registrar configuration entities, the organization labels,
 * and a log of the side effects the core causes (mail sent, entities saved or
 * deleted, export run), so that their order can be stated.
 */
module Storage {
  import opened Wrappers
  import opened IpAddress
  import opened MailText
  import opened PhpArrays

  type RangeId = nat
  type ChangeId = nat
  type RegistrarId = nat
  type OrgId = nat
  type UserId = nat

  /** A stored ip_range entity (timestamps are not modelled). */
  datatype RangeRow = RangeRow(
    organization: OrgId,
    start: Address,
    end: Address,
    title: string,
    registrars: seq<RegistrarId>,
    status: bool,
    uid: UserId)

  /** A stored ip_change entity (the unused verify_ip field and timestamps are not modelled). */
  datatype ChangeRow = ChangeRow(
    organization: OrgId,
    addIp: seq<RangeId>,
    addNewIp: seq<RangeId>,
    deleteIp: seq<RangeId>,
    registrars: seq<RegistrarId>,
    disableNotification: bool,
    comment: string,
    contactGiven: string,
    contactFamily: string,
    contactEmail: string,
    contactPhone: string,
    title: string,
    status: bool,
    uid: UserId)

  /** An ip_registrar configuration entity (a vendor). */
  datatype Registrar = Registrar(name: string, email: string, enabled: bool)

  /** A side effect on the world outside the request. */
  datatype Event =
    | MailSent(key: MailKey, to: string, bcc: string, message: string)
    | RangeSaved(range: RangeId)
    | RangeDeleted(range: RangeId)
    | ChangeSaved(change: ChangeId)
    | ChangeDeleted(change: ChangeId)
    | Exported(change: ChangeId)

  /** The SAVED_NEW / SAVED_UPDATED result of an entity save. */
  datatype SaveResult = SavedNew | SavedUpdated

  /** What preSave does to a range before it is written. */
  function Retitled(r: RangeRow): RangeRow {
    r.(title := RangeTitle(r.start, r.end))
  }

  /** Every range in the map carries the title derived from its endpoints. */
  ghost predicate TitlesFromEndpoints(m: map<RangeId, RangeRow>) {
    forall id :: id in m ==> m[id].title == RangeTitle(m[id].start, m[id].end)
  }

  /**
   * The label of an organization. The empty text for one that does not load
   * only keeps the function total: the operations that read a label require
   * it to load (EmailBody.LabelsLoad), since the source fails there.
   */
  function OrgLabel(organizations: map<OrgId, string>, org: OrgId): string {
    if org in organizations then organizations[org] else ""
  }

  /**
   * referencedEntities(): the referenced ids that still load, in reference
   * order, repeated ids kept.
   */
  function Referenced<K(==,!new)>(ids: seq<K>, stored: set<K>): (r: seq<K>)
    ensures |r| <= |ids|
    ensures forall id :: id in r <==> id in ids && id in stored
  {
    if ids == [] then []
    else (if ids[0] in stored then [ids[0]] else []) + Referenced(ids[1..], stored)
  }

  /** A single reference yields that entity exactly when it loads. */
  lemma ReferencedOne<K(!new)>(id: K, stored: set<K>)
    ensures Referenced([id], stored) == if id in stored then [id] else []
  {
    assert [id][1..] == [];
  }

  /** referencedEntities() keeps reference order: the entities of a list before those of the next. */
  lemma {:induction false} ReferencedAppend<K(!new)>(a: seq<K>, b: seq<K>, stored: set<K>)
    ensures Referenced(a + b, stored) == Referenced(a, stored) + Referenced(b, stored)
  {
    if a == [] {
      assert a + b == b;
    } else {
      assert (a + b)[1..] == a[1..] + b;
      ReferencedAppend(a[1..], b, stored);
    }
  }

  /** The entities of the first k references are a prefix of those of all references. */
  lemma ReferencedPrefix<K(!new)>(ids: seq<K>, stored: set<K>, k: nat)
    requires k <= |ids|
    ensures Referenced(ids[..k], stored) <= Referenced(ids, stored)
  {
    assert ids == ids[..k] + ids[k..];
    ReferencedAppend(ids[..k], ids[k..], stored);
  }

  /** When every referenced entity loads, referencedEntities() is the reference list itself. */
  lemma {:induction false} ReferencedAllStored<K(!new)>(ids: seq<K>, stored: set<K>)
    requires forall id :: id in ids ==> id in stored
    ensures Referenced(ids, stored) == ids
  {
    if ids != [] {
      ReferencedAllStored(ids[1..], stored);
      assert [ids[0]] + ids[1..] == ids;
    }
  }

  /** label() of each listed registrar, in order. */
  function Labels(ids: seq<RegistrarId>, registrars: map<RegistrarId, Registrar>): (r: seq<string>)
    requires forall id :: id in ids ==> id in registrars
    ensures |r| == |ids|
    ensures forall i :: 0 <= i < |ids| ==> r[i] == registrars[ids[i]].name
  {
    if ids == [] then [] else Labels(ids[..|ids| - 1], registrars) + [registrars[ids[|ids| - 1]].name]
  }

  /** The labels of a prefix are the prefix of the labels. */
  lemma LabelsPrefix(ids: seq<RegistrarId>, registrars: map<RegistrarId, Registrar>, j: nat)
    requires j <= |ids| && forall id :: id in ids ==> id in registrars
    ensures Labels(ids[..j], registrars) == Labels(ids, registrars)[..j]
  {
  }

  /** One RangeSaved event per id, in order. */
  function Saves(ids: seq<RangeId>): (r: seq<Event>)
    ensures |r| == |ids|
    ensures forall i :: 0 <= i < |ids| ==> r[i] == RangeSaved(ids[i])
  {
    if ids == [] then [] else [RangeSaved(ids[0])] + Saves(ids[1..])
  }

  lemma {:induction false} SavesAppend(a: seq<RangeId>, b: seq<RangeId>)
    ensures Saves(a + b) == Saves(a) + Saves(b)
  {
    if a == [] {
      assert a + b == b;
    } else {
      assert (a + b)[1..] == a[1..] + b;
      SavesAppend(a[1..], b);
    }
  }

  /** The saves of one id more. */
  lemma SavesSnoc(log: seq<Event>, ids: seq<RangeId>, i: nat)
    requires i < |ids|
    ensures log + Saves(ids[..i + 1]) == log + Saves(ids[..i]) + [RangeSaved(ids[i])]
  {
    assert ids[..i + 1] == ids[..i] + [ids[i]];
    SavesAppend(ids[..i], [ids[i]]);
    assert log + (Saves(ids[..i]) + [RangeSaved(ids[i])]) == log + Saves(ids[..i]) + [RangeSaved(ids[i])];
  }

  /**
   * The deletions of a loop that loads each id and deletes it when it loads:
   * an id loads if it was stored and no earlier iteration deleted it.
   */
  function Deletions(ids: seq<RangeId>, stored: set<RangeId>): seq<Event> {
    if ids == [] then []
    else
      var init, last := ids[..|ids| - 1], ids[|ids| - 1];
      Deletions(init, stored) + (if last in stored && last !in init then [RangeDeleted(last)] else [])
  }

  /** The deletion loop deletes exactly the stored ids it is given, each once. */
  lemma {:induction false} DeletionsOnce(ids: seq<RangeId>, stored: set<RangeId>)
    ensures forall e :: e in Deletions(ids, stored) ==> e.RangeDeleted? && e.range in ids && e.range in stored
    ensures forall id :: id in ids && id in stored ==> RangeDeleted(id) in Deletions(ids, stored)
    ensures NoDuplicates(Deletions(ids, stored))
  {
    if ids != [] {
      var init, last := ids[..|ids| - 1], ids[|ids| - 1];
      DeletionsOnce(init, stored);
      var d := Deletions(init, stored);
      var tail := if last in stored && last !in init then [RangeDeleted(last)] else [];
      assert Deletions(ids, stored) == d + tail;
      forall id | id in ids && id in stored
        ensures RangeDeleted(id) in d + tail
      {
        if id != last {
          assert id in init by {
            var k :| 0 <= k < |ids| && ids[k] == id;
            assert k < |ids| - 1 && init[k] == id;
          }
        }
      }
      assert ids == init + [last];
      forall i, j | 0 <= i < j < |d + tail| ensures (d + tail)[i] != (d + tail)[j] {
        if j >= |d| {
          assert (d + tail)[i] in d;
        }
      }
    }
  }

  class EntityStore {
    var ranges: map<RangeId, RangeRow>
    var changes: map<ChangeId, ChangeRow>
    const registrars: map<RegistrarId, Registrar>
    const organizations: map<OrgId, string>
    var nextRangeId: nat
    var nextChangeId: nat
    var log: seq<Event>

    /** Fresh ids are past every stored id. */
    ghost predicate Valid()
      reads this`ranges, this`nextRangeId, this`changes, this`nextChangeId
    {
      && (forall id :: id in ranges ==> id < nextRangeId)
      && (forall id :: id in changes ==> id < nextChangeId)
    }

    /** Every stored range carries the title derived from its endpoints. */
    ghost predicate TitlesDerived()
      reads this
    {
      TitlesFromEndpoints(ranges)
    }

    constructor (ranges: map<RangeId, RangeRow>, changes: map<ChangeId, ChangeRow>,
                 registrars: map<RegistrarId, Registrar>, organizations: map<OrgId, string>,
                 nextRangeId: nat, nextChangeId: nat)
      requires forall id :: id in ranges ==> id < nextRangeId
      requires forall id :: id in changes ==> id < nextChangeId
      ensures Valid()
      ensures this.ranges == ranges && this.changes == changes
      ensures this.registrars == registrars && this.organizations == organizations
      ensures this.nextRangeId == nextRangeId && this.nextChangeId == nextChangeId
      ensures log == []
    {
      this.ranges := ranges;
      this.changes := changes;
      this.registrars := registrars;
      this.organizations := organizations;
      this.nextRangeId := nextRangeId;
      this.nextChangeId := nextChangeId;
      log := [];
    }

    /** Writes a range row: a new entity gets the next id (SAVED_NEW), a loaded one is updated. */
    method WriteRange(id: Option<RangeId>, row: RangeRow) returns (saved: RangeId, result: SaveResult)
      requires Valid()
      modifies this`ranges, this`nextRangeId, this`log
      ensures Valid()
      ensures result == (if id.None? then SavedNew else SavedUpdated)
      ensures id.Some? ==> saved == id.value && nextRangeId >= old(nextRangeId)
      ensures id.None? ==> saved == old(nextRangeId) && saved !in old(ranges) && nextRangeId == saved + 1
      ensures ranges == old(ranges)[saved := row]
      ensures log == old(log) + [RangeSaved(saved)]
    {
      if id.None? {
        saved, result := nextRangeId, SavedNew;
        nextRangeId := nextRangeId + 1;
      } else {
        saved, result := id.value, SavedUpdated;
        if saved >= nextRangeId {
          nextRangeId := saved + 1;
        }
      }
      ranges := ranges[saved := row];
      log := log + [RangeSaved(saved)];
    }

    /** Deletes a range that was loaded. */
    method DeleteRange(id: RangeId)
      requires id in ranges
      modifies this`ranges, this`log
      ensures ranges == old(ranges) - {id}
      ensures log == old(log) + [RangeDeleted(id)]
    {
      ranges := ranges - {id};
      log := log + [RangeDeleted(id)];
    }

    /** Writes a change row: a new entity gets the next id (SAVED_NEW), a loaded one is updated. */
    method WriteChange(id: Option<ChangeId>, row: ChangeRow) returns (saved: ChangeId, result: SaveResult)
      requires Valid()
      modifies this`changes, this`nextChangeId, this`log
      ensures Valid()
      ensures result == (if id.None? then SavedNew else SavedUpdated)
      ensures id.Some? ==> saved == id.value
      ensures id.None? ==> saved == old(nextChangeId) && saved !in old(changes)
      ensures changes == old(changes)[saved := row]
      ensures log == old(log) + [ChangeSaved(saved)]
    {
      if id.None? {
        saved, result := nextChangeId, SavedNew;
        nextChangeId := nextChangeId + 1;
      } else {
        saved, result := id.value, SavedUpdated;
        if saved >= nextChangeId {
          nextChangeId := saved + 1;
        }
      }
      changes := changes[saved := row];
      log := log + [ChangeSaved(saved)];
    }

    /** Deletes a change. */
    method DeleteChange(id: ChangeId)
      modifies this`changes, this`log
      ensures changes == old(changes) - {id}
      ensures log == old(log) + [ChangeDeleted(id)]
    {
      changes := changes - {id};
      log := log + [ChangeDeleted(id)];
    }

    /** Hands a message to the mail transport. */
    method SendMail(key: MailKey, to: string, bcc: string, message: string)
      modifies this`log
      ensures log == old(log) + [MailSent(key, to, bcc, message)]
    {
      log := log + [MailSent(key, to, bcc, message)];
    }

    /** Runs the EzProxy export for a change. */
    method Export(id: ChangeId)
      modifies this`log
      ensures log == old(log) + [Exported(id)]
    {
      log := log + [Exported(id)];
    }

    /**
     * loadByProperties(['organization' => org]): the ids of the organization's
     * ranges, each once, in an order the storage chooses.
     */
    method LoadByOrganization(org: OrgId) returns (ids: seq<RangeId>)
      ensures forall id :: id in ids <==> id in ranges && ranges[id].organization == org
      ensures forall i, j :: 0 <= i < j < |ids| ==> ids[i] != ids[j]
    {
      ids := [];
      var rest := ranges.Keys;
      while rest != {}
        invariant rest <= ranges.Keys
        invariant forall id :: id in ids <==> id in ranges.Keys - rest && ranges[id].organization == org
        invariant forall i, j :: 0 <= i < j < |ids| ==> ids[i] != ids[j]
        decreases rest
      {
        var k :| k in rest;
        if ranges[k].organization == org {
          ids := ids + [k];
        }
        rest := rest - {k};
      }
    }
  }
}
