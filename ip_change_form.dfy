/**
 * IpChangeForm: the add/edit form of an IP change. buildForm offers the
 * enabled registrars and a table with an action per organization range;
 * save groups the chosen actions, saves the ranges created inline and
 * writes the add_ip / delete_ip lists.
 */
module IpChangeForm {
  import opened Wrappers
  import opened IpAddress
  import opened PhpArrays
  import opened Storage
  import opened Routes
  import opened IpRangeEntity
  import opened IpChangeEntity

  /** The options of a row's action select ('add' is labelled "Notify Vendor"). */
  datatype Action = Add | Remove

  /** A table row: the range, its preselected action and its label. */
  datatype TableRow = TableRow(range: RangeId, default: Option<Action>, rangeLabel: string)

  /** A range of the inline entity form: its id when it was saved before, and its fields. */
  datatype InlineRange = InlineRange(id: Option<RangeId>, row: RangeRow)

  /** The parts of the built form the module decides. */
  datatype ChangeFormView = ChangeFormView(
    registrarOptions: map<RegistrarId, string>,
    showDisableNotification: bool,
    registrarsRequired: bool,
    table: Option<seq<TableRow>>,
    hidesDelete: bool,
    cancel: Route)

  // ---------------------------------------------------------------------------
  // buildForm

  /** The registrar checkboxes: every enabled registrar, by id, with its label. */
  function EnabledOptions(registrars: map<RegistrarId, Registrar>): (options: map<RegistrarId, string>)
    ensures forall id :: id in options <==> id in registrars && registrars[id].enabled
    ensures forall id :: id in options ==> options[id] == registrars[id].name
  {
    map id | id in registrars && registrars[id].enabled :: registrars[id].name
  }

  /** The preselected action: 'remove' is assigned after 'add', so it wins. */
  function DefaultAction(id: RangeId, addIp: seq<RangeId>, deleteIp: seq<RangeId>): (a: Option<Action>)
    ensures a == Some(Remove) <==> id in deleteIp
    ensures a == Some(Add) <==> id in addIp && id !in deleteIp
    ensures a == None <==> id !in addIp && id !in deleteIp
  {
    if id in deleteIp then Some(Remove) else if id in addIp then Some(Add) else None
  }

  /** The rows of the action table: the listed ranges that are not new in this change, in order. */
  function Rows(ids: seq<RangeId>, ranges: map<RangeId, RangeRow>, c: ChangeRow): (rows: seq<TableRow>)
    requires forall id :: id in ids ==> id in ranges
    ensures forall row :: row in rows ==>
      (row.range in ids && row.range !in c.addNewIp
      && row.default == DefaultAction(row.range, c.addIp, c.deleteIp) && row.rangeLabel == ranges[row.range].title)
  {
    if ids == [] then []
    else
      var init, last := ids[..|ids| - 1], ids[|ids| - 1];
      Rows(init, ranges, c)
      + (if last in c.addNewIp then [] else [TableRow(last, DefaultAction(last, c.addIp, c.deleteIp), ranges[last].title)])
  }

  /** Every listed range that is not new in this change has a row. */
  lemma {:induction false} RowsComplete(ids: seq<RangeId>, ranges: map<RangeId, RangeRow>, c: ChangeRow, id: RangeId)
    requires forall id :: id in ids ==> id in ranges
    requires id in ids && id !in c.addNewIp
    ensures exists row :: row in Rows(ids, ranges, c) && row.range == id
  {
    var init, last := ids[..|ids| - 1], ids[|ids| - 1];
    if id != last {
      assert id in init by {
        var k :| 0 <= k < |ids| && ids[k] == id;
        assert init[k] == id;
      }
      RowsComplete(init, ranges, c, id);
      var row :| row in Rows(init, ranges, c) && row.range == id;
      assert row in Rows(ids, ranges, c);
    } else {
      assert TableRow(last, DefaultAction(last, c.addIp, c.deleteIp), ranges[last].title) in Rows(ids, ranges, c);
    }
  }

  /** The form buildForm returns, as a function of the change and the store. */
  function View(c: ChangeRow, id: Option<ChangeId>, ids: seq<RangeId>, ranges: map<RangeId, RangeRow>,
                registrars: map<RegistrarId, Registrar>, isAdministrator: bool, onEditRoute: bool): ChangeFormView
    requires forall id :: id in ids ==> id in ranges
    requires onEditRoute ==> id.Some?
  {
    var rows := Rows(ids, ranges, c);
    ChangeFormView(
      EnabledOptions(registrars),
      isAdministrator,
      !isAdministrator,
      if ids != [] then Some(rows) else None,
      rows != [],
      if onEditRoute then ChangeDeleteForm(id.value) else IpManager(c.organization))
  }

  /** The loadMultiple() loop that keeps the enabled registrars. */
  method CollectEnabled(registrars: map<RegistrarId, Registrar>) returns (options: map<RegistrarId, string>)
    ensures options == EnabledOptions(registrars)
  {
    options := map[];
    var rest := registrars.Keys;
    while rest != {}
      invariant rest <= registrars.Keys
      invariant options == map id | id in registrars.Keys - rest && registrars[id].enabled :: registrars[id].name
      decreases rest
    {
      var id :| id in rest;
      if registrars[id].enabled {
        options := options[id := registrars[id].name];
      }
      rest := rest - {id};
    }
  }

  /** The loop over the organization's ranges that fills the action table. */
  method BuildRows(ids: seq<RangeId>, ranges: map<RangeId, RangeRow>, c: ChangeRow) returns (rows: seq<TableRow>)
    requires forall id :: id in ids ==> id in ranges
    ensures rows == Rows(ids, ranges, c)
  {
    rows := [];
    for i := 0 to |ids|
      invariant rows == Rows(ids[..i], ranges, c)
    {
      assert ids[..i + 1][..i] == ids[..i];
      var id := ids[i];
      if id in c.addNewIp {
        continue;
      }
      rows := rows + [TableRow(id, DefaultAction(id, c.addIp, c.deleteIp), ranges[id].title)];
    }
    assert ids[..|ids|] == ids;
  }

  /**
   * buildForm(): registrar options, the administrator-only
   * disable_notification checkbox, the action table (only when the
   * organization has ranges; its first row removes the delete button) and
   * the cancel link (the delete form on the edit route, else the IP manager).
   * The ranges are looked up by the id of the change's organization entity,
   * so that organization must load (the source fails with a PHP error
   * otherwise).
   */
  method BuildForm(entity: IpChange, store: EntityStore, roles: seq<string>, onEditRoute: bool)
    returns (ids: seq<RangeId>, view: ChangeFormView)
    requires onEditRoute ==> entity.id.Some?
    requires entity.organization in store.organizations
    ensures forall id :: id in ids <==> id in store.ranges && store.ranges[id].organization == entity.organization
    ensures view == View(entity.Row(), entity.id, ids, store.ranges, store.registrars, "administrator" in roles, onEditRoute)
  {
    var options := CollectEnabled(store.registrars);
    var isAdministrator := "administrator" in roles;
    ids := store.LoadByOrganization(entity.organization);
    var table: Option<seq<TableRow>> := None;
    var hidesDelete := false;
    if ids != [] {
      var rows := BuildRows(ids, store.ranges, entity.Row());
      table := Some(rows);
      hidesDelete := rows != [];
    }
    var cancel := if onEditRoute then ChangeDeleteForm(entity.id.value) else IpManager(entity.organization);
    view := ChangeFormView(options, isAdministrator, !isAdministrator, table, hidesDelete, cancel);
  }

  // ---------------------------------------------------------------------------
  // save

  /** The table ids whose action is `a`, in table order. */
  function Selected(table: seq<(RangeId, Option<Action>)>, a: Action): (ids: seq<RangeId>)
    ensures forall id :: id in ids <==> exists k :: 0 <= k < |table| && table[k] == (id, Some(a))
  {
    if table == [] then []
    else
      var init, last := table[..|table| - 1], table[|table| - 1];
      var r := Selected(init, a) + (if last.1 == Some(a) then [last.0] else []);
      assert forall k :: 0 <= k < |init| ==> init[k] == table[k];
      r
  }

  /** A range keyed once in the table lands in at most one group. */
  lemma GroupsDisjoint(table: seq<(RangeId, Option<Action>)>, id: RangeId)
    requires forall i, j :: 0 <= i < j < |table| ==> table[i].0 != table[j].0
    ensures !(id in Selected(table, Add) && id in Selected(table, Remove))
  {
  }

  /** The `$ip_change_list[$action][] = $id` loop over the non-empty actions. */
  method GroupActions(table: seq<(RangeId, Option<Action>)>) returns (adds: seq<RangeId>, removes: seq<RangeId>)
    ensures adds == Selected(table, Add) && removes == Selected(table, Remove)
  {
    adds, removes := [], [];
    for i := 0 to |table|
      invariant adds == Selected(table[..i], Add) && removes == Selected(table[..i], Remove)
    {
      assert table[..i + 1][..i] == table[..i];
      var (id, action) := table[i];
      if action == Some(Add) {
        adds := adds + [id];
      } else if action == Some(Remove) {
        removes := removes + [id];
      }
    }
    assert table[..|table|] == table;
  }

  /** The stored ranges after saving `rows` under `ids`, in order (a later save of an id wins). */
  function Upserts(m: map<RangeId, RangeRow>, ids: seq<RangeId>, rows: seq<RangeRow>): map<RangeId, RangeRow>
    requires |ids| == |rows|
  {
    if ids == [] then m
    else
      var n := |ids| - 1;
      Upserts(m, ids[..n], rows[..n])[ids[n] := rows[n]]
  }

  /** The inline saves add exactly the saved ids to the stored ones. */
  lemma {:induction false} UpsertsKeys(m: map<RangeId, RangeRow>, ids: seq<RangeId>, rows: seq<RangeRow>)
    requires |ids| == |rows|
    ensures Upserts(m, ids, rows).Keys == m.Keys + (set id | id in ids)
  {
    if ids != [] {
      var n := |ids| - 1;
      UpsertsKeys(m, ids[..n], rows[..n]);
      assert forall id :: id in ids <==> id in ids[..n] || id == ids[n];
    }
  }

  /** A range the inline saves did not touch keeps its row. */
  lemma {:induction false} UpsertsOutside(m: map<RangeId, RangeRow>, ids: seq<RangeId>, rows: seq<RangeRow>, id: RangeId)
    requires |ids| == |rows| && id in m && id !in ids
    ensures id in Upserts(m, ids, rows) && Upserts(m, ids, rows)[id] == m[id]
  {
    UpsertsKeys(m, ids, rows);
    if ids != [] {
      var n := |ids| - 1;
      assert id !in ids[..n];
      UpsertsOutside(m, ids[..n], rows[..n], id);
    }
  }

  /** A range saved once by the inline saves holds the row it was saved with. */
  lemma {:induction false} UpsertsAt(m: map<RangeId, RangeRow>, ids: seq<RangeId>, rows: seq<RangeRow>, k: nat)
    requires |ids| == |rows| && k < |ids|
    requires forall j :: 0 <= j < |ids| && j != k ==> ids[j] != ids[k]
    ensures ids[k] in Upserts(m, ids, rows) && Upserts(m, ids, rows)[ids[k]] == rows[k]
  {
    UpsertsKeys(m, ids, rows);
    var n := |ids| - 1;
    if k < n {
      UpsertsAt(m, ids[..n], rows[..n], k);
    }
  }

  /** The row an inline range is saved with: the change's organization, and the title preSave derives. */
  function InlineRow(r: RangeRow, organization: OrgId): RangeRow {
    Retitled(r.(organization := organization))
  }

  /** The rows of the inline ranges as they are saved, in order. */
  function InlineRows(inline: seq<InlineRange>, organization: OrgId): (r: seq<RangeRow>)
    ensures |r| == |inline|
  {
    if inline == [] then [] else
      var n := |inline| - 1;
      InlineRows(inline[..n], organization) + [InlineRow(inline[n].row, organization)]
  }

  /** The k-th inline range is saved with its own fields, the change's organization and the derived title. */
  lemma {:induction false} InlineRowsAt(inline: seq<InlineRange>, organization: OrgId, k: nat)
    requires k < |inline|
    ensures InlineRows(inline, organization)[k] == InlineRow(inline[k].row, organization)
  {
    var n := |inline| - 1;
    if k < n {
      InlineRowsAt(inline[..n], organization, k);
    }
  }

  /** The entity object the inline widget holds for an inline range. */
  method Materialize(v: InlineRange) returns (range: IpRange)
    ensures fresh(range) && range.id == v.id && range.Row() == v.row
  {
    if v.id.Some? {
      range := new IpRange.FromRow(v.id.value, v.row);
    } else {
      range := new IpRange(v.row.organization, v.row.start, v.row.end, v.row.uid);
      range.title, range.registrars, range.status := v.row.title, v.row.registrars, v.row.status;
    }
  }

  /** One inline range: set its organization, set its title from its endpoints, save it. */
  method SaveInlineRange(store: EntityStore, organization: OrgId, range: IpRange) returns (id: RangeId)
    requires store.Valid()
    modifies range, store`ranges, store`nextRangeId, store`log
    ensures store.Valid()
    ensures range.id == Some(id) && range.Row() == InlineRow(old(range.Row()), organization)
    ensures old(range.id).Some? ==> id == old(range.id).value
    ensures old(range.id).None? ==> id !in old(store.ranges)
    ensures store.ranges == old(store.ranges)[id := range.Row()]
    ensures store.log == old(store.log) + [RangeSaved(id)]
  {
    range.organization := organization;
    range.SetTitle(RangeTitle(range.ipStart, range.ipEnd));
    var _ := range.Save(store);
    id := range.id.value;
  }

  /** Each saved id is the inline range's own id, or one the store did not hold for a new range. */
  ghost predicate IdsIssued(inline: seq<InlineRange>, ids: seq<RangeId>, m: map<RangeId, RangeRow>)
    requires |inline| == |ids|
  {
    forall k :: 0 <= k < |ids| ==> if inline[k].id.Some? then ids[k] == inline[k].id.value else ids[k] !in m
  }

  lemma IdsIssuedSnoc(inline: seq<InlineRange>, i: nat, ids: seq<RangeId>, id: RangeId, m: map<RangeId, RangeRow>)
    requires i < |inline| && |ids| == i && IdsIssued(inline[..i], ids, m)
    requires if inline[i].id.Some? then id == inline[i].id.value else id !in m
    ensures IdsIssued(inline[..i + 1], ids + [id], m)
  {
    forall k | 0 <= k < i + 1
      ensures var v := inline[..i + 1][k]; if v.id.Some? then (ids + [id])[k] == v.id.value else (ids + [id])[k] !in m
    {
      if k < i {
        assert inline[..i + 1][k] == inline[..i][k];
      }
    }
  }

  /** One more inline save, in the terms of the loop's invariant. */
  lemma InlineSaveSnoc(m: map<RangeId, RangeRow>, inline: seq<InlineRange>, organization: OrgId, i: nat,
                       ids: seq<RangeId>, id: RangeId, log: seq<Event>)
    requires i < |inline| && |ids| == i
    ensures Upserts(m, ids + [id], InlineRows(inline[..i + 1], organization))
         == Upserts(m, ids, InlineRows(inline[..i], organization))[id := InlineRow(inline[i].row, organization)]
    ensures log + Saves(ids) + [RangeSaved(id)] == log + Saves(ids + [id])
  {
    assert inline[..i + 1][..i] == inline[..i];
    var rows := InlineRows(inline[..i + 1], organization);
    assert (ids + [id])[..i] == ids && rows[..i] == InlineRows(inline[..i], organization);
    SavesAppend(ids, [id]);
  }

  /**
   * The loop over the inline-entity-form ranges: each is given the change's
   * organization and its title, and saved; their ids follow in order.
   */
  method SaveInlineRanges(store: EntityStore, organization: OrgId, inline: seq<InlineRange>) returns (ids: seq<RangeId>)
    requires store.Valid()
    modifies store`ranges, store`nextRangeId, store`log
    ensures store.Valid()
    ensures |ids| == |inline|
    ensures forall k :: 0 <= k < |inline| && inline[k].id.Some? ==> ids[k] == inline[k].id.value
    ensures forall k :: 0 <= k < |inline| && inline[k].id.None? ==> ids[k] !in old(store.ranges)
    ensures store.ranges == Upserts(old(store.ranges), ids, InlineRows(inline, organization))
    ensures store.log == old(store.log) + Saves(ids)
  {
    ghost var m0, log0 := store.ranges, store.log;
    ids := [];
    for i := 0 to |inline|
      invariant store.Valid()
      invariant |ids| == i
      invariant m0.Keys <= store.ranges.Keys
      invariant IdsIssued(inline[..i], ids, m0)
      invariant store.ranges == Upserts(m0, ids, InlineRows(inline[..i], organization))
      invariant store.log == log0 + Saves(ids)
    {
      var range := Materialize(inline[i]);
      var id := SaveInlineRange(store, organization, range);
      InlineSaveSnoc(m0, inline, organization, i, ids, id, log0);
      IdsIssuedSnoc(inline, i, ids, id, m0);
      ids := ids + [id];
    }
    assert inline[..|inline|] == inline;
    assert IdsIssued(inline, ids, m0);
  }

  /** The add_ip list save() leaves: the selected ids then the inline ones, or the old list when that is empty. */
  function NewAddIp(old_: seq<RangeId>, selected: seq<RangeId>, inline: seq<RangeId>): (r: seq<RangeId>)
    ensures selected + inline != [] ==> r == selected + inline
    ensures selected + inline == [] ==> r == old_
  {
    if selected + inline != [] then selected + inline else old_
  }

  /**
   * save(): groups the table's non-empty actions, saves the inline ranges
   * and appends them to the add group, overwrites add_ip / delete_ip only
   * with a non-empty group, asks for a rebuild when both groups are empty,
   * saves the change whatever happened and redirects to the confirm form.
   * Each inline range takes the id of the change's organization entity, so
   * with inline ranges that organization must load (the source fails with a
   * PHP error otherwise).
   */
  method Save(entity: IpChange, store: EntityStore, table: seq<(RangeId, Option<Action>)>, inline: seq<InlineRange>)
    returns (inlineIds: seq<RangeId>, rebuild: bool, redirect: Route)
    requires store.Valid()
    requires inline != [] ==> entity.organization in store.organizations
    modifies entity`addIp, entity`deleteIp, entity`id
    modifies store`ranges, store`nextRangeId, store`changes, store`nextChangeId, store`log
    ensures store.Valid()
    ensures |inlineIds| == |inline|
    ensures forall k :: 0 <= k < |inline| && inline[k].id.Some? ==> inlineIds[k] == inline[k].id.value
    ensures forall k :: 0 <= k < |inline| && inline[k].id.None? ==> inlineIds[k] !in old(store.ranges)
    ensures store.ranges == Upserts(old(store.ranges), inlineIds, InlineRows(inline, old(entity.organization)))
    ensures entity.addIp == NewAddIp(old(entity.addIp), Selected(table, Add), inlineIds)
    ensures entity.deleteIp == (if Selected(table, Remove) != [] then Selected(table, Remove) else old(entity.deleteIp))
    ensures rebuild <==> Selected(table, Add) + inlineIds == [] && Selected(table, Remove) == []
    ensures entity.id.Some? && (old(entity.id).Some? ==> entity.id == old(entity.id))
    ensures store.changes == old(store.changes)[entity.id.value := entity.Row()]
    ensures store.log == old(store.log) + Saves(inlineIds) + [ChangeSaved(entity.id.value)]
    ensures redirect == ChangeConfirm(entity.id.value)
  {
    var adds, removes := GroupActions(table);
    inlineIds := SaveInlineRanges(store, entity.organization, inline);
    adds := adds + inlineIds;
    if adds != [] {
      entity.addIp := adds;
    }
    if removes != [] {
      entity.deleteIp := removes;
    }
    rebuild := adds == [] && removes == [];
    var _ := entity.Save(store);
    redirect := ChangeConfirm(entity.id.value);
  }
}
