/**
 * IpManagerController::build(): the table of an organization's IP ranges,
 * one row per range with its endpoints, a status badge and the vendors
 * notified.
 */
module IpManagerController {
  import opened IpAddress
  import opened PhpArrays
  import opened Storage
  import IpRangeEntity

  datatype Status = Registered | Disabled

  /** The vendors_notified cell: the de-duplicated labels, or the plain text N/A. */
  datatype Vendors = Vendors(labels: seq<string>) | NotApplicable

  /** One table row; the modified-on and modified-by columns are not modelled. */
  datatype ManagerRow = ManagerRow(start: string, end: string, status: Status, vendors: Vendors)

  /** The registrars of a range that still load (referencedEntities()). */
  function Loaded(r: RangeRow, registrars: map<RegistrarId, Registrar>): seq<RegistrarId> {
    Referenced(r.registrars, registrars.Keys)
  }

  /** The vendors cell of a range: N/A when none of its registrars loads. */
  function VendorsCell(r: RangeRow, registrars: map<RegistrarId, Registrar>): (v: Vendors)
    ensures v == NotApplicable <==> Loaded(r, registrars) == []
    ensures v.Vendors? ==> NoDuplicates(v.labels)
    ensures v.Vendors? ==> forall l :: l in v.labels <==>
      exists id :: id in r.registrars && id in registrars && registrars[id].name == l
  {
    var loaded := Loaded(r, registrars);
    if loaded == [] then NotApplicable
    else
      var labels := Labels(loaded, registrars);
      assert forall l :: l in labels <==> exists i :: 0 <= i < |loaded| && registrars[loaded[i]].name == l;
      Vendors(Dedup(labels))
  }

  /**
   * First occurrence in reference order decides the vendors' order: the
   * vendors of the range's first k registrar references come first, in the
   * same order, in the cell of the whole range.
   */
  lemma VendorsCellPrefix(r: RangeRow, registrars: map<RegistrarId, Registrar>, k: nat)
    requires k <= |r.registrars|
    requires VendorsCell(r.(registrars := r.registrars[..k]), registrars).Vendors?
    ensures VendorsCell(r, registrars).Vendors?
    ensures VendorsCell(r.(registrars := r.registrars[..k]), registrars).labels <= VendorsCell(r, registrars).labels
  {
    var lp, lf := Referenced(r.registrars[..k], registrars.Keys), Loaded(r, registrars);
    ReferencedPrefix(r.registrars, registrars.Keys, k);
    assert lf[..|lp|] == lp;
    LabelsPrefix(lf, registrars, |lp|);
    DedupPrefix(Labels(lf, registrars), |lp|);
  }

  /**
   * When every registrar of a range loads and their labels differ, the cell
   * lists every label, in the range's reference order.
   */
  lemma VendorsCellAllLoad(r: RangeRow, registrars: map<RegistrarId, Registrar>)
    requires r.registrars != [] && forall id :: id in r.registrars ==> id in registrars
    requires NoDuplicates(Labels(r.registrars, registrars))
    ensures VendorsCell(r, registrars) == Vendors(Labels(r.registrars, registrars))
  {
    ReferencedAllStored(r.registrars, registrars.Keys);
    DedupOfDistinct(Labels(r.registrars, registrars));
  }

  /** Whether any of the listed ranges has a registrar that loads. */
  function AnyLoads(ids: seq<RangeId>, ranges: map<RangeId, RangeRow>, registrars: map<RegistrarId, Registrar>): bool
    requires forall id :: id in ids ==> id in ranges
  {
    if ids == [] then false
    else AnyLoads(ids[..|ids| - 1], ranges, registrars) || Loaded(ranges[ids[|ids| - 1]], registrars) != []
  }

  /** A row, given whether the `$registered` accumulator has been set by now. */
  function RowOf(r: RangeRow, registrars: map<RegistrarId, Registrar>, registered: bool): ManagerRow {
    ManagerRow(Format(r.start), Format(r.end), if registered then Registered else Disabled, VendorsCell(r, registrars))
  }

  /**
   * The table build() renders for ranges listed in `ids`: `$registered` is
   * never reset, so a row shows Registered once this range or any earlier
   * one had a registrar.
   */
  function Table(ids: seq<RangeId>, ranges: map<RangeId, RangeRow>, registrars: map<RegistrarId, Registrar>)
    : (rows: seq<ManagerRow>)
    requires forall id :: id in ids ==> id in ranges
    ensures |rows| == |ids|
  {
    if ids == [] then []
    else
      var init := ids[..|ids| - 1];
      Table(init, ranges, registrars) + [RowOf(ranges[ids[|ids| - 1]], registrars, AnyLoads(ids, ranges, registrars))]
  }

  /** AnyLoads is "some range up to here has a loading registrar". */
  lemma {:induction false} AnyLoadsExists(ids: seq<RangeId>, ranges: map<RangeId, RangeRow>,
                                          registrars: map<RegistrarId, Registrar>)
    requires forall id :: id in ids ==> id in ranges
    ensures AnyLoads(ids, ranges, registrars) <==> exists j :: 0 <= j < |ids| && Loaded(ranges[ids[j]], registrars) != []
  {
    if ids != [] {
      var init, last := ids[..|ids| - 1], |ids| - 1;
      AnyLoadsExists(init, ranges, registrars);
      if AnyLoads(init, ranges, registrars) {
        var j :| 0 <= j < |init| && Loaded(ranges[init[j]], registrars) != [];
        assert init[j] == ids[j];
      } else if Loaded(ranges[ids[last]], registrars) == [] {
        forall j | 0 <= j < |ids|
          ensures Loaded(ranges[ids[j]], registrars) == []
        {
          if j < last {
            assert init[j] == ids[j];
          }
        }
      }
    }
  }

  /** Row i of the table is range i's row, with the status of the prefix up to it. */
  lemma {:induction false} TableRows(ids: seq<RangeId>, ranges: map<RangeId, RangeRow>,
                                     registrars: map<RegistrarId, Registrar>, i: nat)
    requires forall id :: id in ids ==> id in ranges
    requires i < |ids|
    ensures Table(ids, ranges, registrars)[i] == RowOf(ranges[ids[i]], registrars, AnyLoads(ids[..i + 1], ranges, registrars))
  {
    if i < |ids| - 1 {
      var init := ids[..|ids| - 1];
      TableRows(init, ranges, registrars, i);
      assert init[..i + 1] == ids[..i + 1];
    } else {
      assert ids[..i + 1] == ids;
    }
  }

  /** The status column: Registered exactly when this range or an earlier one has a registrar that loads. */
  lemma StickyStatus(ids: seq<RangeId>, ranges: map<RangeId, RangeRow>, registrars: map<RegistrarId, Registrar>, i: nat)
    requires forall id :: id in ids ==> id in ranges
    requires i < |ids|
    ensures Table(ids, ranges, registrars)[i].status == Registered
        <==> exists j :: 0 <= j <= i && Loaded(ranges[ids[j]], registrars) != []
  {
    TableRows(ids, ranges, registrars, i);
    AnyLoadsExists(ids[..i + 1], ranges, registrars);
    assert forall j :: 0 <= j <= i ==> ids[..i + 1][j] == ids[j];
  }

  /** Once a row shows Registered, every later row does too. */
  lemma StatusNeverResets(ids: seq<RangeId>, ranges: map<RangeId, RangeRow>, registrars: map<RegistrarId, Registrar>,
                          i: nat, k: nat)
    requires forall id :: id in ids ==> id in ranges
    requires i <= k < |ids|
    requires Table(ids, ranges, registrars)[i].status == Registered
    ensures Table(ids, ranges, registrars)[k].status == Registered
  {
    StickyStatus(ids, ranges, registrars, i);
    StickyStatus(ids, ranges, registrars, k);
  }

  /**
   * The status a row would show if the accumulator were reset for every
   * range: Registered exactly when this range has a registrar that loads.
   */
  function TableCorrected(ids: seq<RangeId>, ranges: map<RangeId, RangeRow>, registrars: map<RegistrarId, Registrar>)
    : (rows: seq<ManagerRow>)
    requires forall id :: id in ids ==> id in ranges
    ensures |rows| == |ids|
    ensures forall i :: 0 <= i < |ids| ==>
      rows[i] == RowOf(ranges[ids[i]], registrars, Loaded(ranges[ids[i]], registrars) != [])
  {
    if ids == [] then []
    else
      var init := ids[..|ids| - 1];
      var last := ids[|ids| - 1];
      TableCorrected(init, ranges, registrars) + [RowOf(ranges[last], registrars, Loaded(ranges[last], registrars) != [])]
  }

  /** With the per-range status, a range shows Registered exactly when it has vendors to show. */
  lemma CorrectedStatusMatchesVendors(ids: seq<RangeId>, ranges: map<RangeId, RangeRow>,
                                      registrars: map<RegistrarId, Registrar>, i: nat)
    requires forall id :: id in ids ==> id in ranges
    requires i < |ids|
    ensures var row := TableCorrected(ids, ranges, registrars)[i];
      row.status == Registered <==> row.vendors.Vendors?
  {
  }

  /**
   * As written, a range without registrars listed after one with a registrar
   * shows "Registered" next to "N/A".
   */
  lemma StickyStatusCounterexample()
    ensures var a := IPv4(10, 0, 0, 1);
      var registrars := map[7 := Registrar("ExampleVendor", "vendor@example.org", true)];
      var ranges := map[1 := RangeRow(5, a, a, "", [7], false, 0), 2 := RangeRow(5, a, a, "", [], false, 0)];
      var rows := Table([1, 2], ranges, registrars);
      rows[1].status == Registered && rows[1].vendors == NotApplicable
      && TableCorrected([1, 2], ranges, registrars)[1].status == Disabled
  {
    var a := IPv4(10, 0, 0, 1);
    var registrars := map[7 := Registrar("ExampleVendor", "vendor@example.org", true)];
    var ranges := map[1 := RangeRow(5, a, a, "", [7], false, 0), 2 := RangeRow(5, a, a, "", [], false, 0)];
    assert Loaded(ranges[1], registrars) == [7];
    assert Loaded(ranges[2], registrars) == [];
    assert [1, 2][..1] == [1];
    assert AnyLoads([1, 2], ranges, registrars);
  }

  /** Adds every loaded registrar to the `$registered` accumulator (keyed by id, valued by label). */
  method RecordRegistered(registered: map<RegistrarId, string>, loaded: seq<RegistrarId>,
                          registrars: map<RegistrarId, Registrar>)
    returns (r: map<RegistrarId, string>)
    requires forall id :: id in loaded ==> id in registrars
    ensures r.Keys == registered.Keys + (set id | id in loaded)
  {
    r := registered;
    for j := 0 to |loaded|
      invariant r.Keys == registered.Keys + (set id | id in loaded[..j])
    {
      assert loaded[..j + 1] == loaded[..j] + [loaded[j]];
      r := r[loaded[j] := registrars[loaded[j]].name];
    }
    assert loaded[..|loaded|] == loaded;
  }

  /**
   * The `in_array` loop that builds vendors_notified: first occurrence of each
   * label, in order. Labels are compared by exact equality, not by PHP's
   * loose comparison of numeric strings.
   */
  method VendorLabels(loaded: seq<RegistrarId>, registrars: map<RegistrarId, Registrar>) returns (v: seq<string>)
    requires forall id :: id in loaded ==> id in registrars
    ensures v == Dedup(Labels(loaded, registrars))
  {
    ghost var labels := Labels(loaded, registrars);
    v := [];
    for j := 0 to |loaded|
      invariant v == Dedup(labels[..j])
    {
      assert labels[..j + 1][..j] == labels[..j];
      var name := registrars[loaded[j]].name;
      if name !in v {
        v := v + [name];
      }
    }
    assert labels[..|loaded|] == labels;
  }

  /** One iteration of build(): the row of a range, and the accumulator after it. */
  method BuildRow(range: IpRangeEntity.IpRange, registrars: map<RegistrarId, Registrar>,
                  registered: map<RegistrarId, string>)
    returns (row: ManagerRow, registered': map<RegistrarId, string>)
    ensures (registered' != map[]) == (registered != map[] || Loaded(range.Row(), registrars) != [])
    ensures row == RowOf(range.Row(), registrars, registered' != map[])
  {
    var loaded := Referenced(range.registrars, registrars.Keys);
    registered' := RecordRegistered(registered, loaded, registrars);
    assert loaded != [] ==> loaded[0] in registered'.Keys;
    var status := if registered' != map[] then Registered else Disabled;
    var vendors;
    if loaded != [] {
      var labels := VendorLabels(loaded, registrars);
      vendors := Vendors(labels);
    } else {
      vendors := NotApplicable;
    }
    row := ManagerRow(Format(range.ipStart), Format(range.ipEnd), status, vendors);
  }

  /**
   * build(): one row per range of the organization, in the order storage
   * lists them.
   */
  method Build(store: EntityStore, organization: OrgId) returns (ids: seq<RangeId>, rows: seq<ManagerRow>)
    ensures forall id :: id in ids <==> id in store.ranges && store.ranges[id].organization == organization
    ensures NoDuplicates(ids)
    ensures rows == Table(ids, store.ranges, store.registrars)
  {
    ids := store.LoadByOrganization(organization);
    var registered: map<RegistrarId, string> := map[];
    rows := [];
    for i := 0 to |ids|
      invariant rows == Table(ids[..i], store.ranges, store.registrars)
      invariant (registered != map[]) == AnyLoads(ids[..i], store.ranges, store.registrars)
    {
      assert ids[..i + 1][..i] == ids[..i];
      var range := IpRangeEntity.Load(store, ids[i]);
      var row;
      row, registered := BuildRow(range, store.registrars, registered);
      rows := rows + [row];
    }
    assert ids[..|ids|] == ids;
  }
}
