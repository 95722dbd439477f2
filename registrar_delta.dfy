/**
 * The registrar delta an IP change applies to its ranges: every add_ip range
 * gets the change's registrars appended (array_merge, duplicates kept), every
 * delete_ip range loses every occurrence of them (array_diff).
 */
module RegistrarDelta {
  import opened Wrappers
  import opened IpAddress
  import opened PhpArrays
  import opened Storage

  function Elems<T>(s: seq<T>): set<T> {
    set x | x in s
  }

  /** The fields the delta never touches are equal. */
  predicate SameRange(a: RangeRow, b: RangeRow) {
    a.organization == b.organization && a.start == b.start && a.end == b.end && a.status == b.status
  }

  /**
   * One add_ip range after the merge and its save; `owner` is the uid that
   * setIpRangeRegistrars assigns (None for sendRegistrarEmails).
   */
  function MergedRow(r: RangeRow, regs: seq<RegistrarId>, owner: Option<UserId>): RangeRow {
    Retitled(r.(registrars := r.registrars + regs, uid := owner.GetOr(r.uid)))
  }

  /** One delete_ip range after the diff and its save. */
  function DiffedRow(r: RangeRow, regs: seq<RegistrarId>): RangeRow {
    Retitled(r.(registrars := Diff(r.registrars, regs)))
  }

  /** The add_ip loop over the given ids, in order. */
  function AddRegistrars(m: map<RangeId, RangeRow>, ids: seq<RangeId>, regs: seq<RegistrarId>, owner: Option<UserId>)
    : (r: map<RangeId, RangeRow>)
    ensures r.Keys == m.Keys
  {
    if ids == [] then m
    else
      var m' := if ids[0] in m then m[ids[0] := MergedRow(m[ids[0]], regs, owner)] else m;
      AddRegistrars(m', ids[1..], regs, owner)
  }

  /** The delete_ip loop over the given ids, in order. */
  function RemoveRegistrars(m: map<RangeId, RangeRow>, ids: seq<RangeId>, regs: seq<RegistrarId>)
    : (r: map<RangeId, RangeRow>)
    ensures r.Keys == m.Keys
  {
    if ids == [] then m
    else
      var m' := if ids[0] in m then m[ids[0] := DiffedRow(m[ids[0]], regs)] else m;
      RemoveRegistrars(m', ids[1..], regs)
  }

  /** One step of the add_ip loop: the first listed range is merged, the rest follow. */
  lemma AddRegistrarsStep(m: map<RangeId, RangeRow>, ids: seq<RangeId>, i: nat, regs: seq<RegistrarId>,
                          owner: Option<UserId>)
    requires i < |ids| && ids[i] in m
    ensures AddRegistrars(m, ids[i..], regs, owner)
         == AddRegistrars(m[ids[i] := MergedRow(m[ids[i]], regs, owner)], ids[i + 1..], regs, owner)
  {
    assert ids[i..][0] == ids[i] && ids[i..][1..] == ids[i + 1..];
  }

  /** One step of the delete_ip loop: the first listed range is diffed, the rest follow. */
  lemma RemoveRegistrarsStep(m: map<RangeId, RangeRow>, ids: seq<RangeId>, i: nat, regs: seq<RegistrarId>)
    requires i < |ids| && ids[i] in m
    ensures RemoveRegistrars(m, ids[i..], regs) == RemoveRegistrars(m[ids[i] := DiffedRow(m[ids[i]], regs)], ids[i + 1..], regs)
  {
    assert ids[i..][0] == ids[i] && ids[i..][1..] == ids[i + 1..];
  }

  /** Ranges the change does not list in add_ip are left as they were. */
  lemma {:induction false} AddRegistrarsElsewhere(m: map<RangeId, RangeRow>, ids: seq<RangeId>, regs: seq<RegistrarId>,
                                                  owner: Option<UserId>, id: RangeId)
    requires id in m && id !in ids
    ensures AddRegistrars(m, ids, regs, owner)[id] == m[id]
  {
    if ids != [] {
      var m' := if ids[0] in m then m[ids[0] := MergedRow(m[ids[0]], regs, owner)] else m;
      assert AddRegistrars(m, ids, regs, owner) == AddRegistrars(m', ids[1..], regs, owner);
      AddRegistrarsElsewhere(m', ids[1..], regs, owner, id);
    }
  }

  /** Ranges the change does not list in delete_ip are left as they were. */
  lemma {:induction false} RemoveRegistrarsElsewhere(m: map<RangeId, RangeRow>, ids: seq<RangeId>,
                                                     regs: seq<RegistrarId>, id: RangeId)
    requires id in m && id !in ids
    ensures RemoveRegistrars(m, ids, regs)[id] == m[id]
  {
    if ids != [] {
      var m' := if ids[0] in m then m[ids[0] := DiffedRow(m[ids[0]], regs)] else m;
      assert RemoveRegistrars(m, ids, regs) == RemoveRegistrars(m', ids[1..], regs);
      RemoveRegistrarsElsewhere(m', ids[1..], regs, id);
    }
  }

  lemma {:induction false} RepeatElems<T>(xs: seq<T>, n: nat)
    ensures Elems(Repeat(xs, n)) == if n == 0 then {} else Elems(xs)
  {
    if n > 0 {
      RepeatElems(xs, n - 1);
    }
  }

  /** A range listed k times in add_ip ends with the change's registrars appended k times. */
  lemma {:induction false} AddRegistrarsAt(m: map<RangeId, RangeRow>, ids: seq<RangeId>, regs: seq<RegistrarId>,
                                           owner: Option<UserId>, id: RangeId)
    requires id in m
    ensures AddRegistrars(m, ids, regs, owner)[id].registrars == m[id].registrars + Repeat(regs, Count(ids, id))
  {
    if ids != [] {
      var x := ids[0];
      var m' := if x in m then m[x := MergedRow(m[x], regs, owner)] else m;
      assert AddRegistrars(m, ids, regs, owner) == AddRegistrars(m', ids[1..], regs, owner);
      AddRegistrarsAt(m', ids[1..], regs, owner, id);
      if x == id {
        assert m'[id].registrars == m[id].registrars + regs;
        assert Count(ids, id) == 1 + Count(ids[1..], id);
        var rest := Repeat(regs, Count(ids[1..], id));
        assert Repeat(regs, Count(ids, id)) == regs + rest;
        assert (m[id].registrars + regs) + rest == m[id].registrars + (regs + rest);
      } else {
        assert m'[id] == m[id];
        assert Count(ids, id) == Count(ids[1..], id);
      }
    }
  }

  /**
   * Besides the registrars, the add delta changes only the title (recomputed
   * by preSave) and, when an owner is given, the uid.
   */
  lemma {:induction false} AddRegistrarsFields(m: map<RangeId, RangeRow>, ids: seq<RangeId>, regs: seq<RegistrarId>,
                                               owner: Option<UserId>, id: RangeId)
    requires id in m && id in ids
    ensures var r := AddRegistrars(m, ids, regs, owner)[id];
      SameRange(r, m[id]) && r.uid == owner.GetOr(m[id].uid) && r.title == RangeTitle(m[id].start, m[id].end)
  {
    var x := ids[0];
    var m' := if x in m then m[x := MergedRow(m[x], regs, owner)] else m;
    assert AddRegistrars(m, ids, regs, owner) == AddRegistrars(m', ids[1..], regs, owner);
    if x == id {
      if id in ids[1..] {
        AddRegistrarsFields(m', ids[1..], regs, owner, id);
      } else {
        AddRegistrarsElsewhere(m', ids[1..], regs, owner, id);
      }
    } else {
      AddRegistrarsFields(m', ids[1..], regs, owner, id);
    }
  }

  /** As sets, the add delta is the union of the range's and the change's registrars. */
  lemma AddRegistrarsUnion(m: map<RangeId, RangeRow>, ids: seq<RangeId>, regs: seq<RegistrarId>,
                           owner: Option<UserId>, id: RangeId)
    requires id in m && id in ids
    ensures Elems(AddRegistrars(m, ids, regs, owner)[id].registrars) == Elems(m[id].registrars) + Elems(regs)
  {
    AddRegistrarsAt(m, ids, regs, owner, id);
    RepeatElems(regs, Count(ids, id));
    assert Count(ids, id) > 0 by {
      CountPositive(ids, id);
    }
  }

  lemma {:induction false} CountPositive<T>(xs: seq<T>, x: T)
    requires x in xs
    ensures Count(xs, x) > 0
  {
    if xs[0] != x {
      CountPositive(xs[1..], x);
    }
  }

  /**
   * A range listed in delete_ip ends with exactly array_diff of its registrars
   * and the change's, however often it is listed.
   */
  lemma {:induction false} RemoveRegistrarsAt(m: map<RangeId, RangeRow>, ids: seq<RangeId>, regs: seq<RegistrarId>,
                                              id: RangeId)
    requires id in m && id in ids
    ensures var r := RemoveRegistrars(m, ids, regs)[id];
      && r.registrars == Diff(m[id].registrars, regs)
      && SameRange(r, m[id]) && r.uid == m[id].uid
      && r.title == RangeTitle(m[id].start, m[id].end)
  {
    var m' := if ids[0] in m then m[ids[0] := DiffedRow(m[ids[0]], regs)] else m;
    assert RemoveRegistrars(m, ids, regs) == RemoveRegistrars(m', ids[1..], regs);
    if ids[0] == id {
      if id in ids[1..] {
        RemoveRegistrarsAt(m', ids[1..], regs, id);
        DiffIdempotent(m[id].registrars, regs);
      } else {
        RemoveRegistrarsElsewhere(m', ids[1..], regs, id);
      }
    } else {
      RemoveRegistrarsAt(m', ids[1..], regs, id);
    }
  }

  /** As sets, the remove delta is set difference: registrars the change does not name stay. */
  lemma RemoveRegistrarsDifference(m: map<RangeId, RangeRow>, ids: seq<RangeId>, regs: seq<RegistrarId>, id: RangeId)
    requires id in m && id in ids
    ensures Elems(RemoveRegistrars(m, ids, regs)[id].registrars) == Elems(m[id].registrars) - Elems(regs)
  {
    RemoveRegistrarsAt(m, ids, regs, id);
  }

  /** Titles stay derived from endpoints through the add delta. */
  lemma {:induction false} AddRegistrarsKeepsTitles(m: map<RangeId, RangeRow>, ids: seq<RangeId>,
                                                    regs: seq<RegistrarId>, owner: Option<UserId>)
    requires TitlesFromEndpoints(m)
    ensures TitlesFromEndpoints(AddRegistrars(m, ids, regs, owner))
  {
    if ids != [] {
      var m' := if ids[0] in m then m[ids[0] := MergedRow(m[ids[0]], regs, owner)] else m;
      assert AddRegistrars(m, ids, regs, owner) == AddRegistrars(m', ids[1..], regs, owner);
      AddRegistrarsKeepsTitles(m', ids[1..], regs, owner);
    }
  }

  /** Titles stay derived from endpoints through the remove delta. */
  lemma {:induction false} RemoveRegistrarsKeepsTitles(m: map<RangeId, RangeRow>, ids: seq<RangeId>,
                                                       regs: seq<RegistrarId>)
    requires TitlesFromEndpoints(m)
    ensures TitlesFromEndpoints(RemoveRegistrars(m, ids, regs))
  {
    if ids != [] {
      var m' := if ids[0] in m then m[ids[0] := DiffedRow(m[ids[0]], regs)] else m;
      assert RemoveRegistrars(m, ids, regs) == RemoveRegistrars(m', ids[1..], regs);
      assert TitlesFromEndpoints(m');
      RemoveRegistrarsKeepsTitles(m', ids[1..], regs);
    }
  }

  /** The add delta leaves every range's organization as it was. */
  lemma {:induction false} AddRegistrarsKeepsOrganizations(m: map<RangeId, RangeRow>, ids: seq<RangeId>,
                                                           regs: seq<RegistrarId>, owner: Option<UserId>)
    ensures forall id :: id in m ==> AddRegistrars(m, ids, regs, owner)[id].organization == m[id].organization
  {
    if ids != [] {
      var m' := if ids[0] in m then m[ids[0] := MergedRow(m[ids[0]], regs, owner)] else m;
      assert AddRegistrars(m, ids, regs, owner) == AddRegistrars(m', ids[1..], regs, owner);
      AddRegistrarsKeepsOrganizations(m', ids[1..], regs, owner);
    }
  }

  /** The remove delta leaves every range's organization as it was. */
  lemma {:induction false} RemoveRegistrarsKeepsOrganizations(m: map<RangeId, RangeRow>, ids: seq<RangeId>,
                                                              regs: seq<RegistrarId>)
    ensures forall id :: id in m ==> RemoveRegistrars(m, ids, regs)[id].organization == m[id].organization
  {
    if ids != [] {
      var m' := if ids[0] in m then m[ids[0] := DiffedRow(m[ids[0]], regs)] else m;
      assert RemoveRegistrars(m, ids, regs) == RemoveRegistrars(m', ids[1..], regs);
      RemoveRegistrarsKeepsOrganizations(m', ids[1..], regs);
    }
  }
}
