/**
 * The PHP array built-ins the module relies on, on lists (array keys are not
 * modelled): array_diff, the `in_array` de-duplication loop, implode, and
 * explode as the inverse of implode.
 */
module PhpArrays {

  /** No element occurs twice. */
  predicate NoDuplicates<T(==)>(xs: seq<T>) {
    forall i, j :: 0 <= i < j < |xs| ==> xs[i] != xs[j]
  }

  /** Number of occurrences of `x` in `xs`. */
  function Count<T(==)>(xs: seq<T>, x: T): nat {
    if xs == [] then 0 else (if xs[0] == x then 1 else 0) + Count(xs[1..], x)
  }

  /** `xs` concatenated `n` times. */
  function Repeat<T>(xs: seq<T>, n: nat): seq<T> {
    if n == 0 then [] else xs + Repeat(xs, n - 1)
  }

  /**
   * array_diff($xs, $remove): every occurrence of every element of `remove`
   * is dropped, the rest keep their order.
   */
  function Diff<T(==,!new)>(xs: seq<T>, remove: seq<T>): (r: seq<T>)
    ensures |r| <= |xs|
    ensures forall x :: x in r <==> x in xs && x !in remove
  {
    if xs == [] then []
    else (if xs[0] in remove then [] else [xs[0]]) + Diff(xs[1..], remove)
  }

  /** array_diff distributes over concatenation: the survivors keep their relative order. */
  lemma {:induction false} DiffAppend<T(!new)>(a: seq<T>, b: seq<T>, remove: seq<T>)
    ensures Diff(a + b, remove) == Diff(a, remove) + Diff(b, remove)
  {
    if a == [] {
      assert a + b == b;
    } else {
      assert (a + b)[1..] == a[1..] + b;
      DiffAppend(a[1..], b, remove);
    }
  }

  /** array_diff of one element more: the element survives exactly when it is not removed. */
  lemma DiffSnoc<T(!new)>(xs: seq<T>, i: nat, remove: seq<T>)
    requires i < |xs|
    ensures Diff(xs[..i + 1], remove) == Diff(xs[..i], remove) + (if xs[i] in remove then [] else [xs[i]])
  {
    assert xs[..i + 1] == xs[..i] + [xs[i]];
    DiffAppend(xs[..i], [xs[i]], remove);
  }

  /** Removing the same elements a second time changes nothing. */
  lemma {:induction false} DiffIdempotent<T(!new)>(xs: seq<T>, remove: seq<T>)
    ensures Diff(Diff(xs, remove), remove) == Diff(xs, remove)
  {
    if xs != [] {
      DiffIdempotent(xs[1..], remove);
      var head := if xs[0] in remove then [] else [xs[0]];
      DiffAppend(head, Diff(xs[1..], remove), remove);
      if xs[0] !in remove {
        assert head[1..] == [];
      }
    }
  }

  /** Removing elements the list does not hold keeps the list as it is. */
  lemma {:induction false} DiffDisjoint<T(!new)>(xs: seq<T>, remove: seq<T>)
    requires forall x :: x in xs ==> x !in remove
    ensures Diff(xs, remove) == xs
  {
    if xs != [] {
      DiffDisjoint(xs[1..], remove);
      assert [xs[0]] + xs[1..] == xs;
    }
  }

  /** Removing nothing keeps the list as it is. */
  lemma {:induction false} DiffNothing<T(!new)>(xs: seq<T>)
    ensures Diff(xs, []) == xs
  {
    if xs != [] {
      DiffNothing(xs[1..]);
      assert xs == [xs[0]] + xs[1..];
    }
  }

  /**
   * The list a loop builds when it keeps each element that is not yet
   * `in_array` of what it has kept so far.
   */
  function Dedup<T(==,!new)>(xs: seq<T>): (r: seq<T>)
    ensures forall x :: x in r <==> x in xs
    ensures NoDuplicates(r)
    ensures |r| <= |xs|
  {
    if xs == [] then []
    else
      var d := Dedup(xs[..|xs| - 1]);
      if xs[|xs| - 1] in d then d else d + [xs[|xs| - 1]]
  }

  /** A list without duplicates is left as it is. */
  lemma {:induction false} DedupOfDistinct<T(!new)>(xs: seq<T>)
    requires NoDuplicates(xs)
    ensures Dedup(xs) == xs
  {
    if xs != [] {
      var init := xs[..|xs| - 1];
      assert NoDuplicates(init);
      DedupOfDistinct(init);
      assert xs[|xs| - 1] !in init;
      assert init + [xs[|xs| - 1]] == xs;
    }
  }

  /**
   * First occurrence decides the position: de-duplicating a prefix of the
   * list gives a prefix of the de-duplicated list.
   */
  lemma {:induction false} DedupPrefix<T(!new)>(xs: seq<T>, k: nat)
    requires k <= |xs|
    ensures Dedup(xs[..k]) <= Dedup(xs)
    decreases |xs| - k
  {
    if k < |xs| {
      var init := xs[..|xs| - 1];
      assert xs[..k] == init[..k];
      DedupPrefix(init, k);
      assert init[..|init|] == init;
    } else {
      assert xs[..k] == xs;
    }
  }

  /** implode($sep, $parts). */
  function Implode(sep: string, parts: seq<string>): (r: string)
    ensures parts == [] ==> r == ""
    ensures |parts| == 1 ==> r == parts[0]
  {
    if parts == [] then ""
    else if |parts| == 1 then parts[0]
    else parts[0] + sep + Implode(sep, parts[1..])
  }

  /** explode($c, $s) for a one-character delimiter. */
  function Explode(c: char, s: string): (r: seq<string>)
    ensures |r| >= 1
    decreases |s|
  {
    if s == [] then [""]
    else
      var rest := Explode(c, s[1..]);
      if s[0] == c then [""] + rest
      else [[s[0]] + rest[0]] + rest[1..]
  }

  /** Exploding `x + [c] + y` at `c`, where `x` has no `c`, splits off `x` first. */
  lemma {:induction false} ExplodeAfterPart(c: char, x: string, y: string)
    requires c !in x
    ensures Explode(c, x + [c] + y) == [x] + Explode(c, y)
  {
    if x == [] {
      assert x + [c] + y == [c] + y;
      assert ([c] + y)[1..] == y;
    } else {
      var s := x + [c] + y;
      assert s[0] == x[0];
      assert s[1..] == x[1..] + [c] + y;
      ExplodeAfterPart(c, x[1..], y);
      assert [x[0]] + x[1..] == x;
    }
  }

  /** A part without `c` explodes to itself. */
  lemma {:induction false} ExplodeWithout(c: char, x: string)
    requires c !in x
    ensures Explode(c, x) == [x]
  {
    if x != [] {
      ExplodeWithout(c, x[1..]);
      assert [x[0]] + x[1..] == x;
    }
  }

  /** explode undoes implode when no part contains the delimiter. */
  lemma {:induction false} ExplodeImplode(c: char, parts: seq<string>)
    requires |parts| >= 1
    requires forall i :: 0 <= i < |parts| ==> c !in parts[i]
    ensures Explode(c, Implode([c], parts)) == parts
  {
    if |parts| == 1 {
      ExplodeWithout(c, parts[0]);
    } else {
      ExplodeImplode(c, parts[1..]);
      ExplodeAfterPart(c, parts[0], Implode([c], parts[1..]));
      assert [parts[0]] + parts[1..] == parts;
    }
  }
}
