/** Counting the occurrences of ids: the vocabulary of the namespace report. */
module Tally {
  import opened Collections

  /** One for an element with the given id. */
  function Hit<T>(id: T -> string, key: string): T -> int {
    x => if id(x) == key then 1 else 0
  }

  function Count<T>(id: T -> string, xs: seq<T>, key: string): int {
    Sum(Hit(id, key), xs)
  }

  /** The first element with the given id. */
  function First<T>(id: T -> string, xs: seq<T>, key: string): (r: Option<T>)
    ensures r.Some? ==> r.value in xs && id(r.value) == key
    ensures r.None? ==> forall x :: x in xs ==> id(x) != key
  {
    if xs == [] then None
    else
      var last, found := xs[|xs| - 1], First(id, xs[..|xs| - 1], key);
      assert xs == xs[..|xs| - 1] + [last];
      if found.Some? then found else if id(last) == key then Some(last) else None
  }

  /** There is no element with the id before the first one. */
  lemma {:induction false} FirstIs<T>(id: T -> string, xs: seq<T>, key: string) returns (i: nat)
    requires First(id, xs, key).Some?
    ensures i < |xs| && First(id, xs, key) == Some(xs[i]) && forall j :: 0 <= j < i ==> id(xs[j]) != key
  {
    var n := |xs| - 1;
    if First(id, xs[..n], key).Some? {
      i := FirstIs(id, xs[..n], key);
    } else {
      i := n;
      assert forall j :: 0 <= j < n ==> xs[j] in xs[..n];
    }
  }

  ghost function IdsOf<T>(id: T -> string, xs: seq<T>): set<string> {
    set x | x in xs :: id(x)
  }

  /** The elements whose id occurs for the first time. */
  function Dedupe<T>(id: T -> string, xs: seq<T>): seq<T> {
    if xs == [] then []
    else
      var last, before := xs[|xs| - 1], Dedupe(id, xs[..|xs| - 1]);
      if First(id, xs[..|xs| - 1], id(last)).Some? then before else before + [last]
  }

  lemma {:induction false} FirstConcat<T>(id: T -> string, xs: seq<T>, ys: seq<T>, key: string)
    ensures First(id, xs + ys, key)
            == if First(id, xs, key).Some? then First(id, xs, key) else First(id, ys, key)
  {
    if ys == [] {
      assert xs + ys == xs;
    } else {
      assert (xs + ys)[..|xs + ys| - 1] == xs + ys[..|ys| - 1];
      FirstConcat(id, xs, ys[..|ys| - 1], key);
    }
  }

  /** Something is counted iff there is a first. */
  lemma {:induction false} CountIff<T>(id: T -> string, xs: seq<T>, key: string)
    ensures Count(id, xs, key) >= 0
    ensures Count(id, xs, key) > 0 <==> First(id, xs, key).Some?
  {
    if xs != [] {
      CountIff(id, xs[..|xs| - 1], key);
    }
  }

  /** Removing repetitions keeps the first of every id and counts it once. */
  lemma {:induction false} DedupeCounts<T>(id: T -> string, xs: seq<T>, key: string)
    ensures First(id, Dedupe(id, xs), key) == First(id, xs, key)
    ensures Count(id, Dedupe(id, xs), key) == if First(id, xs, key).Some? then 1 else 0
  {
    if xs != [] {
      var init, last := xs[..|xs| - 1], xs[|xs| - 1];
      DedupeCounts(id, init, key);
      FirstConcat(id, Dedupe(id, init), [last], key);
      SumConcat(Hit(id, key), Dedupe(id, init), [last]);
      assert [last][..0] == [];
      assert Sum(Hit(id, key), [last]) == Sum(Hit(id, key), []) + Hit(id, key)(last);
      assert First(id, [last], key) == if id(last) == key then Some(last) else None;
    }
  }

  lemma Append<T>(id: T -> string, xs: seq<T>, x: T, key: string)
    ensures Count(id, xs + [x], key) == Count(id, xs, key) + if id(x) == key then 1 else 0
    ensures First(id, xs + [x], key)
            == if First(id, xs, key).Some? then First(id, xs, key) else if id(x) == key then Some(x) else None
    ensures Dedupe(id, xs + [x])
            == if First(id, xs, id(x)).Some? then Dedupe(id, xs) else Dedupe(id, xs) + [x]
    ensures IdsOf(id, xs + [x]) == IdsOf(id, xs) + {id(x)}
  {
    assert (xs + [x])[..|xs|] == xs;
  }
}
