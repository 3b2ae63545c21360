/** Collections shared by the components: optional values, iteration over unordered
    collections, and sums that do not depend on the iteration order. */
module Collections {

  datatype Option<+T> = None | Some(value: T)

  datatype Result<+T, +E> = Ok(value: T) | Err(error: E)

  function Min(a: int, b: int): int {
    if a < b then a else b
  }

  /** `order` lists every element of `s` exactly once: one possible order of a `range` loop over a map. */
  ghost predicate Enumerates<T>(order: seq<T>, s: set<T>) {
    && (forall i :: 0 <= i < |order| ==> order[i] in s)
    && (forall x :: x in s ==> x in order)
    && (forall i, j :: 0 <= i < j < |order| ==> order[i] != order[j])
  }

  /** Chooses an iteration order. Callers know only that it enumerates `s`, so whatever they prove
      holds for every order. */
  method Enumerate<T>(s: set<T>) returns (order: seq<T>)
    ensures Enumerates(order, s)
  {
    order := [];
    var rest := s;
    while rest != {}
      invariant rest <= s
      invariant Enumerates(order, s - rest)
      decreases rest
    {
      var x :| x in rest;
      order := order + [x];
      rest := rest - {x};
    }
    assert s - rest == s;
  }

  /** Every set can be enumerated. */
  lemma {:induction false} Listing<T>(xs: set<T>) returns (order: seq<T>)
    ensures Enumerates(order, xs)
    decreases |xs|
  {
    if xs == {} {
      order := [];
    } else {
      var x :| x in xs;
      order := Listing(xs - {x});
      order := order + [x];
    }
  }

  /** The elements of `xs`. */
  function Elements<T>(xs: seq<T>): set<T> {
    set x | x in xs
  }

  lemma EnumerationCounts<T>(order: seq<T>, s: set<T>)
    requires Enumerates(order, s)
    ensures multiset(order) == multiset(s)
    ensures |order| == |s|
  {
    forall x: T
      ensures multiset(order)[x] == multiset(s)[x]
    {
      if x in order {
        var i :| 0 <= i < |order| && order[i] == x;
        OccursOnce(order, i);
      }
    }
    assert |multiset(order)| == |order|;
  }

  lemma OccursOnce<T>(order: seq<T>, i: nat)
    requires i < |order| && forall j, k :: 0 <= j < k < |order| ==> order[j] != order[k]
    ensures multiset(order)[order[i]] == 1
  {
    var before, after := order[..i], order[i + 1..];
    assert order == before + [order[i]] + after;
    assert order[i] !in before && order[i] !in after;
  }

  /** Two iteration orders of one map are permutations of each other. */
  lemma EnumerationsPermute<T>(a: seq<T>, b: seq<T>, s: set<T>)
    requires Enumerates(a, s) && Enumerates(b, s)
    ensures multiset(a) == multiset(b)
  {
    EnumerationCounts(a, s);
    EnumerationCounts(b, s);
  }

  /** The sum of `f` over `xs`. */
  function Sum<T>(f: T -> int, xs: seq<T>): int {
    if xs == [] then 0 else Sum(f, xs[..|xs| - 1]) + f(xs[|xs| - 1])
  }

  lemma {:induction false} SumConcat<T>(f: T -> int, xs: seq<T>, ys: seq<T>)
    ensures Sum(f, xs + ys) == Sum(f, xs) + Sum(f, ys)
  {
    if ys == [] {
      assert xs + ys == xs;
    } else {
      assert (xs + ys)[..|xs + ys| - 1] == xs + ys[..|ys| - 1];
      SumConcat(f, xs, ys[..|ys| - 1]);
    }
  }

  lemma SumSingle<T>(f: T -> int, x: T)
    ensures Sum(f, [x]) == f(x)
  {
    assert [x][..0] == [];
  }

  /** Finds the last element of `xs` in its permutation `ys`. */
  lemma SplitAtLast<T>(xs: seq<T>, ys: seq<T>) returns (before: seq<T>, after: seq<T>)
    requires multiset(xs) == multiset(ys) && xs != []
    ensures ys == before + [xs[|xs| - 1]] + after
    ensures multiset(before + after) == multiset(xs[..|xs| - 1])
  {
    var x, rest := xs[|xs| - 1], xs[..|xs| - 1];
    assert xs == rest + [x];
    assert x in multiset(ys);
    var i :| 0 <= i < |ys| && ys[i] == x;
    before, after := ys[..i], ys[i + 1..];
    assert ys == before + [x] + after;
    assert multiset(ys) == multiset(before + after) + multiset{x};
    assert multiset(xs) == multiset(rest) + multiset{x};
    assert multiset(before + after) == multiset(ys) - multiset{x};
  }

  /** A sum depends only on the multiset of its terms. */
  lemma {:induction false} SumPermutation<T>(f: T -> int, xs: seq<T>, ys: seq<T>)
    requires multiset(xs) == multiset(ys)
    ensures Sum(f, xs) == Sum(f, ys)
    decreases |xs|
  {
    if xs == [] {
      assert |multiset(ys)| == |ys|;
    } else {
      var before, after := SplitAtLast(xs, ys);
      var x := xs[|xs| - 1];
      SumPermutation(f, xs[..|xs| - 1], before + after);
      SumConcat(f, before, after);
      SumConcat(f, before + [x], after);
      SumConcat(f, before, [x]);
      assert Sum(f, [x]) == Sum(f, []) + f(x);
    }
  }

  function MapSeq<T, U>(f: T -> U, xs: seq<T>): (ys: seq<U>)
    ensures |ys| == |xs|
    ensures forall i :: 0 <= i < |xs| ==> ys[i] == f(xs[i])
  {
    if xs == [] then [] else MapSeq(f, xs[..|xs| - 1]) + [f(xs[|xs| - 1])]
  }

  /** The steps succeed one after the other with these results. */
  ghost predicate Succeed<T, R, E>(outcome: T -> Result<R, E>, xs: seq<T>, results: seq<R>) {
    && |results| == |xs|
    && (xs == [] ||
        var n := |xs| - 1;
        Succeed(outcome, xs[..n], results[..n]) && outcome(xs[n]) == Ok(results[n]))
  }

  lemma SucceedAppend<T, R, E>(outcome: T -> Result<R, E>, xs: seq<T>, results: seq<R>, x: T, result: R)
    requires Succeed(outcome, xs, results) && outcome(x) == Ok(result)
    ensures Succeed(outcome, xs + [x], results + [result])
  {
    assert (xs + [x])[..|xs|] == xs && (results + [result])[..|results|] == results;
  }

  lemma {:induction false} SucceedMeans<T, R, E>(outcome: T -> Result<R, E>, xs: seq<T>, results: seq<R>)
    requires Succeed(outcome, xs, results)
    ensures |results| == |xs| && forall i :: 0 <= i < |xs| ==> outcome(xs[i]) == Ok(results[i])
  {
    if xs != [] {
      var n := |xs| - 1;
      SucceedMeans(outcome, xs[..n], results[..n]);
    }
  }

  /** One more element of a loop. */
  lemma PrefixStep<T>(xs: seq<T>, i: nat)
    requires i < |xs|
    ensures xs[..i + 1] == xs[..i] + [xs[i]] && xs[..i + 1][..i] == xs[..i]
  {
  }

  lemma WholePrefix<T>(xs: seq<T>)
    ensures xs[..|xs|] == xs
  {
  }

  lemma AppendTwo<T>(xs: seq<T>, a: T, b: T)
    ensures xs + [a] + [b] == xs + [a, b]
    ensures [] + xs == xs
  {
  }

  lemma FourElements<T>(a: T, b: T, c: T, d: T)
    ensures [a, b] + [c, d] == [a, b, c, d] && [a] + [b, c] == [a, b, c]
  {
  }

  lemma UpdateThenRemove<K, V>(m: map<K, V>, k: K, v: V)
    ensures m[k := v] - {k} == m - {k}
    ensures k !in m ==> m - {k} == m
  {
  }

  lemma ConcatAssociates<T>(xs: seq<T>, ys: seq<T>, zs: seq<T>)
    ensures xs + ys + zs == xs + (ys + zs)
  {
  }

  /** The concatenation of `f` over `xs`. */
  function FlatMap<T, U>(f: T -> seq<U>, xs: seq<T>): seq<U> {
    if xs == [] then [] else FlatMap(f, xs[..|xs| - 1]) + f(xs[|xs| - 1])
  }

  lemma {:induction false} FlatMapConcat<T, U>(f: T -> seq<U>, xs: seq<T>, ys: seq<T>)
    ensures FlatMap(f, xs + ys) == FlatMap(f, xs) + FlatMap(f, ys)
  {
    if ys == [] {
      assert xs + ys == xs;
    } else {
      assert (xs + ys)[..|xs + ys| - 1] == xs + ys[..|ys| - 1];
      FlatMapConcat(f, xs, ys[..|ys| - 1]);
    }
  }

  lemma {:induction false} FlatMapPermutation<T, U>(f: T -> seq<U>, xs: seq<T>, ys: seq<T>)
    requires multiset(xs) == multiset(ys)
    ensures multiset(FlatMap(f, xs)) == multiset(FlatMap(f, ys))
    decreases |xs|
  {
    if xs == [] {
      assert |multiset(ys)| == |ys|;
    } else {
      var before, after := SplitAtLast(xs, ys);
      var x := xs[|xs| - 1];
      FlatMapPermutation(f, xs[..|xs| - 1], before + after);
      FlatMapConcat(f, before, after);
      FlatMapConcat(f, before + [x], after);
      FlatMapConcat(f, before, [x]);
      assert FlatMap(f, [x]) == FlatMap(f, []) + f(x) == f(x);
    }
  }

  lemma {:induction false} MapIsFlatMap<T, U>(f: T -> U, xs: seq<T>)
    ensures MapSeq(f, xs) == FlatMap(x => [f(x)], xs)
  {
    if xs != [] {
      MapIsFlatMap(f, xs[..|xs| - 1]);
    }
  }

  /** The results of a loop, as a multiset, do not depend on the order of the loop. */
  lemma MapPermutation<T, U>(f: T -> U, xs: seq<T>, ys: seq<T>)
    requires multiset(xs) == multiset(ys)
    ensures multiset(MapSeq(f, xs)) == multiset(MapSeq(f, ys))
  {
    MapIsFlatMap(f, xs);
    MapIsFlatMap(f, ys);
    FlatMapPermutation(x => [f(x)], xs, ys);
  }

  lemma {:induction false} FlatMapExtensional<T, U>(f: T -> seq<U>, g: T -> seq<U>, xs: seq<T>)
    requires forall x :: x in xs ==> f(x) == g(x)
    ensures FlatMap(f, xs) == FlatMap(g, xs)
  {
    if xs != [] {
      FlatMapExtensional(f, g, xs[..|xs| - 1]);
    }
  }

  /** Membership in a concatenation. */
  lemma {:induction false} FlatMapMember<T, U>(f: T -> seq<U>, xs: seq<T>, u: U)
    ensures u in FlatMap(f, xs) <==> exists x :: x in xs && u in f(x)
  {
    if xs != [] {
      FlatMapMember(f, xs[..|xs| - 1], u);
      assert xs == xs[..|xs| - 1] + [xs[|xs| - 1]];
    }
  }

  /** A sum over a concatenation is the sum of the sums. */
  lemma {:induction false} SumFlatMap<T, U>(f: U -> int, g: T -> seq<U>, h: T -> int, xs: seq<T>)
    requires forall x :: x in xs ==> Sum(f, g(x)) == h(x)
    ensures Sum(f, FlatMap(g, xs)) == Sum(h, xs)
  {
    if xs != [] {
      SumFlatMap(f, g, h, xs[..|xs| - 1]);
      SumConcat(f, FlatMap(g, xs[..|xs| - 1]), g(xs[|xs| - 1]));
    }
  }

  /** A loop that keeps some elements keeps them in order: `at` are the positions of what is kept. */
  ghost predicate Filters<T, U>(keeps: T -> Option<U>, xs: seq<T>, ys: seq<U>, at: seq<nat>) {
    && |at| == |ys|
    && (forall i :: 0 <= i < |at| ==> at[i] < |xs| && keeps(xs[at[i]]) == Some(ys[i]))
    && (forall i, j :: 0 <= i < j < |at| ==> at[i] < at[j])
    && (forall k :: 0 <= k < |xs| && keeps(xs[k]).Some? ==> k in at)
  }

  lemma {:induction false} FlatMapFilters<T, U>(f: T -> seq<U>, keeps: T -> Option<U>, xs: seq<T>)
    returns (at: seq<nat>)
    requires forall x :: x in xs ==> f(x) == if keeps(x).Some? then [keeps(x).value] else []
    ensures Filters(keeps, xs, FlatMap(f, xs), at)
  {
    if xs == [] {
      at := [];
    } else {
      var n := |xs| - 1;
      at := FlatMapFilters(f, keeps, xs[..n]);
      at := FilterOneMore(keeps, xs, FlatMap(f, xs[..n]), f(xs[n]), at);
    }
  }

  lemma FilterOneMore<T, U>(keeps: T -> Option<U>, xs: seq<T>, ys: seq<U>, more: seq<U>, before: seq<nat>)
    returns (at: seq<nat>)
    requires xs != [] && Filters(keeps, xs[..|xs| - 1], ys, before)
    requires more == if keeps(xs[|xs| - 1]).Some? then [keeps(xs[|xs| - 1]).value] else []
    ensures Filters(keeps, xs, ys + more, at)
  {
    var n := |xs| - 1;
    var added: seq<nat> := if keeps(xs[n]).Some? then [n] else [];
    at := before + added;
    forall k | 0 <= k < |xs| && keeps(xs[k]).Some?
      ensures k in at
    {
      if k < n {
        assert xs[..n][k] == xs[k];
      } else {
        assert added[0] == k;
      }
    }
  }

  /** Some fixed enumeration of `s`. */
  ghost function Canonical<T(!new)>(s: set<T>): (order: seq<T>)
    ensures Enumerates(order, s)
  {
    assert exists o: seq<T> :: Enumerates(o, s) by {
      var o := Listing(s);
    }
    var order :| Enumerates(order, s);
    order
  }

  lemma {:induction false} SumExtensional<T>(f: T -> int, g: T -> int, xs: seq<T>)
    requires forall x :: x in xs ==> f(x) == g(x)
    ensures Sum(f, xs) == Sum(g, xs)
  {
    if xs != [] {
      SumExtensional(f, g, xs[..|xs| - 1]);
    }
  }
}
