/** Ranking by several keys: the comparison of a multi-key sorter, the stable descending sort that uses
    it, and what the first elements of the result are. */
module Ranking {
  import opened Collections

  type Key<!T> = (T, T) -> bool

  // ---------------------------------------------------------------- the comparison

  ghost predicate StrictWeakOrder<T(!new)>(less: Key<T>) {
    && (forall x, y :: less(x, y) ==> !less(y, x))
    && (forall x, y, z :: less(x, y) && less(y, z) ==> less(x, z))
    && (forall x, y, z :: !less(x, y) && !less(y, z) ==> !less(x, z))
  }

  predicate Tied<T>(less: Key<T>, x: T, y: T) {
    !less(x, y) && !less(y, x)
  }

  /** Lexicographic comparison: some key decides and every key before it ties. */
  ghost predicate Lexicographic<T>(keys: seq<Key<T>>, x: T, y: T) {
    exists k :: 0 <= k < |keys| && keys[k](x, y) && forall j :: 0 <= j < k ==> Tied(keys[j], x, y)
  }

  /** The same comparison by recursion over the keys. */
  predicate Lex<T>(keys: seq<Key<T>>, x: T, y: T) {
    keys != [] && (keys[0](x, y) || (!keys[0](y, x) && Lex(keys[1..], x, y)))
  }

  lemma {:induction false} LexIsLexicographic<T>(keys: seq<Key<T>>, x: T, y: T)
    ensures Lex(keys, x, y) <==> Lexicographic(keys, x, y)
  {
    if keys != [] {
      LexIsLexicographic(keys[1..], x, y);
      LaterKeys(keys, x, y);
    }
  }

  /** The first key decides, or it ties and the others compare lexicographically. */
  lemma LaterKeys<T>(keys: seq<Key<T>>, x: T, y: T)
    requires keys != []
    ensures Lexicographic(keys, x, y) <==> keys[0](x, y) || (!keys[0](y, x) && Lexicographic(keys[1..], x, y))
  {
    var rest := keys[1..];
    if keys[0](x, y) {
      assert Lexicographic(keys, x, y);
    } else if !keys[0](y, x) {
      if k :| 0 <= k < |rest| && rest[k](x, y) && forall j :: 0 <= j < k ==> Tied(rest[j], x, y) {
        LaterKeyDecides(keys, k, x, y);
      }
      if k :| 0 <= k < |keys| && keys[k](x, y) && forall j :: 0 <= j < k ==> Tied(keys[j], x, y) {
        assert rest[k - 1](x, y);
        assert forall j :: 0 <= j < k - 1 ==> rest[j] == keys[j + 1];
      }
    } else {
      assert !Tied(keys[0], x, y);
    }
  }

  lemma LaterKeyDecides<T>(keys: seq<Key<T>>, k: nat, x: T, y: T)
    requires keys != [] && k < |keys[1..]| && keys[1..][k](x, y) && Tied(keys[0], x, y)
    requires forall j :: 0 <= j < k ==> Tied(keys[1..][j], x, y)
    ensures Lexicographic(keys, x, y)
  {
    forall j | 0 <= j < k + 1
      ensures Tied(keys[j], x, y)
    {
      assert j > 0 ==> keys[j] == keys[1..][j - 1];
    }
    assert keys[k + 1](x, y);
  }

  lemma LexOne<T>(k: Key<T>, x: T, y: T)
    ensures Lex([k], x, y) <==> k(x, y)
  {
  }

  lemma LexMore<T>(k: Key<T>, keys: seq<Key<T>>, x: T, y: T)
    ensures Lex([k] + keys, x, y) <==> k(x, y) || (!k(y, x) && Lex(keys, x, y))
  {
    assert ([k] + keys)[1..] == keys;
  }

  /** The comparison by `keys` is a strict weak order. */
  ghost predicate Orders<T(!new)>(keys: seq<Key<T>>) {
    && (forall x, y :: Lex(keys, x, y) ==> !Lex(keys, y, x))
    && (forall x, y, z :: Lex(keys, x, y) && Lex(keys, y, z) ==> Lex(keys, x, z))
    && (forall x, y, z :: !Lex(keys, x, y) && !Lex(keys, y, z) ==> !Lex(keys, x, z))
  }

  /** Any list of strict weak orders gives a strict weak order. */
  lemma {:induction false} LexIsStrictWeakOrder<T(!new)>(keys: seq<Key<T>>)
    requires forall k :: 0 <= k < |keys| ==> StrictWeakOrder(keys[k])
    ensures Orders(keys)
  {
    if keys != [] {
      LexIsStrictWeakOrder(keys[1..]);
      forall x, y
        ensures Lex(keys, x, y) ==> !Lex(keys, y, x)
      {
      }
      forall x, y, z
        ensures Lex(keys, x, y) && Lex(keys, y, z) ==> Lex(keys, x, z)
        ensures !Lex(keys, x, y) && !Lex(keys, y, z) ==> !Lex(keys, x, z)
      {
        LexSteps(keys, x, y, z);
      }
    }
  }

  lemma LexSteps<T(!new)>(keys: seq<Key<T>>, x: T, y: T, z: T)
    requires keys != [] && StrictWeakOrder(keys[0]) && Orders(keys[1..])
    ensures Lex(keys, x, y) && Lex(keys, y, z) ==> Lex(keys, x, z)
    ensures !Lex(keys, x, y) && !Lex(keys, y, z) ==> !Lex(keys, x, z)
  {
    var rest := keys[1..];
    assert Lex(rest, x, y) && Lex(rest, y, z) ==> Lex(rest, x, z);
    assert !Lex(rest, x, y) && !Lex(rest, y, z) ==> !Lex(rest, x, z);
  }

  predicate Ties<T>(keys: seq<Key<T>>, x: T, y: T) {
    !Lex(keys, x, y) && !Lex(keys, y, x)
  }

  // ---------------------------------------------------------------- stable descending order

  /** No element is less than a later one. */
  ghost predicate Descending<T>(keys: seq<Key<T>>, s: seq<T>) {
    forall i, j :: 0 <= i < j < |s| ==> !Lex(keys, s[i], s[j])
  }

  /** The elements of `s` that tie with `x`, in their order. */
  function TiedWith<T>(keys: seq<Key<T>>, x: T, s: seq<T>): seq<T> {
    if s == [] then []
    else TiedWith(keys, x, s[..|s| - 1]) + if Ties(keys, x, s[|s| - 1]) then [s[|s| - 1]] else []
  }

  ghost predicate SameTies<T(!new)>(keys: seq<Key<T>>, s: seq<T>, t: seq<T>) {
    forall x :: TiedWith(keys, x, s) == TiedWith(keys, x, t)
  }

  /** `t` is `s` in stable descending order: elements that tie stay in the order that they had. */
  ghost predicate StablySorted<T(!new)>(keys: seq<Key<T>>, s: seq<T>, t: seq<T>) {
    Descending(keys, t) && SameTies(keys, s, t)
  }

  lemma {:induction false} TiedWithConcat<T>(keys: seq<Key<T>>, x: T, s: seq<T>, t: seq<T>)
    ensures TiedWith(keys, x, s + t) == TiedWith(keys, x, s) + TiedWith(keys, x, t)
  {
    if t == [] {
      assert s + t == s;
    } else {
      assert (s + t)[..|s + t| - 1] == s + t[..|t| - 1];
      TiedWithConcat(keys, x, s, t[..|t| - 1]);
    }
  }

  lemma {:induction false} TiedWithCounts<T>(keys: seq<Key<T>>, x: T, s: seq<T>)
    requires Ties(keys, x, x)
    ensures multiset(TiedWith(keys, x, s))[x] == multiset(s)[x]
  {
    if s != [] {
      var init, last := s[..|s| - 1], s[|s| - 1];
      TiedWithCounts(keys, x, init);
      CountLast(x, s);
      if Ties(keys, x, last) {
        CountLast(x, TiedWith(keys, x, init) + [last]);
        assert (TiedWith(keys, x, init) + [last])[..|TiedWith(keys, x, init)|] == TiedWith(keys, x, init);
      } else {
        assert TiedWith(keys, x, s) == TiedWith(keys, x, init) + [] == TiedWith(keys, x, init);
      }
    }
  }

  lemma CountLast<T>(x: T, s: seq<T>)
    requires s != []
    ensures multiset(s)[x] == multiset(s[..|s| - 1])[x] + if s[|s| - 1] == x then 1 else 0
  {
    assert s == s[..|s| - 1] + [s[|s| - 1]];
  }

  /** Keeping every class of ties keeps every element. */
  lemma SameTiesPermute<T(!new)>(keys: seq<Key<T>>, s: seq<T>, t: seq<T>)
    requires Orders(keys) && SameTies(keys, s, t)
    ensures multiset(s) == multiset(t)
  {
    forall x
      ensures multiset(s)[x] == multiset(t)[x]
    {
      TiedWithCounts(keys, x, s);
      TiedWithCounts(keys, x, t);
    }
  }

  /** Swapping two neighbours that do not tie keeps every class of ties. */
  lemma SwapKeepsTies<T(!new)>(keys: seq<Key<T>>, s: seq<T>, j: nat)
    requires Orders(keys) && 0 < j < |s| && Lex(keys, s[j - 1], s[j])
    ensures SameTies(keys, s, s[j - 1 := s[j]][j := s[j - 1]])
  {
    var a, b, before, after := s[j - 1], s[j], s[..j - 1], s[j + 1..];
    var t := s[j - 1 := b][j := a];
    assert s == before + [a, b] + after && t == before + [b, a] + after;
    forall x
      ensures TiedWith(keys, x, s) == TiedWith(keys, x, t)
    {
      TiedWithConcat(keys, x, before + [a, b], after);
      TiedWithConcat(keys, x, before + [b, a], after);
      TiedWithConcat(keys, x, before, [a, b]);
      TiedWithConcat(keys, x, before, [b, a]);
      PairTies(keys, x, a, b);
    }
  }

  lemma PairTies<T(!new)>(keys: seq<Key<T>>, x: T, a: T, b: T)
    requires Orders(keys) && Lex(keys, a, b)
    ensures TiedWith(keys, x, [a, b]) == TiedWith(keys, x, [b, a])
  {
    assert !(Ties(keys, x, a) && Ties(keys, x, b));
    assert [a, b][..1] == [a] && [b, a][..1] == [b] && [a][..0] == [] && [b][..0] == [];
  }

  // ---------------------------------------------------------------- what the order determines

  /** How many elements rank above `x`. */
  ghost function Above<T>(keys: seq<Key<T>>, x: T): T -> int {
    y => if Lex(keys, x, y) then 1 else 0
  }

  lemma {:induction false} AboveBound<T>(keys: seq<Key<T>>, x: T, s: seq<T>, n: nat)
    requires n <= |s|
    ensures (forall j :: n <= j < |s| ==> !Lex(keys, x, s[j])) ==> Sum(Above(keys, x), s) <= n
    ensures (forall j :: 0 <= j < n ==> Lex(keys, x, s[j])) ==> Sum(Above(keys, x), s) >= n
    ensures 0 <= Sum(Above(keys, x), s) <= |s|
  {
    if s != [] {
      var init := s[..|s| - 1];
      AboveBound(keys, x, init, if n < |s| then n else n - 1);
    }
  }

  lemma AllAbove<T(!new)>(keys: seq<Key<T>>, x: T, t: seq<T>, i: nat)
    requires Orders(keys) && Descending(keys, t) && i < |t| && Lex(keys, x, t[i])
    ensures forall j :: 0 <= j <= i ==> Lex(keys, x, t[j])
  {
    forall j | 0 <= j <= i
      ensures Lex(keys, x, t[j])
    {
      assert j == i || !Lex(keys, t[j], t[i]);
    }
  }

  lemma NotBelow<T(!new)>(keys: seq<Key<T>>, s: seq<T>, t: seq<T>, i: nat)
    requires Orders(keys) && Descending(keys, s) && Descending(keys, t) && multiset(s) == multiset(t)
    requires i < |s| && i < |t|
    ensures !Lex(keys, s[i], t[i])
  {
    if Lex(keys, s[i], t[i]) {
      var x := s[i];
      SumPermutation(Above(keys, x), s, t);
      AboveBound(keys, x, s, i);
      AllAbove(keys, x, t, i);
      AboveBound(keys, x, t, i + 1);
      assert false;
    }
  }

  /** Two descending arrangements of the same elements tie position by position. */
  lemma RankingsTie<T(!new)>(keys: seq<Key<T>>, s: seq<T>, t: seq<T>)
    requires Orders(keys) && Descending(keys, s) && Descending(keys, t) && multiset(s) == multiset(t)
    ensures |s| == |t| && forall i :: 0 <= i < |s| ==> Ties(keys, s[i], t[i])
  {
    assert |multiset(s)| == |s| && |multiset(t)| == |t|;
    forall i | 0 <= i < |s|
      ensures Ties(keys, s[i], t[i])
    {
      NotBelow(keys, s, t, i);
      NotBelow(keys, t, s, i);
    }
  }

  /** Where different elements never tie, the ranking does not depend on the order of its input. */
  lemma TotalRankingsAreEqual<T(!new)>(keys: seq<Key<T>>, s: seq<T>, t: seq<T>)
    requires Orders(keys) && Descending(keys, s) && Descending(keys, t) && multiset(s) == multiset(t)
    requires forall x, y :: x in s && y in s && Ties(keys, x, y) ==> x == y
    ensures s == t
  {
    RankingsTie(keys, s, t);
    forall i | 0 <= i < |s|
      ensures s[i] == t[i]
    {
      assert t[i] in multiset(t);
      assert s[i] in s && t[i] in s;
    }
  }

  lemma LastsAgree<T>(s: seq<T>, t: seq<T>, a: T, b: T)
    requires s + [a] == t + [b]
    ensures s == t && a == b
  {
    assert (s + [a])[|s|] == a && (t + [b])[|t|] == b;
    assert (s + [a])[..|s|] == s && (t + [b])[..|t|] == t;
  }

  lemma {:induction false} TiesBefore<T(!new)>(keys: seq<Key<T>>, s: seq<T>, t: seq<T>)
    requires Orders(keys) && |s| == |t| && SameTies(keys, s, t)
    requires forall i :: 0 <= i < |s| ==> Ties(keys, s[i], t[i])
    ensures s == t
  {
    if s != [] {
      var a, b := s[|s| - 1], t[|t| - 1];
      var s', t' := s[..|s| - 1], t[..|t| - 1];
      assert Ties(keys, s[|s| - 1], t[|t| - 1]);
      assert TiedWith(keys, a, s) == TiedWith(keys, a, s') + [a];
      assert TiedWith(keys, a, t) == TiedWith(keys, a, t') + [b];
      assert TiedWith(keys, a, s) == TiedWith(keys, a, t);
      LastsAgree(TiedWith(keys, a, s'), TiedWith(keys, a, t'), a, b);
      forall x
        ensures TiedWith(keys, x, s') == TiedWith(keys, x, t')
      {
        assert TiedWith(keys, x, s) == TiedWith(keys, x, t);
        if !Ties(keys, x, a) {
          assert TiedWith(keys, x, s) == TiedWith(keys, x, s') + [] == TiedWith(keys, x, s');
          assert TiedWith(keys, x, t) == TiedWith(keys, x, t') + [] == TiedWith(keys, x, t');
        } else {
          LastsAgree(TiedWith(keys, x, s'), TiedWith(keys, x, t'), a, b);
        }
      }
      forall i | 0 <= i < |s'|
        ensures Ties(keys, s'[i], t'[i])
      {
        assert Ties(keys, s[i], t[i]);
      }
      TiesBefore(keys, s', t');
      assert s == s' + [a] && t == t' + [b];
    }
  }

  /** There is only one stable descending order: it does not matter how a sort arrives at it. */
  lemma StableOrderIsUnique<T(!new)>(keys: seq<Key<T>>, s: seq<T>, t: seq<T>, u: seq<T>)
    requires Orders(keys) && StablySorted(keys, s, t) && StablySorted(keys, s, u)
    ensures t == u
  {
    assert SameTies(keys, t, u);
    SameTiesPermute(keys, t, u);
    RankingsTie(keys, t, u);
    TiesBefore(keys, t, u);
  }

  // ---------------------------------------------------------------- the first elements

  /** The first `n` elements of the stable descending order of `s`. */
  ghost predicate IsTop<T(!new)>(keys: seq<Key<T>>, s: seq<T>, n: nat, top: seq<T>) {
    exists t :: StablySorted(keys, s, t) && top == t[..Min(n, |t|)]
  }

  /** The top elements are elements of `s`, as many as there can be, and nothing that was left out ranks
      above one of them. */
  lemma NothingBetterIsExcluded<T(!new)>(keys: seq<Key<T>>, s: seq<T>, n: nat, top: seq<T>)
    returns (excluded: seq<T>)
    requires Orders(keys) && IsTop(keys, s, n, top)
    ensures |top| == Min(n, |s|) && Descending(keys, top)
    ensures multiset(top) + multiset(excluded) == multiset(s)
    ensures forall x, y :: x in top && y in excluded ==> !Lex(keys, x, y)
  {
    var t :| StablySorted(keys, s, t) && top == t[..Min(n, |t|)];
    SameTiesPermute(keys, s, t);
    excluded := t[|top|..];
    assert t == top + excluded;
    assert |multiset(s)| == |s| && |multiset(t)| == |t|;
  }

  /** The result is determined by the arguments. */
  lemma TopIsUnique<T(!new)>(keys: seq<Key<T>>, s: seq<T>, n: nat, a: seq<T>, b: seq<T>)
    requires Orders(keys) && IsTop(keys, s, n, a) && IsTop(keys, s, n, b)
    ensures a == b
  {
    var t :| StablySorted(keys, s, t) && a == t[..Min(n, |t|)];
    var u :| StablySorted(keys, s, u) && b == u[..Min(n, |u|)];
    StableOrderIsUnique(keys, s, t, u);
  }

  /** The tops of two arrangements of the same elements tie position by position. */
  lemma TopsTie<T(!new)>(keys: seq<Key<T>>, s: seq<T>, t: seq<T>, n: nat, a: seq<T>, b: seq<T>)
    requires Orders(keys) && IsTop(keys, s, n, a) && IsTop(keys, t, n, b) && multiset(s) == multiset(t)
    ensures |a| == |b| && forall i :: 0 <= i < |a| ==> Ties(keys, a[i], b[i])
  {
    var s' :| StablySorted(keys, s, s') && a == s'[..Min(n, |s'|)];
    var t' :| StablySorted(keys, t, t') && b == t'[..Min(n, |t'|)];
    SameTiesPermute(keys, s, s');
    SameTiesPermute(keys, t, t');
    RankingsTie(keys, s', t');
    forall i | 0 <= i < |a|
      ensures Ties(keys, a[i], b[i])
    {
      assert Ties(keys, s'[i], t'[i]);
    }
  }

  /** Where different elements never tie, the top does not depend on the order of its input. */
  lemma TotalTopsAreEqual<T(!new)>(keys: seq<Key<T>>, s: seq<T>, t: seq<T>, n: nat, a: seq<T>, b: seq<T>)
    requires Orders(keys) && IsTop(keys, s, n, a) && IsTop(keys, t, n, b) && multiset(s) == multiset(t)
    requires forall x, y :: x in s && y in s && Ties(keys, x, y) ==> x == y
    ensures a == b
  {
    var s' :| StablySorted(keys, s, s') && a == s'[..Min(n, |s'|)];
    var t' :| StablySorted(keys, t, t') && b == t'[..Min(n, |t'|)];
    SameTiesPermute(keys, s, s');
    SameTiesPermute(keys, t, t');
    forall x | x in s'
      ensures x in s
    {
      assert x in multiset(s');
    }
    TotalRankingsAreEqual(keys, s', t');
  }

  // ---------------------------------------------------------------- the sorter

  /** Sorts items by several keys, as the standard library's stable sort does: through `Less` and `Swap`. */
  /** Everything up to `end` is in order, except that `j` may rank above what precedes it. */
  ghost predicate SortedBut<T>(keys: seq<Key<T>>, s: seq<T>, j: nat, end: nat)
    requires end < |s|
  {
    && (forall p, q :: 0 <= p < q <= end && q != j && p != j ==> !Lex(keys, s[p], s[q]))
    && (forall q :: j < q <= end ==> !Lex(keys, s[j], s[q]))
  }

  lemma StartsSorted<T>(keys: seq<Key<T>>, s: seq<T>, end: nat)
    requires end < |s| && Descending(keys, s[..end])
    ensures SortedBut(keys, s, end, end)
  {
    assert forall p, q :: 0 <= p < q < end ==> s[..end][p] == s[p] && s[..end][q] == s[q];
  }

  lemma SwapKeepsSorted<T>(keys: seq<Key<T>>, s: seq<T>, j: nat, end: nat)
    requires 0 < j <= end < |s| && SortedBut(keys, s, j, end) && Lex(keys, s[j - 1], s[j])
    requires !Lex(keys, s[j], s[j - 1])
    ensures SortedBut(keys, s[j - 1 := s[j]][j := s[j - 1]], j - 1, end)
  {
  }

  lemma EndsSorted<T(!new)>(keys: seq<Key<T>>, s: seq<T>, j: nat, end: nat)
    requires Orders(keys) && j <= end < |s| && SortedBut(keys, s, j, end)
    requires j > 0 ==> !Lex(keys, s[j - 1], s[j])
    ensures Descending(keys, s[..end + 1])
  {
    forall p, q | 0 <= p < q <= end
      ensures !Lex(keys, s[p], s[q])
    {
      if q == j {
        assert !Lex(keys, s[j - 1], s[j]);
        assert p == j - 1 || !Lex(keys, s[p], s[j - 1]);
      }
    }
  }

  class MultiSorter<T(!new)> {
    var items: array<T>
    const keys: seq<Key<T>>

    constructor OrderedBy(keys: seq<Key<T>>)
      requires keys != []
      ensures this.keys == keys && fresh(items)
    {
      this.keys := keys;
      items := new T[0];
    }

    /** Tries all keys but the last in turn; the last one decides alone. */
    method Less(i: nat, j: nat) returns (less: bool)
      requires keys != [] && i < items.Length && j < items.Length
      ensures less <==> Lexicographic(keys, items[i], items[j])
    {
      var p, q := items[i], items[j];
      var k := 0;
      while k < |keys| - 1
        invariant 0 <= k < |keys|
        invariant forall j :: 0 <= j < k ==> Tied(keys[j], p, q)
      {
        if keys[k](p, q) {
          return true;
        }
        if keys[k](q, p) {
          assert !Tied(keys[k], p, q);
          return false;
        }
        k := k + 1;
      }
      less := keys[k](p, q);
    }

    method Swap(i: nat, j: nat)
      requires i < items.Length && j < items.Length
      modifies items
      ensures items[..] == old(items[..])[i := old(items[j])][j := old(items[i])]
    {
      items[i], items[j] := items[j], items[i];
    }

    /** Moves the item at `end` forward past the items that rank below it. */
    method Insert(end: nat)
      requires keys != [] && Orders(keys) && end < items.Length && Descending(keys, items[..end])
      modifies items
      ensures Descending(keys, items[..end + 1]) && SameTies(keys, old(items[..]), items[..])
    {
      var j := end;
      StartsSorted(keys, items[..], end);
      while j > 0
        invariant 0 <= j <= end && items == old(items)
        invariant SortedBut(keys, items[..], j, end) && SameTies(keys, old(items[..]), items[..])
      {
        var less := Less(j - 1, j);
        LexIsLexicographic(keys, items[j - 1], items[j]);
        if !less {
          break;
        }
        SwapKeepsTies(keys, items[..], j);
        SwapKeepsSorted(keys, items[..], j, end);
        Swap(j - 1, j);
        j := j - 1;
      }
      EndsSorted(keys, items[..], j, end);
    }

    /** Sorts the items in place, in stable descending order. */
    method SortDesc(list: array<T>)
      requires keys != [] && Orders(keys)
      modifies this, list
      ensures items == list && StablySorted(keys, old(list[..]), list[..])
    {
      items := list;
      var end := 0;
      while end < items.Length
        invariant 0 <= end <= list.Length && items == list
        invariant Descending(keys, items[..end]) && SameTies(keys, old(list[..]), items[..])
      {
        Insert(end);
        end := end + 1;
      }
      assert items[..end] == items[..];
    }
  }
}
