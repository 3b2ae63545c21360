/** When the top of a ranking depends on the order of its input. */
module TopOrder {
  import opened Collections
  import opened Ranking

  /** How many elements of `s` rank above `x`. */
  ghost function Rank<T>(keys: seq<Key<T>>, x: T, s: seq<T>): int {
    Sum(Above(keys, x), s)
  }

  // ---------------------------------------------------------------- every list can be ranked

  lemma AppendKeepsTies<T(!new)>(keys: seq<Key<T>>, s: seq<T>, t: seq<T>, z: T)
    requires SameTies(keys, s, t)
    ensures SameTies(keys, s + [z], t + [z])
  {
    forall x
      ensures TiedWith(keys, x, s + [z]) == TiedWith(keys, x, t + [z])
    {
      TiedWithConcat(keys, x, s, [z]);
      TiedWithConcat(keys, x, t, [z]);
    }
  }

  lemma SwapLastTwo<T(!new)>(keys: seq<Key<T>>, s: seq<T>, z: T, x: T)
    requires Orders(keys) && Lex(keys, z, x)
    ensures SameTies(keys, s + [z] + [x], s + [x] + [z])
  {
    var both := s + [z] + [x];
    SwapKeepsTies(keys, both, |s| + 1);
    assert both[|s| := x][|s| + 1 := z] == s + [x] + [z];
  }

  lemma DescendsBefore<T(!new)>(keys: seq<Key<T>>, s: seq<T>, z: T)
    requires Descending(keys, s) && forall y :: y in s ==> !Lex(keys, y, z)
    ensures Descending(keys, s + [z])
  {
  }

  /** Inserts one more element behind everything that it does not rank above. */
  lemma {:induction false} InsertStably<T(!new)>(keys: seq<Key<T>>, s: seq<T>, x: T) returns (t: seq<T>)
    requires Orders(keys) && Descending(keys, s)
    ensures StablySorted(keys, s + [x], t)
  {
    if s == [] || !Lex(keys, s[|s| - 1], x) {
      t := s + [x];
      forall y | y in s
        ensures !Lex(keys, y, x)
      {
        LastIsLeast(keys, s, y);
      }
      DescendsBefore(keys, s, x);
    } else {
      var init, z := s[..|s| - 1], s[|s| - 1];
      var u := InsertStably(keys, init, x);
      t := u + [z];
      InsertedBefore(keys, init, z, x, u);
      assert s + [x] == init + [z] + [x];
    }
  }

  lemma LastIsLeast<T(!new)>(keys: seq<Key<T>>, s: seq<T>, y: T)
    requires Orders(keys) && Descending(keys, s) && y in s
    ensures !Lex(keys, y, s[|s| - 1])
  {
    var i :| 0 <= i < |s| && s[i] == y;
    assert i == |s| - 1 || !Lex(keys, s[i], s[|s| - 1]);
  }

  lemma InsertedBefore<T(!new)>(keys: seq<Key<T>>, init: seq<T>, z: T, x: T, u: seq<T>)
    requires Orders(keys) && Descending(keys, init + [z]) && Lex(keys, z, x) && StablySorted(keys, init + [x], u)
    ensures StablySorted(keys, init + [z] + [x], u + [z])
  {
    SameTiesPermute(keys, init + [x], u);
    forall y | y in u
      ensures !Lex(keys, y, z)
    {
      assert y in multiset(u) && y in multiset(init + [x]);
      if y in init {
        LastIsLeast(keys, init + [z], y);
      }
    }
    DescendsBefore(keys, u, z);
    AppendKeepsTies(keys, init + [x], u, z);
    SwapLastTwo(keys, init, z, x);
  }

  /** Every list has a stable descending order. */
  lemma {:induction false} StableOrderExists<T(!new)>(keys: seq<Key<T>>, s: seq<T>) returns (t: seq<T>)
    requires Orders(keys)
    ensures StablySorted(keys, s, t)
  {
    if s == [] {
      t := [];
    } else {
      var init, last := s[..|s| - 1], s[|s| - 1];
      var sorted := StableOrderExists(keys, init);
      t := InsertStably(keys, sorted, last);
      AppendKeepsTies(keys, init, sorted, last);
      assert s == init + [last];
    }
  }

  // ---------------------------------------------------------------- where an element stands

  /** The first element that ties with `x`. */
  lemma {:induction false} FirstTied<T>(keys: seq<Key<T>>, x: T, t: seq<T>) returns (q: nat)
    requires TiedWith(keys, x, t) != []
    ensures q < |t| && Ties(keys, x, t[q]) && TiedWith(keys, x, t)[0] == t[q]
    ensures forall j :: 0 <= j < q ==> !Ties(keys, x, t[j])
  {
    var init := t[..|t| - 1];
    if TiedWith(keys, x, init) != [] {
      q := FirstTied(keys, x, init);
    } else {
      q := |t| - 1;
      NothingTied(keys, x, init);
    }
  }

  lemma {:induction false} NothingTied<T>(keys: seq<Key<T>>, x: T, t: seq<T>)
    requires TiedWith(keys, x, t) == []
    ensures forall j :: 0 <= j < |t| ==> !Ties(keys, x, t[j])
  {
    if t != [] {
      NothingTied(keys, x, t[..|t| - 1]);
    }
  }

  /** In descending order exactly the elements before the first tie rank above `x`. */
  lemma RankIsPosition<T(!new)>(keys: seq<Key<T>>, x: T, t: seq<T>, q: nat)
    requires Orders(keys) && Descending(keys, t) && q < |t| && Ties(keys, x, t[q])
    requires forall j :: 0 <= j < q ==> !Ties(keys, x, t[j])
    ensures Rank(keys, x, t) == q
  {
    forall j | 0 <= j < |t|
      ensures Lex(keys, x, t[j]) <==> j < q
    {
      StandsBefore(keys, x, t, q, j);
    }
    AboveBound(keys, x, t, q);
  }

  lemma StandsBefore<T(!new)>(keys: seq<Key<T>>, x: T, t: seq<T>, q: nat, j: nat)
    requires Orders(keys) && Descending(keys, t) && q < |t| && Ties(keys, x, t[q]) && j < |t|
    requires j < q ==> !Ties(keys, x, t[j])
    ensures Lex(keys, x, t[j]) <==> j < q
  {
    if j < q {
      assert !Lex(keys, t[j], t[q]) && !Lex(keys, t[q], x);
    } else {
      assert j == q || !Lex(keys, t[q], t[j]);
    }
  }

  /** What comes first in the input comes first among its ties: at the position that its rank says. */
  lemma FirstStandsAtRank<T(!new)>(keys: seq<Key<T>>, x: T, rest: seq<T>, t: seq<T>)
    requires Orders(keys) && StablySorted(keys, [x] + rest, t)
    ensures 0 <= Rank(keys, x, [x] + rest) < |t| && t[Rank(keys, x, [x] + rest)] == x
  {
    TiedWithConcat(keys, x, [x], rest);
    assert [x][..0] == [] && TiedWith(keys, x, [x]) == TiedWith(keys, x, []) + [x] == [x];
    assert TiedWith(keys, x, t) == TiedWith(keys, x, [x] + rest);
    var q := FirstTied(keys, x, t);
    RankIsPosition(keys, x, t, q);
    SameTiesPermute(keys, [x] + rest, t);
    SumPermutation(Above(keys, x), [x] + rest, t);
  }

  lemma RankInTop<T(!new)>(keys: seq<Key<T>>, s: seq<T>, t: seq<T>, i: nat)
    requires Orders(keys) && StablySorted(keys, s, t) && i < |t|
    ensures Rank(keys, t[i], s) <= i
  {
    SameTiesPermute(keys, s, t);
    SumPermutation(Above(keys, t[i]), s, t);
    forall j | i <= j < |t|
      ensures !Lex(keys, t[i], t[j])
    {
      assert j == i || !Lex(keys, t[i], t[j]);
    }
    AboveBound(keys, t[i], t, i);
  }

  // ---------------------------------------------------------------- when the top is determined

  /** Different elements that tie stand behind the first `n`. */
  ghost predicate TiesBehind<T>(keys: seq<Key<T>>, s: seq<T>, n: nat) {
    forall x, y :: x in s && y in s && x != y && Ties(keys, x, y) ==> Rank(keys, x, s) >= n
  }

  /** Then the top is the same for every arrangement. */
  lemma TopIsDetermined<T(!new)>(keys: seq<Key<T>>, s: seq<T>, t: seq<T>, n: nat, a: seq<T>, b: seq<T>)
    requires Orders(keys) && IsTop(keys, s, n, a) && IsTop(keys, t, n, b) && multiset(s) == multiset(t)
    requires TiesBehind(keys, s, n)
    ensures a == b
  {
    TopsTie(keys, s, t, n, a, b);
    forall i | 0 <= i < |a|
      ensures a[i] == b[i]
    {
      TopElement(keys, s, n, a, i);
      TopElement(keys, t, n, b, i);
      assert b[i] in multiset(t) && b[i] in multiset(s);
    }
  }

  lemma TopElement<T(!new)>(keys: seq<Key<T>>, s: seq<T>, n: nat, top: seq<T>, i: nat)
    requires Orders(keys) && IsTop(keys, s, n, top) && i < |top|
    ensures top[i] in s && Rank(keys, top[i], s) < n
  {
    var t :| StablySorted(keys, s, t) && top == t[..Min(n, |t|)];
    RankInTop(keys, s, t, i);
    SameTiesPermute(keys, s, t);
    assert t[i] in multiset(t) && t[i] in multiset(s);
  }

  /** The element that comes first stands in the top if its rank allows. */
  lemma FirstIsInTop<T(!new)>(keys: seq<Key<T>>, x: T, rest: seq<T>, n: nat) returns (top: seq<T>)
    requires Orders(keys) && Rank(keys, x, [x] + rest) < n
    ensures IsTop(keys, [x] + rest, n, top)
    ensures 0 <= Rank(keys, x, [x] + rest) < |top| && top[Rank(keys, x, [x] + rest)] == x
  {
    var t := StableOrderExists(keys, [x] + rest);
    FirstStandsAtRank(keys, x, rest, t);
    top := t[..Min(n, |t|)];
  }
}
