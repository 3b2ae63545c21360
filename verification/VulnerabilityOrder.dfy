/** When the ranking of vulnerabilities depends on the order in which the counted map is listed. */
module VulnerabilityOrder {
  import opened Collections
  import opened Ranking
  import opened TopOrder
  import opened VulnerabilityRanking

  type Counted = map<string, VulnerabilityWithCount>

  /** The ids with a higher score. */
  function Higher(m: Counted, score: real): set<string> {
    set id | id in m && ScoreOf(m[id]) > score
  }

  /** Two orders of the map give different tops. */
  ghost predicate TopsDiffer(m: Counted, n: nat, ids: seq<string>, others: seq<string>,
                             a: seq<VulnerabilityWithCount>, b: seq<VulnerabilityWithCount>) {
    && Enumerates(ids, m.Keys) && Enumerates(others, m.Keys)
    && IsTop(BY_SCORE, Listed(m, ids), n, a) && IsTop(BY_SCORE, Listed(m, others), n, b)
    && a != b
  }

  /** Ids with one score and different entries have at least `n` ids above them. */
  predicate TiesAreBehind(m: Counted, n: nat) {
    forall x, y :: x in m && y in m && m[x] != m[y] && ScoreOf(m[x]) == ScoreOf(m[y]) ==>
      |Higher(m, ScoreOf(m[x]))| >= n
  }

  lemma {:induction false} RankCounts(m: Counted, v: VulnerabilityWithCount, ids: seq<string>)
    requires (forall i :: 0 <= i < |ids| ==> ids[i] in m) && forall i, j :: 0 <= i < j < |ids| ==> ids[i] != ids[j]
    ensures Rank(BY_SCORE, v, Listed(m, ids)) == |Elements(ids) * Higher(m, ScoreOf(v))|
  {
    if ids == [] {
      assert Elements(ids) * Higher(m, ScoreOf(v)) == {};
    } else {
      var init, last := ids[..|ids| - 1], ids[|ids| - 1];
      RankCounts(m, v, init);
      RankAppend(m, v, ids);
      MeetAppend(ids, Higher(m, ScoreOf(v)));
    }
  }

  lemma RankAppend(m: Counted, v: VulnerabilityWithCount, ids: seq<string>)
    requires ids != [] && ids[|ids| - 1] in m
    ensures var last := ids[|ids| - 1];
            Rank(BY_SCORE, v, Listed(m, ids))
            == Rank(BY_SCORE, v, Listed(m, ids[..|ids| - 1])) + if last in Higher(m, ScoreOf(v)) then 1 else 0
  {
    ByScoreOrders();
    assert Listed(m, ids)[..|ids| - 1] == Listed(m, ids[..|ids| - 1]);
  }

  lemma MeetAppend(ids: seq<string>, some: set<string>)
    requires ids != [] && forall i, j :: 0 <= i < j < |ids| ==> ids[i] != ids[j]
    ensures var init, last := ids[..|ids| - 1], ids[|ids| - 1];
            |Elements(ids) * some| == |Elements(init) * some| + if last in some then 1 else 0
  {
    var init, last := ids[..|ids| - 1], ids[|ids| - 1];
    assert ids == init + [last] && last !in init;
    assert Elements(ids) * some == Elements(init) * some + if last in some then {last} else {};
  }

  lemma RankIsHigher(m: Counted, v: VulnerabilityWithCount, ids: seq<string>)
    requires Enumerates(ids, m.Keys)
    ensures Rank(BY_SCORE, v, Listed(m, ids)) == |Higher(m, ScoreOf(v))|
  {
    RankCounts(m, v, ids);
    assert Elements(ids) * Higher(m, ScoreOf(v)) == Higher(m, ScoreOf(v));
  }

  lemma TiesBehindInList(m: Counted, n: nat, ids: seq<string>)
    requires TiesAreBehind(m, n) && Enumerates(ids, m.Keys)
    ensures TiesBehind(BY_SCORE, Listed(m, ids), n)
  {
    ByScoreOrders();
    var s := Listed(m, ids);
    forall v, w | v in s && w in s && v != w && Ties(BY_SCORE, v, w)
      ensures Rank(BY_SCORE, v, s) >= n
    {
      var i, j :| 0 <= i < |ids| && s[i] == v && 0 <= j < |ids| && s[j] == w;
      assert ids[i] in m && ids[j] in m && m[ids[i]] == v && m[ids[j]] == w;
      RankIsHigher(m, v, ids);
    }
  }

  lemma SameTop(m: Counted, n: nat, ids: seq<string>, others: seq<string>,
                a: seq<VulnerabilityWithCount>, b: seq<VulnerabilityWithCount>)
    requires TiesAreBehind(m, n)
    ensures !TopsDiffer(m, n, ids, others, a, b)
  {
    if TopsDiffer(m, n, ids, others, a, b) {
      ByScoreOrders();
      TiesBehindInList(m, n, ids);
      EnumerationsPermute(ids, others, m.Keys);
      MapPermutation(Lookup(m), ids, others);
      TopIsDetermined(BY_SCORE, Listed(m, ids), Listed(m, others), n, a, b);
    }
  }

  /** An order of the map that lists `x` first, and a top that shows it. */
  lemma TopWithFirst(m: Counted, n: nat, x: string) returns (ids: seq<string>, top: seq<VulnerabilityWithCount>)
    requires x in m && |Higher(m, ScoreOf(m[x]))| < n
    ensures Enumerates(ids, m.Keys) && IsTop(BY_SCORE, Listed(m, ids), n, top)
    ensures |Higher(m, ScoreOf(m[x]))| < |top| && top[|Higher(m, ScoreOf(m[x]))|] == m[x]
  {
    var rest := Listing(m.Keys - {x});
    ids := [x] + rest;
    ByScoreOrders();
    assert Listed(m, ids) == [m[x]] + Listed(m, rest);
    RankIsHigher(m, m[x], ids);
    top := FirstIsInTop(BY_SCORE, m[x], Listed(m, rest), n);
  }

  lemma DifferentTops(m: Counted, n: nat, x: string, y: string)
    returns (ids: seq<string>, others: seq<string>, a: seq<VulnerabilityWithCount>, b: seq<VulnerabilityWithCount>)
    requires x in m && y in m && m[x] != m[y] && ScoreOf(m[x]) == ScoreOf(m[y])
    requires |Higher(m, ScoreOf(m[x]))| < n
    ensures TopsDiffer(m, n, ids, others, a, b)
  {
    ids, a := TopWithFirst(m, n, x);
    others, b := TopWithFirst(m, n, y);
  }

  /** The returned list is the same for every order of the map exactly when ids with one score and different
      entries have at least `n` ids above them. */
  lemma TopIsDeterminedIff(m: Counted, n: nat)
    ensures TiesAreBehind(m, n) <==> forall ids, others, a, b :: !TopsDiffer(m, n, ids, others, a, b)
  {
    if TiesAreBehind(m, n) {
      forall ids, others, a, b
        ensures !TopsDiffer(m, n, ids, others, a, b)
      {
        SameTop(m, n, ids, others, a, b);
      }
    } else {
      var x, y :| x in m && y in m && m[x] != m[y] && ScoreOf(m[x]) == ScoreOf(m[y])
                  && |Higher(m, ScoreOf(m[x]))| < n;
      var ids, others, a, b := DifferentTops(m, n, x, y);
    }
  }

  /** For the vulnerabilities of some reports, whose entries differ with their ids. */
  lemma TopVulnerabilitiesAreDeterminedIff(reports: seq<ImageReport>, n: nat)
    ensures var m := Tallied(Hits(reports));
            (forall x, y :: x in m && y in m && x != y && ScoreOf(m[x]) == ScoreOf(m[y]) ==>
               |Higher(m, ScoreOf(m[x]))| >= n)
            <==> forall ids, others, a, b :: !TopsDiffer(m, n, ids, others, a, b)
  {
    var m := Tallied(Hits(reports));
    forall x | x in m
      ensures m[x].vulnerability.id == x
    {
      EntriesHaveScores(reports, x);
    }
    TopIsDeterminedIff(m, n);
  }

  /** Two vulnerabilities with one score: the order of the map decides which of them is the top. */
  lemma TieFollowsOrder(x: string, y: string, a: VulnerabilityWithCount, b: VulnerabilityWithCount)
    requires x != y && a != b && ScoreOf(a) == ScoreOf(b)
    ensures TopsDiffer(map[x := a, y := b], 1, [x, y], [y, x], [a], [b])
  {
    var m := map[x := a, y := b];
    ByScoreOrders();
    assert Listed(m, [x, y]) == [a, b] && Listed(m, [y, x]) == [b, a];
    assert StablySorted(BY_SCORE, [a, b], [a, b]) && [a, b][..1] == [a];
    assert StablySorted(BY_SCORE, [b, a], [b, a]) && [b, a][..1] == [b];
  }
}
