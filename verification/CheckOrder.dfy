/** When the ranking of failed checks depends on the order in which the containers of a report are visited. */
module CheckOrder {
  import opened Collections
  import opened Ranking
  import opened Tally
  import opened CheckRanking

  /** An entry without the text, which no key looks at. */
  function Ranked(c: CheckWithCount): CheckWithCount {
    c.(check := c.check.(text := ""))
  }

  lemma RankedCompares(x: CheckWithCount, y: CheckWithCount)
    ensures Lex(CHECK_COMPARE, x, y) <==> Lex(CHECK_COMPARE, Ranked(x), Ranked(y))
  {
    assert CHECK_COMPARE[1..] == [LaterSeverity, LaterId];
    assert CHECK_COMPARE[1..][1..] == [LaterId] && CHECK_COMPARE[1..][1..][1..] == [];
    assert Lex([LaterId], x, y) <==> Lex([LaterId], Ranked(x), Ranked(y));
    assert Lex([LaterSeverity, LaterId], x, y) <==> Lex([LaterSeverity, LaterId], Ranked(x), Ranked(y));
  }

  lemma RankedDescends(s: seq<CheckWithCount>)
    requires Descending(CHECK_COMPARE, s)
    ensures Descending(CHECK_COMPARE, MapSeq(Ranked, s))
  {
    var t := MapSeq(Ranked, s);
    forall i, j | 0 <= i < j < |t|
      ensures !Lex(CHECK_COMPARE, t[i], t[j])
    {
      RankedCompares(s[i], s[j]);
    }
  }

  /** The first failing check with the id in one container. */
  function FirstIn(r: AuditReport, name: string, id: string): Option<Check> {
    First(CheckId, FailingIn(r.containerChecks)(name), id)
  }

  /** The first report in which the id fails leaves no choice of what is seen of the check: a pod check fails, or
      the first failing checks of its containers look the same. */
  predicate Agrees<U(==)>(view: Check -> U, reports: seq<AuditReport>, id: string) {
    reports == [] ||
    var n := |reports| - 1;
    if Sum(Failures(id), reports[..n]) > 0 then Agrees(view, reports[..n], id)
    else ReportAgrees(view, reports[n], id)
  }

  predicate ReportAgrees<U(==)>(view: Check -> U, r: AuditReport, id: string) {
    || First(CheckId, Failing(r.podChecks), id).Some?
    || forall x, y ::
         && x in r.containerChecks && FirstIn(r, x, id).Some?
         && y in r.containerChecks && FirstIn(r, y, id).Some?
         ==> view(FirstIn(r, x, id).value) == view(FirstIn(r, y, id).value)
  }

  lemma {:induction false} FirstInSomeContainer(r: AuditReport, order: seq<string>, id: string)
    ensures var first := First(CheckId, FlatMap(FailingIn(r.containerChecks), order), id);
            first.Some? ==> exists x :: x in order && FirstIn(r, x, id) == first
  {
    if order != [] {
      var init, last := order[..|order| - 1], order[|order| - 1];
      FirstInSomeContainer(r, init, id);
      var f := FailingIn(r.containerChecks);
      FirstConcat(CheckId, FlatMap(f, init), f(last), id);
      if First(CheckId, FlatMap(f, init), id).Some? {
        var x :| x in init && FirstIn(r, x, id) == First(CheckId, FlatMap(f, init), id);
        assert x in order;
      } else {
        assert last in order && FirstIn(r, last, id) == First(CheckId, FlatMap(f, order), id);
      }
    }
  }

  lemma FirstContainerDecides(r: AuditReport, x: string, rest: seq<string>, id: string)
    requires FirstIn(r, x, id).Some?
    ensures First(CheckId, FlatMap(FailingIn(r.containerChecks), [x] + rest), id) == FirstIn(r, x, id)
  {
    var f := FailingIn(r.containerChecks);
    FlatMapConcat(f, [x], rest);
    assert [x][..0] == [] && FlatMap(f, [x]) == FlatMap(f, []) + f(x) == f(x);
    FirstConcat(CheckId, f(x), FlatMap(f, rest), id);
  }

  lemma FirstReportHit(r: AuditReport, order: seq<string>, id: string)
    ensures var pod := First(CheckId, Failing(r.podChecks), id);
            First(CheckId, ReportHits(r, order), id)
            == if pod.Some? then pod else First(CheckId, FlatMap(FailingIn(r.containerChecks), order), id)
  {
    var all := FlatMap(FailingIn(r.containerChecks), order);
    FirstConcat(CheckId, Failing(r.podChecks), Dedupe(CheckId, all), id);
    DedupeCounts(CheckId, all, id);
  }

  /** The first hit comes from the first report in which the id fails. */
  lemma FirstHit(reports: seq<AuditReport>, orders: seq<seq<string>>, id: string)
    requires Visits(reports, orders) && reports != []
    ensures var n := |reports| - 1;
            First(CheckId, Hits(reports, orders), id)
            == if Sum(Failures(id), reports[..n]) > 0 then First(CheckId, Hits(reports[..n], orders[..n]), id)
               else First(CheckId, ReportHits(reports[n], orders[n]), id)
  {
    var n := |reports| - 1;
    HitsCount(reports[..n], orders[..n], id);
    CountIff(CheckId, Hits(reports[..n], orders[..n]), id);
    FirstConcat(CheckId, Hits(reports[..n], orders[..n]), ReportHits(reports[n], orders[n]), id);
  }

  lemma SameReportView<U>(view: Check -> U, r: AuditReport, a: seq<string>, b: seq<string>, id: string)
    requires Enumerates(a, r.containerChecks.Keys) && Enumerates(b, r.containerChecks.Keys)
    requires ReportAgrees(view, r, id)
    ensures var x, y := First(CheckId, ReportHits(r, a), id), First(CheckId, ReportHits(r, b), id);
            x.Some? && y.Some? ==> view(x.value) == view(y.value)
  {
    FirstReportHit(r, a, id);
    FirstReportHit(r, b, id);
    FirstInSomeContainer(r, a, id);
    FirstInSomeContainer(r, b, id);
  }

  lemma {:induction false} SameView<U>(
    view: Check -> U, reports: seq<AuditReport>, a: seq<seq<string>>, b: seq<seq<string>>, id: string)
    requires Visits(reports, a) && Visits(reports, b) && Agrees(view, reports, id)
    ensures var x, y := First(CheckId, Hits(reports, a), id), First(CheckId, Hits(reports, b), id);
            x.Some? && y.Some? ==> view(x.value) == view(y.value)
  {
    if reports != [] {
      var n := |reports| - 1;
      FirstHit(reports, a, id);
      FirstHit(reports, b, id);
      if Sum(Failures(id), reports[..n]) > 0 {
        SameView(view, reports[..n], a[..n], b[..n], id);
      } else {
        SameReportView(view, reports[n], a[n], b[n], id);
      }
    }
  }

  lemma {:induction false} SomeOrders(reports: seq<AuditReport>) returns (orders: seq<seq<string>>)
    ensures Visits(reports, orders)
  {
    if reports == [] {
      orders := [];
    } else {
      var n := |reports| - 1;
      orders := SomeOrders(reports[..n]);
      var order := Listing(reports[n].containerChecks.Keys);
      VisitsAppend(reports[..n], orders, reports[n], order);
      PrefixStep(reports, n);
      WholePrefix(reports);
      orders := orders + [order];
    }
  }

  /** An order that visits `x` first. */
  lemma OrderFrom(r: AuditReport, x: string) returns (order: seq<string>, rest: seq<string>)
    requires x in r.containerChecks
    ensures order == [x] + rest && Enumerates(order, r.containerChecks.Keys)
  {
    rest := Listing(r.containerChecks.Keys - {x});
    order := [x] + rest;
  }

  /** Extends orders for all but the last report. */
  lemma Extended(reports: seq<AuditReport>, orders: seq<seq<string>>, order: seq<string>)
    requires reports != [] && Visits(reports[..|reports| - 1], orders)
    requires Enumerates(order, reports[|reports| - 1].containerChecks.Keys)
    ensures Visits(reports, orders + [order])
    ensures (orders + [order])[..|reports| - 1] == orders
  {
    var n := |reports| - 1;
    VisitsAppend(reports[..n], orders, reports[n], order);
    PrefixStep(reports, n);
    WholePrefix(reports);
  }

  ghost predicate ViewsDiffer<U>(
    view: Check -> U, reports: seq<AuditReport>, a: seq<seq<string>>, b: seq<seq<string>>, id: string) {
    && Visits(reports, a) && Visits(reports, b)
    && var x, y := First(CheckId, Hits(reports, a), id), First(CheckId, Hits(reports, b), id);
       x.Some? && y.Some? && view(x.value) != view(y.value)
  }

  lemma {:induction false} DifferentViews<U>(view: Check -> U, reports: seq<AuditReport>, id: string)
    returns (a: seq<seq<string>>, b: seq<seq<string>>)
    requires !Agrees(view, reports, id)
    ensures ViewsDiffer(view, reports, a, b, id)
  {
    var n := |reports| - 1;
    if Sum(Failures(id), reports[..n]) > 0 {
      a, b := DifferentViews(view, reports[..n], id);
      var order := Listing(reports[n].containerChecks.Keys);
      Extended(reports, a, order);
      Extended(reports, b, order);
      a, b := a + [order], b + [order];
    } else {
      var first := SomeOrders(reports[..n]);
      var orderA, orderB := DisagreeingOrders(view, reports[n], id);
      Extended(reports, first, orderA);
      Extended(reports, first, orderB);
      a, b := first + [orderA], first + [orderB];
    }
    FirstHit(reports, a, id);
    FirstHit(reports, b, id);
  }

  lemma DisagreeingOrders<U>(view: Check -> U, r: AuditReport, id: string) returns (a: seq<string>, b: seq<string>)
    requires !ReportAgrees(view, r, id)
    ensures Enumerates(a, r.containerChecks.Keys) && Enumerates(b, r.containerChecks.Keys)
    ensures var x, y := First(CheckId, ReportHits(r, a), id), First(CheckId, ReportHits(r, b), id);
            x.Some? && y.Some? && view(x.value) != view(y.value)
  {
    var x, y :| x in r.containerChecks && y in r.containerChecks && FirstIn(r, x, id).Some? && FirstIn(r, y, id).Some?
                && view(FirstIn(r, x, id).value) != view(FirstIn(r, y, id).value);
    var restA, restB;
    a, restA := OrderFrom(r, x);
    b, restB := OrderFrom(r, y);
    FirstContainerDecides(r, x, restA, id);
    FirstContainerDecides(r, y, restB, id);
    FirstReportHit(r, a, id);
    FirstReportHit(r, b, id);
  }

  /** What is seen of the check that stands for an id is the same for every order of the containers exactly when
      the first report in which the id fails leaves no choice. */
  lemma ViewIsDeterminedIff<U(!new)>(view: Check -> U, reports: seq<AuditReport>, id: string)
    ensures Agrees(view, reports, id) <==> forall a, b :: !ViewsDiffer(view, reports, a, b, id)
  {
    if Agrees(view, reports, id) {
      forall a, b
        ensures !ViewsDiffer(view, reports, a, b, id)
      {
        if Visits(reports, a) && Visits(reports, b) {
          SameView(view, reports, a, b, id);
        }
      }
    } else {
      var a, b := DifferentViews(view, reports, id);
    }
  }

  function Severity(c: Check): string { c.severity }

  function Whole(c: Check): Check { c }

  /** If no id leaves a choice of its check, the counted map is the same for every order of the containers. */
  lemma CountedMapIsDetermined(reports: seq<AuditReport>, a: seq<seq<string>>, b: seq<seq<string>>)
    requires Visits(reports, a) && Visits(reports, b) && forall id :: Agrees(Whole, reports, id)
    ensures Tallied(Hits(reports, a)) == Tallied(Hits(reports, b))
  {
    SameKeys(reports, a, b);
    forall id | id in Tallied(Hits(reports, a))
      ensures Tallied(Hits(reports, a))[id] == Tallied(Hits(reports, b))[id]
    {
      CountsAreExact(reports, a, id);
      CountsAreExact(reports, b, id);
      SameView(Whole, reports, a, b, id);
    }
  }

  /** End to end: then the returned list is the same for every order of the containers and of the map. */
  lemma TopChecksAreSame(reports: seq<AuditReport>, a: seq<seq<string>>, b: seq<seq<string>>,
                         ids: seq<string>, others: seq<string>, n: nat,
                         top: seq<CheckWithCount>, other: seq<CheckWithCount>)
    requires Visits(reports, a) && Visits(reports, b) && forall id :: Agrees(Whole, reports, id)
    requires Enumerates(ids, Tallied(Hits(reports, a)).Keys) && Enumerates(others, Tallied(Hits(reports, b)).Keys)
    requires IsTop(CHECK_COMPARE, Listed(Tallied(Hits(reports, a)), ids), n, top)
    requires IsTop(CHECK_COMPARE, Listed(Tallied(Hits(reports, b)), others), n, other)
    ensures top == other
  {
    CountedMapIsDetermined(reports, a, b);
    var m := Tallied(Hits(reports, a));
    forall id | id in m
      ensures m[id].check.id == id
    {
      CountsAreExact(reports, a, id);
    }
    TopChecksAreDetermined(m, ids, others, n, top, other);
  }

  /** For every order of the containers the map has the same ids, with the same counts and severities. */
  lemma SameEntries(reports: seq<AuditReport>, a: seq<seq<string>>, b: seq<seq<string>>, id: string)
    requires Visits(reports, a) && Visits(reports, b) && Agrees(Severity, reports, id)
    ensures var m, n := Tallied(Hits(reports, a)), Tallied(Hits(reports, b));
            (id in m <==> id in n) && Ranked(Lookup(m)(id)) == Ranked(Lookup(n)(id))
  {
    CountsAreExact(reports, a, id);
    CountsAreExact(reports, b, id);
    SameView(Severity, reports, a, b, id);
  }

  lemma RankedListings(reports: seq<AuditReport>, a: seq<seq<string>>, b: seq<seq<string>>,
                       ids: seq<string>, others: seq<string>)
    requires Visits(reports, a) && Visits(reports, b) && forall id :: Agrees(Severity, reports, id)
    requires Enumerates(ids, Tallied(Hits(reports, a)).Keys) && Enumerates(others, Tallied(Hits(reports, b)).Keys)
    ensures multiset(MapSeq(Ranked, Listed(Tallied(Hits(reports, a)), ids)))
            == multiset(MapSeq(Ranked, Listed(Tallied(Hits(reports, b)), others)))
  {
    var m, n := Tallied(Hits(reports, a)), Tallied(Hits(reports, b));
    SameKeys(reports, a, b);
    ListingsPermute(n, ids, others);
    MapPermutation(Ranked, Listed(n, ids), Listed(n, others));
    forall i | 0 <= i < |ids|
      ensures Ranked(Lookup(m)(ids[i])) == Ranked(Lookup(n)(ids[i]))
    {
      SameEntries(reports, a, b, ids[i]);
    }
    SameListings(m, n, ids);
  }

  lemma SameKeys(reports: seq<AuditReport>, a: seq<seq<string>>, b: seq<seq<string>>)
    requires Visits(reports, a) && Visits(reports, b)
    ensures Tallied(Hits(reports, a)).Keys == Tallied(Hits(reports, b)).Keys
  {
    forall id
      ensures id in Tallied(Hits(reports, a)) <==> id in Tallied(Hits(reports, b))
    {
      CountsAreExact(reports, a, id);
      CountsAreExact(reports, b, id);
    }
  }

  lemma SameListings(m: map<string, CheckWithCount>, n: map<string, CheckWithCount>, ids: seq<string>)
    requires forall i :: 0 <= i < |ids| ==> Ranked(Lookup(m)(ids[i])) == Ranked(Lookup(n)(ids[i]))
    ensures MapSeq(Ranked, Listed(m, ids)) == MapSeq(Ranked, Listed(n, ids))
  {
  }

  lemma DistinctRanked(m: map<string, CheckWithCount>, ids: seq<string>)
    requires Enumerates(ids, m.Keys) && forall id :: id in m ==> m[id].check.id == id
    ensures var s := MapSeq(Ranked, Listed(m, ids));
            forall x, y :: x in s && y in s && Ties(CHECK_COMPARE, x, y) ==> x == y
  {
    var s := MapSeq(Ranked, Listed(m, ids));
    forall x, y | x in s && y in s && Ties(CHECK_COMPARE, x, y)
      ensures x == y
    {
      DistinctIdsDoNotTie(x, y);
    }
  }

  /** End to end: if no id leaves a choice of its severity, the returned ids, severities and counts are the same
      for every order of the containers and of the counted map. */
  lemma TopChecksFollowReports(reports: seq<AuditReport>, a: seq<seq<string>>, b: seq<seq<string>>,
                               ids: seq<string>, others: seq<string>, n: nat,
                               top: seq<CheckWithCount>, other: seq<CheckWithCount>)
    requires Visits(reports, a) && Visits(reports, b) && forall id :: Agrees(Severity, reports, id)
    requires Enumerates(ids, Tallied(Hits(reports, a)).Keys) && Enumerates(others, Tallied(Hits(reports, b)).Keys)
    requires IsTop(CHECK_COMPARE, Listed(Tallied(Hits(reports, a)), ids), n, top)
    requires IsTop(CHECK_COMPARE, Listed(Tallied(Hits(reports, b)), others), n, other)
    ensures MapSeq(Ranked, top) == MapSeq(Ranked, other)
  {
    var s, t := Listed(Tallied(Hits(reports, a)), ids), Listed(Tallied(Hits(reports, b)), others);
    RankedListings(reports, a, b, ids, others);
    forall id | id in Tallied(Hits(reports, a))
      ensures Tallied(Hits(reports, a))[id].check.id == id
    {
      CountsAreExact(reports, a, id);
    }
    DistinctRanked(Tallied(Hits(reports, a)), ids);
    RankedTops(s, t, n, top, other);
  }

  lemma RankedTops(s: seq<CheckWithCount>, t: seq<CheckWithCount>, n: nat,
                   top: seq<CheckWithCount>, other: seq<CheckWithCount>)
    requires IsTop(CHECK_COMPARE, s, n, top) && IsTop(CHECK_COMPARE, t, n, other)
    requires multiset(MapSeq(Ranked, s)) == multiset(MapSeq(Ranked, t))
    requires forall x, y :: x in MapSeq(Ranked, s) && y in MapSeq(Ranked, s) && Ties(CHECK_COMPARE, x, y) ==> x == y
    ensures MapSeq(Ranked, top) == MapSeq(Ranked, other)
  {
    CheckCompareOrders();
    var u := RankedTop(s, n, top);
    var v := RankedTop(t, n, other);
    SameMembers(MapSeq(Ranked, s), u);
    TotalRankingsAreEqual(CHECK_COMPARE, u, v);
  }

  lemma RankedTop(s: seq<CheckWithCount>, n: nat, top: seq<CheckWithCount>) returns (u: seq<CheckWithCount>)
    requires Orders(CHECK_COMPARE) && IsTop(CHECK_COMPARE, s, n, top)
    ensures Descending(CHECK_COMPARE, u) && multiset(u) == multiset(MapSeq(Ranked, s))
    ensures MapSeq(Ranked, top) == u[..Min(n, |u|)]
  {
    var t :| StablySorted(CHECK_COMPARE, s, t) && top == t[..Min(n, |t|)];
    RankedPermutes(s, t);
    RankedDescends(t);
    u := MapSeq(Ranked, t);
    RankedPrefix(t, Min(n, |t|));
  }

  lemma RankedPrefix(t: seq<CheckWithCount>, n: nat)
    requires n <= |t|
    ensures MapSeq(Ranked, t[..n]) == MapSeq(Ranked, t)[..n]
  {
  }

  lemma RankedPermutes(s: seq<CheckWithCount>, t: seq<CheckWithCount>)
    requires Orders(CHECK_COMPARE) && StablySorted(CHECK_COMPARE, s, t)
    ensures multiset(MapSeq(Ranked, s)) == multiset(MapSeq(Ranked, t))
  {
    SameTiesPermute(CHECK_COMPARE, s, t);
    MapPermutation(Ranked, s, t);
  }

  lemma SameMembers<T>(xs: seq<T>, ys: seq<T>)
    requires multiset(xs) == multiset(ys)
    ensures forall x :: x in xs <==> x in ys
  {
    forall x
      ensures x in xs <==> x in ys
    {
      assert x in multiset(xs) <==> x in multiset(ys);
    }
  }

  /** There is a choice: two containers whose checks look different. */
  lemma ViewFollowsOrder<U>(view: Check -> U, x: string, y: string, c: Check, d: Check)
    returns (a: seq<seq<string>>, b: seq<seq<string>>)
    requires x != y && c.id == d.id && !c.success && !d.success && view(c) != view(d)
    ensures ViewsDiffer(view, [AuditReport([], map[x := [c], y := [d]])], a, b, c.id)
  {
    var r := AuditReport([], map[x := [c], y := [d]]);
    OneCheck(c);
    OneCheck(d);
    assert FirstIn(r, x, c.id) == Some(c) && FirstIn(r, y, c.id) == Some(d);
    assert x in r.containerChecks && y in r.containerChecks;
    assert !ReportAgrees(view, r, c.id);
    assert [r][..0] == [] && Sum(Failures(c.id), []) == 0;
    a, b := DifferentViews(view, [r], c.id);
  }

  lemma OneCheck(c: Check)
    requires !c.success
    ensures Failing([c]) == [c] && First(CheckId, [c], c.id) == Some(c)
  {
    assert [c][..0] == [];
    assert Failing([c]) == Failing([]) + [c];
  }

  /** The failing checks with one id look the same. */
  ghost predicate ViewsFollowIds<U>(view: Check -> U, reports: seq<AuditReport>) {
    forall r, q, c, d :: r in reports && q in reports && FailsInReport(r, c) && FailsInReport(q, d) && c.id == d.id ==>
      view(c) == view(d)
  }

  predicate FailsInReport(r: AuditReport, c: Check) {
    !c.success && (c in r.podChecks || exists name :: name in r.containerChecks && c in r.containerChecks[name])
  }

  /** Then no id leaves a choice. */
  lemma {:induction false} SharedViewsAgree<U>(view: Check -> U, reports: seq<AuditReport>, id: string)
    requires ViewsFollowIds(view, reports)
    ensures Agrees(view, reports, id)
  {
    if reports != [] {
      var n := |reports| - 1;
      assert forall r :: r in reports[..n] ==> r in reports;
      SharedViewsAgree(view, reports[..n], id);
      SharedReportAgrees(view, reports, reports[n], id);
    }
  }

  lemma SharedReportAgrees<U>(view: Check -> U, reports: seq<AuditReport>, r: AuditReport, id: string)
    requires ViewsFollowIds(view, reports) && r in reports
    ensures ReportAgrees(view, r, id)
  {
    forall x | x in r.containerChecks && FirstIn(r, x, id).Some?
      ensures FailsInReport(r, FirstIn(r, x, id).value)
    {
      FailingMember(r.containerChecks[x], FirstIn(r, x, id).value);
    }
  }
}
