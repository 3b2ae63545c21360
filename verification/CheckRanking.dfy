/** The failed checks of a namespace, ranked by the number of workloads that they affect. */
module CheckRanking {
  import opened Collections
  import opened Ranking
  import opened Tally
  import Strings

  /** A configuration check; `text` stands for its title, description and messages. */
  datatype Check = Check(id: string, severity: string, success: bool, text: string)

  datatype CheckWithCount = CheckWithCount(check: Check, affected: int)

  datatype AuditReport = AuditReport(podChecks: seq<Check>, containerChecks: map<string, seq<Check>>)

  function CheckId(c: Check): string { c.id }

  // ---------------------------------------------------------------- counting

  function Failing(checks: seq<Check>): seq<Check> {
    if checks == [] then []
    else Failing(checks[..|checks| - 1]) + if checks[|checks| - 1].success then [] else [checks[|checks| - 1]]
  }

  lemma FailingAppend(checks: seq<Check>, i: nat)
    requires i < |checks|
    ensures Failing(checks[..i + 1])
            == if checks[i].success then Failing(checks[..i]) else Failing(checks[..i]) + [checks[i]]
  {
    assert checks[..i + 1][..i] == checks[..i];
  }

  function FailingIn(containers: map<string, seq<Check>>): string -> seq<Check> {
    name => if name in containers then Failing(containers[name]) else []
  }

  /** What a report contributes: every failing pod check, and every id that fails in some container once. */
  function ReportHits(r: AuditReport, order: seq<string>): seq<Check> {
    Failing(r.podChecks) + Dedupe(CheckId, FlatMap(FailingIn(r.containerChecks), order))
  }

  /** `orders` gives the order in which the containers of each report were visited. */
  ghost predicate Visits(reports: seq<AuditReport>, orders: seq<seq<string>>) {
    |orders| == |reports| && forall i :: 0 <= i < |reports| ==> Enumerates(orders[i], reports[i].containerChecks.Keys)
  }

  function Hits(reports: seq<AuditReport>, orders: seq<seq<string>>): seq<Check>
    requires |orders| == |reports|
  {
    if reports == [] then []
    else
      var n := |reports| - 1;
      Hits(reports[..n], orders[..n]) + ReportHits(reports[n], orders[n])
  }

  /** The map of counted checks: the first check with an id and the number of hits. */
  ghost function Tallied(hits: seq<Check>): map<string, CheckWithCount> {
    map id | id in IdsOf(CheckId, hits) :: EntryFor(hits, id)
  }

  ghost function EntryFor(hits: seq<Check>, id: string): CheckWithCount
    requires id in IdsOf(CheckId, hits)
  {
    CheckWithCount(First(CheckId, hits, id).value, Count(CheckId, hits, id))
  }

  method Record(m: map<string, CheckWithCount>, check: Check, ghost hits: seq<Check>)
    returns (r: map<string, CheckWithCount>)
    requires m == Tallied(hits)
    ensures r == Tallied(hits + [check])
  {
    if check.id in m {
      var counted := m[check.id];
      r := m[check.id := counted.(affected := counted.affected + 1)];
    } else {
      r := m[check.id := CheckWithCount(check, 1)];
    }
    forall id
      ensures id in r <==> id in IdsOf(CheckId, hits + [check])
      ensures id in r ==> r[id] == EntryFor(hits + [check], id)
    {
      Recorded(hits, check, id);
    }
  }

  lemma Recorded(hits: seq<Check>, check: Check, id: string)
    ensures id in IdsOf(CheckId, hits + [check]) <==> id in IdsOf(CheckId, hits) || check.id == id
    ensures id in IdsOf(CheckId, hits) ==>
              EntryFor(hits + [check], id)
              == EntryFor(hits, id).(affected := EntryFor(hits, id).affected + if check.id == id then 1 else 0)
    ensures id !in IdsOf(CheckId, hits) && check.id == id ==> EntryFor(hits + [check], id) == CheckWithCount(check, 1)
  {
    Append(CheckId, hits, check, id);
    CountIff(CheckId, hits, id);
  }

  method CountPodChecks(checks: seq<Check>, m: map<string, CheckWithCount>, ghost hits: seq<Check>)
    returns (r: map<string, CheckWithCount>)
    requires m == Tallied(hits)
    ensures r == Tallied(hits + Failing(checks))
  {
    r := m;
    assert hits + [] == hits;
    for i := 0 to |checks|
      invariant r == Tallied(hits + Failing(checks[..i]))
    {
      FailingAppend(checks, i);
      if checks[i].success {
        continue;
      }
      r := Record(r, checks[i], hits + Failing(checks[..i]));
      assert hits + Failing(checks[..i]) + [checks[i]] == hits + Failing(checks[..i + 1]);
    }
    assert checks[..|checks|] == checks;
  }

  /** Counts the failing checks of one container whose ids have not been seen in this report. */
  method CountContainer(checks: seq<Check>, already: set<string>, m: map<string, CheckWithCount>,
                        ghost hits: seq<Check>, ghost seen: seq<Check>)
    returns (now: set<string>, r: map<string, CheckWithCount>)
    requires already == IdsOf(CheckId, seen) && m == Tallied(hits + Dedupe(CheckId, seen))
    ensures now == IdsOf(CheckId, seen + Failing(checks))
    ensures r == Tallied(hits + Dedupe(CheckId, seen + Failing(checks)))
  {
    now, r := already, m;
    ghost var visited := seen;
    assert visited == seen + Failing([]);
    for i := 0 to |checks|
      invariant visited == seen + Failing(checks[..i])
      invariant now == IdsOf(CheckId, visited) && r == Tallied(hits + Dedupe(CheckId, visited))
    {
      FailingAppend(checks, i);
      if checks[i].success {
        continue;
      }
      now, r := CountOnce(checks[i], now, r, hits, visited);
      ConcatAssociates(seen, Failing(checks[..i]), [checks[i]]);
      visited := visited + [checks[i]];
    }
    assert checks[..|checks|] == checks;
  }

  lemma SeenBefore(seen: seq<Check>, check: Check)
    ensures IdsOf(CheckId, seen + [check]) == IdsOf(CheckId, seen) + {check.id}
    ensures Dedupe(CheckId, seen + [check])
            == if check.id in IdsOf(CheckId, seen) then Dedupe(CheckId, seen) else Dedupe(CheckId, seen) + [check]
  {
    Append(CheckId, seen, check, check.id);
  }

  method CountOnce(check: Check, already: set<string>, m: map<string, CheckWithCount>,
                   ghost hits: seq<Check>, ghost seen: seq<Check>)
    returns (now: set<string>, r: map<string, CheckWithCount>)
    requires already == IdsOf(CheckId, seen) && m == Tallied(hits + Dedupe(CheckId, seen))
    ensures now == IdsOf(CheckId, seen + [check]) && r == Tallied(hits + Dedupe(CheckId, seen + [check]))
  {
    SeenBefore(seen, check);
    if check.id in already {
      return already, m;
    }
    now := already + {check.id};
    r := Record(m, check, hits + Dedupe(CheckId, seen));
    ConcatAssociates(hits, Dedupe(CheckId, seen), [check]);
  }

  method CountContainerChecks(
    containers: map<string, seq<Check>>, m: map<string, CheckWithCount>, ghost hits: seq<Check>)
    returns (r: map<string, CheckWithCount>, ghost order: seq<string>)
    requires m == Tallied(hits)
    ensures Enumerates(order, containers.Keys)
    ensures r == Tallied(hits + Dedupe(CheckId, FlatMap(FailingIn(containers), order)))
  {
    var names := Enumerate(containers.Keys);
    order := names;
    var already: set<string> := {};
    r := m;
    assert hits + [] == hits;
    for i := 0 to |names|
      invariant already == IdsOf(CheckId, FlatMap(FailingIn(containers), names[..i]))
      invariant r == Tallied(hits + Dedupe(CheckId, FlatMap(FailingIn(containers), names[..i])))
    {
      assert names[..i + 1][..i] == names[..i];
      already, r := CountContainer(containers[names[i]], already, r, hits, FlatMap(FailingIn(containers), names[..i]));
    }
    assert names[..|names|] == names;
  }

  method CountReport(report: AuditReport, m: map<string, CheckWithCount>, ghost hits: seq<Check>)
    returns (r: map<string, CheckWithCount>, ghost order: seq<string>)
    requires m == Tallied(hits)
    ensures Enumerates(order, report.containerChecks.Keys) && r == Tallied(hits + ReportHits(report, order))
  {
    r := CountPodChecks(report.podChecks, m, hits);
    r, order := CountContainerChecks(report.containerChecks, r, hits + Failing(report.podChecks));
    ConcatAssociates(
      hits, Failing(report.podChecks), Dedupe(CheckId, FlatMap(FailingIn(report.containerChecks), order)));
  }

  lemma HitsAppend(reports: seq<AuditReport>, orders: seq<seq<string>>, report: AuditReport, order: seq<string>)
    requires |orders| == |reports|
    ensures Hits(reports + [report], orders + [order]) == Hits(reports, orders) + ReportHits(report, order)
  {
    assert (reports + [report])[..|reports|] == reports && (orders + [order])[..|orders|] == orders;
  }

  lemma VisitsAppend(reports: seq<AuditReport>, orders: seq<seq<string>>, report: AuditReport, order: seq<string>)
    requires Visits(reports, orders) && Enumerates(order, report.containerChecks.Keys)
    ensures Visits(reports + [report], orders + [order])
  {
  }

  method CountChecks(reports: seq<AuditReport>)
    returns (m: map<string, CheckWithCount>, ghost orders: seq<seq<string>>)
    ensures Visits(reports, orders) && m == Tallied(Hits(reports, orders))
    ensures forall id :: id in m <==> Sum(Failures(id), reports) > 0
    ensures forall id :: id in m ==> m[id].check.id == id && m[id].affected == Sum(Failures(id), reports)
  {
    m, orders := map[], [];
    ghost var hits: seq<Check> := [];
    for i := 0 to |reports|
      invariant |orders| == i && Visits(reports[..i], orders)
      invariant hits == Hits(reports[..i], orders) && m == Tallied(hits)
    {
      ghost var order;
      m, order := CountReport(reports[i], m, hits);
      HitsAppend(reports[..i], orders, reports[i], order);
      VisitsAppend(reports[..i], orders, reports[i], order);
      PrefixStep(reports, i);
      hits := hits + ReportHits(reports[i], order);
      orders := orders + [order];
    }
    WholePrefix(reports);
    forall id
      ensures id in m <==> Sum(Failures(id), reports) > 0
      ensures id in m ==> m[id].check.id == id && m[id].affected == Sum(Failures(id), reports)
    {
      CountsAreExact(reports, orders, id);
    }
  }

  // ---------------------------------------------------------------- what is counted

  function PodFailures(r: AuditReport, id: string): int {
    Sum((c: Check) => if !c.success && c.id == id then 1 else 0, r.podChecks)
  }

  predicate FailsInContainer(r: AuditReport, id: string) {
    exists name, c :: name in r.containerChecks && c in r.containerChecks[name] && !c.success && c.id == id
  }

  /** The failures of a check in one report: those of the pod, and one more for all its containers. */
  function Failures(id: string): AuditReport -> int {
    (r: AuditReport) => PodFailures(r, id) + if FailsInContainer(r, id) then 1 else 0
  }

  lemma {:induction false} FailingMember(checks: seq<Check>, c: Check)
    ensures c in Failing(checks) <==> c in checks && !c.success
  {
    if checks != [] {
      FailingMember(checks[..|checks| - 1], c);
      assert checks == checks[..|checks| - 1] + [checks[|checks| - 1]];
    }
  }

  lemma {:induction false} CountFailing(checks: seq<Check>, id: string)
    ensures Count(CheckId, Failing(checks), id) == Sum((c: Check) => if !c.success && c.id == id then 1 else 0, checks)
  {
    if checks != [] {
      var init, last := checks[..|checks| - 1], checks[|checks| - 1];
      CountFailing(init, id);
      if last.success {
        assert Failing(checks) == Failing(init);
      } else {
        Append(CheckId, Failing(init), last, id);
      }
    }
  }

  lemma ContainerFailures(r: AuditReport, order: seq<string>, id: string)
    requires Enumerates(order, r.containerChecks.Keys)
    ensures First(CheckId, FlatMap(FailingIn(r.containerChecks), order), id).Some? <==> FailsInContainer(r, id)
  {
    var f, all := FailingIn(r.containerChecks), FlatMap(FailingIn(r.containerChecks), order);
    if First(CheckId, all, id).Some? {
      var c := First(CheckId, all, id).value;
      FlatMapMember(f, order, c);
      var name :| name in order && c in f(name);
      FailingMember(r.containerChecks[name], c);
    }
    if FailsInContainer(r, id) {
      var name, c :| name in r.containerChecks && c in r.containerChecks[name] && !c.success && c.id == id;
      FailingMember(r.containerChecks[name], c);
      assert c in f(name);
      FlatMapMember(f, order, c);
    }
  }

  lemma ReportCounts(r: AuditReport, order: seq<string>, id: string)
    requires Enumerates(order, r.containerChecks.Keys)
    ensures Count(CheckId, ReportHits(r, order), id) == Failures(id)(r)
  {
    var all := FlatMap(FailingIn(r.containerChecks), order);
    SumConcat(Hit(CheckId, id), Failing(r.podChecks), Dedupe(CheckId, all));
    CountFailing(r.podChecks, id);
    DedupeCounts(CheckId, all, id);
    ContainerFailures(r, order, id);
  }

  lemma {:induction false} HitsCount(reports: seq<AuditReport>, orders: seq<seq<string>>, id: string)
    requires Visits(reports, orders)
    ensures Count(CheckId, Hits(reports, orders), id) == Sum(Failures(id), reports)
  {
    if reports != [] {
      var n := |reports| - 1;
      HitsCount(reports[..n], orders[..n], id);
      ReportCounts(reports[n], orders[n], id);
      SumConcat(Hit(CheckId, id), Hits(reports[..n], orders[..n]), ReportHits(reports[n], orders[n]));
    }
  }

  /** The counted map has an entry for exactly the checks that fail somewhere, and the count is the number
      of failing pod checks plus one for each report with a failing container, whatever the order in which
      the containers were visited. */
  lemma CountsAreExact(reports: seq<AuditReport>, orders: seq<seq<string>>, id: string)
    requires Visits(reports, orders)
    ensures var m := Tallied(Hits(reports, orders));
            && (id in m <==> Sum(Failures(id), reports) > 0)
            && (id in m ==>
                  m[id].affected == Sum(Failures(id), reports) && m[id].check.id == id && !m[id].check.success)
  {
    var hits := Hits(reports, orders);
    HitsCount(reports, orders, id);
    CountIff(CheckId, hits, id);
    var first := First(CheckId, hits, id);
    if first.Some? {
      HitsFail(reports, orders, first.value);
      assert CheckId(first.value) in IdsOf(CheckId, hits);
    }
  }

  function FailsIn(id: string): AuditReport -> int {
    (r: AuditReport) => if Failures(id)(r) > 0 then 1 else 0
  }

  /** The count is the number of reports in which the check fails iff no report has it fail twice: among
      its pod checks, or in its pod checks and in a container. */
  lemma {:induction false} CountsReportsIff(reports: seq<AuditReport>, id: string)
    ensures Sum(Failures(id), reports) >= Sum(FailsIn(id), reports)
    ensures Sum(Failures(id), reports) == Sum(FailsIn(id), reports)
            <==> forall i :: 0 <= i < |reports| ==> Failures(id)(reports[i]) <= 1
  {
    if reports != [] {
      var init, last := reports[..|reports| - 1], reports[|reports| - 1];
      CountsReportsIff(init, id);
      CountFailing(last.podChecks, id);
      CountIff(CheckId, Failing(last.podChecks), id);
      assert forall i :: 0 <= i < |init| ==> init[i] == reports[i];
    }
  }

  /** A report with two failing pod checks of one id counts twice. */
  lemma RepeatedCheckCountsTwice(c: Check, d: Check)
    requires c.id == d.id && !c.success && !d.success
    ensures var reports := [AuditReport([c, d], map[])];
            Sum(Failures(c.id), reports) == 2 && Sum(FailsIn(c.id), reports) == 1
  {
    var r := AuditReport([c, d], map[]);
    assert [c, d][..1] == [c] && [c][..0] == [] && [r][..0] == [];
    var f := (x: Check) => if !x.success && x.id == c.id then 1 else 0;
    assert Sum(f, [c, d]) == Sum(f, [c]) + f(d) && Sum(f, [c]) == Sum(f, []) + f(c);
    assert PodFailures(r, c.id) == 2 && !FailsInContainer(r, c.id);
    assert Sum(Failures(c.id), [r]) == Sum(Failures(c.id), []) + Failures(c.id)(r);
    assert Sum(FailsIn(c.id), [r]) == Sum(FailsIn(c.id), []) + FailsIn(c.id)(r);
  }

  lemma {:induction false} HitsFail(reports: seq<AuditReport>, orders: seq<seq<string>>, c: Check)
    requires Visits(reports, orders) && c in Hits(reports, orders)
    ensures !c.success
  {
    var n := |reports| - 1;
    var r := reports[n];
    var all := FlatMap(FailingIn(r.containerChecks), orders[n]);
    if c in Hits(reports[..n], orders[..n]) {
      HitsFail(reports[..n], orders[..n], c);
    } else if c in Failing(r.podChecks) {
      FailingMember(r.podChecks, c);
    } else {
      DedupeMember(all, c);
      FlatMapMember(FailingIn(r.containerChecks), orders[n], c);
      var name :| name in orders[n] && c in FailingIn(r.containerChecks)(name);
      FailingMember(r.containerChecks[name], c);
    }
  }

  lemma {:induction false} DedupeMember(xs: seq<Check>, c: Check)
    requires c in Dedupe(CheckId, xs)
    ensures c in xs
  {
    var init := xs[..|xs| - 1];
    if c in Dedupe(CheckId, init) {
      DedupeMember(init, c);
    }
  }

  // ---------------------------------------------------------------- ranking

  predicate FewerWorkloads(a: CheckWithCount, b: CheckWithCount) { a.affected < b.affected }

  /** Severities are compared as strings. */
  predicate LaterSeverity(a: CheckWithCount, b: CheckWithCount) { Strings.Less(b.check.severity, a.check.severity) }

  predicate LaterId(a: CheckWithCount, b: CheckWithCount) { Strings.Less(b.check.id, a.check.id) }

  const CHECK_COMPARE: seq<Key<CheckWithCount>> := [FewerWorkloads, LaterSeverity, LaterId]

  lemma StringKeyIsOrder(less: Key<CheckWithCount>, text: CheckWithCount -> string)
    requires forall a, b :: less(a, b) <==> Strings.Less(text(b), text(a))
    ensures StrictWeakOrder(less)
  {
    forall x, y
      ensures less(x, y) ==> !less(y, x)
    {
      Strings.LessTotal(text(x), text(y));
    }
    forall x, y, z
      ensures less(x, y) && less(y, z) ==> less(x, z)
      ensures !less(x, y) && !less(y, z) ==> !less(x, z)
    {
      if less(x, y) && less(y, z) {
        Strings.LessTransitive(text(z), text(y), text(x));
      }
      if !less(x, y) && !less(y, z) {
        NotLessTransitive(text(z), text(y), text(x));
      }
    }
  }

  lemma NotLessTransitive(a: string, b: string, c: string)
    requires !Strings.Less(a, b) && !Strings.Less(b, c)
    ensures !Strings.Less(a, c)
  {
    Strings.LessTotal(a, b);
    Strings.LessTotal(b, c);
    Strings.LessTotal(a, c);
    if a != b && b != c {
      Strings.LessTransitive(c, b, a);
    }
  }

  lemma CheckCompareOrders()
    ensures Orders(CHECK_COMPARE)
  {
    StringKeyIsOrder(LaterSeverity, (c: CheckWithCount) => c.check.severity);
    StringKeyIsOrder(LaterId, (c: CheckWithCount) => c.check.id);
    assert StrictWeakOrder(FewerWorkloads);
    LexIsStrictWeakOrder(CHECK_COMPARE);
  }

  /** The order on the fields: fewer affected workloads come last, and among equals the later severity string, and
      among those the later id. */
  lemma CheckCompareIff(a: CheckWithCount, b: CheckWithCount)
    ensures Lex(CHECK_COMPARE, a, b) <==>
            || a.affected < b.affected
            || (a.affected == b.affected && Strings.Less(b.check.severity, a.check.severity))
            || (&& a.affected == b.affected && a.check.severity == b.check.severity
                && Strings.Less(b.check.id, a.check.id))
  {
    LexOne(LaterId, a, b);
    LexMore(LaterSeverity, [LaterId], a, b);
    LexMore(FewerWorkloads, [LaterSeverity] + [LaterId], a, b);
    assert CHECK_COMPARE == [FewerWorkloads] + ([LaterSeverity] + [LaterId]);
    Strings.LessTotal(a.check.severity, b.check.severity);
  }

  /** Checks with different ids never tie. */
  lemma DistinctIdsDoNotTie(a: CheckWithCount, b: CheckWithCount)
    requires Ties(CHECK_COMPARE, a, b)
    ensures a.check.id == b.check.id
  {
    Strings.LessTotal(a.check.id, b.check.id);
    LexIsLexicographic(CHECK_COMPARE, a, b);
    LexIsLexicographic(CHECK_COMPARE, b, a);
    assert CHECK_COMPARE[0] == FewerWorkloads && CHECK_COMPARE[1] == LaterSeverity && CHECK_COMPARE[2] == LaterId;
    DecidingKey(a, b);
  }

  /** Some key decides between checks with different ids. */
  lemma DecidingKey(a: CheckWithCount, b: CheckWithCount)
    requires !Lexicographic(CHECK_COMPARE, a, b) && !Lexicographic(CHECK_COMPARE, b, a)
    ensures !LaterId(a, b) && !LaterId(b, a)
  {
    assert forall k :: 0 <= k < 1 ==> CHECK_COMPARE[k] == FewerWorkloads;
    assert !CHECK_COMPARE[0](a, b) && !CHECK_COMPARE[0](b, a);
    assert Tied(CHECK_COMPARE[0], a, b) && Tied(CHECK_COMPARE[0], b, a);
    assert !CHECK_COMPARE[1](a, b) && !CHECK_COMPARE[1](b, a);
    assert Tied(CHECK_COMPARE[1], a, b) && Tied(CHECK_COMPARE[1], b, a);
    assert !CHECK_COMPARE[2](a, b) && !CHECK_COMPARE[2](b, a);
  }

  /** The entries of the counted map, in the order of a map iteration. */
  function Lookup(m: map<string, CheckWithCount>): string -> CheckWithCount {
    id => if id in m then m[id] else CheckWithCount(Check("", "", false, ""), 0)
  }

  function Listed(m: map<string, CheckWithCount>, ids: seq<string>): seq<CheckWithCount> {
    MapSeq(Lookup(m), ids)
  }

  method ListChecks(m: map<string, CheckWithCount>) returns (list: array<CheckWithCount>, ghost ids: seq<string>)
    ensures fresh(list) && Enumerates(ids, m.Keys) && list[..] == Listed(m, ids)
  {
    var listing := Enumerate(m.Keys);
    ids := listing;
    list := new CheckWithCount[|listing|](_ => CheckWithCount(Check("", "", false, ""), 0));
    for i := 0 to |listing|
      invariant forall j :: 0 <= j < i ==> list[j] == m[listing[j]]
    {
      list[i] := m[listing[i]];
    }
  }

  method SortAndTruncate(failed: array<CheckWithCount>, n: nat) returns (top: seq<CheckWithCount>)
    modifies failed
    ensures IsTop(CHECK_COMPARE, old(failed[..]), n, top) && |top| <= n && Descending(CHECK_COMPARE, top)
  {
    CheckCompareOrders();
    var sorter := new MultiSorter<CheckWithCount>.OrderedBy(CHECK_COMPARE);
    sorter.SortDesc(failed);
    top := failed[..Min(n, failed.Length)];
  }

  method TopNFailedChecks(reports: seq<AuditReport>, n: nat)
    returns (top: seq<CheckWithCount>, ghost orders: seq<seq<string>>, ghost ids: seq<string>)
    ensures Visits(reports, orders)
    ensures var m := Tallied(Hits(reports, orders));
            Enumerates(ids, m.Keys) && IsTop(CHECK_COMPARE, Listed(m, ids), n, top)
    ensures |top| <= n
    ensures forall c :: c in top ==> !c.check.success && c.affected == Sum(Failures(c.check.id), reports)
    ensures forall i, j :: 0 <= i < j < |top| ==> RanksAbove(top[i], top[j])
    ensures forall id :: Sum(Failures(id), reports) > 0 && (forall c :: c in top ==> c.check.id != id) ==>
              |top| == n && forall c :: c in top ==> Sum(Failures(id), reports) <= c.affected
  {
    var checks;
    checks, orders := CountChecks(reports);
    var failed;
    failed, ids := ListChecks(checks);
    top := SortAndTruncate(failed, n);
    TopChecksCount(reports, orders, ids, n, top);
    TopChecksDescend(reports, orders, ids, n, top);
    forall id | Sum(Failures(id), reports) > 0 && forall c :: c in top ==> c.check.id != id
      ensures |top| == n && forall c :: c in top ==> Sum(Failures(id), reports) <= c.affected
    {
      LeftOutAffectsFewer(reports, orders, ids, n, top, id);
    }
  }

  /** More affected workloads, or as many and the earlier severity string, or both equal and the earlier id. */
  predicate RanksAbove(a: CheckWithCount, b: CheckWithCount) {
    || a.affected > b.affected
    || (a.affected == b.affected && Strings.Less(a.check.severity, b.check.severity))
    || (a.affected == b.affected && a.check.severity == b.check.severity && Strings.Less(a.check.id, b.check.id))
  }

  /** The listed entries have different ids. */
  lemma ListedIdsDiffer(m: map<string, CheckWithCount>, ids: seq<string>, i: nat, j: nat)
    requires Enumerates(ids, m.Keys) && (forall id :: id in m ==> m[id].check.id == id) && i < j < |ids|
    ensures Listed(m, ids)[i].check.id != Listed(m, ids)[j].check.id
  {
  }

  lemma TopChecksDescend(
    reports: seq<AuditReport>, orders: seq<seq<string>>, ids: seq<string>, n: nat, top: seq<CheckWithCount>)
    requires Visits(reports, orders) && Enumerates(ids, Tallied(Hits(reports, orders)).Keys)
    requires IsTop(CHECK_COMPARE, Listed(Tallied(Hits(reports, orders)), ids), n, top)
    ensures forall i, j :: 0 <= i < j < |top| ==> RanksAbove(top[i], top[j])
  {
    var m := Tallied(Hits(reports, orders));
    CheckCompareOrders();
    TalliedIds(reports, orders);
    var excluded := NothingBetterIsExcluded(CHECK_COMPARE, Listed(m, ids), n, top);
    forall i, j | 0 <= i < j < |top|
      ensures RanksAbove(top[i], top[j])
    {
      TopIdsDiffer(m, ids, top, excluded, i, j);
      DescendingRanks(top[i], top[j]);
    }
  }

  lemma TalliedIds(reports: seq<AuditReport>, orders: seq<seq<string>>)
    requires Visits(reports, orders)
    ensures var m := Tallied(Hits(reports, orders)); forall id :: id in m ==> m[id].check.id == id
  {
    forall id | id in Tallied(Hits(reports, orders))
      ensures Tallied(Hits(reports, orders))[id].check.id == id
    {
      CountsAreExact(reports, orders, id);
    }
  }

  lemma DescendingRanks(a: CheckWithCount, b: CheckWithCount)
    requires !Lex(CHECK_COMPARE, a, b) && a.check.id != b.check.id
    ensures RanksAbove(a, b)
  {
    CheckCompareIff(a, b);
    Strings.LessTotal(a.check.severity, b.check.severity);
    Strings.LessTotal(a.check.id, b.check.id);
  }

  lemma TopIdsDiffer(m: map<string, CheckWithCount>, ids: seq<string>, top: seq<CheckWithCount>,
                     excluded: seq<CheckWithCount>, i: nat, j: nat)
    requires Enumerates(ids, m.Keys) && (forall id :: id in m ==> m[id].check.id == id) && i < j < |top|
    requires multiset(top) + multiset(excluded) == multiset(Listed(m, ids))
    ensures top[i].check.id != top[j].check.id
  {
    if top[i].check.id == top[j].check.id {
      var all, x := Listed(m, ids), top[i];
      assert x in multiset(top) + multiset(excluded) && top[j] in multiset(top) + multiset(excluded);
      assert x in all && top[j] in all;
      assert x == top[j];
      ListedOnce(m, ids, x);
      TwiceIn(top, i, j);
    }
  }

  lemma ListedOnce(m: map<string, CheckWithCount>, ids: seq<string>, x: CheckWithCount)
    requires Enumerates(ids, m.Keys) && (forall id :: id in m ==> m[id].check.id == id) && x in Listed(m, ids)
    ensures multiset(Listed(m, ids))[x] == 1
  {
    var all := Listed(m, ids);
    var k :| 0 <= k < |all| && all[k] == x;
    forall i, j | 0 <= i < j < |all|
      ensures all[i] != all[j]
    {
      ListedIdsDiffer(m, ids, i, j);
    }
    OccursOnce(all, k);
  }

  lemma TwiceIn<T>(xs: seq<T>, i: nat, j: nat)
    requires i < j < |xs| && xs[i] == xs[j]
    ensures multiset(xs)[xs[i]] >= 2
  {
    assert xs == xs[..j] + [xs[j]] + xs[j + 1..];
    assert xs[..j][i] == xs[j];
  }

  /** A failing check that is left out affects at most as many workloads as each check of the list. */
  lemma LeftOutAffectsFewer(reports: seq<AuditReport>, orders: seq<seq<string>>, ids: seq<string>, n: nat,
                            top: seq<CheckWithCount>, id: string)
    requires Visits(reports, orders) && Enumerates(ids, Tallied(Hits(reports, orders)).Keys)
    requires IsTop(CHECK_COMPARE, Listed(Tallied(Hits(reports, orders)), ids), n, top)
    requires Sum(Failures(id), reports) > 0 && forall c :: c in top ==> c.check.id != id
    ensures |top| == n && forall c :: c in top ==> Sum(Failures(id), reports) <= c.affected
  {
    var m := Tallied(Hits(reports, orders));
    CheckCompareOrders();
    CountsAreExact(reports, orders, id);
    var excluded := NothingBetterIsExcluded(CHECK_COMPARE, Listed(m, ids), n, top);
    EntryIsListed(m, ids, id);
    assert m[id] in multiset(top) + multiset(excluded);
    assert m[id] in excluded;
    assert |multiset(top) + multiset(excluded)| == |top| + |excluded| && |multiset(Listed(m, ids))| == |Listed(m, ids)|;
    forall c | c in top
      ensures Sum(Failures(id), reports) <= c.affected
    {
      CheckCompareIff(c, m[id]);
    }
  }

  lemma EntryIsListed(m: map<string, CheckWithCount>, ids: seq<string>, id: string)
    requires Enumerates(ids, m.Keys) && id in m
    ensures m[id] in Listed(m, ids)
  {
    var k :| 0 <= k < |ids| && ids[k] == id;
    assert Listed(m, ids)[k] == m[id];
  }

  lemma TopChecksCount(
    reports: seq<AuditReport>, orders: seq<seq<string>>, ids: seq<string>, n: nat, top: seq<CheckWithCount>)
    requires Visits(reports, orders) && Enumerates(ids, Tallied(Hits(reports, orders)).Keys)
    requires IsTop(CHECK_COMPARE, Listed(Tallied(Hits(reports, orders)), ids), n, top)
    ensures forall c :: c in top ==> !c.check.success && c.affected == Sum(Failures(c.check.id), reports)
  {
    var m := Tallied(Hits(reports, orders));
    CheckCompareOrders();
    forall id | id in m
      ensures m[id].check.id == id
    {
      CountsAreExact(reports, orders, id);
    }
    forall c | c in top
      ensures !c.check.success && c.affected == Sum(Failures(c.check.id), reports)
    {
      TopIsListed(m, ids, n, top, c);
      CountsAreExact(reports, orders, c.check.id);
    }
  }

  /** The ranking does not depend on the order in which the counted map was listed. */
  lemma TopChecksAreDetermined(m: map<string, CheckWithCount>, ids: seq<string>, others: seq<string>, n: nat,
                               a: seq<CheckWithCount>, b: seq<CheckWithCount>)
    requires Enumerates(ids, m.Keys) && Enumerates(others, m.Keys)
    requires forall id :: id in m ==> m[id].check.id == id
    requires IsTop(CHECK_COMPARE, Listed(m, ids), n, a) && IsTop(CHECK_COMPARE, Listed(m, others), n, b)
    ensures a == b
  {
    CheckCompareOrders();
    ListingsPermute(m, ids, others);
    forall x, y | x in Listed(m, ids) && y in Listed(m, ids) && Ties(CHECK_COMPARE, x, y)
      ensures x == y
    {
      DistinctIdsDoNotTie(x, y);
    }
    TotalTopsAreEqual(CHECK_COMPARE, Listed(m, ids), Listed(m, others), n, a, b);
  }

  lemma ListingsPermute(m: map<string, CheckWithCount>, ids: seq<string>, others: seq<string>)
    requires Enumerates(ids, m.Keys) && Enumerates(others, m.Keys)
    ensures multiset(Listed(m, ids)) == multiset(Listed(m, others))
  {
    EnumerationsPermute(ids, others, m.Keys);
    MapPermutation(Lookup(m), ids, others);
  }

  lemma TopIsListed(
    m: map<string, CheckWithCount>, ids: seq<string>, n: nat, top: seq<CheckWithCount>, c: CheckWithCount)
    requires Orders(CHECK_COMPARE) && Enumerates(ids, m.Keys)
    requires forall id :: id in m ==> m[id].check.id == id
    requires IsTop(CHECK_COMPARE, Listed(m, ids), n, top) && c in top
    ensures c.check.id in m && c == m[c.check.id]
  {
    var excluded := NothingBetterIsExcluded(CHECK_COMPARE, Listed(m, ids), n, top);
    assert c in multiset(top) + multiset(excluded);
    assert c in multiset(Listed(m, ids));
  }
}
