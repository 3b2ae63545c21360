/** Grouping of scanner reports by check id. */
module ComplianceMapper {
  import opened Collections

  datatype Status = Pass | Warn | Fail | OtherStatus(text: string)

  datatype Detail = Detail(name: string, namespace: string, msg: string, status: Status)

  datatype ScannerCheckResult = ScannerCheckResult(
    objectType: string, id: string, remediation: string, details: seq<Detail>)

  datatype BenchResult = BenchResult(testNumber: string, remediation: string, status: Status)

  datatype BenchTest = BenchTest(results: seq<BenchResult>)

  datatype BenchSection = BenchSection(tests: seq<BenchTest>)

  datatype BenchReport = BenchReport(name: string, namespace: string, sections: seq<BenchSection>)

  datatype AuditCheck = AuditCheck(id: string, remediation: string, messages: seq<string>, success: bool)

  datatype AuditReport = AuditReport(name: string, namespace: string, checks: seq<AuditCheck>)

  /** A fetched list of reports, typed by the scanner that made them. */
  datatype ObjectList = BenchList(bench: seq<BenchReport>) | AuditList(audits: seq<AuditReport>)

  /** One check result with the report it came from. */
  datatype Entry = Entry(id: string, remediation: string, detail: Detail)

  // ---------------------------------------------------------------- flattening

  function BenchEntry(r: BenchReport, x: BenchResult): Entry {
    Entry(x.testNumber, x.remediation, Detail(r.name, r.namespace, "", x.status))
  }

  function TestEntries(r: BenchReport, t: BenchTest): seq<Entry> {
    FlatMap(x => [BenchEntry(r, x)], t.results)
  }

  function SectionEntries(r: BenchReport, s: BenchSection): seq<Entry> {
    FlatMap(t => TestEntries(r, t), s.tests)
  }

  function BenchEntries(r: BenchReport): seq<Entry> {
    FlatMap(s => SectionEntries(r, s), r.sections)
  }

  function AuditEntry(r: AuditReport, c: AuditCheck): Entry {
    var msg := if c.messages != [] then c.messages[0] else "";
    Entry(c.id, c.remediation, Detail(r.name, r.namespace, msg, if c.success then Pass else Fail))
  }

  function AuditEntries(r: AuditReport): seq<Entry> {
    FlatMap(c => [AuditEntry(r, c)], r.checks)
  }

  /** All results of a list of reports, in order. */
  function Entries(list: ObjectList): seq<Entry> {
    match list
    case BenchList(items) => FlatMap(BenchEntries, items)
    case AuditList(items) => FlatMap(AuditEntries, items)
  }

  // ---------------------------------------------------------------- grouping

  /** The details of the entries with the given id, in order. */
  function DetailsOf(entries: seq<Entry>, id: string): seq<Detail> {
    FlatMap((e: Entry) => if e.id == id then [e.detail] else [], entries)
  }

  /** The remediation of the first entry with the given id. */
  function FirstRemediation(entries: seq<Entry>, id: string): string {
    if entries == [] then ""
    else if entries[0].id == id then entries[0].remediation
    else FirstRemediation(entries[1..], id)
  }

  function Ids(entries: seq<Entry>): set<string> {
    set e | e in entries :: e.id
  }

  type Groups = map<string, ScannerCheckResult>

  function Grouped(objType: string, entries: seq<Entry>): Groups {
    map id | id in Ids(entries) :: GroupOf(objType, entries, id)
  }

  function GroupOf(objType: string, entries: seq<Entry>, id: string): ScannerCheckResult {
    ScannerCheckResult(objType, id, FirstRemediation(entries, id), DetailsOf(entries, id))
  }

  lemma {:induction false} FirstRemediationAppend(entries: seq<Entry>, e: Entry, id: string)
    ensures FirstRemediation(entries + [e], id) ==
            if id in Ids(entries) then FirstRemediation(entries, id)
            else if e.id == id then e.remediation else ""
  {
    if entries == [] {
      assert entries + [e] == [e];
    } else {
      assert (entries + [e])[1..] == entries[1..] + [e];
      FirstRemediationAppend(entries[1..], e, id);
      assert entries == [entries[0]] + entries[1..];
    }
  }

  lemma DetailsAppend(entries: seq<Entry>, e: Entry, id: string)
    ensures DetailsOf(entries + [e], id) == DetailsOf(entries, id) + if e.id == id then [e.detail] else []
  {
    assert (entries + [e])[..|entries|] == entries;
  }

  lemma {:induction false} DetailsOfAbsent(entries: seq<Entry>, id: string)
    ensures DetailsOf(entries, id) == [] <==> id !in Ids(entries)
  {
    if entries != [] {
      DetailsOfAbsent(entries[..|entries| - 1], id);
      assert entries == entries[..|entries| - 1] + [entries[|entries| - 1]];
    }
  }

  /** No group is empty. */
  lemma GroupsAreNotEmpty(objType: string, entries: seq<Entry>, id: string)
    requires id in Grouped(objType, entries)
    ensures Grouped(objType, entries)[id].details != []
  {
    DetailsOfAbsent(entries, id);
  }

  function SizeIn(groups: Groups): string -> int {
    id => if id in groups then |groups[id].details| else 0
  }

  /** Grouping loses and adds nothing: the sizes of the groups sum to the number of results. */
  lemma GroupingConserves(objType: string, entries: seq<Entry>, order: seq<string>)
    requires Enumerates(order, Grouped(objType, entries).Keys)
    ensures Sum(SizeIn(Grouped(objType, entries)), order) == |entries|
  {
    GroupSizesSum(entries, order);
    SumExtensional(SizeIn(Grouped(objType, entries)), id => |DetailsOf(entries, id)|, order);
  }

  lemma {:induction false} GroupSizesSum(entries: seq<Entry>, order: seq<string>)
    requires forall i, j :: 0 <= i < j < |order| ==> order[i] != order[j]
    requires forall e :: e in entries ==> e.id in order
    ensures Sum(id => |DetailsOf(entries, id)|, order) == |entries|
  {
    var size := id => |DetailsOf(entries, id)|;
    if entries == [] {
      SumExtensional(size, _ => 0, order);
      SumZero(order);
    } else {
      var init, last := entries[..|entries| - 1], entries[|entries| - 1];
      var smaller := id => |DetailsOf(init, id)|;
      var hit := id => if id == last.id then 1 else 0;
      assert entries == init + [last];
      GroupSizesSum(init, order);
      forall id | id in order
        ensures size(id) == smaller(id) + hit(id)
      {
        DetailsAppend(init, last, id);
      }
      SumAdds(size, smaller, hit, order);
      SumOfOne(last.id, order);
    }
  }

  lemma {:induction false} SumZero(order: seq<string>)
    ensures Sum((id: string) => 0, order) == 0
  {
    if order != [] {
      SumZero(order[..|order| - 1]);
    }
  }

  lemma {:induction false} SumAdds(f: string -> int, g: string -> int, h: string -> int, order: seq<string>)
    requires forall id :: id in order ==> f(id) == g(id) + h(id)
    ensures Sum(f, order) == Sum(g, order) + Sum(h, order)
  {
    if order != [] {
      SumAdds(f, g, h, order[..|order| - 1]);
    }
  }

  lemma {:induction false} SumOfOne(x: string, order: seq<string>)
    requires forall i, j :: 0 <= i < j < |order| ==> order[i] != order[j]
    ensures Sum(id => if id == x then 1 else 0, order) == if x in order then 1 else 0
  {
    if order != [] {
      SumOfOne(x, order[..|order| - 1]);
      assert order == order[..|order| - 1] + [order[|order| - 1]];
    }
  }

  // ---------------------------------------------------------------- the loops

  lemma GroupOfAppend(objType: string, entries: seq<Entry>, e: Entry, id: string)
    ensures var group := if id in Ids(entries) then GroupOf(objType, entries, id)
                         else ScannerCheckResult(objType, id, if e.id == id then e.remediation else "", []);
            GroupOf(objType, entries + [e], id)
            == group.(details := group.details + if e.id == id then [e.detail] else [])
  {
    DetailsOfAbsent(entries, id);
    FirstRemediationAppend(entries, e, id);
    DetailsAppend(entries, e, id);
  }

  lemma GroupedAppend(objType: string, entries: seq<Entry>, e: Entry)
    ensures var groups := Grouped(objType, entries);
            var group := if e.id in groups then groups[e.id]
                         else ScannerCheckResult(objType, e.id, e.remediation, []);
            Grouped(objType, entries + [e]) == groups[e.id := group.(details := group.details + [e.detail])]
  {
    assert Ids(entries + [e]) == Ids(entries) + {e.id};
    forall id | id in Ids(entries)
      ensures id != e.id ==> GroupOf(objType, entries + [e], id) == GroupOf(objType, entries, id)
    {
      GroupOfAppend(objType, entries, e, id);
    }
    GroupOfAppend(objType, entries, e, e.id);
  }

  /** Adds one result to the groups: the first of an id creates its group. */
  method AddEntry(objType: string, groups: Groups, e: Entry, ghost entries: seq<Entry>) returns (r: Groups)
    requires groups == Grouped(objType, entries)
    ensures r == Grouped(objType, entries + [e])
  {
    r := groups;
    if e.id !in r {
      r := r[e.id := ScannerCheckResult(objType, e.id, e.remediation, [])];
    }
    r := r[e.id := r[e.id].(details := r[e.id].details + [e.detail])];
    GroupedAppend(objType, entries, e);
  }

  method MapTest(objType: string, report: BenchReport, test: BenchTest, groups: Groups,
                 ghost entries: seq<Entry>) returns (r: Groups)
    requires groups == Grouped(objType, entries)
    ensures r == Grouped(objType, entries + TestEntries(report, test))
  {
    r := groups;
    ghost var seen := entries;
    for j := 0 to |test.results|
      invariant seen == entries + FlatMap(x => [BenchEntry(report, x)], test.results[..j])
      invariant r == Grouped(objType, seen)
    {
      var x := test.results[j];
      r := AddEntry(objType, r, BenchEntry(report, x), seen);
      seen := seen + [BenchEntry(report, x)];
      PrefixStep(test.results, j);
    }
    WholePrefix(test.results);
  }

  method MapSection(objType: string, report: BenchReport, section: BenchSection, groups: Groups,
                    ghost entries: seq<Entry>) returns (r: Groups)
    requires groups == Grouped(objType, entries)
    ensures r == Grouped(objType, entries + SectionEntries(report, section))
  {
    r := groups;
    ghost var seen := entries;
    for i := 0 to |section.tests|
      invariant seen == entries + FlatMap(t => TestEntries(report, t), section.tests[..i])
      invariant r == Grouped(objType, seen)
    {
      r := MapTest(objType, report, section.tests[i], r, seen);
      seen := seen + TestEntries(report, section.tests[i]);
      PrefixStep(section.tests, i);
    }
    WholePrefix(section.tests);
  }

  method MapBenchReport(objType: string, report: BenchReport, groups: Groups, ghost entries: seq<Entry>)
    returns (r: Groups)
    requires groups == Grouped(objType, entries)
    ensures r == Grouped(objType, entries + BenchEntries(report))
  {
    r := groups;
    ghost var seen := entries;
    for i := 0 to |report.sections|
      invariant seen == entries + FlatMap(s => SectionEntries(report, s), report.sections[..i])
      invariant r == Grouped(objType, seen)
    {
      r := MapSection(objType, report, report.sections[i], r, seen);
      seen := seen + SectionEntries(report, report.sections[i]);
      PrefixStep(report.sections, i);
    }
    WholePrefix(report.sections);
  }

  method MapAuditReport(objType: string, report: AuditReport, groups: Groups, ghost entries: seq<Entry>)
    returns (r: Groups)
    requires groups == Grouped(objType, entries)
    ensures r == Grouped(objType, entries + AuditEntries(report))
  {
    r := groups;
    ghost var seen := entries;
    for i := 0 to |report.checks|
      invariant seen == entries + FlatMap(c => [AuditEntry(report, c)], report.checks[..i])
      invariant r == Grouped(objType, seen)
    {
      var check := report.checks[i];
      var message := "";
      if |check.messages| > 0 {
        message := check.messages[0];
      }
      var status := Fail;
      if check.success {
        status := Pass;
      }
      var e := Entry(check.id, check.remediation, Detail(report.name, report.namespace, message, status));
      r := AddEntry(objType, r, e, seen);
      seen := seen + [e];
      assert report.checks[..i + 1][..i] == report.checks[..i];
    }
    assert report.checks[..|report.checks|] == report.checks;
  }

  /** kube-bench: four nested loops over reports, sections, tests and results. */
  method MapBenchReports(objType: string, list: ObjectList) returns (groups: Groups)
    ensures groups == if list.BenchList? then Grouped(objType, Entries(list)) else map[]
  {
    groups := map[];
    if list.AuditList? || |list.bench| == 0 {
      return;
    }
    ghost var seen: seq<Entry> := [];
    for i := 0 to |list.bench|
      invariant seen == FlatMap(BenchEntries, list.bench[..i]) && groups == Grouped(objType, seen)
    {
      groups := MapBenchReport(objType, list.bench[i], groups, seen);
      seen := seen + BenchEntries(list.bench[i]);
      assert list.bench[..i + 1][..i] == list.bench[..i];
    }
    assert list.bench[..|list.bench|] == list.bench;
  }

  /** config-audit: the message of a detail is the first message of the check. */
  method MapAuditReports(objType: string, list: ObjectList) returns (groups: Groups)
    ensures groups == if list.AuditList? then Grouped(objType, Entries(list)) else map[]
  {
    groups := map[];
    if list.BenchList? || |list.audits| == 0 {
      return;
    }
    ghost var seen: seq<Entry> := [];
    for i := 0 to |list.audits|
      invariant seen == FlatMap(AuditEntries, list.audits[..i]) && groups == Grouped(objType, seen)
    {
      groups := MapAuditReport(objType, list.audits[i], groups, seen);
      seen := seen + AuditEntries(list.audits[i]);
      assert list.audits[..i + 1][..i] == list.audits[..i];
    }
    assert list.audits[..|list.audits|] == list.audits;
  }
}
