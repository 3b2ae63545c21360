/** The totals of the compliance report, counted over the scanner reports themselves. */
module ComplianceCounts {
  import opened Collections
  import opened ComplianceMapper
  import opened ComplianceReport

  function Ones<T>(good: T -> bool): T -> int {
    x => if good(x) then 1 else 0
  }

  lemma OneEntry(e: Entry, id: string)
    ensures EntryCount(Passes, id)(e) == if e.id == id && (e.detail.status.Pass? || e.detail.status.Warn?) then 1 else 0
    ensures EntryCount(Fails, id)(e) == if e.id == id && e.detail.status.Fail? then 1 else 0
  {
    assert EntryCount(Passes, id)(e) == if e.id == id && Passes(e.detail.status) then 1 else 0;
    assert EntryCount(Fails, id)(e) == if e.id == id && Fails(e.detail.status) then 1 else 0;
  }

  // ---------------------------------------------------------------- config-audit

  function InAudit(one: AuditCheck -> int): AuditReport -> int {
    (r: AuditReport) => Sum(one, r.checks)
  }

  /** The number of pairs of a report and one of its checks that is good. */
  function CountChecks(good: AuditCheck -> bool, audits: seq<AuditReport>): int {
    Sum(InAudit(Ones(good)), audits)
  }

  lemma AuditReportCount(count: Entry -> int, one: AuditCheck -> int, r: AuditReport)
    requires forall c :: count(AuditEntry(r, c)) == one(c)
    ensures Sum(count, AuditEntries(r)) == Sum(one, r.checks)
  {
    var f := c => [AuditEntry(r, c)];
    forall c
      ensures Sum(count, f(c)) == one(c)
    {
      SumSingle(count, AuditEntry(r, c));
    }
    SumFlatMap(count, f, one, r.checks);
  }

  lemma AuditListCount(count: Entry -> int, one: AuditCheck -> int, audits: seq<AuditReport>)
    requires forall r, c :: count(AuditEntry(r, c)) == one(c)
    ensures Sum(count, Entries(AuditList(audits))) == Sum(InAudit(one), audits)
  {
    forall r
      ensures Sum(count, AuditEntries(r)) == InAudit(one)(r)
    {
      AuditReportCount(count, one, r);
    }
    SumFlatMap(count, AuditEntries, InAudit(one), audits);
  }

  /** A check counts as a pass exactly when it succeeds and as a failure when it does not. */
  lemma AuditCounts(audits: seq<AuditReport>, id: string)
    ensures CountEntries(Passes, Entries(AuditList(audits)), id)
            == CountChecks((c: AuditCheck) => c.id == id && c.success, audits)
    ensures CountEntries(Fails, Entries(AuditList(audits)), id)
            == CountChecks((c: AuditCheck) => c.id == id && !c.success, audits)
  {
    var succeeds, fails := (c: AuditCheck) => c.id == id && c.success, (c: AuditCheck) => c.id == id && !c.success;
    forall r, c
      ensures EntryCount(Passes, id)(AuditEntry(r, c)) == Ones(succeeds)(c)
      ensures EntryCount(Fails, id)(AuditEntry(r, c)) == Ones(fails)(c)
    {
      var e := AuditEntry(r, c);
      OneEntry(e, id);
      assert Ones(succeeds)(c) == (if succeeds(c) then 1 else 0) && Ones(fails)(c) == (if fails(c) then 1 else 0);
    }
    AuditListCount(EntryCount(Passes, id), Ones(succeeds), audits);
    AuditListCount(EntryCount(Fails, id), Ones(fails), audits);
  }

  // ---------------------------------------------------------------- kube-bench

  function InTest(one: BenchResult -> int): BenchTest -> int {
    (t: BenchTest) => Sum(one, t.results)
  }

  function InSection(one: BenchResult -> int): BenchSection -> int {
    (s: BenchSection) => Sum(InTest(one), s.tests)
  }

  function InBench(one: BenchResult -> int): BenchReport -> int {
    (r: BenchReport) => Sum(InSection(one), r.sections)
  }

  /** The number of good results in all tests of all sections of all reports. */
  function CountBenchResults(good: BenchResult -> bool, bench: seq<BenchReport>): int {
    Sum(InBench(Ones(good)), bench)
  }

  lemma TestCount(count: Entry -> int, one: BenchResult -> int, r: BenchReport, t: BenchTest)
    requires forall x :: count(BenchEntry(r, x)) == one(x)
    ensures Sum(count, TestEntries(r, t)) == InTest(one)(t)
  {
    var f := x => [BenchEntry(r, x)];
    forall x
      ensures Sum(count, f(x)) == one(x)
    {
      SumSingle(count, BenchEntry(r, x));
    }
    SumFlatMap(count, f, one, t.results);
  }

  lemma SectionCount(count: Entry -> int, one: BenchResult -> int, r: BenchReport, s: BenchSection)
    requires forall x :: count(BenchEntry(r, x)) == one(x)
    ensures Sum(count, SectionEntries(r, s)) == InSection(one)(s)
  {
    var f := t => TestEntries(r, t);
    forall t
      ensures Sum(count, f(t)) == InTest(one)(t)
    {
      TestCount(count, one, r, t);
    }
    SumFlatMap(count, f, InTest(one), s.tests);
  }

  lemma BenchReportCount(count: Entry -> int, one: BenchResult -> int, r: BenchReport)
    requires forall x :: count(BenchEntry(r, x)) == one(x)
    ensures Sum(count, BenchEntries(r)) == InBench(one)(r)
  {
    var f := s => SectionEntries(r, s);
    forall s
      ensures Sum(count, f(s)) == InSection(one)(s)
    {
      SectionCount(count, one, r, s);
    }
    SumFlatMap(count, f, InSection(one), r.sections);
  }

  lemma BenchListCount(count: Entry -> int, one: BenchResult -> int, bench: seq<BenchReport>)
    requires forall r, x :: count(BenchEntry(r, x)) == one(x)
    ensures Sum(count, Entries(BenchList(bench))) == Sum(InBench(one), bench)
  {
    forall r
      ensures Sum(count, BenchEntries(r)) == InBench(one)(r)
    {
      BenchReportCount(count, one, r);
    }
    SumFlatMap(count, BenchEntries, InBench(one), bench);
  }

  /** A result counts as a pass when its status is a pass or a warning, and as a failure when it is a failure. */
  lemma BenchCounts(bench: seq<BenchReport>, id: string)
    ensures CountEntries(Passes, Entries(BenchList(bench)), id)
            == CountBenchResults((x: BenchResult) => x.testNumber == id && (x.status.Pass? || x.status.Warn?), bench)
    ensures CountEntries(Fails, Entries(BenchList(bench)), id)
            == CountBenchResults((x: BenchResult) => x.testNumber == id && x.status.Fail?, bench)
  {
    var passing := (x: BenchResult) => x.testNumber == id && (x.status.Pass? || x.status.Warn?);
    var failing := (x: BenchResult) => x.testNumber == id && x.status.Fail?;
    forall r, x
      ensures EntryCount(Passes, id)(BenchEntry(r, x)) == Ones(passing)(x)
      ensures EntryCount(Fails, id)(BenchEntry(r, x)) == Ones(failing)(x)
    {
      var e := BenchEntry(r, x);
      OneEntry(e, id);
      assert Ones(passing)(x) == (if passing(x) then 1 else 0) && Ones(failing)(x) == (if failing(x) then 1 else 0);
    }
    BenchListCount(EntryCount(Passes, id), Ones(passing), bench);
    BenchListCount(EntryCount(Fails, id), Ones(failing), bench);
  }

  // ---------------------------------------------------------------- all fetched lists

  /** What one list adds: a list that does not belong to its scanner adds nothing. */
  function InList(good: AuditCheck -> bool, fine: BenchResult -> bool, src: Source, list: ObjectList): int {
    if src.scanner == "config-audit" && list.AuditList? then CountChecks(good, list.audits)
    else if src.scanner == "kube-bench" && list.BenchList? then CountBenchResults(fine, list.bench)
    else 0
  }

  function InSource(good: AuditCheck -> bool, fine: BenchResult -> bool, fetched: Fetched): Source -> int {
    src => if src in fetched then InList(good, fine, src, fetched[src]) else 0
  }

  ghost function CountRaw(good: AuditCheck -> bool, fine: BenchResult -> bool, fetched: Fetched): int {
    Sum(InSource(good, fine, fetched), Canonical(fetched.Keys))
  }

  /** The passing and failing totals of a check id, over everything that was fetched. */
  lemma FetchedCounts(fetched: Fetched, id: string)
    ensures CountFetched(Passes, fetched, id)
            == CountRaw((c: AuditCheck) => c.id == id && c.success,
                        (x: BenchResult) => x.testNumber == id && (x.status.Pass? || x.status.Warn?), fetched)
    ensures CountFetched(Fails, fetched, id)
            == CountRaw((c: AuditCheck) => c.id == id && !c.success,
                        (x: BenchResult) => x.testNumber == id && x.status.Fail?, fetched)
  {
    var order := Canonical(fetched.Keys);
    var succeeds, fails := (c: AuditCheck) => c.id == id && c.success, (c: AuditCheck) => c.id == id && !c.success;
    var passing := (x: BenchResult) => x.testNumber == id && (x.status.Pass? || x.status.Warn?);
    var failing := (x: BenchResult) => x.testNumber == id && x.status.Fail?;
    forall src | src in order
      ensures CountEntries(Passes, EntriesAt(fetched, src), id) == InSource(succeeds, passing, fetched)(src)
      ensures CountEntries(Fails, EntriesAt(fetched, src), id) == InSource(fails, failing, fetched)(src)
    {
      match fetched[src]
      case AuditList(audits) => AuditCounts(audits, id);
      case BenchList(bench) => BenchCounts(bench, id);
    }
    SumExtensional(
      src => CountEntries(Passes, EntriesAt(fetched, src), id), InSource(succeeds, passing, fetched), order);
    SumExtensional(src => CountEntries(Fails, EntriesAt(fetched, src), id), InSource(fails, failing, fetched), order);
  }

  // ---------------------------------------------------------------- the totals of a control

  ghost function PassesOf(fetched: Fetched): string -> int {
    checkId => CountRaw((c: AuditCheck) => c.id == checkId && c.success,
                        (x: BenchResult) => x.testNumber == checkId && (x.status.Pass? || x.status.Warn?), fetched)
  }

  ghost function FailuresOf(fetched: Fetched): string -> int {
    checkId => CountRaw((c: AuditCheck) => c.id == checkId && !c.success,
                        (x: BenchResult) => x.testNumber == checkId && x.status.Fail?, fetched)
  }

  ghost function InControl(count: string -> int, id: string): Control -> int {
    (c: Control) => if c.id == id then Sum(count, c.checks) else 0
  }

  /** What passes for the checks of all controls with the id; a check that is listed twice counts twice. */
  ghost function PassTotal(controls: seq<Control>, fetched: Fetched, id: string): int {
    Sum(InControl(PassesOf(fetched), id), controls)
  }

  ghost function FailTotal(controls: seq<Control>, fetched: Fetched, id: string): int {
    Sum(InControl(FailuresOf(fetched), id), controls)
  }

  lemma CountOverControls(controls: seq<Control>, count: string -> int, id: string)
    ensures Sum(count, CheckIdsOf(controls, id)) == Sum(InControl(count, id), controls)
  {
    SumFlatMap(count, (c: Control) => if c.id == id then c.checks else [], InControl(count, id), controls);
  }

  lemma TotalsAreRaw(controls: seq<Control>, fetched: Fetched, id: string)
    ensures FetchedTotal(Passes, fetched, CheckIdsOf(controls, id)) == PassTotal(controls, fetched, id)
    ensures FetchedTotal(Fails, fetched, CheckIdsOf(controls, id)) == FailTotal(controls, fetched, id)
  {
    var ids := CheckIdsOf(controls, id);
    forall checkId
      ensures CountFetched(Passes, fetched, checkId) == PassesOf(fetched)(checkId)
      ensures CountFetched(Fails, fetched, checkId) == FailuresOf(fetched)(checkId)
    {
      FetchedCounts(fetched, checkId);
    }
    SumExtensional(checkId => CountFetched(Passes, fetched, checkId), PassesOf(fetched), ids);
    SumExtensional(checkId => CountFetched(Fails, fetched, checkId), FailuresOf(fetched), ids);
    CountOverControls(controls, PassesOf(fetched), id);
    CountOverControls(controls, FailuresOf(fetched), id);
  }

  // ---------------------------------------------------------------- what the controls say

  predicate IsLastControl(controls: seq<Control>, id: string, i: int) {
    && 0 <= i < |controls| && controls[i].id == id
    && forall j :: i < j < |controls| ==> controls[j].id != id
  }

  lemma {:induction false} LastControlIs(controls: seq<Control>, id: string)
    ensures LastControl(controls, id).None? <==> forall i :: 0 <= i < |controls| ==> controls[i].id != id
    ensures LastControl(controls, id).Some? ==>
              exists i :: IsLastControl(controls, id, i) && controls[i] == LastControl(controls, id).value
    ensures LastControl(controls, id).Some? ==>
              exists i :: 0 <= i < |controls| && controls[i].id == id && controls[i] == LastControl(controls, id).value
                          && forall j :: i < j < |controls| ==> controls[j].id != id
  {
    if controls != [] {
      var n := |controls| - 1;
      if controls[n].id == id {
        assert IsLastControl(controls, id, n);
      } else {
        LastControlIs(controls[..n], id);
        if i :| IsLastControl(controls[..n], id, i) && controls[..n][i] == LastControl(controls[..n], id).value {
          assert IsLastControl(controls, id, i);
        }
      }
    }
  }

  /** `Workload` stands for seven kinds, every other name for itself. */
  lemma {:induction false} ExpandKindsIff(kinds: seq<string>, kind: string)
    ensures kind in ExpandKinds(kinds) <==>
            || (kind in kinds && kind != "Workload")
            || ("Workload" in kinds &&
                (kind == "Pod" || kind == "ReplicationController" || kind == "ReplicaSet" || kind == "StatefulSet" ||
                 kind == "DaemonSet" || kind == "CronJob" || kind == "Job"))
  {
    if kinds != [] {
      var init, last := kinds[..|kinds| - 1], kinds[|kinds| - 1];
      ExpandKindsIff(init, kind);
      ExpandKindIff(last, kind);
      assert kinds == init + [last];
    }
  }

  lemma ExpandKindIff(name: string, kind: string)
    ensures kind in ExpandKind(name) <==>
            || (kind == name && kind != "Workload")
            || (name == "Workload" &&
                (kind == "Pod" || kind == "ReplicationController" || kind == "ReplicaSet" || kind == "StatefulSet" ||
                 kind == "DaemonSet" || kind == "CronJob" || kind == "Job"))
  {
  }

  /** Each kind of each control with the id counts once. */
  lemma {:induction false} ResourcesCount(controls: seq<Control>, id: string, kind: string)
    ensures ResourcesBag(controls, id)[kind]
            == Sum((c: Control) => if c.id == id && kind in ExpandKinds(c.kinds) then 1 else 0, controls)
  {
    if controls != [] {
      ResourcesCount(controls[..|controls| - 1], id, kind);
    }
  }
}
