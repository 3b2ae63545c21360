/** The two compliance reports as functions of the specification and the fetched scanner reports, and
    the theorems about how they count and how they agree. */
module ComplianceReport {
  import opened Collections
  import opened ComplianceMapper

  /** A control of a compliance specification; `checks` are the ids of the checks it maps to. */
  datatype Control = Control(
    id: string, name: string, description: string, severity: string, kinds: seq<string>,
    scanner: string, checks: seq<string>, defaultStatus: Status)

  datatype Source = Source(scanner: string, kind: string)

  /** The lists that could be fetched. */
  type Fetched = map<Source, ObjectList>

  /** Check ids to the groups found for them. */
  type Results = map<string, seq<ScannerCheckResult>>

  predicate Supported(scanner: string) {
    scanner == "kube-bench" || scanner == "config-audit"
  }

  // ---------------------------------------------------------------- collecting

  /** The results of one list; a mapper ignores lists of the other type. */
  function EntriesAt(fetched: Fetched, src: Source): seq<Entry> {
    if && src in fetched
       && (|| (src.scanner == "kube-bench" && fetched[src].BenchList?)
           || (src.scanner == "config-audit" && fetched[src].AuditList?))
    then Entries(fetched[src]) else []
  }

  function ResultAt(fetched: Fetched, src: Source, id: string): seq<ScannerCheckResult> {
    if id in Ids(EntriesAt(fetched, src)) then [GroupOf(src.kind, EntriesAt(fetched, src), id)] else []
  }

  function ResultsFor(fetched: Fetched, order: seq<Source>, id: string): seq<ScannerCheckResult> {
    FlatMap(src => ResultAt(fetched, src, id), order)
  }

  function AllIds(fetched: Fetched): set<string> {
    set src, id | src in fetched && id in Ids(EntriesAt(fetched, src)) :: id
  }

  function Collected(fetched: Fetched, order: seq<Source>): Results {
    map id | id in AllIds(fetched) :: ResultsFor(fetched, order, id)
  }

  /** Every collected id has a group, and no group is empty. */
  lemma CollectedIsNotEmpty(fetched: Fetched, order: seq<Source>, id: string)
    requires Enumerates(order, fetched.Keys) && id in AllIds(fetched)
    ensures ResultsFor(fetched, order, id) != []
    ensures forall r :: r in ResultsFor(fetched, order, id) ==> r.details != []
  {
    var f := src => ResultAt(fetched, src, id);
    var src :| src in fetched && id in Ids(EntriesAt(fetched, src));
    FlatMapMember(f, order, ResultAt(fetched, src, id)[0]);
    forall r | r in ResultsFor(fetched, order, id)
      ensures r.details != []
    {
      FlatMapMember(f, order, r);
      var s :| s in order && r in f(s);
      GroupsAreNotEmpty(s.kind, EntriesAt(fetched, s), id);
    }
  }

  // ---------------------------------------------------------------- counting

  predicate Passes(s: Status) {
    s == Pass || s == Warn
  }

  predicate Fails(s: Status) {
    s == Fail
  }

  function One(good: Status -> bool): Detail -> int {
    (d: Detail) => if good(d.status) then 1 else 0
  }

  function CountDetails(good: Status -> bool, details: seq<Detail>): int {
    Sum(One(good), details)
  }

  function CountResults(good: Status -> bool, results: seq<ScannerCheckResult>): int {
    Sum((r: ScannerCheckResult) => CountDetails(good, r.details), results)
  }

  /** The fetched results of one list with the given id and a good status. */
  function CountEntries(good: Status -> bool, entries: seq<Entry>, id: string): int {
    Sum(EntryCount(good, id), entries)
  }

  function EntryCount(good: Status -> bool, id: string): Entry -> int {
    (e: Entry) => if e.id == id && good(e.detail.status) then 1 else 0
  }

  /** The fetched results of all lists with the given id and a good status. */
  ghost function CountFetched(good: Status -> bool, fetched: Fetched, id: string): int {
    Sum(src => CountEntries(good, EntriesAt(fetched, src), id), Canonical(fetched.Keys))
  }

  lemma {:induction false} CountGroup(good: Status -> bool, entries: seq<Entry>, id: string)
    ensures CountDetails(good, DetailsOf(entries, id)) == CountEntries(good, entries, id)
  {
    if entries != [] {
      var init, last := entries[..|entries| - 1], entries[|entries| - 1];
      assert entries == init + [last];
      CountGroup(good, init, id);
      DetailsAppend(init, last, id);
      SumConcat(One(good), DetailsOf(init, id), if last.id == id then [last.detail] else []);
      assert [last.detail][..0] == [];
    }
  }

  lemma {:induction false} CountCollected(good: Status -> bool, fetched: Fetched, order: seq<Source>, id: string)
    ensures CountResults(good, ResultsFor(fetched, order, id))
            == Sum(src => CountEntries(good, EntriesAt(fetched, src), id), order)
  {
    if order != [] {
      var init, src := order[..|order| - 1], order[|order| - 1];
      CountCollected(good, fetched, init, id);
      CountGroup(good, EntriesAt(fetched, src), id);
      DetailsOfAbsent(EntriesAt(fetched, src), id);
      var found := ResultAt(fetched, src, id);
      var count := (r: ScannerCheckResult) => CountDetails(good, r.details);
      SumConcat(count, ResultsFor(fetched, init, id), found);
      assert found != [] ==> found[..0] == [] && Sum(count, found) == CountDetails(good, found[0].details);
    }
  }

  /** The groups of a check id hold exactly the fetched results with that id, whatever the order in
      which the lists were visited. */
  lemma CountsAgree(good: Status -> bool, fetched: Fetched, order: seq<Source>, id: string)
    requires Enumerates(order, fetched.Keys)
    ensures CountResults(good, ResultsFor(fetched, order, id)) == CountFetched(good, fetched, id)
  {
    CountCollected(good, fetched, order, id);
    EnumerationsPermute(order, Canonical(fetched.Keys), fetched.Keys);
    SumPermutation(src => CountEntries(good, EntriesAt(fetched, src), id), order, Canonical(fetched.Keys));
  }

  lemma {:induction false} NothingToCount(good: Status -> bool, fetched: Fetched, order: seq<Source>, id: string)
    requires id !in AllIds(fetched) && forall src :: src in order ==> src in fetched
    ensures ResultsFor(fetched, order, id) == []
  {
    if order != [] {
      NothingToCount(good, fetched, order[..|order| - 1], id);
    }
  }

  // ---------------------------------------------------------------- the specification

  const WORKLOAD_KINDS := {"Pod", "ReplicationController", "ReplicaSet", "StatefulSet", "DaemonSet", "CronJob", "Job"}

  /** `Workload` stands for the workload kinds. */
  function ExpandKind(kind: string): set<string> {
    if kind == "Workload" then WORKLOAD_KINDS else {kind}
  }

  function ExpandKinds(kinds: seq<string>): set<string> {
    if kinds == [] then {} else ExpandKinds(kinds[..|kinds| - 1]) + ExpandKind(kinds[|kinds| - 1])
  }

  datatype SpecMaps = SpecMaps(
    scannerKinds: map<string, set<string>>,
    controls: map<string, Control>,
    checkIds: map<string, seq<string>>,
    resources: map<string, seq<string>>)

  function CheckIdsOf(controls: seq<Control>, id: string): seq<string> {
    FlatMap((c: Control) => if c.id == id then c.checks else [], controls)
  }

  function LastControl(controls: seq<Control>, id: string): Option<Control> {
    if controls == [] then None
    else if controls[|controls| - 1].id == id then Some(controls[|controls| - 1])
    else LastControl(controls[..|controls| - 1], id)
  }

  function ResourcesBag(controls: seq<Control>, id: string): multiset<string> {
    if controls == [] then multiset{}
    else
      var last := controls[|controls| - 1];
      ResourcesBag(controls[..|controls| - 1], id)
      + if last.id == id then multiset(ExpandKinds(last.kinds)) else multiset{}
  }

  function KindsFor(controls: seq<Control>, scanner: string): set<string> {
    if controls == [] then {}
    else
      var last := controls[|controls| - 1];
      KindsFor(controls[..|controls| - 1], scanner) + if last.scanner == scanner then ExpandKinds(last.kinds) else {}
  }

  /** What the maps say about one control id: the last control of the id gives its texts and default,
      the check ids and kinds of all controls of the id are joined. */
  ghost predicate DescribesControl(m: SpecMaps, controls: seq<Control>, id: string) {
    && (id in m.controls <==> LastControl(controls, id).Some?)
    && (id in m.controls ==> m.controls[id].(kinds := []) == LastControl(controls, id).value.(kinds := []))
    && (id in m.resources <==> id in m.controls)
    && ResourcesBag(controls, id) == (if id in m.resources then multiset(m.resources[id]) else multiset{})
    && (id in m.checkIds ==> id in m.controls && m.checkIds[id] != [])
    && CheckIdsOf(controls, id) == (if id in m.checkIds then m.checkIds[id] else [])
  }

  ghost predicate Describes(m: SpecMaps, controls: seq<Control>) {
    && (forall id :: DescribesControl(m, controls, id))
    && (forall scanner ::
          KindsFor(controls, scanner) == if scanner in m.scannerKinds then m.scannerKinds[scanner] else {})
  }

  // ---------------------------------------------------------------- the summary report

  datatype ControlCheck = ControlCheck(
    id: string, name: string, description: string, severity: string, passTotal: int, failTotal: int)

  /** The totals of a list of check ids, with multiplicity. */
  function TotalOf(good: Status -> bool, results: Results, checkIds: seq<string>): int {
    Sum(checkId => if checkId in results then CountResults(good, results[checkId]) else 0, checkIds)
  }

  /** Without any passing or failing result the control's default counts as one. */
  function CheckFor(m: SpecMaps, results: Results, id: string): ControlCheck
    requires id in m.checkIds && id in m.controls
  {
    var control := m.controls[id];
    var pass, fail := TotalOf(Passes, results, m.checkIds[id]), TotalOf(Fails, results, m.checkIds[id]);
    ControlCheck(
      id, control.name, control.description, control.severity,
      if pass == 0 && fail == 0 && control.defaultStatus == Pass then 1 else pass,
      if pass == 0 && fail == 0 && control.defaultStatus == Fail then 1 else fail)
  }

  /** The results that were fetched for a list of check ids, counted with multiplicity. */
  ghost function FetchedTotal(good: Status -> bool, fetched: Fetched, checkIds: seq<string>): int {
    Sum(checkId => CountFetched(good, fetched, checkId), checkIds)
  }

  lemma TotalsConserve(good: Status -> bool, fetched: Fetched, order: seq<Source>, checkIds: seq<string>)
    requires Enumerates(order, fetched.Keys)
    ensures TotalOf(good, Collected(fetched, order), checkIds) == FetchedTotal(good, fetched, checkIds)
  {
    var results := Collected(fetched, order);
    var f := checkId => if checkId in results then CountResults(good, results[checkId]) else 0;
    var g := checkId => CountFetched(good, fetched, checkId);
    forall checkId | checkId in checkIds
      ensures f(checkId) == g(checkId)
    {
      CountsAgree(good, fetched, order, checkId);
      if checkId !in results {
        NothingToCount(good, fetched, order, checkId);
      }
    }
    SumExtensional(f, g, checkIds);
  }

  /** Conservation: the totals of a control are the numbers of passing and failing results over all
      fetched reports, summed over its check ids, or its default when both are zero. Nothing depends
      on the order in which lists, kinds or checks were visited. */
  lemma ControlChecksConserve(m: SpecMaps, fetched: Fetched, order: seq<Source>, id: string)
    requires Enumerates(order, fetched.Keys) && id in m.checkIds && id in m.controls
    ensures var pass := FetchedTotal(Passes, fetched, m.checkIds[id]);
            var fail := FetchedTotal(Fails, fetched, m.checkIds[id]);
            var check := CheckFor(m, Collected(fetched, order), id);
            if pass == 0 && fail == 0
            then check.passTotal == (if m.controls[id].defaultStatus == Pass then 1 else 0)
                 && check.failTotal == (if m.controls[id].defaultStatus == Fail then 1 else 0)
            else check.passTotal == pass && check.failTotal == fail
  {
    TotalsConserve(Passes, fetched, order, m.checkIds[id]);
    TotalsConserve(Fails, fetched, order, m.checkIds[id]);
  }

  // ---------------------------------------------------------------- the detail report

  datatype ControlDetails = ControlDetails(
    id: string, name: string, description: string, severity: string, results: seq<ScannerCheckResult>)

  /** The details that neither pass nor warn. */
  function Failing(details: seq<Detail>): seq<Detail> {
    FlatMap((d: Detail) => if Passes(d.status) then [] else [d], details)
  }

  function Truncate(details: seq<Detail>, limit: int): seq<Detail> {
    if limit <= 0 then [] else if limit < |details| then details[..limit] else details
  }

  function FailedResult(limit: int): ScannerCheckResult -> seq<ScannerCheckResult> {
    (r: ScannerCheckResult) =>
      var failing := Truncate(Failing(r.details), limit);
      if failing == [] then [] else [r.(details := failing)]
  }

  function MissingResource(kind: string): ScannerCheckResult {
    ScannerCheckResult(kind, "", "", [Detail("", "", "Resource do not exist in cluster", Fail)])
  }

  function DefaultResults(control: Control, resources: seq<string>): seq<ScannerCheckResult> {
    if control.defaultStatus == Fail then MapSeq(MissingResource, resources) else []
  }

  function CheckResults(m: SpecMaps, results: Results, id: string, checkId: string, limit: int): seq<ScannerCheckResult>
    requires id in m.controls && id in m.resources
  {
    if checkId in results then FlatMap(FailedResult(limit), results[checkId])
    else DefaultResults(m.controls[id], m.resources[id])
  }

  function DetailEntry(m: SpecMaps, results: Results, id: string, checkId: string, limit: int): seq<ControlDetails>
    requires id in m.controls && id in m.resources
  {
    var control, found := m.controls[id], CheckResults(m, results, id, checkId, limit);
    if found == [] then [] else [ControlDetails(id, control.name, control.description, control.severity, found)]
  }

  function EntryOf(m: SpecMaps, results: Results, id: string, limit: int): string -> seq<ControlDetails>
    requires id in m.controls && id in m.resources
  {
    checkId => DetailEntry(m, results, id, checkId, limit)
  }

  /** One entry for every check id of the control that has something to show. */
  function DetailsFor(m: SpecMaps, results: Results, id: string, limit: int): seq<ControlDetails>
    requires id in m.controls && id in m.resources && id in m.checkIds
  {
    FlatMap(EntryOf(m, results, id, limit), m.checkIds[id])
  }

  // ---------------------------------------------------------------- agreement of the two reports

  /** Some detail of the group counts for neither a pass nor a warning. */
  predicate HasFailing(results: seq<ScannerCheckResult>) {
    exists r, d :: r in results && d in r.details && !Passes(d.status)
  }

  lemma FailingMember(details: seq<Detail>, d: Detail)
    ensures d in Failing(details) <==> d in details && !Passes(d.status)
  {
    var f := (d: Detail) => if Passes(d.status) then [] else [d];
    FlatMapMember(f, details, d);
  }

  lemma FailedResultIff(r: ScannerCheckResult, limit: int)
    ensures FailedResult(limit)(r) != [] <==> limit >= 1 && exists d :: d in r.details && !Passes(d.status)
  {
    if Failing(r.details) != [] {
      FailingMember(r.details, Failing(r.details)[0]);
    }
    if d :| d in r.details && !Passes(d.status) {
      FailingMember(r.details, d);
    }
  }

  lemma FailedResultsIff(results: seq<ScannerCheckResult>, limit: int)
    ensures FlatMap(FailedResult(limit), results) != [] <==> limit >= 1 && HasFailing(results)
  {
    var f := FailedResult(limit);
    if FlatMap(f, results) != [] {
      var x := FlatMap(f, results)[0];
      FlatMapMember(f, results, x);
      var r :| r in results && x in f(r);
      FailedResultIff(r, limit);
    }
    if limit >= 1 && HasFailing(results) {
      var r, d :| r in results && d in r.details && !Passes(d.status);
      FailedResultIff(r, limit);
      FlatMapMember(f, results, f(r)[0]);
    }
  }

  /** The check has something to show: a listed result, or none at all while the default is to fail. */
  predicate Shows(m: SpecMaps, results: Results, id: string, checkId: string, limit: int)
    requires id in m.controls && id in m.resources
  {
    if checkId in results then limit >= 1 && HasFailing(results[checkId])
    else m.controls[id].defaultStatus == Fail && m.resources[id] != []
  }

  /** The detail report mentions a control exactly when one of its checks has a result that neither
      passes nor warns, or one of its checks has no result while the default is to fail. */
  lemma HasDetailsIff(m: SpecMaps, results: Results, id: string, limit: int)
    requires id in m.controls && id in m.resources && id in m.checkIds
    ensures DetailsFor(m, results, id, limit) != [] <==>
              exists checkId :: checkId in m.checkIds[id] && Shows(m, results, id, checkId, limit)
  {
    var f := EntryOf(m, results, id, limit);
    forall checkId | checkId in m.checkIds[id]
      ensures f(checkId) != [] <==> Shows(m, results, id, checkId, limit)
    {
      if checkId in results {
        FailedResultsIff(results[checkId], limit);
      }
    }
    if DetailsFor(m, results, id, limit) != [] {
      FlatMapMember(f, m.checkIds[id], DetailsFor(m, results, id, limit)[0]);
    }
    if checkId :| checkId in m.checkIds[id] && f(checkId) != [] {
      FlatMapMember(f, m.checkIds[id], f(checkId)[0]);
    }
  }

  lemma {:induction false} CountPositiveIff<T>(f: T -> int, xs: seq<T>)
    requires forall x :: x in xs ==> f(x) >= 0
    ensures Sum(f, xs) >= 0
    ensures Sum(f, xs) > 0 <==> exists x :: x in xs && f(x) > 0
  {
    if xs != [] {
      CountPositiveIff(f, xs[..|xs| - 1]);
      assert xs == xs[..|xs| - 1] + [xs[|xs| - 1]];
    }
  }

  ghost predicate HasStatus(good: Status -> bool, results: seq<ScannerCheckResult>) {
    exists r, d :: r in results && d in r.details && good(d.status)
  }

  lemma CountResultsPositiveIff(good: Status -> bool, results: seq<ScannerCheckResult>)
    ensures CountResults(good, results) >= 0
    ensures CountResults(good, results) > 0 <==> HasStatus(good, results)
  {
    var f := (r: ScannerCheckResult) => CountDetails(good, r.details);
    forall r | r in results
      ensures f(r) >= 0 && (f(r) > 0 <==> exists d :: d in r.details && good(d.status))
    {
      CountPositiveIff(One(good), r.details);
    }
    CountPositiveIff(f, results);
  }

  lemma TotalPositiveIff(good: Status -> bool, results: Results, checkIds: seq<string>)
    ensures TotalOf(good, results, checkIds) >= 0
    ensures TotalOf(good, results, checkIds) > 0 <==>
              exists checkId :: checkId in checkIds && checkId in results && HasStatus(good, results[checkId])
  {
    var f := checkId => if checkId in results then CountResults(good, results[checkId]) else 0;
    forall checkId | checkId in checkIds
      ensures f(checkId) >= 0
      ensures f(checkId) > 0 <==> checkId in results && HasStatus(good, results[checkId])
    {
      if checkId in results {
        CountResultsPositiveIff(good, results[checkId]);
      }
    }
    CountPositiveIff(f, checkIds);
  }

  /** The two reports agree: a control that fails in the summary, really or by default, has an entry in
      the detail report, provided some failures may be listed and the control names some kind. */
  lemma FailingControlsHaveDetails(m: SpecMaps, fetched: Fetched, order: seq<Source>, id: string, limit: int)
    requires Enumerates(order, fetched.Keys)
    requires id in m.controls && id in m.resources && id in m.checkIds && m.checkIds[id] != []
    requires limit >= 1 && m.resources[id] != []
    requires CheckFor(m, Collected(fetched, order), id).failTotal > 0
    ensures DetailsFor(m, Collected(fetched, order), id, limit) != []
  {
    var results, checkIds := Collected(fetched, order), m.checkIds[id];
    HasDetailsIff(m, results, id, limit);
    TotalPositiveIff(Fails, results, checkIds);
    if TotalOf(Fails, results, checkIds) > 0 {
      FailuresAreListed(results, checkIds);
      var checkId :| checkId in checkIds && checkId in results && HasFailing(results[checkId]);
      assert Shows(m, results, id, checkId, limit);
    } else {
      NothingCounted(m, fetched, order, id);
      assert Shows(m, results, id, checkIds[0], limit);
    }
  }

  lemma FailuresAreListed(results: Results, checkIds: seq<string>)
    requires TotalOf(Fails, results, checkIds) > 0
    ensures exists checkId :: checkId in checkIds && checkId in results && HasFailing(results[checkId])
  {
    TotalPositiveIff(Fails, results, checkIds);
    var checkId :| checkId in checkIds && checkId in results && HasStatus(Fails, results[checkId]);
    var r, d :| r in results[checkId] && d in r.details && Fails(d.status);
    assert HasFailing(results[checkId]);
  }

  /** Without a pass or a fail, the first check has no result at all or only results of other statuses. */
  lemma NothingCounted(m: SpecMaps, fetched: Fetched, order: seq<Source>, id: string)
    requires Enumerates(order, fetched.Keys) && id in m.checkIds && m.checkIds[id] != []
    requires TotalOf(Passes, Collected(fetched, order), m.checkIds[id]) == 0
    ensures var checkId, results := m.checkIds[id][0], Collected(fetched, order);
            checkId in m.checkIds[id] && (checkId in results ==> HasFailing(results[checkId]))
  {
    var checkId, results := m.checkIds[id][0], Collected(fetched, order);
    TotalPositiveIff(Passes, results, m.checkIds[id]);
    if checkId in results {
      CollectedIsNotEmpty(fetched, order, checkId);
      var r := results[checkId][0];
      assert r in results[checkId] && r.details[0] in r.details;
      assert !Passes(r.details[0].status);
    }
  }

  predicate Neither(s: Status) {
    !Passes(s) && !Fails(s)
  }

  /** The detail report has something to say about a control that does not fail: a status that is neither a
      pass nor a failure, or a missing result that defaults to failing. */
  ghost predicate OnlyListed(m: SpecMaps, results: Results, id: string, limit: int)
    requires id in m.controls && id in m.resources && id in m.checkIds
  {
    exists checkId :: checkId in m.checkIds[id] &&
      if checkId in results then limit >= 1 && HasStatus(Neither, results[checkId])
      else m.controls[id].defaultStatus == Fail && m.resources[id] != []
  }

  /** The converse of the agreement fails. Exactly these controls are listed in the details without failing
      in the summary: no check fails, a default of failing is overruled by a check that passes, and
      some check is listed all the same. */
  lemma DetailsWithoutFailureIff(m: SpecMaps, results: Results, id: string, limit: int)
    requires id in m.controls && id in m.resources && id in m.checkIds
    ensures CheckFor(m, results, id).failTotal == 0 && DetailsFor(m, results, id, limit) != [] <==>
            && (forall checkId :: checkId in m.checkIds[id] && checkId in results ==>
                  !HasStatus(Fails, results[checkId]))
            && (m.controls[id].defaultStatus == Fail ==>
                  exists checkId ::
                    checkId in m.checkIds[id] && checkId in results && HasStatus(Passes, results[checkId]))
            && OnlyListed(m, results, id, limit)
  {
    TotalPositiveIff(Passes, results, m.checkIds[id]);
    TotalPositiveIff(Fails, results, m.checkIds[id]);
    HasDetailsIff(m, results, id, limit);
    if forall checkId :: checkId in m.checkIds[id] && checkId in results ==> !HasStatus(Fails, results[checkId]) {
      ShownWithoutFailure(m, results, id, limit);
    }
  }

  lemma ShownWithoutFailure(m: SpecMaps, results: Results, id: string, limit: int)
    requires id in m.controls && id in m.resources && id in m.checkIds
    requires forall checkId :: checkId in m.checkIds[id] && checkId in results ==> !HasStatus(Fails, results[checkId])
    ensures (exists checkId :: checkId in m.checkIds[id] && Shows(m, results, id, checkId, limit))
            <==> OnlyListed(m, results, id, limit)
  {
    forall checkId | checkId in m.checkIds[id] && checkId in results
      ensures HasFailing(results[checkId]) <==> HasStatus(Neither, results[checkId])
    {
      FailingWithoutFailure(results[checkId]);
    }
  }

  lemma FailingWithoutFailure(results: seq<ScannerCheckResult>)
    requires !HasStatus(Fails, results)
    ensures HasFailing(results) <==> HasStatus(Neither, results)
  {
    if HasFailing(results) {
      var r, d :| r in results && d in r.details && !Passes(d.status);
      assert Neither(d.status);
    }
    if HasStatus(Neither, results) {
      var r, d :| r in results && d in r.details && Neither(d.status);
      assert !Passes(d.status);
    }
  }

  /** One way to get there: a check passes and another has no result while the default is to fail. */
  lemma DetailsWithoutFailure(m: SpecMaps, results: Results, id: string, limit: int, done: string, missing: string)
    requires id in m.controls && id in m.resources && id in m.checkIds && m.resources[id] != []
    requires m.controls[id].defaultStatus == Fail
    requires done in m.checkIds[id] && done in results && HasStatus(Passes, results[done])
    requires missing in m.checkIds[id] && missing !in results
    requires forall c :: c in m.checkIds[id] && c in results ==> !HasStatus(Fails, results[c])
    ensures CheckFor(m, results, id).failTotal == 0 && DetailsFor(m, results, id, limit) != []
  {
    DetailsWithoutFailureIff(m, results, id, limit);
  }

  // ---------------------------------------------------------------- order independence of the details

  /** A detail entry without the order of its results. */
  datatype DetailsBag = DetailsBag(
    id: string, name: string, description: string, severity: string, results: multiset<ScannerCheckResult>)

  function BagOf(d: ControlDetails): DetailsBag {
    DetailsBag(d.id, d.name, d.description, d.severity, multiset(d.results))
  }

  function BagsOf(ds: seq<ControlDetails>): (bags: seq<DetailsBag>)
    ensures |bags| == |ds| && forall i :: 0 <= i < |ds| ==> bags[i] == BagOf(ds[i])
  {
    MapSeq(BagOf, ds)
  }

  /** Two sets of maps say the same about a control, up to the order of its kinds. */
  predicate SameControl(m: SpecMaps, n: SpecMaps, id: string) {
    && id in m.controls && id in n.controls && id in m.resources && id in n.resources
    && m.controls[id].(kinds := []) == n.controls[id].(kinds := [])
    && multiset(m.resources[id]) == multiset(n.resources[id])
  }

  lemma CheckResultsPermute(m: SpecMaps, n: SpecMaps, fetched: Fetched, a: seq<Source>, b: seq<Source>,
                            id: string, checkId: string, limit: int)
    requires Enumerates(a, fetched.Keys) && Enumerates(b, fetched.Keys) && SameControl(m, n, id)
    ensures multiset(CheckResults(m, Collected(fetched, a), id, checkId, limit))
            == multiset(CheckResults(n, Collected(fetched, b), id, checkId, limit))
  {
    if checkId in AllIds(fetched) {
      EnumerationsPermute(a, b, fetched.Keys);
      FlatMapPermutation(src => ResultAt(fetched, src, checkId), a, b);
      FlatMapPermutation(FailedResult(limit), ResultsFor(fetched, a, checkId), ResultsFor(fetched, b, checkId));
    } else {
      MapPermutation(MissingResource, m.resources[id], n.resources[id]);
      assert m.controls[id].(kinds := []).defaultStatus == n.controls[id].(kinds := []).defaultStatus;
    }
  }

  lemma EntriesPermute(m: SpecMaps, n: SpecMaps, fetched: Fetched, a: seq<Source>, b: seq<Source>,
                       id: string, checkId: string, limit: int)
    requires Enumerates(a, fetched.Keys) && Enumerates(b, fetched.Keys) && SameControl(m, n, id)
    ensures BagsOf(DetailEntry(m, Collected(fetched, a), id, checkId, limit))
            == BagsOf(DetailEntry(n, Collected(fetched, b), id, checkId, limit))
  {
    CheckResultsPermute(m, n, fetched, a, b, id, checkId, limit);
    SameEmptiness(CheckResults(m, Collected(fetched, a), id, checkId, limit),
                  CheckResults(n, Collected(fetched, b), id, checkId, limit));
    assert m.controls[id].(kinds := []).name == n.controls[id].(kinds := []).name;
  }

  lemma SameEmptiness<T>(xs: seq<T>, ys: seq<T>)
    requires multiset(xs) == multiset(ys)
    ensures xs == [] <==> ys == []
  {
    assert |multiset(xs)| == |xs| && |multiset(ys)| == |ys|;
  }

  lemma BagsConcat(xs: seq<ControlDetails>, ys: seq<ControlDetails>)
    ensures BagsOf(xs + ys) == BagsOf(xs) + BagsOf(ys)
  {
  }

  /** The detail entries of a control list the same results for every iteration order of the lists and of
      the kinds; only the order of the results inside an entry can differ. */
  lemma {:induction false} DetailsPermute(m: SpecMaps, n: SpecMaps, fetched: Fetched, a: seq<Source>, b: seq<Source>,
                                          id: string, checkIds: seq<string>, limit: int)
    requires Enumerates(a, fetched.Keys) && Enumerates(b, fetched.Keys) && SameControl(m, n, id)
    ensures BagsOf(FlatMap(EntryOf(m, Collected(fetched, a), id, limit), checkIds))
            == BagsOf(FlatMap(EntryOf(n, Collected(fetched, b), id, limit), checkIds))
  {
    if checkIds != [] {
      var init, last := checkIds[..|checkIds| - 1], checkIds[|checkIds| - 1];
      DetailsPermute(m, n, fetched, a, b, id, init, limit);
      EntriesPermute(m, n, fetched, a, b, id, last, limit);
      BagsConcat(FlatMap(EntryOf(m, Collected(fetched, a), id, limit), init),
                 DetailEntry(m, Collected(fetched, a), id, last, limit));
      BagsConcat(FlatMap(EntryOf(n, Collected(fetched, b), id, limit), init),
                 DetailEntry(n, Collected(fetched, b), id, last, limit));
    }
  }
}
