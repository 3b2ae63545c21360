/** The loops that build the compliance reports, proved against their definition. */
module ComplianceManager {
  import opened Collections
  import opened ComplianceMapper
  import opened ComplianceReport

  /** Expands the kinds of a control through a hash set, so in no particular order. */
  method MapKinds(control: Control) returns (updated: seq<string>)
    ensures Enumerates(updated, ExpandKinds(control.kinds))
  {
    var kinds := {};
    for i := 0 to |control.kinds|
      invariant kinds == ExpandKinds(control.kinds[..i])
    {
      assert control.kinds[..i + 1][..i] == control.kinds[..i];
      if control.kinds[i] == "Workload" {
        kinds := kinds + {"Pod", "ReplicationController", "ReplicaSet", "StatefulSet", "DaemonSet", "CronJob", "Job"};
      } else {
        kinds := kinds + {control.kinds[i]};
      }
    }
    assert control.kinds[..|control.kinds|] == control.kinds;
    updated := Enumerate(kinds);
  }

  method AddKinds(kinds: seq<string>, listed: set<string>, resources: seq<string>)
    returns (allListed: set<string>, allResources: seq<string>)
    ensures allListed == listed + Elements(kinds) && allResources == resources + kinds
  {
    allListed, allResources := listed, resources;
    for i := 0 to |kinds|
      invariant allListed == listed + Elements(kinds[..i]) && allResources == resources + kinds[..i]
    {
      allListed := allListed + {kinds[i]};
      allResources := allResources + [kinds[i]];
      assert kinds[..i + 1] == kinds[..i] + [kinds[i]];
    }
    assert kinds[..|kinds|] == kinds;
  }

  method AddChecks(checks: seq<string>, checkIds: seq<string>) returns (all: seq<string>)
    ensures all == checkIds + checks
  {
    all := checkIds;
    for i := 0 to |checks|
      invariant all == checkIds + checks[..i]
    {
      all := all + [checks[i]];
    }
  }

  /** Adds one control to the maps. */
  method AddControl(m: SpecMaps, control: Control, ghost before: seq<Control>) returns (r: SpecMaps)
    requires Describes(m, before)
    ensures Describes(r, before + [control])
  {
    var kinds := MapKinds(control);
    var id, scanner := control.id, control.scanner;
    var listed, resources := AddKinds(
      kinds,
      if scanner in m.scannerKinds then m.scannerKinds[scanner] else {},
      if id in m.resources then m.resources[id] else []);
    var checks := AddChecks(control.checks, if id in m.checkIds then m.checkIds[id] else []);
    r := SpecMaps(
      m.scannerKinds[scanner := listed],
      m.controls[id := control.(kinds := kinds)],
      if |control.checks| > 0 then m.checkIds[id := checks] else m.checkIds,
      m.resources[id := resources]);
    AddedControl(m, control, before, kinds, r);
  }

  /** What one more control changes in the joined lists. */
  lemma AppendControl(before: seq<Control>, control: Control, id: string, scanner: string)
    ensures LastControl(before + [control], id) == if control.id == id then Some(control) else LastControl(before, id)
    ensures CheckIdsOf(before + [control], id)
            == CheckIdsOf(before, id) + if control.id == id then control.checks else []
    ensures ResourcesBag(before + [control], id)
            == ResourcesBag(before, id) + if control.id == id then multiset(ExpandKinds(control.kinds)) else multiset{}
    ensures KindsFor(before + [control], scanner)
            == KindsFor(before, scanner) + if control.scanner == scanner then ExpandKinds(control.kinds) else {}
  {
    assert (before + [control])[..|before|] == before;
  }

  lemma AddedControlAt(
    m: SpecMaps, control: Control, before: seq<Control>, kinds: seq<string>, r: SpecMaps, id: string)
    requires DescribesControl(m, before, id) && multiset(kinds) == multiset(ExpandKinds(control.kinds))
    requires r.controls == m.controls[control.id := control.(kinds := kinds)]
    requires r.resources
             == m.resources[control.id := (if control.id in m.resources then m.resources[control.id] else []) + kinds]
    requires r.checkIds ==
      if |control.checks| > 0
      then m.checkIds[control.id := (if control.id in m.checkIds then m.checkIds[control.id] else []) + control.checks]
      else m.checkIds
    ensures DescribesControl(r, before + [control], id)
  {
    AppendControl(before, control, id, control.scanner);
  }

  lemma AddedControl(m: SpecMaps, control: Control, before: seq<Control>, kinds: seq<string>, r: SpecMaps)
    requires Describes(m, before) && Enumerates(kinds, ExpandKinds(control.kinds))
    requires r == SpecMaps(
      m.scannerKinds[control.scanner :=
        (if control.scanner in m.scannerKinds then m.scannerKinds[control.scanner] else {}) + Elements(kinds)],
      m.controls[control.id := control.(kinds := kinds)],
      if |control.checks| > 0
      then m.checkIds[control.id := (if control.id in m.checkIds then m.checkIds[control.id] else []) + control.checks]
      else m.checkIds,
      m.resources[control.id := (if control.id in m.resources then m.resources[control.id] else []) + kinds])
    ensures Describes(r, before + [control])
  {
    var after := before + [control];
    EnumerationCounts(kinds, ExpandKinds(control.kinds));
    assert Elements(kinds) == ExpandKinds(control.kinds);
    forall id
      ensures DescribesControl(r, after, id)
    {
      assert DescribesControl(m, before, id);
      AddedControlAt(m, control, before, kinds, r, id);
    }
    forall scanner
      ensures KindsFor(after, scanner) == if scanner in r.scannerKinds then r.scannerKinds[scanner] else {}
    {
      AppendControl(before, control, control.id, scanner);
    }
  }

  method PopulateSpecDataToMaps(controls: seq<Control>) returns (m: SpecMaps)
    ensures Describes(m, controls)
  {
    m := SpecMaps(map[], map[], map[], map[]);
    for i := 0 to |controls|
      invariant Describes(m, controls[..i])
    {
      m := AddControl(m, controls[i], controls[..i]);
      assert controls[..i + 1] == controls[..i] + [controls[i]];
    }
    assert controls[..|controls|] == controls;
  }

  function Sources(scannerKinds: map<string, set<string>>): set<Source> {
    set scanner, kind | scanner in scannerKinds && kind in scannerKinds[scanner] :: Source(scanner, kind)
  }

  /** An unknown scanner has no list type, and a list without a type cannot be read. */
  function Read(lookup: Source -> Option<ObjectList>, src: Source): Option<ObjectList> {
    if Supported(src.scanner) then lookup(src) else None
  }

  /** The lists that can be read; one that cannot is skipped. */
  function FetchedBy(lookup: Source -> Option<ObjectList>, sources: set<Source>): Fetched {
    map src | src in sources && Read(lookup, src).Some? :: Read(lookup, src).value
  }

  method MapScannersToResources(scannerKinds: map<string, set<string>>, lookup: Source -> Option<ObjectList>)
    returns (fetched: Fetched)
    ensures fetched == FetchedBy(lookup, Sources(scannerKinds))
  {
    fetched := map[];
    var scanners := Enumerate(scannerKinds.Keys);
    ghost var visited: set<Source> := {};
    for i := 0 to |scanners|
      invariant fetched == FetchedBy(lookup, visited) && visited <= Sources(scannerKinds)
      invariant forall j, kind :: 0 <= j < i && kind in scannerKinds[scanners[j]] ==>
                  Source(scanners[j], kind) in visited
    {
      var kinds := Enumerate(scannerKinds[scanners[i]]);
      ghost var before := visited;
      for j := 0 to |kinds|
        invariant fetched == FetchedBy(lookup, visited) && before <= visited <= Sources(scannerKinds)
        invariant forall k :: 0 <= k < j ==> Source(scanners[i], kinds[k]) in visited
      {
        var src := Source(scanners[i], kinds[j]);
        var list := Read(lookup, src);
        visited := visited + {src};
        if list.None? {
          assert FetchedBy(lookup, visited) == fetched;
          continue;
        }
        fetched := fetched[src := list.value];
        assert FetchedBy(lookup, visited) == fetched;
      }
    }
    forall src | src in Sources(scannerKinds)
      ensures src in visited
    {
      var j :| 0 <= j < |scanners| && scanners[j] == src.scanner;
    }
    assert visited == Sources(scannerKinds);
  }

  /** The groups of one list. */
  method MapReportData(src: Source, fetched: Fetched) returns (groups: Groups)
    requires src in fetched && Supported(src.scanner)
    ensures groups == Grouped(src.kind, EntriesAt(fetched, src))
  {
    if src.scanner == "kube-bench" {
      groups := MapBenchReports(src.kind, fetched[src]);
    } else {
      groups := MapAuditReports(src.kind, fetched[src]);
    }
  }

  /** Joins the groups of all lists by check id; an unknown scanner is an error. */
  method CheckIdsToResults(fetched: Fetched) returns (r: Result<Results, string>, ghost order: seq<Source>)
    ensures r.Err? <==> exists src :: src in fetched && !Supported(src.scanner)
    ensures r.Ok? ==> Enumerates(order, fetched.Keys) && r.value == Collected(fetched, order)
  {
    var sources := Enumerate(fetched.Keys);
    order := sources;
    var results: Results := map[];
    ghost var visited: seq<Source> := [];
    for i := 0 to |sources|
      invariant forall j :: 0 <= j < i ==> Supported(sources[j].scanner)
      invariant visited == sources[..i] && IsCollected(fetched, visited, results)
    {
      if !Supported(sources[i].scanner) {
        return Err(sources[i].scanner), order;
      }
      results := AppendGroups(fetched, visited, sources[i], results);
      PrefixStep(sources, i);
      visited := visited + [sources[i]];
    }
    WholePrefix(sources);
    CollectedAll(fetched, sources, results);
    r := Ok(results);
  }

  ghost predicate IsCollected(fetched: Fetched, visited: seq<Source>, results: Results) {
    forall id :: && (id in results <==> ResultsFor(fetched, visited, id) != [])
                 && (id in results ==> results[id] == ResultsFor(fetched, visited, id))
  }

  lemma CollectedAll(fetched: Fetched, order: seq<Source>, results: Results)
    requires Enumerates(order, fetched.Keys) && IsCollected(fetched, order, results)
    ensures results == Collected(fetched, order)
  {
    forall id
      ensures id in results <==> id in AllIds(fetched)
    {
      if id in AllIds(fetched) {
        CollectedIsNotEmpty(fetched, order, id);
      } else {
        NothingToCount(Passes, fetched, order, id);
      }
    }
  }

  /** The groups of one more list, appended id by id. */
  function Joined(results: Results, groups: Groups): Results {
    map id | id in results.Keys + groups.Keys :: JoinedAt(results, groups, id)
  }

  function JoinedAt(results: Results, groups: Groups, id: string): seq<ScannerCheckResult> {
    var before := if id in results then results[id] else [];
    if id in groups then before + [groups[id]] else before
  }

  lemma JoinedOne(results: Results, groups: Groups, id: string, group: ScannerCheckResult)
    requires id !in groups
    ensures var joined := Joined(results, groups);
            Joined(results, groups[id := group]) == joined[id := (if id in joined then joined[id] else []) + [group]]
  {
  }

  method JoinGroups(results: Results, groups: Groups) returns (r: Results)
    ensures r == Joined(results, groups)
  {
    var ids := Enumerate(groups.Keys);
    r := results;
    ghost var done: Groups := map[];
    assert Joined(results, done) == results;
    for i := 0 to |ids|
      invariant done.Keys <= groups.Keys && forall id :: id in done ==> done[id] == groups[id]
      invariant forall j :: 0 <= j < |ids| ==> (ids[j] in done <==> j < i)
      invariant r == Joined(results, done)
    {
      var id := ids[i];
      JoinedOne(results, done, id, groups[id]);
      if id !in r {
        r := r[id := []];
      }
      r := r[id := r[id] + [groups[id]]];
      done := done[id := groups[id]];
    }
    AllJoined(ids, groups, done);
  }

  lemma AllJoined(ids: seq<string>, groups: Groups, done: Groups)
    requires Enumerates(ids, groups.Keys) && done.Keys <= groups.Keys
    requires forall id :: id in done ==> done[id] == groups[id]
    requires forall j :: 0 <= j < |ids| ==> ids[j] in done
    ensures done == groups
  {
    forall id | id in groups
      ensures id in done
    {
      var j :| 0 <= j < |ids| && ids[j] == id;
    }
  }

  method AppendGroups(fetched: Fetched, ghost visited: seq<Source>, src: Source, results: Results) returns (r: Results)
    requires src in fetched && Supported(src.scanner) && IsCollected(fetched, visited, results)
    ensures IsCollected(fetched, visited + [src], r)
  {
    var groups := MapReportData(src, fetched);
    r := JoinGroups(results, groups);
    forall id
      ensures id in r <==> ResultsFor(fetched, visited + [src], id) != []
      ensures id in r ==> r[id] == ResultsFor(fetched, visited + [src], id)
    {
      ResultsAppend(fetched, visited, src, id);
    }
  }

  lemma ResultsAppend(fetched: Fetched, visited: seq<Source>, src: Source, id: string)
    ensures ResultsFor(fetched, visited + [src], id) == ResultsFor(fetched, visited, id) + ResultAt(fetched, src, id)
  {
    assert (visited + [src])[..|visited|] == visited;
  }

  // ---------------------------------------------------------------- the two reports

  method CountStatuses(details: seq<Detail>) returns (pass: int, fail: int)
    ensures pass == CountDetails(Passes, details) && fail == CountDetails(Fails, details)
  {
    pass, fail := 0, 0;
    for i := 0 to |details|
      invariant pass == CountDetails(Passes, details[..i]) && fail == CountDetails(Fails, details[..i])
    {
      assert details[..i + 1][..i] == details[..i];
      assert One(Passes)(details[i]) == (if Passes(details[i].status) then 1 else 0);
      assert One(Fails)(details[i]) == (if Fails(details[i].status) then 1 else 0);
      match details[i].status
      case Pass => pass := pass + 1;
      case Warn => pass := pass + 1;
      case Fail => fail := fail + 1;
      case OtherStatus(_) =>
    }
    assert details[..|details|] == details;
  }

  method CountGroups(results: seq<ScannerCheckResult>) returns (pass: int, fail: int)
    ensures pass == CountResults(Passes, results) && fail == CountResults(Fails, results)
  {
    pass, fail := 0, 0;
    for i := 0 to |results|
      invariant pass == CountResults(Passes, results[..i]) && fail == CountResults(Fails, results[..i])
    {
      assert results[..i + 1][..i] == results[..i];
      var p, f := CountStatuses(results[i].details);
      pass, fail := pass + p, fail + f;
    }
    assert results[..|results|] == results;
  }

  method ControlTotals(results: Results, checkIds: seq<string>) returns (pass: int, fail: int)
    ensures pass == TotalOf(Passes, results, checkIds) && fail == TotalOf(Fails, results, checkIds)
  {
    pass, fail := 0, 0;
    for i := 0 to |checkIds|
      invariant pass == TotalOf(Passes, results, checkIds[..i]) && fail == TotalOf(Fails, results, checkIds[..i])
    {
      assert checkIds[..i + 1][..i] == checkIds[..i];
      if checkIds[i] in results {
        var p, f := CountGroups(results[checkIds[i]]);
        pass, fail := pass + p, fail + f;
      }
    }
    assert checkIds[..|checkIds|] == checkIds;
  }

  /** One check for every control id that has checks, in the order of a map iteration. */
  method ControlChecksByScannerChecks(m: SpecMaps, results: Results) returns (checks: seq<ControlCheck>)
    requires m.checkIds.Keys <= m.controls.Keys
    ensures results == map[] ==> checks == []
    ensures results != map[] ==> Enumerates(IdsOf(checks), m.checkIds.Keys)
    ensures forall c :: c in checks ==> c.id in m.checkIds && c == CheckFor(m, results, c.id)
  {
    var ids := Enumerate(m.checkIds.Keys);
    checks := [];
    if |results| == 0 {
      return;
    }
    for i := 0 to |ids|
      invariant |checks| == i && forall j :: 0 <= j < i ==> checks[j] == CheckFor(m, results, ids[j])
    {
      var check := CheckControl(m, results, ids[i]);
      checks := checks + [check];
    }
    assert IdsOf(checks) == ids;
  }

  /** The check of one control: its totals, or its default when nothing passes or fails. */
  method CheckControl(m: SpecMaps, results: Results, id: string) returns (check: ControlCheck)
    requires id in m.checkIds && id in m.controls
    ensures check == CheckFor(m, results, id)
  {
    var pass, fail := ControlTotals(results, m.checkIds[id]);
    var control := m.controls[id];
    if pass == 0 && fail == 0 {
      if control.defaultStatus == Fail {
        fail := 1;
      }
      if control.defaultStatus == Pass {
        pass := 1;
      }
    }
    check := ControlCheck(id, control.name, control.description, control.severity, pass, fail);
  }

  function PassSum(checks: seq<ControlCheck>): int {
    Sum((c: ControlCheck) => c.passTotal, checks)
  }

  function FailSum(checks: seq<ControlCheck>): int {
    Sum((c: ControlCheck) => c.failTotal, checks)
  }

  function IdsOf(checks: seq<ControlCheck>): (ids: seq<string>)
    ensures |ids| == |checks| && forall i :: 0 <= i < |checks| ==> ids[i] == checks[i].id
  {
    MapSeq((c: ControlCheck) => c.id, checks)
  }

  /** The sums add each total once. */
  lemma SumsAppend(checks: seq<ControlCheck>, c: ControlCheck)
    ensures PassSum([]) == 0 && PassSum(checks + [c]) == PassSum(checks) + c.passTotal
    ensures FailSum([]) == 0 && FailSum(checks + [c]) == FailSum(checks) + c.failTotal
  {
    assert (checks + [c])[..|checks|] == checks;
  }

  method GetTotals(checks: seq<ControlCheck>) returns (pass: int, fail: int)
    ensures pass == PassSum(checks) && fail == FailSum(checks)
  {
    pass, fail := 0, 0;
    for i := 0 to |checks|
      invariant pass == PassSum(checks[..i]) && fail == FailSum(checks[..i])
    {
      assert checks[..i + 1][..i] == checks[..i];
      fail := fail + checks[i].failTotal;
      pass := pass + checks[i].passTotal;
    }
    assert checks[..|checks|] == checks;
  }

  /** The first details that neither pass nor warn, up to the limit. */
  method FailedEntries(details: seq<Detail>, limit: int) returns (failed: seq<Detail>)
    ensures failed == Truncate(Failing(details), limit)
  {
    failed := [];
    for i := 0 to |details|
      invariant failed == Truncate(Failing(details[..i]), limit)
    {
      assert details[..i + 1][..i] == details[..i];
      if |failed| >= limit {
        continue;
      }
      if details[i].status == Pass || details[i].status == Warn {
        continue;
      }
      failed := failed + [details[i]];
    }
    assert details[..|details|] == details;
  }

  method CreateScanCheckResult(results: seq<ScannerCheckResult>, limit: int) returns (found: seq<ScannerCheckResult>)
    ensures found == FlatMap(FailedResult(limit), results)
  {
    found := [];
    for i := 0 to |results|
      invariant found == FlatMap(FailedResult(limit), results[..i])
    {
      assert results[..i + 1][..i] == results[..i];
      var failed := FailedEntries(results[i].details, limit);
      if |failed| > 0 {
        found := found + [ScannerCheckResult(results[i].objectType, results[i].id, results[i].remediation, failed)];
      }
    }
    assert results[..|results|] == results;
  }

  method CreateDefaultScanResult(control: Control, resources: seq<string>) returns (found: seq<ScannerCheckResult>)
    ensures found == DefaultResults(control, resources)
  {
    found := [];
    if control.defaultStatus == Fail {
      for i := 0 to |resources|
        invariant found == MapSeq(MissingResource, resources[..i])
      {
        assert resources[..i + 1][..i] == resources[..i];
        found := found + [MissingResource(resources[i])];
      }
      assert resources[..|resources|] == resources;
    }
  }

  method DetailsOfControl(m: SpecMaps, results: Results, id: string, limit: int) returns (details: seq<ControlDetails>)
    requires id in m.controls && id in m.resources && id in m.checkIds
    ensures details == DetailsFor(m, results, id, limit)
  {
    details := [];
    var control, checkIds := m.controls[id], m.checkIds[id];
    for i := 0 to |checkIds|
      invariant details == FlatMap(EntryOf(m, results, id, limit), checkIds[..i])
    {
      assert checkIds[..i + 1][..i] == checkIds[..i];
      var found;
      if checkIds[i] in results {
        found := CreateScanCheckResult(results[checkIds[i]], limit);
      } else {
        found := CreateDefaultScanResult(control, m.resources[id]);
      }
      if |found| > 0 {
        details := details + [ControlDetails(id, control.name, control.description, control.severity, found)];
      }
    }
    assert checkIds[..|checkIds|] == checkIds;
  }

  ghost function AllDetails(m: SpecMaps, results: Results, order: seq<string>, limit: int): seq<ControlDetails>
    requires m.checkIds.Keys <= m.controls.Keys == m.resources.Keys && forall id :: id in order ==> id in m.checkIds
  {
    if order == [] then []
    else AllDetails(m, results, order[..|order| - 1], limit) + DetailsFor(m, results, order[|order| - 1], limit)
  }

  method ControlChecksDetailsByScannerChecks(m: SpecMaps, results: Results, limit: int)
    returns (details: seq<ControlDetails>)
    requires m.checkIds.Keys <= m.controls.Keys == m.resources.Keys
    ensures results == map[] ==> details == []
    ensures results != map[] ==>
              exists order :: Enumerates(order, m.checkIds.Keys) && details == AllDetails(m, results, order, limit)
  {
    var ids := Enumerate(m.checkIds.Keys);
    details := [];
    if |results| == 0 {
      return;
    }
    for i := 0 to |ids|
      invariant details == AllDetails(m, results, ids[..i], limit)
    {
      assert ids[..i + 1][..i] == ids[..i];
      var found := DetailsOfControl(m, results, ids[i], limit);
      details := details + found;
    }
    assert ids[..|ids|] == ids;
  }

  // ---------------------------------------------------------------- the whole pipeline

  datatype Report = Report(
    passCount: int, failCount: int, controlChecks: seq<ControlCheck>, details: seq<ControlDetails>)

  /** The report for the given controls and fetched lists, for some iteration orders. */
  ghost predicate IsReport(controls: seq<Control>, m: SpecMaps, fetched: Fetched, order: seq<Source>,
                           checks: seq<ControlCheck>, limit: int, report: Report) {
    && Describes(m, controls) && Enumerates(order, fetched.Keys)
    && m.checkIds.Keys <= m.controls.Keys == m.resources.Keys
    && var results := Collected(fetched, order);
       && (results == map[] ==> checks == [] && report.details == [])
       && (results != map[] ==>
             && Enumerates(IdsOf(checks), m.checkIds.Keys)
             && (forall c :: c in checks ==> c.id in m.checkIds && c == CheckFor(m, results, c.id))
             && (exists ids ::
                   Enumerates(ids, m.checkIds.Keys) && report.details == AllDetails(m, results, ids, limit)))
       && report.passCount == PassSum(checks) && report.failCount == FailSum(checks)
       && report.controlChecks == if report.failCount > 0 || report.passCount > 0 then checks else []
  }

  /** One list for every kind that a control names, by its scanner. */
  function NeededSources(controls: seq<Control>): set<Source> {
    set c, kind | c in controls && kind in ExpandKinds(c.kinds) :: Source(c.scanner, kind)
  }

  lemma {:induction false} KindsForMember(controls: seq<Control>, scanner: string, kind: string)
    ensures kind in KindsFor(controls, scanner) <==> Source(scanner, kind) in NeededSources(controls)
  {
    if controls != [] {
      var init, last := controls[..|controls| - 1], controls[|controls| - 1];
      assert controls == init + [last];
      KindsForMember(init, scanner, kind);
      assert forall c :: c in controls <==> c in init || c == last;
    }
  }

  /** Which lists are fetched depends on the controls only, not on how they were traversed. */
  lemma SourcesAreDetermined(controls: seq<Control>, m: SpecMaps)
    requires Describes(m, controls)
    ensures Sources(m.scannerKinds) == NeededSources(controls)
  {
    forall src: Source
      ensures src in Sources(m.scannerKinds) <==> src in NeededSources(controls)
    {
      assert src == Source(src.scanner, src.kind);
      KindsForMember(controls, src.scanner, src.kind);
      assert KindsFor(controls, src.scanner)
          == if src.scanner in m.scannerKinds then m.scannerKinds[src.scanner] else {};
    }
  }

  /** Generates both reports. Controls of an unknown scanner are skipped with their lists, so the error for
      such a scanner is never raised. */
  method GenerateComplianceReport(controls: seq<Control>, lookup: Source -> Option<ObjectList>, limit: int)
    returns (report: Report)
    ensures exists m, order, checks ::
              IsReport(controls, m, FetchedBy(lookup, NeededSources(controls)), order, checks, limit, report)
  {
    var maps := PopulateSpecDataToMaps(controls);
    SourcesAreDetermined(controls, maps);
    var fetched := MapScannersToResources(maps.scannerKinds, lookup);
    assert forall src :: src in fetched ==> Supported(src.scanner);
    var results, order := CheckIdsToResults(fetched);
    forall id
      ensures id in maps.checkIds ==> id in maps.controls
      ensures id in maps.controls <==> id in maps.resources
    {
      assert DescribesControl(maps, controls, id);
    }
    var checks := ControlChecksByScannerChecks(maps, results.value);
    var pass, fail := GetTotals(checks);
    var details := ControlChecksDetailsByScannerChecks(maps, results.value, limit);
    report := Report(pass, fail, if fail > 0 || pass > 0 then checks else [], details);
    assert IsReport(controls, maps, fetched, order, checks, limit, report);
  }
}
