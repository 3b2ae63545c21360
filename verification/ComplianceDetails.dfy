/** What the entries of the detail report hold, traced back to the scanner reports and the controls. */
module ComplianceDetails {
  import opened Collections
  import opened ComplianceMapper
  import opened ComplianceReport
  import opened ComplianceCounts
  import opened ComplianceManager
  import opened ComplianceTheorems

  // ---------------------------------------------------------------- results and groups

  /** A result of a configuration audit: the check of some report, with its first message. */
  predicate IsAuditResult(r: AuditReport, c: AuditCheck, e: Entry) {
    && e.id == c.id && e.remediation == c.remediation
    && e.detail.name == r.name && e.detail.namespace == r.namespace
    && (c.messages == [] ==> e.detail.msg == "") && (c.messages != [] ==> e.detail.msg == c.messages[0])
    && (e.detail.status.Pass? <==> c.success) && (e.detail.status.Fail? <==> !c.success)
  }

  lemma AuditEntriesIff(audits: seq<AuditReport>, e: Entry)
    ensures e in Entries(AuditList(audits)) <==>
            exists r, c ::
              && r in audits && c in r.checks && e.id == c.id && e.remediation == c.remediation
              && e.detail.name == r.name && e.detail.namespace == r.namespace
              && e.detail.msg == (if c.messages == [] then "" else c.messages[0])
              && e.detail.status == if c.success then Pass else Fail
  {
    AuditResultsIff(audits, e);
    if e in Entries(AuditList(audits)) {
      var r, c :| r in audits && c in r.checks && IsAuditResult(r, c, e);
    }
    if r, c :|
      && r in audits && c in r.checks && e.id == c.id && e.remediation == c.remediation
      && e.detail.name == r.name && e.detail.namespace == r.namespace
      && e.detail.msg == (if c.messages == [] then "" else c.messages[0])
      && e.detail.status == if c.success then Pass else Fail
    {
      assert IsAuditResult(r, c, e);
    }
  }

  lemma AuditResultsIff(audits: seq<AuditReport>, e: Entry)
    ensures e in Entries(AuditList(audits)) <==> exists r, c :: r in audits && c in r.checks && IsAuditResult(r, c, e)
  {
    FlatMapMember(AuditEntries, audits, e);
    forall r | r in audits
      ensures e in AuditEntries(r) <==> exists c :: c in r.checks && IsAuditResult(r, c, e)
    {
      AuditReportIff(r, e);
    }
  }

  lemma AuditReportIff(r: AuditReport, e: Entry)
    ensures e in AuditEntries(r) <==> exists c :: c in r.checks && IsAuditResult(r, c, e)
  {
    var f := c => [AuditEntry(r, c)];
    FlatMapMember(f, r.checks, e);
    forall c
      ensures e in f(c) <==> IsAuditResult(r, c, e)
    {
    }
  }

  /** A result of a benchmark: it has no message and keeps its own status. */
  predicate IsBenchResult(r: BenchReport, x: BenchResult, e: Entry) {
    && e.id == x.testNumber && e.remediation == x.remediation
    && e.detail.name == r.name && e.detail.namespace == r.namespace && e.detail.msg == ""
    && e.detail.status == x.status
  }

  lemma BenchEntriesIff(bench: seq<BenchReport>, e: Entry)
    ensures e in Entries(BenchList(bench)) <==>
            exists r, s, t, x ::
              && r in bench && s in r.sections && t in s.tests && x in t.results
              && e.id == x.testNumber && e.remediation == x.remediation
              && e.detail.name == r.name && e.detail.namespace == r.namespace && e.detail.msg == ""
              && e.detail.status == x.status
  {
    BenchResultsIff(bench, e);
    if e in Entries(BenchList(bench)) {
      var r, s, t, x :| r in bench && s in r.sections && t in s.tests && x in t.results && IsBenchResult(r, x, e);
    }
    if r, s, t, x :|
      && r in bench && s in r.sections && t in s.tests && x in t.results
      && e.id == x.testNumber && e.remediation == x.remediation
      && e.detail.name == r.name && e.detail.namespace == r.namespace && e.detail.msg == ""
      && e.detail.status == x.status
    {
      assert IsBenchResult(r, x, e);
    }
  }

  lemma BenchResultsIff(bench: seq<BenchReport>, e: Entry)
    ensures e in Entries(BenchList(bench)) <==>
            exists r, s, t, x ::
              r in bench && s in r.sections && t in s.tests && x in t.results && IsBenchResult(r, x, e)
  {
    FlatMapMember(BenchEntries, bench, e);
    forall r | r in bench
      ensures e in BenchEntries(r) <==>
              exists s, t, x :: s in r.sections && t in s.tests && x in t.results && IsBenchResult(r, x, e)
    {
      BenchReportIff(r, e);
    }
  }

  lemma BenchReportIff(r: BenchReport, e: Entry)
    ensures e in BenchEntries(r) <==>
            exists s, t, x :: s in r.sections && t in s.tests && x in t.results && IsBenchResult(r, x, e)
  {
    FlatMapMember(s => SectionEntries(r, s), r.sections, e);
    forall s
      ensures e in SectionEntries(r, s) <==> exists t, x :: t in s.tests && x in t.results && IsBenchResult(r, x, e)
    {
      SectionIff(r, s, e);
    }
  }

  lemma SectionIff(r: BenchReport, s: BenchSection, e: Entry)
    ensures e in SectionEntries(r, s) <==> exists t, x :: t in s.tests && x in t.results && IsBenchResult(r, x, e)
  {
    FlatMapMember(t => TestEntries(r, t), s.tests, e);
    forall t
      ensures e in TestEntries(r, t) <==> exists x :: x in t.results && IsBenchResult(r, x, e)
    {
      var f := x => [BenchEntry(r, x)];
      FlatMapMember(f, t.results, e);
      assert forall x :: e in f(x) <==> IsBenchResult(r, x, e);
    }
  }

  /** The group of an id holds the results with that id in their order, and the remediation of the first. */
  lemma GroupIs(objType: string, entries: seq<Entry>, id: string) returns (at: seq<nat>)
    requires id in Grouped(objType, entries)
    ensures var group := Grouped(objType, entries)[id];
            && group.objectType == objType && group.id == id && |at| == |group.details| >= 1
            && (forall i :: 0 <= i < |at| ==> at[i] < |entries| && entries[at[i]].id == id)
            && (forall i :: 0 <= i < |at| ==> entries[at[i]].detail == group.details[i])
            && (forall i, j :: 0 <= i < j < |at| ==> at[i] < at[j])
            && (forall k :: 0 <= k < |entries| && entries[k].id == id ==> k in at)
            && group.remediation == entries[at[0]].remediation
  {
    var keeps := (e: Entry) => if e.id == id then Some(e.detail) else None;
    at := FlatMapFilters((e: Entry) => if e.id == id then [e.detail] else [], keeps, entries);
    GroupsAreNotEmpty(objType, entries, id);
    var first := FirstWithId(entries, id);
    assert first in at;
  }

  lemma {:induction false} FirstWithId(entries: seq<Entry>, id: string) returns (first: nat)
    requires id in Ids(entries)
    ensures first < |entries| && entries[first].id == id && FirstRemediation(entries, id) == entries[first].remediation
    ensures forall k :: 0 <= k < first ==> entries[k].id != id
  {
    if entries[0].id == id {
      first := 0;
    } else {
      assert entries == [entries[0]] + entries[1..];
      var rest := FirstWithId(entries[1..], id);
      first := rest + 1;
      assert forall k :: 1 <= k < first ==> entries[k] == entries[1..][k - 1];
    }
  }

  lemma PositionAfter(all: seq<nat>, n: nat, k: nat)
    requires n <= |all| && k in all && k !in all[..n] && forall i, j :: 0 <= i < j < |all| ==> all[i] < all[j]
    ensures n < |all| && forall i :: 0 <= i < n ==> all[i] < k
  {
    assert all == all[..n] + all[n..];
    var i :| 0 <= i < |all[n..]| && all[n..][i] == k;
    assert all[n + i] == k;
  }

  /** The listed results are those that neither pass nor warn, in their order; one is left out only after the limit
      is reached by earlier ones. */
  lemma ListedIs(details: seq<Detail>, limit: int) returns (at: seq<nat>)
    ensures var listed := Truncate(Failing(details), limit);
            && |at| == |listed| && (|listed| == 0 || |listed| <= limit)
            && (forall i :: 0 <= i < |at| ==> at[i] < |details| && listed[i] == details[at[i]])
            && (forall i :: 0 <= i < |at| ==> !listed[i].status.Pass? && !listed[i].status.Warn?)
            && (forall i, j :: 0 <= i < j < |at| ==> at[i] < at[j])
            && (forall k :: 0 <= k < |details| && !details[k].status.Pass? && !details[k].status.Warn? && k !in at ==>
                  |listed| >= limit && forall i :: 0 <= i < |at| ==> at[i] < k)
  {
    var all := FailingIs(details);
    var n := |Truncate(Failing(details), limit)|;
    at := all[..n];
    forall k | 0 <= k < |details| && !details[k].status.Pass? && !details[k].status.Warn? && k !in at
      ensures n >= limit && forall i :: 0 <= i < n ==> at[i] < k
    {
      PositionAfter(all, n, k);
    }
  }

  /** What neither passes nor warns, in order. */
  lemma FailingIs(details: seq<Detail>) returns (all: seq<nat>)
    ensures var failing := Failing(details);
            && |all| == |failing|
            && (forall i :: 0 <= i < |all| ==> all[i] < |details| && failing[i] == details[all[i]])
            && (forall i :: 0 <= i < |all| ==> !failing[i].status.Pass? && !failing[i].status.Warn?)
            && (forall i, j :: 0 <= i < j < |all| ==> all[i] < all[j])
            && (forall k :: 0 <= k < |details| && !details[k].status.Pass? && !details[k].status.Warn? ==> k in all)
  {
    var keeps := (d: Detail) => if d.status.Pass? || d.status.Warn? then None else Some(d);
    all := FlatMapFilters((d: Detail) => if Passes(d.status) then [] else [d], keeps, details);
    assert forall d: Detail :: !d.status.Pass? && !d.status.Warn? <==> keeps(d).Some?;
  }

  // ---------------------------------------------------------------- the fetched lists

  /** The lists that a generation works with: those of the two known scanners that could be read, for the kinds of
      the controls of that scanner. */
  lemma FetchedIff(controls: seq<Control>, lookup: Source -> Option<ObjectList>, src: Source)
    ensures var fetched := FetchedBy(lookup, NeededSources(controls));
            && (src in fetched <==>
                && (src.scanner == "kube-bench" || src.scanner == "config-audit") && lookup(src).Some?
                && exists c :: c in controls && c.scanner == src.scanner && src.kind in ExpandKinds(c.kinds))
            && (src in fetched ==> fetched[src] == lookup(src).value)
  {
    if c :| c in controls && c.scanner == src.scanner && src.kind in ExpandKinds(c.kinds) {
      assert src == Source(c.scanner, src.kind);
      assert src in NeededSources(controls);
    }
  }

  // ---------------------------------------------------------------- the published details

  /** A result comes from one fetched list: it lists some of the results with the check id there. */
  ghost predicate FromList(fetched: Fetched, src: Source, checkId: string, limit: int, r: ScannerCheckResult) {
    && src in fetched && r.objectType == src.kind && r.id == checkId && 1 <= |r.details| <= limit
    && forall d :: d in r.details ==>
         && !d.status.Pass? && !d.status.Warn?
         && exists e :: e in EntriesAt(fetched, src) && e.id == checkId && e.detail == d
  }

  lemma FoundFromList(fetched: Fetched, order: seq<Source>, checkId: string, limit: int, r: ScannerCheckResult)
    returns (src: Source)
    requires Enumerates(order, fetched.Keys) && checkId in AllIds(fetched)
    requires r in FlatMap(FailedResult(limit), Collected(fetched, order)[checkId])
    ensures FromList(fetched, src, checkId, limit, r)
  {
    var groups := ResultsFor(fetched, order, checkId);
    FlatMapMember(FailedResult(limit), groups, r);
    var group :| group in groups && r in FailedResult(limit)(group);
    src := GroupFromList(fetched, order, checkId, group);
    ListedFromEntries(EntriesAt(fetched, src), checkId, limit, group, r);
  }

  lemma GroupFromList(fetched: Fetched, order: seq<Source>, checkId: string, group: ScannerCheckResult)
    returns (src: Source)
    requires Enumerates(order, fetched.Keys) && group in ResultsFor(fetched, order, checkId)
    ensures src in fetched && group.objectType == src.kind && group.id == checkId
    ensures group.details == DetailsOf(EntriesAt(fetched, src), checkId)
  {
    var f := src => ResultAt(fetched, src, checkId);
    FlatMapMember(f, order, group);
    src :| src in order && group in f(src);
    ResultAtIs(fetched, src, checkId, group);
  }

  lemma ResultAtIs(fetched: Fetched, src: Source, checkId: string, group: ScannerCheckResult)
    requires group in ResultAt(fetched, src, checkId)
    ensures src in fetched && group.objectType == src.kind && group.id == checkId
    ensures group.details == DetailsOf(EntriesAt(fetched, src), checkId)
  {
  }

  lemma ListedFromEntries(
    entries: seq<Entry>, id: string, limit: int, group: ScannerCheckResult, r: ScannerCheckResult)
    requires group.id == id && group.details == DetailsOf(entries, id) && r in FailedResult(limit)(group)
    ensures r.objectType == group.objectType && r.id == id && 1 <= |r.details| <= limit
    ensures forall d :: d in r.details ==>
              && !d.status.Pass? && !d.status.Warn? && exists e :: e in entries && e.id == id && e.detail == d
  {
    ListedOfGroup(group, limit, r);
    forall d | d in r.details
      ensures exists e :: e in entries && e.id == id && e.detail == d
    {
      FlatMapMember((e: Entry) => if e.id == id then [e.detail] else [], entries, d);
    }
  }

  lemma ListedOfGroup(group: ScannerCheckResult, limit: int, r: ScannerCheckResult)
    requires r in FailedResult(limit)(group)
    ensures r.objectType == group.objectType && r.id == group.id && 1 <= |r.details| <= limit
    ensures forall d :: d in r.details ==> d in group.details && !d.status.Pass? && !d.status.Warn?
  {
    var at := ListedIs(group.details, limit);
    assert r.details == Truncate(Failing(group.details), limit);
    forall d | d in r.details
      ensures d in group.details && !d.status.Pass? && !d.status.Warn?
    {
      var i :| 0 <= i < |r.details| && r.details[i] == d;
    }
  }

  lemma {:induction false} AllDetailsMember(
    m: SpecMaps, results: Results, ids: seq<string>, limit: int, d: ControlDetails)
    requires m.checkIds.Keys <= m.controls.Keys == m.resources.Keys && forall id :: id in ids ==> id in m.checkIds
    requires d in AllDetails(m, results, ids, limit)
    ensures d.id in ids && d in DetailsFor(m, results, d.id, limit)
  {
    var init, last := ids[..|ids| - 1], ids[|ids| - 1];
    assert ids == init + [last];
    if d in DetailsFor(m, results, last, limit) {
      DetailHasId(m, results, last, limit, d);
    } else {
      AllDetailsMember(m, results, init, limit, d);
    }
  }

  lemma DetailOfControl(controls: seq<Control>, m: SpecMaps, fetched: Fetched, order: seq<Source>, limit: int,
                        d: ControlDetails) returns (i: int, checkId: string)
    requires DescribesControl(m, controls, d.id) && Enumerates(order, fetched.Keys)
    requires d.id in m.checkIds && d.id in m.controls && d.id in m.resources
    requires d in DetailsFor(m, Collected(fetched, order), d.id, limit)
    ensures IsLastControl(controls, d.id, i)
    ensures d.name == controls[i].name && d.description == controls[i].description && d.severity == controls[i].severity
    ensures checkId in CheckIdsOf(controls, d.id)
    ensures d.results != [] && d.results == CheckResults(m, Collected(fetched, order), d.id, checkId, limit)
    ensures m.controls[d.id].defaultStatus == controls[i].defaultStatus
  {
    i := TextsOfLast(controls, m, d.id);
    checkId := DetailOfCheck(m, Collected(fetched, order), limit, d);
  }

  lemma DetailOfCheck(m: SpecMaps, results: Results, limit: int, d: ControlDetails) returns (checkId: string)
    requires d.id in m.checkIds && d.id in m.controls && d.id in m.resources
    requires d in DetailsFor(m, results, d.id, limit)
    ensures checkId in m.checkIds[d.id] && d.results != []
    ensures d.results == CheckResults(m, results, d.id, checkId, limit)
    ensures d.name == m.controls[d.id].name && d.description == m.controls[d.id].description
    ensures d.severity == m.controls[d.id].severity
  {
    var f := EntryOf(m, results, d.id, limit);
    FlatMapMember(f, m.checkIds[d.id], d);
    checkId :| checkId in m.checkIds[d.id] && d in f(checkId);
  }

  lemma CheckIdOfControl(controls: seq<Control>, id: string, checkId: string)
    ensures checkId in CheckIdsOf(controls, id) <==> exists c :: c in controls && c.id == id && checkId in c.checks
  {
    FlatMapMember((c: Control) => if c.id == id then c.checks else [], controls, checkId);
  }

  /** The default results name the kinds of the control. */
  lemma MissingResults(control: Control, resources: seq<string>, r: ScannerCheckResult)
    requires r in DefaultResults(control, resources)
    ensures control.defaultStatus.Fail? && r.objectType in resources
    ensures r == ScannerCheckResult(r.objectType, "", "", [Detail("", "", "Resource do not exist in cluster", Fail)])
  {
    var i :| 0 <= i < |resources| && r == MissingResource(resources[i]);
  }

  lemma ShownResult(controls: seq<Control>, m: SpecMaps, fetched: Fetched, order: seq<Source>, limit: int,
                    id: string, checkId: string, r: ScannerCheckResult)
    requires DescribesControl(m, controls, id) && Enumerates(order, fetched.Keys) && id in m.controls
    requires r in CheckResults(m, Collected(fetched, order), id, checkId, limit)
    ensures checkId in AllIds(fetched) ==> exists src :: FromList(fetched, src, checkId, limit, r)
    ensures checkId !in AllIds(fetched) ==>
              m.controls[id].defaultStatus.Fail? && r.objectType in ResourcesBag(controls, id) && IsMissing(r)
  {
    if checkId in AllIds(fetched) {
      var src := FoundFromList(fetched, order, checkId, limit, r);
    } else {
      MissingResults(m.controls[id], m.resources[id], r);
    }
  }

  predicate IsMissing(r: ScannerCheckResult) {
    r == ScannerCheckResult(r.objectType, "", "", [Detail("", "", "Resource do not exist in cluster", Fail)])
  }

  /** Every published detail entry carries the texts of the last control with its id and belongs to one of the check
      ids of the controls with its id. If some list has a result with that check id, what it shows are results of
      the lists that neither pass nor warn, at most `limit` of each list; otherwise the default of the control is to
      fail and it names kinds of the controls. */
  lemma PublishedDetail(controls: seq<Control>, m: SpecMaps, fetched: Fetched, order: seq<Source>,
                        checks: seq<ControlCheck>, limit: int, report: Report, d: ControlDetails)
    returns (i: int, checkId: string)
    requires IsReport(controls, m, fetched, order, checks, limit, report) && d in report.details
    ensures IsLastControl(controls, d.id, i)
    ensures d.name == controls[i].name && d.description == controls[i].description && d.severity == controls[i].severity
    ensures exists c :: c in controls && c.id == d.id && checkId in c.checks
    ensures d.results != []
    ensures checkId in AllIds(fetched) ==>
              forall r :: r in d.results ==> exists src :: FromList(fetched, src, checkId, limit, r)
    ensures checkId !in AllIds(fetched) ==>
              && controls[i].defaultStatus.Fail?
              && forall r :: r in d.results ==> r.objectType in ResourcesBag(controls, d.id) && IsMissing(r)
  {
    ReportedDetail(controls, m, fetched, order, checks, limit, report, d);
    i, checkId := ShownDetail(controls, m, fetched, order, limit, d);
  }

  lemma ReportedDetail(controls: seq<Control>, m: SpecMaps, fetched: Fetched, order: seq<Source>,
                       checks: seq<ControlCheck>, limit: int, report: Report, d: ControlDetails)
    requires IsReport(controls, m, fetched, order, checks, limit, report) && d in report.details
    ensures DescribesControl(m, controls, d.id) && Enumerates(order, fetched.Keys)
    ensures d.id in m.checkIds && d.id in m.controls && d.id in m.resources
    ensures d in DetailsFor(m, Collected(fetched, order), d.id, limit)
  {
    var results := Collected(fetched, order);
    var ids :| Enumerates(ids, m.checkIds.Keys) && report.details == AllDetails(m, results, ids, limit);
    AllDetailsMember(m, results, ids, limit, d);
  }

  lemma ShownDetail(controls: seq<Control>, m: SpecMaps, fetched: Fetched, order: seq<Source>, limit: int,
                    d: ControlDetails) returns (i: int, checkId: string)
    requires DescribesControl(m, controls, d.id) && Enumerates(order, fetched.Keys)
    requires d.id in m.checkIds && d.id in m.controls && d.id in m.resources
    requires d in DetailsFor(m, Collected(fetched, order), d.id, limit)
    ensures IsLastControl(controls, d.id, i)
    ensures d.name == controls[i].name && d.description == controls[i].description && d.severity == controls[i].severity
    ensures exists c :: c in controls && c.id == d.id && checkId in c.checks
    ensures d.results != []
    ensures checkId in AllIds(fetched) ==>
              forall r :: r in d.results ==> exists src :: FromList(fetched, src, checkId, limit, r)
    ensures checkId !in AllIds(fetched) ==>
              && controls[i].defaultStatus.Fail?
              && forall r :: r in d.results ==> r.objectType in ResourcesBag(controls, d.id) && IsMissing(r)
  {
    i, checkId := DetailOfControl(controls, m, fetched, order, limit, d);
    CheckIdOfControl(controls, d.id, checkId);
    forall r | r in d.results
      ensures checkId in AllIds(fetched) ==> exists src :: FromList(fetched, src, checkId, limit, r)
      ensures checkId !in AllIds(fetched) ==>
                controls[i].defaultStatus.Fail? && r.objectType in ResourcesBag(controls, d.id) && IsMissing(r)
    {
      ShownResult(controls, m, fetched, order, limit, d.id, checkId, r);
    }
    assert d.results[0] in d.results;
  }
}
