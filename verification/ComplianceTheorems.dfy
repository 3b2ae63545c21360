/** What holds of every report that the pipeline generates. */
module ComplianceTheorems {
  import opened Collections
  import opened ComplianceMapper
  import opened ComplianceReport
  import opened ComplianceCounts
  import opened ComplianceManager

  /** A control that names a kind has resources. */
  lemma {:induction false} KindsGiveResources(controls: seq<Control>, id: string, c: Control)
    requires c in controls && c.id == id && c.kinds != []
    ensures ResourcesBag(controls, id) != multiset{}
  {
    var init, last := controls[..|controls| - 1], controls[|controls| - 1];
    assert controls == init + [last];
    if last == c {
      var kinds := ExpandKinds(c.kinds);
      LastKindExpanded(c.kinds);
      assert kinds != {};
      var kind :| kind in kinds;
      assert kind in ResourcesBag(controls, id);
    } else {
      KindsGiveResources(init, id, c);
      var kind :| kind in ResourcesBag(init, id);
      assert kind in ResourcesBag(controls, id);
    }
  }

  lemma LastKindExpanded(kinds: seq<string>)
    requires kinds != []
    ensures ExpandKinds(kinds) != {}
  {
    var last := kinds[|kinds| - 1];
    assert if last == "Workload" then "Pod" in ExpandKind(last) else last in ExpandKind(last);
    assert ExpandKind(last) <= ExpandKinds(kinds);
  }

  lemma DetailHasId(m: SpecMaps, results: Results, id: string, limit: int, d: ControlDetails)
    requires id in m.controls && id in m.resources && id in m.checkIds && d in DetailsFor(m, results, id, limit)
    ensures d.id == id
  {
    FlatMapMember(EntryOf(m, results, id, limit), m.checkIds[id], d);
  }

  lemma {:induction false} DetailsIncluded(m: SpecMaps, results: Results, ids: seq<string>, limit: int, id: string)
    requires m.checkIds.Keys <= m.controls.Keys == m.resources.Keys && (forall i :: i in ids ==> i in m.checkIds)
    requires id in ids && DetailsFor(m, results, id, limit) != []
    ensures exists d :: d in AllDetails(m, results, ids, limit) && d.id == id
  {
    var init, last := ids[..|ids| - 1], ids[|ids| - 1];
    assert ids == init + [last];
    if last == id {
      var d := DetailsFor(m, results, id, limit)[0];
      DetailHasId(m, results, id, limit, d);
      assert d in AllDetails(m, results, ids, limit) && d.id == id;
    } else {
      DetailsIncluded(m, results, init, limit, id);
      var d :| d in AllDetails(m, results, init, limit) && d.id == id;
      assert d in AllDetails(m, results, ids, limit);
    }
  }

  lemma AnythingCollected(fetched: Fetched, order: seq<Source>)
    ensures Collected(fetched, order) == map[] <==> AllIds(fetched) == {}
  {
    assert Collected(fetched, order).Keys == AllIds(fetched);
  }

  /** Where a reported check comes from. */
  lemma ReportedCheck(controls: seq<Control>, m: SpecMaps, fetched: Fetched, order: seq<Source>,
                      checks: seq<ControlCheck>, limit: int, report: Report, check: ControlCheck)
    requires IsReport(controls, m, fetched, order, checks, limit, report) && check in checks
    ensures check.id in m.checkIds && check.id in m.controls && check.id in m.resources
    ensures check == CheckFor(m, Collected(fetched, order), check.id)
    ensures exists ids :: Enumerates(ids, m.checkIds.Keys)
                          && report.details == AllDetails(m, Collected(fetched, order), ids, limit)
    ensures Enumerates(order, fetched.Keys) && DescribesControl(m, controls, check.id)
  {
    assert Collected(fetched, order) != map[];
  }

  /** Every id with checks is reported, once something was found. */
  lemma EveryIdIsReported(controls: seq<Control>, m: SpecMaps, fetched: Fetched, order: seq<Source>,
                          checks: seq<ControlCheck>, limit: int, report: Report, id: string)
    requires IsReport(controls, m, fetched, order, checks, limit, report)
    requires AllIds(fetched) != {} && id in m.checkIds
    ensures exists c :: c in checks && c.id == id
  {
    AnythingCollected(fetched, order);
    assert id in IdsOf(checks);
    var i :| 0 <= i < |checks| && IdsOf(checks)[i] == id;
    assert checks[i] in checks && checks[i].id == id;
  }

  lemma FailingControlIsDetailed(
    controls: seq<Control>, m: SpecMaps, fetched: Fetched, order: seq<Source>, ids: seq<string>, limit: int,
    control: Control)
    requires Enumerates(order, fetched.Keys) && Enumerates(ids, m.checkIds.Keys)
    requires m.checkIds.Keys <= m.controls.Keys == m.resources.Keys
    requires control in controls && control.kinds != [] && control.id in m.checkIds && limit >= 1
    requires DescribesControl(m, controls, control.id)
    requires CheckFor(m, Collected(fetched, order), control.id).failTotal > 0
    ensures exists d :: d in AllDetails(m, Collected(fetched, order), ids, limit) && d.id == control.id
  {
    KindsGiveResources(controls, control.id, control);
    assert m.resources[control.id] != [];
    FailingControlsHaveDetails(m, fetched, order, control.id, limit);
    DetailsIncluded(m, Collected(fetched, order), ids, limit, control.id);
  }

  /** Agreement of the generated reports: every control of the summary that fails appears in the detail
      report, if failures may be listed and a control of that id names a kind. */
  lemma ReportsAgree(controls: seq<Control>, m: SpecMaps, fetched: Fetched, order: seq<Source>,
                     checks: seq<ControlCheck>, limit: int, report: Report, check: ControlCheck, control: Control)
    requires IsReport(controls, m, fetched, order, checks, limit, report)
    requires check in report.controlChecks && check.failTotal > 0 && limit >= 1
    requires control in controls && control.id == check.id && control.kinds != []
    ensures exists d :: d in report.details && d.id == check.id
  {
    ReportedCheck(controls, m, fetched, order, checks, limit, report, check);
    var ids :| Enumerates(ids, m.checkIds.Keys)
               && report.details == AllDetails(m, Collected(fetched, order), ids, limit);
    FailingControlIsDetailed(controls, m, fetched, order, ids, limit, control);
  }

  /** The check of a control does not depend on how the specification or the lists were traversed. */
  lemma ChecksAreDetermined(controls: seq<Control>, m: SpecMaps, n: SpecMaps, fetched: Fetched,
                            a: seq<Source>, b: seq<Source>, id: string)
    requires DescribesControl(m, controls, id) && DescribesControl(n, controls, id)
    requires Enumerates(a, fetched.Keys) && Enumerates(b, fetched.Keys) && id in m.checkIds
    ensures id in n.checkIds && id in m.controls && id in n.controls
    ensures CheckFor(m, Collected(fetched, a), id) == CheckFor(n, Collected(fetched, b), id)
  {
    SameTotals(fetched, a, b, m.checkIds[id]);
    assert m.checkIds[id] == n.checkIds[id];
    assert m.controls[id].(kinds := []) == n.controls[id].(kinds := []);
  }

  lemma SameTotals(fetched: Fetched, a: seq<Source>, b: seq<Source>, checkIds: seq<string>)
    requires Enumerates(a, fetched.Keys) && Enumerates(b, fetched.Keys)
    ensures TotalOf(Passes, Collected(fetched, a), checkIds) == TotalOf(Passes, Collected(fetched, b), checkIds)
    ensures TotalOf(Fails, Collected(fetched, a), checkIds) == TotalOf(Fails, Collected(fetched, b), checkIds)
  {
    TotalsConserve(Passes, fetched, a, checkIds);
    TotalsConserve(Fails, fetched, a, checkIds);
    TotalsConserve(Passes, fetched, b, checkIds);
    TotalsConserve(Fails, fetched, b, checkIds);
  }

  lemma ChecksIncluded(controls: seq<Control>, m: SpecMaps, n: SpecMaps, fetched: Fetched,
                       a: seq<Source>, b: seq<Source>, xs: seq<ControlCheck>, ys: seq<ControlCheck>,
                       limit: int, r: Report, q: Report, x: ControlCheck)
    requires IsReport(controls, m, fetched, a, xs, limit, r) && IsReport(controls, n, fetched, b, ys, limit, q)
    requires x in xs
    ensures x in ys
  {
    ReportedCheck(controls, m, fetched, a, xs, limit, r, x);
    assert DescribesControl(n, controls, x.id);
    ChecksAreDetermined(controls, m, n, fetched, a, b, x.id);
    AnythingCollected(fetched, a);
    EveryIdIsReported(controls, n, fetched, b, ys, limit, q, x.id);
    var y :| y in ys && y.id == x.id;
    ReportedCheck(controls, n, fetched, b, ys, limit, q, y);
  }

  lemma ChecksAreDistinct(controls: seq<Control>, m: SpecMaps, fetched: Fetched, order: seq<Source>,
                          checks: seq<ControlCheck>, limit: int, report: Report)
    requires IsReport(controls, m, fetched, order, checks, limit, report)
    ensures Enumerates(checks, Elements(checks))
  {
    forall i, j | 0 <= i < j < |checks|
      ensures checks[i] != checks[j]
    {
      assert IdsOf(checks)[i] != IdsOf(checks)[j];
    }
  }

  lemma AllChecksIncluded(controls: seq<Control>, m: SpecMaps, n: SpecMaps, fetched: Fetched,
                          a: seq<Source>, b: seq<Source>, xs: seq<ControlCheck>, ys: seq<ControlCheck>,
                          limit: int, r: Report, q: Report)
    requires IsReport(controls, m, fetched, a, xs, limit, r) && IsReport(controls, n, fetched, b, ys, limit, q)
    ensures Elements(xs) <= Elements(ys)
  {
    forall x | x in xs
      ensures x in ys
    {
      ChecksIncluded(controls, m, n, fetched, a, b, xs, ys, limit, r, q, x);
    }
  }

  lemma SameChecks(xs: seq<ControlCheck>, ys: seq<ControlCheck>)
    requires Enumerates(xs, Elements(xs)) && Enumerates(ys, Elements(ys))
    requires Elements(xs) <= Elements(ys) && Elements(ys) <= Elements(xs)
    ensures multiset(xs) == multiset(ys) && PassSum(xs) == PassSum(ys) && FailSum(xs) == FailSum(ys)
  {
    EnumerationsPermute(xs, ys, Elements(xs));
    SumPermutation((c: ControlCheck) => c.passTotal, xs, ys);
    SumPermutation((c: ControlCheck) => c.failTotal, xs, ys);
  }

  lemma ChecksAreDeterministic(controls: seq<Control>, m: SpecMaps, n: SpecMaps, fetched: Fetched,
                               a: seq<Source>, b: seq<Source>, xs: seq<ControlCheck>, ys: seq<ControlCheck>,
                               limit: int, r: Report, q: Report)
    requires IsReport(controls, m, fetched, a, xs, limit, r) && IsReport(controls, n, fetched, b, ys, limit, q)
    ensures multiset(xs) == multiset(ys) && PassSum(xs) == PassSum(ys) && FailSum(xs) == FailSum(ys)
  {
    ChecksAreDistinct(controls, m, fetched, a, xs, limit, r);
    ChecksAreDistinct(controls, n, fetched, b, ys, limit, q);
    AllChecksIncluded(controls, m, n, fetched, a, b, xs, ys, limit, r, q);
    AllChecksIncluded(controls, n, m, fetched, b, a, ys, xs, limit, q, r);
    SameChecks(xs, ys);
  }

  /** Two generations from the same lists report the same checks and the same summary, whatever the
      iteration orders. */
  lemma ReportsAreDeterministic(controls: seq<Control>, m: SpecMaps, n: SpecMaps, fetched: Fetched,
                                a: seq<Source>, b: seq<Source>, xs: seq<ControlCheck>, ys: seq<ControlCheck>,
                                limit: int, r: Report, q: Report)
    requires IsReport(controls, m, fetched, a, xs, limit, r) && IsReport(controls, n, fetched, b, ys, limit, q)
    ensures r.passCount == q.passCount && r.failCount == q.failCount
    ensures multiset(r.controlChecks) == multiset(q.controlChecks)
  {
    ChecksAreDeterministic(controls, m, n, fetched, a, b, xs, ys, limit, r, q);
  }

  /** Conservation in the generated report: exactly one check for every control id with checks, unless
      both totals are zero, in which case no check is published at all ... */
  lemma OneCheckPerControl(controls: seq<Control>, m: SpecMaps, fetched: Fetched, order: seq<Source>,
                           checks: seq<ControlCheck>, limit: int, report: Report, id: string)
    requires IsReport(controls, m, fetched, order, checks, limit, report)
    ensures (exists c :: c in report.controlChecks && c.id == id)
            <==> CheckIdsOf(controls, id) != [] && (report.passCount > 0 || report.failCount > 0)
    ensures forall c, d :: c in report.controlChecks && d in report.controlChecks && c.id == d.id ==> c == d
    ensures forall i, j :: 0 <= i < j < |report.controlChecks| ==> report.controlChecks[i] != report.controlChecks[j]
  {
    assert DescribesControl(m, controls, id);
    if CheckIdsOf(controls, id) != [] && (report.passCount > 0 || report.failCount > 0) {
      SomethingFound(controls, m, fetched, order, checks, limit, report);
      EveryIdIsReported(controls, m, fetched, order, checks, limit, report, id);
    }
    if c :| c in report.controlChecks && c.id == id {
      ReportedCheck(controls, m, fetched, order, checks, limit, report, c);
    }
    forall c, d | c in report.controlChecks && d in report.controlChecks && c.id == d.id
      ensures c == d
    {
      ReportedCheck(controls, m, fetched, order, checks, limit, report, c);
      ReportedCheck(controls, m, fetched, order, checks, limit, report, d);
    }
    ChecksAreDistinct(controls, m, fetched, order, checks, limit, report);
  }

  /** A total above zero means that some result was fetched. */
  lemma SomethingFound(controls: seq<Control>, m: SpecMaps, fetched: Fetched, order: seq<Source>,
                       checks: seq<ControlCheck>, limit: int, report: Report)
    requires IsReport(controls, m, fetched, order, checks, limit, report)
    requires report.passCount > 0 || report.failCount > 0
    ensures AllIds(fetched) != {}
  {
    AnythingCollected(fetched, order);
  }

  /** Nothing of the control counts: no fetched result passes or fails, and neither does its default. */
  ghost predicate CountsNothing(controls: seq<Control>, fetched: Fetched, id: string) {
    && PassTotal(controls, fetched, id) == 0 && FailTotal(controls, fetched, id) == 0
    && forall i :: IsLastControl(controls, id, i) ==>
         !controls[i].defaultStatus.Pass? && !controls[i].defaultStatus.Fail?
  }

  lemma CheckCountsNothingIff(controls: seq<Control>, m: SpecMaps, fetched: Fetched, order: seq<Source>,
                              checks: seq<ControlCheck>, limit: int, report: Report, check: ControlCheck)
    requires IsReport(controls, m, fetched, order, checks, limit, report) && check in checks
    ensures check.passTotal >= 0 && check.failTotal >= 0
    ensures check.passTotal == 0 && check.failTotal == 0 <==> CountsNothing(controls, fetched, check.id)
  {
    ReportedCheck(controls, m, fetched, order, checks, limit, report, check);
    TotalsAreNatural(controls, m, fetched, order, check.id);
    var i := CheckTells(controls, m, fetched, order, check.id);
    TellsNothingIff(controls, fetched, check, i);
  }

  lemma TotalsAreNatural(controls: seq<Control>, m: SpecMaps, fetched: Fetched, order: seq<Source>, id: string)
    requires DescribesControl(m, controls, id) && Enumerates(order, fetched.Keys) && id in m.checkIds
    ensures PassTotal(controls, fetched, id) >= 0 && FailTotal(controls, fetched, id) >= 0
  {
    var results, ids := Collected(fetched, order), m.checkIds[id];
    TotalPositiveIff(Passes, results, ids);
    TotalPositiveIff(Fails, results, ids);
    TotalsConserve(Passes, fetched, order, ids);
    TotalsConserve(Fails, fetched, order, ids);
    TotalsAreRaw(controls, fetched, id);
  }

  lemma TellsNothingIff(controls: seq<Control>, fetched: Fetched, check: ControlCheck, i: int)
    requires PassTotal(controls, fetched, check.id) >= 0 && FailTotal(controls, fetched, check.id) >= 0
    requires IsLastControl(controls, check.id, i)
    requires Tells(check, controls[i], PassTotal(controls, fetched, check.id), FailTotal(controls, fetched, check.id))
    ensures check.passTotal >= 0 && check.failTotal >= 0
    ensures check.passTotal == 0 && check.failTotal == 0 <==> CountsNothing(controls, fetched, check.id)
  {
  }

  lemma ZeroTotals(checks: seq<ControlCheck>)
    requires forall c :: c in checks ==> c.passTotal >= 0 && c.failTotal >= 0
    ensures PassSum(checks) >= 0 && FailSum(checks) >= 0
    ensures PassSum(checks) == 0 && FailSum(checks) == 0
            <==> forall c :: c in checks ==> c.passTotal == 0 && c.failTotal == 0
  {
    CountPositiveIff((c: ControlCheck) => c.passTotal, checks);
    CountPositiveIff((c: ControlCheck) => c.failTotal, checks);
  }

  /** No check is published exactly when nothing was fetched or no control with checks counts anything. */
  lemma NothingPublishedIff(controls: seq<Control>, m: SpecMaps, fetched: Fetched, order: seq<Source>,
                            checks: seq<ControlCheck>, limit: int, report: Report)
    requires IsReport(controls, m, fetched, order, checks, limit, report)
    ensures report.controlChecks == [] <==>
            AllIds(fetched) == {} ||
            forall id :: CheckIdsOf(controls, id) != [] ==> CountsNothing(controls, fetched, id)
  {
    forall c | c in checks
      ensures c.passTotal >= 0 && c.failTotal >= 0 && CheckIdsOf(controls, c.id) != []
      ensures c.passTotal == 0 && c.failTotal == 0 <==> CountsNothing(controls, fetched, c.id)
    {
      CheckCountsNothingIff(controls, m, fetched, order, checks, limit, report, c);
      ReportedCheck(controls, m, fetched, order, checks, limit, report, c);
    }
    ZeroTotals(checks);
    if AllIds(fetched) == {} {
      AnythingCollected(fetched, order);
    } else {
      forall id | CheckIdsOf(controls, id) != []
        ensures exists c :: c in checks && c.id == id
      {
        assert DescribesControl(m, controls, id);
        EveryIdIsReported(controls, m, fetched, order, checks, limit, report, id);
      }
      PublishedIff(checks, report, controls, fetched);
    }
  }

  lemma PublishedIff(checks: seq<ControlCheck>, report: Report, controls: seq<Control>, fetched: Fetched)
    requires report.controlChecks == if report.failCount > 0 || report.passCount > 0 then checks else []
    requires report.passCount == PassSum(checks) && report.failCount == FailSum(checks)
    requires PassSum(checks) >= 0 && FailSum(checks) >= 0
    requires PassSum(checks) == 0 && FailSum(checks) == 0
             <==> forall c :: c in checks ==> c.passTotal == 0 && c.failTotal == 0
    requires forall c :: c in checks ==>
               (c.passTotal == 0 && c.failTotal == 0 <==> CountsNothing(controls, fetched, c.id))
    requires forall c :: c in checks ==> CheckIdsOf(controls, c.id) != []
    requires forall id :: CheckIdsOf(controls, id) != [] ==> exists c :: c in checks && c.id == id
    ensures report.controlChecks == [] <==>
            forall id :: CheckIdsOf(controls, id) != [] ==> CountsNothing(controls, fetched, id)
  {
    if report.controlChecks == [] {
      forall id | CheckIdsOf(controls, id) != []
        ensures CountsNothing(controls, fetched, id)
      {
        var c :| c in checks && c.id == id;
      }
    }
  }

  /** ... whose totals count the fetched results with the check ids of the control, or else its default,
      and a summary that sums them. */
  lemma ReportConserves(controls: seq<Control>, m: SpecMaps, fetched: Fetched, order: seq<Source>,
                        checks: seq<ControlCheck>, limit: int, report: Report, check: ControlCheck)
    requires IsReport(controls, m, fetched, order, checks, limit, report) && check in checks
    ensures var pass, fail := PassTotal(controls, fetched, check.id), FailTotal(controls, fetched, check.id);
            exists i ::
              && IsLastControl(controls, check.id, i)
              && check.name == controls[i].name && check.description == controls[i].description
              && check.severity == controls[i].severity
              && if pass == 0 && fail == 0
                 then check.passTotal == (if controls[i].defaultStatus.Pass? then 1 else 0)
                      && check.failTotal == (if controls[i].defaultStatus.Fail? then 1 else 0)
                 else check.passTotal == pass && check.failTotal == fail
    ensures report.passCount == PassSum(checks) && report.failCount == FailSum(checks)
  {
    ReportedCheck(controls, m, fetched, order, checks, limit, report, check);
    var i := CheckTells(controls, m, fetched, order, check.id);
  }

  /** The check has the texts of the control and the totals, or counts the default of the control when both totals
      are zero. */
  predicate Tells(check: ControlCheck, control: Control, pass: int, fail: int) {
    && check.name == control.name && check.description == control.description && check.severity == control.severity
    && if pass == 0 && fail == 0
       then check.passTotal == (if control.defaultStatus.Pass? then 1 else 0)
            && check.failTotal == (if control.defaultStatus.Fail? then 1 else 0)
       else check.passTotal == pass && check.failTotal == fail
  }

  lemma CheckTells(controls: seq<Control>, m: SpecMaps, fetched: Fetched, order: seq<Source>, id: string)
    returns (i: int)
    requires DescribesControl(m, controls, id) && Enumerates(order, fetched.Keys) && id in m.checkIds
    ensures id in m.controls && IsLastControl(controls, id, i)
    ensures Tells(CheckFor(m, Collected(fetched, order), id), controls[i], PassTotal(controls, fetched, id),
                  FailTotal(controls, fetched, id))
  {
    ControlChecksConserve(m, fetched, order, id);
    TotalsAreRaw(controls, fetched, id);
    i := TextsOfLast(controls, m, id);
  }

  /** The maps hold the texts and the default of the last control with the id. */
  lemma TextsOfLast(controls: seq<Control>, m: SpecMaps, id: string) returns (i: int)
    requires DescribesControl(m, controls, id) && id in m.controls
    ensures IsLastControl(controls, id, i)
    ensures m.controls[id].name == controls[i].name && m.controls[id].description == controls[i].description
    ensures m.controls[id].severity == controls[i].severity
    ensures m.controls[id].defaultStatus == controls[i].defaultStatus
  {
    LastControlIs(controls, id);
    i :| IsLastControl(controls, id, i) && controls[i] == LastControl(controls, id).value;
    var held, last := m.controls[id].(kinds := []), controls[i].(kinds := []);
    assert held == last;
  }

  // ---------------------------------------------------------------- the details of two generations

  /** The entries of a control, up to the order of their results. */
  ghost function BagsAt(m: SpecMaps, results: Results, limit: int): string -> seq<DetailsBag> {
    id => if id in m.controls && id in m.resources && id in m.checkIds then BagsOf(DetailsFor(m, results, id, limit))
          else []
  }

  lemma {:induction false} AllDetailsBags(m: SpecMaps, results: Results, order: seq<string>, limit: int)
    requires m.checkIds.Keys <= m.controls.Keys == m.resources.Keys && forall id :: id in order ==> id in m.checkIds
    ensures BagsOf(AllDetails(m, results, order, limit)) == FlatMap(BagsAt(m, results, limit), order)
  {
    if order != [] {
      var init, last := order[..|order| - 1], order[|order| - 1];
      AllDetailsBags(m, results, init, limit);
      BagsConcat(AllDetails(m, results, init, limit), DetailsFor(m, results, last, limit));
    }
  }

  lemma SameBagsAt(controls: seq<Control>, m: SpecMaps, n: SpecMaps, fetched: Fetched,
                   a: seq<Source>, b: seq<Source>, limit: int, id: string)
    requires DescribesControl(m, controls, id) && DescribesControl(n, controls, id)
    requires Enumerates(a, fetched.Keys) && Enumerates(b, fetched.Keys) && id in m.checkIds
    ensures BagsAt(m, Collected(fetched, a), limit)(id) == BagsAt(n, Collected(fetched, b), limit)(id)
  {
    assert m.checkIds[id] == n.checkIds[id] && SameControl(m, n, id);
    DetailsPermute(m, n, fetched, a, b, id, m.checkIds[id], limit);
  }

  /** Where the published details come from. */
  lemma ReportedDetails(controls: seq<Control>, m: SpecMaps, fetched: Fetched, order: seq<Source>,
                        checks: seq<ControlCheck>, limit: int, report: Report) returns (ids: seq<string>)
    requires IsReport(controls, m, fetched, order, checks, limit, report)
    ensures Enumerates(ids, if AllIds(fetched) == {} then {} else m.checkIds.Keys)
    ensures BagsOf(report.details) == FlatMap(BagsAt(m, Collected(fetched, order), limit), ids)
  {
    AnythingCollected(fetched, order);
    if AllIds(fetched) == {} {
      ids := [];
    } else {
      ids :| Enumerates(ids, m.checkIds.Keys)
             && report.details == AllDetails(m, Collected(fetched, order), ids, limit);
      AllDetailsBags(m, Collected(fetched, order), ids, limit);
    }
  }

  lemma SameCheckIds(controls: seq<Control>, m: SpecMaps, n: SpecMaps)
    requires Describes(m, controls) && Describes(n, controls)
    ensures m.checkIds.Keys == n.checkIds.Keys
  {
    forall id
      ensures id in m.checkIds <==> id in n.checkIds
    {
      assert DescribesControl(m, controls, id) && DescribesControl(n, controls, id);
    }
  }

  /** Two generations from the same lists publish the same details, up to the order of the entries and of the
      results inside an entry. */
  lemma DetailsAreDeterministic(controls: seq<Control>, m: SpecMaps, n: SpecMaps, fetched: Fetched,
                                a: seq<Source>, b: seq<Source>, xs: seq<ControlCheck>, ys: seq<ControlCheck>,
                                limit: int, r: Report, q: Report)
    requires IsReport(controls, m, fetched, a, xs, limit, r) && IsReport(controls, n, fetched, b, ys, limit, q)
    ensures multiset(BagsOf(r.details)) == multiset(BagsOf(q.details))
  {
    var ids := ReportedDetails(controls, m, fetched, a, xs, limit, r);
    var others := ReportedDetails(controls, n, fetched, b, ys, limit, q);
    SameCheckIds(controls, m, n);
    SameBags(controls, m, n, fetched, a, b, limit, ids, others);
  }

  lemma SameBags(controls: seq<Control>, m: SpecMaps, n: SpecMaps, fetched: Fetched, a: seq<Source>, b: seq<Source>,
                 limit: int, ids: seq<string>, others: seq<string>)
    requires Describes(m, controls) && Describes(n, controls)
    requires Enumerates(a, fetched.Keys) && Enumerates(b, fetched.Keys)
    requires exists all :: all <= m.checkIds.Keys && Enumerates(ids, all) && Enumerates(others, all)
    ensures multiset(FlatMap(BagsAt(m, Collected(fetched, a), limit), ids))
            == multiset(FlatMap(BagsAt(n, Collected(fetched, b), limit), others))
  {
    var all :| all <= m.checkIds.Keys && Enumerates(ids, all) && Enumerates(others, all);
    forall id | id in ids
      ensures BagsAt(m, Collected(fetched, a), limit)(id) == BagsAt(n, Collected(fetched, b), limit)(id)
    {
      assert DescribesControl(m, controls, id) && DescribesControl(n, controls, id);
      SameBagsAt(controls, m, n, fetched, a, b, limit, id);
    }
    FlatMapExtensional(BagsAt(m, Collected(fetched, a), limit), BagsAt(n, Collected(fetched, b), limit), ids);
    EnumerationsPermute(ids, others, all);
    FlatMapPermutation(BagsAt(n, Collected(fetched, b), limit), ids, others);
  }
}
