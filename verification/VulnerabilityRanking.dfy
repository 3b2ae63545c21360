/** The images of a namespace ranked by the number of their vulnerabilities, and its vulnerabilities
    ranked by score. */
module VulnerabilityRanking {
  import opened Collections
  import opened Ranking
  import opened Tally

  /** A vulnerability; `text` stands for the fields that a ranking does not keep. */
  datatype Vulnerability = Vulnerability(id: string, link: string, severity: string, score: Option<real>, text: string)

  datatype Summary = Summary(critical: int, high: int, medium: int, low: int, unknown: int)

  datatype ImageReport = ImageReport(name: string, summary: Summary, vulnerabilities: seq<Vulnerability>)

  datatype VulnerabilityWithCount = VulnerabilityWithCount(vulnerability: Vulnerability, affected: int)

  function VulnerabilityId(v: Vulnerability): string { v.id }

  // ---------------------------------------------------------------- images

  predicate FewerCritical(a: ImageReport, b: ImageReport) { a.summary.critical < b.summary.critical }
  predicate FewerHigh(a: ImageReport, b: ImageReport) { a.summary.high < b.summary.high }
  predicate FewerMedium(a: ImageReport, b: ImageReport) { a.summary.medium < b.summary.medium }
  predicate FewerLow(a: ImageReport, b: ImageReport) { a.summary.low < b.summary.low }
  predicate FewerUnknown(a: ImageReport, b: ImageReport) { a.summary.unknown < b.summary.unknown }

  const SUMMARY_COUNT: seq<Key<ImageReport>> := [FewerCritical, FewerHigh, FewerMedium, FewerLow, FewerUnknown]

  lemma SummaryCountOrders()
    ensures Orders(SUMMARY_COUNT)
  {
    forall k | 0 <= k < |SUMMARY_COUNT|
      ensures StrictWeakOrder(SUMMARY_COUNT[k])
    {
      assert SUMMARY_COUNT[k] in {FewerCritical, FewerHigh, FewerMedium, FewerLow, FewerUnknown};
    }
    LexIsStrictWeakOrder(SUMMARY_COUNT);
  }

  /** The order on the counts: the first severity with different counts decides. */
  lemma SummaryCountIff(a: ImageReport, b: ImageReport)
    ensures Lex(SUMMARY_COUNT, a, b) <==>
            var x, y := a.summary, b.summary;
            || x.critical < y.critical
            || (x.critical == y.critical && x.high < y.high)
            || (x.critical == y.critical && x.high == y.high && x.medium < y.medium)
            || (x.critical == y.critical && x.high == y.high && x.medium == y.medium && x.low < y.low)
            || (x.critical == y.critical && x.high == y.high && x.medium == y.medium && x.low == y.low
                && x.unknown < y.unknown)
  {
    LexOne(FewerUnknown, a, b);
    LexMore(FewerLow, [FewerUnknown], a, b);
    LexMore(FewerMedium, [FewerLow] + [FewerUnknown], a, b);
    LexMore(FewerHigh, [FewerMedium] + ([FewerLow] + [FewerUnknown]), a, b);
    LexMore(FewerCritical, [FewerHigh] + ([FewerMedium] + ([FewerLow] + [FewerUnknown])), a, b);
    assert SUMMARY_COUNT == [FewerCritical] + ([FewerHigh] + ([FewerMedium] + ([FewerLow] + [FewerUnknown])));
  }

  /** Fewer critical vulnerabilities, or as many and fewer high ones, and so on. */
  predicate Milder(a: Summary, b: Summary) {
    || a.critical < b.critical
    || (a.critical == b.critical && a.high < b.high)
    || (a.critical == b.critical && a.high == b.high && a.medium < b.medium)
    || (a.critical == b.critical && a.high == b.high && a.medium == b.medium && a.low < b.low)
    || (a.critical == b.critical && a.high == b.high && a.medium == b.medium && a.low == b.low && a.unknown < b.unknown)
  }

  /** The images with the most vulnerabilities, the severest first. The caller's list is not changed. */
  method TopNImages(reports: array<ImageReport>, n: nat) returns (top: seq<ImageReport>)
    ensures IsTop(SUMMARY_COUNT, reports[..], n, top)
  {
    SummaryCountOrders();
    var sorter := new MultiSorter<ImageReport>.OrderedBy(SUMMARY_COUNT);
    var copied := new ImageReport[reports.Length](i requires 0 <= i < reports.Length reads reports => reports[i]);
    assert copied[..] == reports[..];
    sorter.SortDesc(copied);
    top := copied[..Min(n, copied.Length)];
  }

  /** No image outside the top is worse than one inside: compared by critical, high, medium, low and unknown counts
      in this order. */
  lemma TopImagesAreWorst(reports: seq<ImageReport>, n: nat, top: seq<ImageReport>) returns (excluded: seq<ImageReport>)
    requires IsTop(SUMMARY_COUNT, reports, n, top)
    ensures |top| == Min(n, |reports|) && multiset(top) + multiset(excluded) == multiset(reports)
    ensures forall x, y :: x in top && y in excluded ==> !Milder(x.summary, y.summary)
    ensures forall i, j :: 0 <= i < j < |top| ==> !Milder(top[i].summary, top[j].summary)
  {
    SummaryCountOrders();
    excluded := NothingBetterIsExcluded(SUMMARY_COUNT, reports, n, top);
    forall x, y | x in top && y in excluded
      ensures !Milder(x.summary, y.summary)
    {
      SummaryCountIff(x, y);
    }
    forall i, j | 0 <= i < j < |top|
      ensures !Milder(top[i].summary, top[j].summary)
    {
      SummaryCountIff(top[i], top[j]);
    }
  }

  // ---------------------------------------------------------------- counting vulnerabilities

  /** What the reports contribute: every id of a report once, at its first occurrence. */
  function Hits(reports: seq<ImageReport>): seq<Vulnerability> {
    FlatMap((r: ImageReport) => Dedupe(VulnerabilityId, r.vulnerabilities), reports)
  }

  /** The hits from the first one of the given id that has a score. */
  function FromScored(hits: seq<Vulnerability>, id: string): seq<Vulnerability> {
    if hits == [] then []
    else
      var last, before := hits[|hits| - 1], FromScored(hits[..|hits| - 1], id);
      if before != [] then before + [last] else if last.id == id && last.score.Some? then [last] else []
  }

  /** The fields that are kept. */
  function Kept(v: Vulnerability): Vulnerability {
    v.(text := "")
  }

  ghost function EntryFor(hits: seq<Vulnerability>, id: string): VulnerabilityWithCount
    requires FromScored(hits, id) != []
  {
    VulnerabilityWithCount(Kept(FromScored(hits, id)[0]), Count(VulnerabilityId, FromScored(hits, id), id))
  }

  /** The counted map: an entry starts at the first hit with a score. */
  ghost function Tallied(hits: seq<Vulnerability>): map<string, VulnerabilityWithCount> {
    map id | id in IdsOf(VulnerabilityId, hits) && FromScored(hits, id) != [] :: EntryFor(hits, id)
  }

  lemma {:induction false} ScoredIsHit(hits: seq<Vulnerability>, id: string)
    requires FromScored(hits, id) != []
    ensures id in IdsOf(VulnerabilityId, hits)
  {
    var init, last := hits[..|hits| - 1], hits[|hits| - 1];
    assert hits == init + [last];
    if FromScored(init, id) != [] {
      ScoredIsHit(init, id);
      var v :| v in init && VulnerabilityId(v) == id;
      assert v in hits;
    } else {
      assert last in hits && VulnerabilityId(last) == id;
    }
  }

  lemma FromScoredAppend(hits: seq<Vulnerability>, v: Vulnerability, id: string)
    ensures FromScored(hits + [v], id)
            == if FromScored(hits, id) != [] then FromScored(hits, id) + [v]
               else if v.id == id && v.score.Some? then [v] else []
  {
    assert (hits + [v])[..|hits|] == hits;
  }

  lemma CountedAgain(hits: seq<Vulnerability>, v: Vulnerability, id: string)
    requires FromScored(hits, id) != []
    ensures FromScored(hits + [v], id) != []
    ensures EntryFor(hits + [v], id)
            == EntryFor(hits, id).(affected := EntryFor(hits, id).affected + if v.id == id then 1 else 0)
  {
    FromScoredAppend(hits, v, id);
    Append(VulnerabilityId, FromScored(hits, id), v, id);
  }

  lemma CountedFirst(hits: seq<Vulnerability>, v: Vulnerability, id: string)
    requires FromScored(hits, id) == []
    ensures FromScored(hits + [v], id) != [] <==> v.id == id && v.score.Some?
    ensures FromScored(hits + [v], id) != [] ==> EntryFor(hits + [v], id) == VulnerabilityWithCount(Kept(v), 1)
  {
    FromScoredAppend(hits, v, id);
    Append(VulnerabilityId, [], v, id);
    assert [] + [v] == [v];
  }

  lemma TalliedIs(hits: seq<Vulnerability>, m: map<string, VulnerabilityWithCount>)
    requires forall id :: id in m <==> FromScored(hits, id) != []
    requires forall id :: id in m ==> m[id] == EntryFor(hits, id)
    ensures m == Tallied(hits)
  {
    forall id
      ensures id in m <==> id in Tallied(hits)
    {
      if FromScored(hits, id) != [] { ScoredIsHit(hits, id); }
    }
  }

  lemma TalliedIff(hits: seq<Vulnerability>, id: string)
    ensures id in Tallied(hits) <==> FromScored(hits, id) != []
  {
    if FromScored(hits, id) != [] { ScoredIsHit(hits, id); }
  }

  /** The hit is counted if its id has an entry; otherwise it starts one if it has a score. */
  method Record(m: map<string, VulnerabilityWithCount>, v: Vulnerability, ghost hits: seq<Vulnerability>)
    returns (r: map<string, VulnerabilityWithCount>)
    requires m == Tallied(hits)
    ensures r == Tallied(hits + [v])
  {
    if v.id in m {
      var counted := m[v.id];
      r := m[v.id := counted.(affected := counted.affected + 1)];
    } else if v.score.None? {
      r := m;
    } else {
      r := m[v.id := VulnerabilityWithCount(Vulnerability(v.id, v.link, v.severity, v.score, ""), 1)];
    }
    forall id
      ensures id in r <==> FromScored(hits + [v], id) != []
      ensures id in r ==> r[id] == EntryFor(hits + [v], id)
    {
      TalliedIff(hits, id);
      if FromScored(hits, id) != [] {
        CountedAgain(hits, v, id);
      } else {
        CountedFirst(hits, v, id);
      }
    }
    TalliedIs(hits + [v], r);
  }

  method CountReport(
    vulnerabilities: seq<Vulnerability>, m: map<string, VulnerabilityWithCount>, ghost hits: seq<Vulnerability>)
    returns (r: map<string, VulnerabilityWithCount>)
    requires m == Tallied(hits)
    ensures r == Tallied(hits + Dedupe(VulnerabilityId, vulnerabilities))
  {
    r := m;
    var seen: set<string> := {};
    ghost var visited: seq<Vulnerability> := [];
    assert hits + Dedupe(VulnerabilityId, visited) == hits;
    for i := 0 to |vulnerabilities|
      invariant visited == vulnerabilities[..i]
      invariant seen == IdsOf(VulnerabilityId, visited) && r == Tallied(hits + Dedupe(VulnerabilityId, visited))
    {
      seen, r := CountOnce(vulnerabilities[i], seen, r, hits, visited);
      visited := visited + [vulnerabilities[i]];
    }
    assert vulnerabilities[..|vulnerabilities|] == vulnerabilities;
  }

  method CountOnce(v: Vulnerability, seen: set<string>, m: map<string, VulnerabilityWithCount>,
                   ghost hits: seq<Vulnerability>, ghost visited: seq<Vulnerability>)
    returns (now: set<string>, r: map<string, VulnerabilityWithCount>)
    requires seen == IdsOf(VulnerabilityId, visited) && m == Tallied(hits + Dedupe(VulnerabilityId, visited))
    ensures now == IdsOf(VulnerabilityId, visited + [v])
    ensures r == Tallied(hits + Dedupe(VulnerabilityId, visited + [v]))
  {
    Append(VulnerabilityId, visited, v, v.id);
    if v.id in seen {
      return seen, m;
    }
    now := seen + {v.id};
    r := Record(m, v, hits + Dedupe(VulnerabilityId, visited));
    ConcatAssociates(hits, Dedupe(VulnerabilityId, visited), [v]);
  }

  method CountVulnerabilities(reports: seq<ImageReport>) returns (m: map<string, VulnerabilityWithCount>)
    ensures m == Tallied(Hits(reports))
  {
    m := map[];
    for i := 0 to |reports|
      invariant m == Tallied(Hits(reports[..i]))
    {
      m := CountReport(reports[i].vulnerabilities, m, Hits(reports[..i]));
      assert reports[..i + 1][..i] == reports[..i];
    }
    assert reports[..|reports|] == reports;
  }

  // ---------------------------------------------------------------- what is counted

  predicate Contains(r: ImageReport, id: string) {
    exists v :: v in r.vulnerabilities && v.id == id
  }

  function Containing(id: string): ImageReport -> int {
    (r: ImageReport) => if Contains(r, id) then 1 else 0
  }

  /** All vulnerabilities, in the order in which they are visited. */
  function All(reports: seq<ImageReport>): seq<Vulnerability> {
    FlatMap((r: ImageReport) => r.vulnerabilities, reports)
  }

  /** A report hits an id once iff it contains it, and the first hit is the first occurrence. */
  lemma {:induction false} HitsCount(reports: seq<ImageReport>, id: string)
    ensures Count(VulnerabilityId, Hits(reports), id) == Sum(Containing(id), reports)
    ensures First(VulnerabilityId, Hits(reports), id) == First(VulnerabilityId, All(reports), id)
  {
    if reports != [] {
      var init, last := reports[..|reports| - 1], reports[|reports| - 1];
      HitsCount(init, id);
      DedupeCounts(VulnerabilityId, last.vulnerabilities, id);
      SumConcat(Hit(VulnerabilityId, id), Hits(init), Dedupe(VulnerabilityId, last.vulnerabilities));
      FirstConcat(VulnerabilityId, Hits(init), Dedupe(VulnerabilityId, last.vulnerabilities), id);
      FirstConcat(VulnerabilityId, All(init), last.vulnerabilities, id);
    }
  }

  /** The hits split before the first one of the id that has a score. */
  lemma {:induction false} SplitAtScored(hits: seq<Vulnerability>, id: string) returns (before: seq<Vulnerability>)
    ensures hits == before + FromScored(hits, id)
    ensures forall v :: v in before && v.id == id ==> v.score.None?
    ensures FromScored(hits, id) != [] ==> FromScored(hits, id)[0].id == id && FromScored(hits, id)[0].score.Some?
  {
    if hits == [] {
      before := [];
    } else {
      var init, last := hits[..|hits| - 1], hits[|hits| - 1];
      before := SplitAtScored(init, id);
      assert hits == init + [last];
      if FromScored(init, id) == [] && !(last.id == id && last.score.Some?) {
        before := before + [last];
      }
    }
  }

  /** The number of affected workloads of an entry: it is all the reports that contain the id iff the very
      first occurrence of the id has a score; the reports before the first scored one are missed. */
  lemma AffectedIsExactIff(reports: seq<ImageReport>, id: string)
    requires id in Tallied(Hits(reports))
    ensures First(VulnerabilityId, All(reports), id).Some?
    ensures 1 <= Tallied(Hits(reports))[id].affected <= Sum(Containing(id), reports)
    ensures Tallied(Hits(reports))[id].affected == Sum(Containing(id), reports)
            <==> First(VulnerabilityId, All(reports), id).value.score.Some?
  {
    var hits := Hits(reports);
    var scored := FromScored(hits, id);
    var before := SplitAtScored(hits, id);
    HitsCount(reports, id);
    SumConcat(Hit(VulnerabilityId, id), before, scored);
    FirstConcat(VulnerabilityId, before, scored, id);
    CountIff(VulnerabilityId, before, id);
    CountIff(VulnerabilityId, scored, id);
    FirstOfScored(scored, id);
  }

  lemma FirstOfScored(scored: seq<Vulnerability>, id: string)
    requires scored != [] && scored[0].id == id
    ensures First(VulnerabilityId, scored, id) == Some(scored[0])
  {
    assert scored == [scored[0]] + scored[1..];
    FirstConcat(VulnerabilityId, [scored[0]], scored[1..], id);
    assert [scored[0]][..0] == [];
    assert First(VulnerabilityId, [scored[0]], id) == Some(scored[0]);
  }

  /** The first occurrence of the id in the report has a score. */
  predicate Scores(r: ImageReport, id: string) {
    var first := First(VulnerabilityId, r.vulnerabilities, id);
    first.Some? && first.value.score.Some?
  }

  /** An id has an entry iff some report that contains it gives its first occurrence a score, and every
      entry has a score. */
  lemma EntriesHaveScores(reports: seq<ImageReport>, id: string)
    ensures id in Tallied(Hits(reports)) <==>
              exists r :: r in reports && Scores(r, id)
    ensures id in Tallied(Hits(reports)) ==>
              Tallied(Hits(reports))[id].vulnerability.id == id && Tallied(Hits(reports))[id].vulnerability.score.Some?
  {
    var hits := Hits(reports);
    var f := (r: ImageReport) => Dedupe(VulnerabilityId, r.vulnerabilities);
    var before := SplitAtScored(hits, id);
    if FromScored(hits, id) != [] {
      ScoredIsHit(hits, id);
      var v := FromScored(hits, id)[0];
      assert v in hits;
      FlatMapMember(f, reports, v);
      var r :| r in reports && v in f(r);
      DedupedIsFirst(r.vulnerabilities, v);
    }
    if r :| r in reports && Scores(r, id) {
      DedupeCounts(VulnerabilityId, r.vulnerabilities, id);
      var v := First(VulnerabilityId, r.vulnerabilities, id).value;
      assert v in f(r);
      FlatMapMember(f, reports, v);
      assert v in before + FromScored(hits, id);
    }
  }

  lemma {:induction false} DedupedIsFirst(vs: seq<Vulnerability>, v: Vulnerability)
    requires v in Dedupe(VulnerabilityId, vs)
    ensures First(VulnerabilityId, vs, v.id) == Some(v)
  {
    var init, last := vs[..|vs| - 1], vs[|vs| - 1];
    assert vs == init + [last];
    if v in Dedupe(VulnerabilityId, init) {
      DedupedIsFirst(init, v);
    }
  }

  lemma {:induction false} FromScoredConcat(xs: seq<Vulnerability>, ys: seq<Vulnerability>, id: string)
    ensures FromScored(xs + ys, id)
            == if FromScored(xs, id) != [] then FromScored(xs, id) + ys else FromScored(ys, id)
  {
    if ys == [] {
      assert xs + ys == xs;
    } else {
      var init, last := ys[..|ys| - 1], ys[|ys| - 1];
      assert xs + ys == xs + init + [last] && ys == init + [last];
      FromScoredConcat(xs, init, id);
      FromScoredAppend(xs + init, last, id);
      FromScoredAppend(init, last, id);
    }
  }

  /** One report has at most one hit for the id, its first occurrence. */
  lemma ScoredInReport(vs: seq<Vulnerability>, id: string)
    ensures var scored, first := FromScored(Dedupe(VulnerabilityId, vs), id), First(VulnerabilityId, vs, id);
            && (scored != [] <==> first.Some? && first.value.score.Some?)
            && (scored != [] ==> first == Some(scored[0]) && Count(VulnerabilityId, scored, id) == 1)
  {
    var hits := Dedupe(VulnerabilityId, vs);
    var scored := FromScored(hits, id);
    var before := SplitAtScored(hits, id);
    DedupeCounts(VulnerabilityId, vs, id);
    SumConcat(Hit(VulnerabilityId, id), before, scored);
    FirstConcat(VulnerabilityId, before, scored, id);
    CountIff(VulnerabilityId, before, id);
    CountIff(VulnerabilityId, scored, id);
    if scored != [] {
      FirstOfScored(scored, id);
    }
    if First(VulnerabilityId, hits, id).Some? {
      assert First(VulnerabilityId, hits, id).value in before + scored;
    }
  }

  /** The entry of an id, exactly: it has the link, severity and score of the id's first occurrence in the first
      report that gives it a score, and counts the reports with the id from that one on. */
  lemma {:induction false} EntryIs(reports: seq<ImageReport>, id: string) returns (i: nat)
    requires FromScored(Hits(reports), id) != []
    ensures i < |reports| && Scores(reports[i], id) && forall j :: 0 <= j < i ==> !Scores(reports[j], id)
    ensures var v, entry := First(VulnerabilityId, reports[i].vulnerabilities, id).value, EntryFor(Hits(reports), id);
            && entry.vulnerability.id == id && entry.vulnerability.link == v.link
            && entry.vulnerability.severity == v.severity && entry.vulnerability.score == v.score
            && entry.affected == Sum(Containing(id), reports[i..])
  {
    var n := |reports| - 1;
    var init, last := reports[..n], reports[n];
    assert reports == init + [last];
    if FromScored(Hits(init), id) != [] {
      i := EntryIs(init, id);
      EntryGrows(init, last, id, i);
    } else {
      i := n;
      NoEarlierScore(init, id);
      EntryStarts(init, last, id);
    }
  }

  /** An entry starts at a report that gives its id a score. */
  lemma EntryStarts(reports: seq<ImageReport>, last: ImageReport, id: string)
    requires FromScored(Hits(reports), id) == [] && FromScored(Hits(reports + [last]), id) != []
    ensures Scores(last, id)
    ensures EntryFor(Hits(reports + [last]), id)
            == VulnerabilityWithCount(Kept(First(VulnerabilityId, last.vulnerabilities, id).value), 1)
    ensures Sum(Containing(id), (reports + [last])[|reports|..]) == 1
  {
    assert (reports + [last])[..|reports|] == reports && (reports + [last])[|reports|..] == [last];
    FromScoredConcat(Hits(reports), Dedupe(VulnerabilityId, last.vulnerabilities), id);
    ScoredInReport(last.vulnerabilities, id);
    DedupeCounts(VulnerabilityId, last.vulnerabilities, id);
    SumSingle(Containing(id), last);
  }

  /** One more report adds one to an entry that exists if it contains the id. */
  lemma EntryGrows(reports: seq<ImageReport>, last: ImageReport, id: string, i: nat)
    requires FromScored(Hits(reports), id) != [] && i < |reports|
    ensures Hits(reports + [last]) == Hits(reports) + Dedupe(VulnerabilityId, last.vulnerabilities)
    ensures FromScored(Hits(reports + [last]), id) != []
    ensures EntryFor(Hits(reports + [last]), id).vulnerability == EntryFor(Hits(reports), id).vulnerability
    ensures EntryFor(Hits(reports + [last]), id).affected - EntryFor(Hits(reports), id).affected
            == Sum(Containing(id), (reports + [last])[i..]) - Sum(Containing(id), reports[i..])
  {
    var hits := Dedupe(VulnerabilityId, last.vulnerabilities);
    assert (reports + [last])[..|reports|] == reports;
    FromScoredConcat(Hits(reports), hits, id);
    DedupeCounts(VulnerabilityId, last.vulnerabilities, id);
    SumConcat(Hit(VulnerabilityId, id), FromScored(Hits(reports), id), hits);
    assert (reports + [last])[i..] == reports[i..] + [last];
    SumConcat(Containing(id), reports[i..], [last]);
    SumSingle(Containing(id), last);
  }

  lemma NoEarlierScore(reports: seq<ImageReport>, id: string)
    requires FromScored(Hits(reports), id) == []
    ensures forall j :: 0 <= j < |reports| ==> !Scores(reports[j], id)
  {
    EntriesHaveScores(reports, id);
    assert forall j :: 0 <= j < |reports| ==> reports[j] in reports;
  }

  /** Whether a vulnerability has a score depends on its id only. */
  ghost predicate ScoresFollowIds(reports: seq<ImageReport>) {
    forall v, w :: v in All(reports) && w in All(reports) && v.id == w.id ==> (v.score.Some? <==> w.score.Some?)
  }

  /** Then every entry counts all reports that contain its id. */
  lemma AffectedIsExact(reports: seq<ImageReport>, id: string)
    requires ScoresFollowIds(reports) && id in Tallied(Hits(reports))
    ensures Tallied(Hits(reports))[id].affected == Sum(Containing(id), reports)
  {
    AffectedIsExactIff(reports, id);
    EntriesHaveScores(reports, id);
    var r :| r in reports && Scores(r, id);
    var v := First(VulnerabilityId, r.vulnerabilities, id).value;
    FlatMapMember((r: ImageReport) => r.vulnerabilities, reports, v);
    assert v in All(reports) && First(VulnerabilityId, All(reports), id).value in All(reports);
  }

  /** Without that, a report that lists the id without a score before any scored one is not counted. */
  lemma UnscoredReportIsMissed(name: string, id: string, score: real)
    ensures var unscored := Vulnerability(id, "", "", None, "");
            var none := Summary(0, 0, 0, 0, 0);
            var reports := [ImageReport(name, none, [unscored]),
                            ImageReport(name, none, [unscored.(score := Some(score))])];
            && id in Tallied(Hits(reports))
            && Contains(reports[0], id) && Contains(reports[1], id)
            && Tallied(Hits(reports))[id].affected == 1
  {
    var unscored, none := Vulnerability(id, "", "", None, ""), Summary(0, 0, 0, 0, 0);
    var scored := unscored.(score := Some(score));
    var first, second := ImageReport(name, none, [unscored]), ImageReport(name, none, [scored]);
    var reports := [first, second];
    assert unscored in first.vulnerabilities && scored in second.vulnerabilities;
    assert [unscored][..0] == [] && [scored][..0] == [] && reports[..1] == [first] && [first][..0] == [];
    assert First(VulnerabilityId, [unscored], id) == Some(unscored);
    assert First(VulnerabilityId, [scored], id) == Some(scored);
    assert second in reports;
    EntriesHaveScores(reports, id);
    AffectedIsExactIff(reports, id);
    assert All([first]) == All([]) + [unscored] && All(reports) == All([first]) + [scored];
    FirstConcat(VulnerabilityId, [unscored], [scored], id);
    assert Sum(Containing(id), reports) == Sum(Containing(id), [first]) + 1 == 2;
  }

  // ---------------------------------------------------------------- ranking by score

  function ScoreOf(v: VulnerabilityWithCount): real {
    if v.vulnerability.score.Some? then v.vulnerability.score.value else 0.0
  }

  predicate LowerScore(a: VulnerabilityWithCount, b: VulnerabilityWithCount) { ScoreOf(a) < ScoreOf(b) }

  const BY_SCORE: seq<Key<VulnerabilityWithCount>> := [LowerScore]

  lemma ByScoreOrders()
    ensures Orders(BY_SCORE)
    ensures forall x, y :: Lex(BY_SCORE, x, y) <==> ScoreOf(x) < ScoreOf(y)
  {
    assert StrictWeakOrder(LowerScore);
    LexIsStrictWeakOrder(BY_SCORE);
    assert BY_SCORE[1..] == [] && BY_SCORE[0] == LowerScore;
    forall x, y
      ensures Lex(BY_SCORE, x, y) <==> LowerScore(x, y)
    {
      assert !Lex(BY_SCORE[1..], x, y);
    }
  }

  function Lookup(m: map<string, VulnerabilityWithCount>): string -> VulnerabilityWithCount {
    id => if id in m then m[id] else VulnerabilityWithCount(Vulnerability("", "", "", None, ""), 0)
  }

  function Listed(m: map<string, VulnerabilityWithCount>, ids: seq<string>): seq<VulnerabilityWithCount> {
    MapSeq(Lookup(m), ids)
  }

  method ListVulnerabilities(m: map<string, VulnerabilityWithCount>)
    returns (list: array<VulnerabilityWithCount>, ghost ids: seq<string>)
    ensures fresh(list) && Enumerates(ids, m.Keys) && list[..] == Listed(m, ids)
  {
    var listing := Enumerate(m.Keys);
    ids := listing;
    list := new VulnerabilityWithCount[|listing|](_ => VulnerabilityWithCount(Vulnerability("", "", "", None, ""), 0));
    for i := 0 to |listing|
      invariant forall j :: 0 <= j < i ==> list[j] == m[listing[j]]
    {
      list[i] := m[listing[i]];
    }
  }

  method TopNVulnerabilities(reports: seq<ImageReport>, n: nat)
    returns (top: seq<VulnerabilityWithCount>, ghost ids: seq<string>)
    ensures Enumerates(ids, Tallied(Hits(reports)).Keys)
    ensures IsTop(BY_SCORE, Listed(Tallied(Hits(reports)), ids), n, top)
    ensures |top| == Min(n, |Tallied(Hits(reports))|)
    ensures forall i :: 0 <= i < |top| ==> top[i].vulnerability.score.Some?
    ensures forall i, j :: 0 <= i < j < |top| ==>
              top[i].vulnerability.score.value >= top[j].vulnerability.score.value
    ensures forall id :: id in Tallied(Hits(reports)) && Tallied(Hits(reports))[id] !in top ==>
              LeftOutScoresLower(Tallied(Hits(reports))[id], top)
  {
    var counted := CountVulnerabilities(reports);
    var list;
    list, ids := ListVulnerabilities(counted);
    ByScoreOrders();
    var sorter := new MultiSorter<VulnerabilityWithCount>.OrderedBy(BY_SCORE);
    sorter.SortDesc(list);
    top := list[..Min(n, list.Length)];
    TopScores(reports, ids, n, top);
    forall id | id in Tallied(Hits(reports)) && Tallied(Hits(reports))[id] !in top
      ensures LeftOutScoresLower(Tallied(Hits(reports))[id], top)
    {
      LeftOutScore(reports, ids, n, top, id);
    }
  }

  predicate LeftOutScoresLower(v: VulnerabilityWithCount, top: seq<VulnerabilityWithCount>) {
    && v.vulnerability.score.Some?
    && forall t :: t in top ==>
         t.vulnerability.score.Some? && v.vulnerability.score.value <= t.vulnerability.score.value
  }

  /** No vulnerability outside the top has a higher score than one inside. */
  lemma LeftOutScore(reports: seq<ImageReport>, ids: seq<string>, n: nat, top: seq<VulnerabilityWithCount>, id: string)
    requires Enumerates(ids, Tallied(Hits(reports)).Keys)
    requires IsTop(BY_SCORE, Listed(Tallied(Hits(reports)), ids), n, top)
    requires id in Tallied(Hits(reports)) && Tallied(Hits(reports))[id] !in top
    ensures |top| == n && Tallied(Hits(reports))[id].vulnerability.score.Some?
    ensures forall t :: t in top ==>
              && t.vulnerability.score.Some?
              && Tallied(Hits(reports))[id].vulnerability.score.value <= t.vulnerability.score.value
  {
    var m := Tallied(Hits(reports));
    ByScoreOrders();
    var excluded := NothingBetterIsExcluded(BY_SCORE, Listed(m, ids), n, top);
    var k :| 0 <= k < |ids| && ids[k] == id;
    assert Listed(m, ids)[k] == m[id];
    assert m[id] in multiset(top) + multiset(excluded);
    assert |multiset(top) + multiset(excluded)| == |top| + |excluded| && |multiset(Listed(m, ids))| == |Listed(m, ids)|;
    EntriesHaveScores(reports, id);
    forall t | t in top
      ensures t.vulnerability.score.Some? && m[id].vulnerability.score.value <= t.vulnerability.score.value
    {
      TopHasScore(reports, ids, n, top, t);
      assert !Lex(BY_SCORE, t, m[id]);
    }
  }

  lemma TopIsListed(m: map<string, VulnerabilityWithCount>, ids: seq<string>, n: nat,
                    top: seq<VulnerabilityWithCount>, v: VulnerabilityWithCount)
    requires Enumerates(ids, m.Keys) && IsTop(BY_SCORE, Listed(m, ids), n, top) && v in top
    ensures exists id :: id in m && v == m[id]
  {
    ByScoreOrders();
    var excluded := NothingBetterIsExcluded(BY_SCORE, Listed(m, ids), n, top);
    assert v in multiset(top) + multiset(excluded);
    assert v in multiset(Listed(m, ids));
    var i :| 0 <= i < |ids| && Listed(m, ids)[i] == v;
    assert ids[i] in m && v == m[ids[i]];
  }

  /** Every returned vulnerability has a score, and the scores do not increase. */
  lemma TopScores(reports: seq<ImageReport>, ids: seq<string>, n: nat, top: seq<VulnerabilityWithCount>)
    requires Enumerates(ids, Tallied(Hits(reports)).Keys)
    requires IsTop(BY_SCORE, Listed(Tallied(Hits(reports)), ids), n, top)
    ensures |top| == Min(n, |Tallied(Hits(reports))|)
    ensures forall i :: 0 <= i < |top| ==> top[i].vulnerability.score.Some?
    ensures forall i, j :: 0 <= i < j < |top| ==>
              top[i].vulnerability.score.value >= top[j].vulnerability.score.value
  {
    var m := Tallied(Hits(reports));
    ByScoreOrders();
    var excluded := NothingBetterIsExcluded(BY_SCORE, Listed(m, ids), n, top);
    EnumerationCounts(ids, m.Keys);
    forall i | 0 <= i < |top|
      ensures top[i].vulnerability.score.Some?
    {
      TopHasScore(reports, ids, n, top, top[i]);
    }
  }

  lemma TopHasScore(
    reports: seq<ImageReport>, ids: seq<string>, n: nat, top: seq<VulnerabilityWithCount>, v: VulnerabilityWithCount)
    requires Enumerates(ids, Tallied(Hits(reports)).Keys)
    requires IsTop(BY_SCORE, Listed(Tallied(Hits(reports)), ids), n, top) && v in top
    ensures v.vulnerability.score.Some?
  {
    var m := Tallied(Hits(reports));
    TopIsListed(m, ids, n, top, v);
    var id :| id in m && v == m[id];
    EntriesHaveScores(reports, id);
  }

  /** The list of scores does not depend on the order of the map. */
  lemma TopScoresAreDetermined(m: map<string, VulnerabilityWithCount>, ids: seq<string>, others: seq<string>, n: nat,
                               a: seq<VulnerabilityWithCount>, b: seq<VulnerabilityWithCount>)
    requires Enumerates(ids, m.Keys) && Enumerates(others, m.Keys)
    requires IsTop(BY_SCORE, Listed(m, ids), n, a) && IsTop(BY_SCORE, Listed(m, others), n, b)
    ensures |a| == |b| && forall i :: 0 <= i < |a| ==> ScoreOf(a[i]) == ScoreOf(b[i])
  {
    ByScoreOrders();
    EnumerationsPermute(ids, others, m.Keys);
    MapPermutation(Lookup(m), ids, others);
    TopsTie(BY_SCORE, Listed(m, ids), Listed(m, others), n, a, b);
  }
}
