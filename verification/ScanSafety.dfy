/** What every step of the scan protocol keeps, and the safety theorems that follow for every run. */
module ScanSafety {
  import opened Collections
  import opened Strings
  import opened Kube
  import opened ScanProtocol

  // ---------------------------------------------------------------- container images

  /** The container at `i` is the last of its name. */
  predicate IsLast(containers: seq<Container>, i: int) {
    0 <= i < |containers| && forall j :: i < j < |containers| ==> containers[j].name != containers[i].name
  }

  lemma {:induction false} LastImage(containers: seq<Container>, c: string) returns (i: int)
    ensures c in ImagesOf(containers) ==>
              IsLast(containers, i) && containers[i].name == c && ImagesOf(containers)[c] == containers[i].image
    ensures c !in ImagesOf(containers) ==> forall j :: 0 <= j < |containers| ==> containers[j].name != c
  {
    if containers == [] {
      i := 0;
    } else {
      var n := |containers| - 1;
      if containers[n].name == c {
        i := n;
      } else {
        i := LastImage(containers[..n], c);
        assert forall j :: 0 <= j < n ==> containers[..n][j] == containers[j];
      }
    }
  }

  /** A name has an image iff some container has that name, and it is the image of the last of them. */
  lemma ImagesIff(containers: seq<Container>, c: string)
    ensures c in ImagesOf(containers) <==> exists i :: 0 <= i < |containers| && containers[i].name == c
    ensures forall i :: IsLast(containers, i) && containers[i].name == c ==>
              c in ImagesOf(containers) && ImagesOf(containers)[c] == containers[i].image
    ensures c in ImagesOf(containers) ==>
              exists i :: 0 <= i < |containers| && containers[i].name == c
                          && ImagesOf(containers)[c] == containers[i].image
                          && forall j :: i < j < |containers| ==> containers[j].name != c
  {
    var i := LastImage(containers, c);
    forall k | IsLast(containers, k) && containers[k].name == c
      ensures c in ImagesOf(containers) && ImagesOf(containers)[c] == containers[k].image
    {
      if c in ImagesOf(containers) {
        OneLast(containers, i, k);
      }
    }
  }

  lemma OneLast(containers: seq<Container>, i: int, k: int)
    requires IsLast(containers, i) && IsLast(containers, k) && containers[i].name == containers[k].name
    ensures i == k
  {
  }

  // ---------------------------------------------------------------- reports and coverage

  /** Every report is stored under the name built from its own labels. */
  ghost predicate KeysOk(env: Env, reports: Reports) {
    forall k :: k in reports ==> k == env.ReportKey(reports[k].owner, reports[k].container)
  }

  /** There is a spec with this hash that has this container. */
  ghost predicate NamesContainer(env: Env, hash: string, container: string) {
    exists spec :: env.specHash(spec) == hash && container in SpecImages(spec)
  }

  ghost predicate ReportsOk(env: Env, reports: Reports) {
    && KeysOk(env, reports)
    && forall k :: k in reports ==> NamesContainer(env, reports[k].hash, reports[k].container)
  }

  /** The report of one container, found by its name. */
  predicate Holds(env: Env, reports: Reports, owner: ObjectRef, hash: string, container: string) {
    var k := env.ReportKey(owner, container);
    && k in reports && reports[k].owner == owner && reports[k].container == container
    && reports[k].hash == hash
  }

  lemma CoveredIffHolds(env: Env, reports: Reports, owner: ObjectRef, hash: string, c: string)
    requires KeysOk(env, reports)
    ensures c in Covered(reports, owner, hash) <==> Holds(env, reports, owner, hash, c)
  {
    if Holds(env, reports, owner, hash, c) {
      assert env.ReportKey(owner, c).namespace == owner.namespace;
    }
  }

  /** No extras: a report labelled with the hash of a spec names a container of that spec. */
  lemma CoveredWithinSpec(env: Env, reports: Reports, owner: ObjectRef, spec: PodSpec)
    requires env.Faithful() && ReportsOk(env, reports)
    ensures Covered(reports, owner, env.specHash(spec)) <= SpecImages(spec).Keys
  {
    forall c | c in Covered(reports, owner, env.specHash(spec))
      ensures c in SpecImages(spec)
    {
      CoveredIffHolds(env, reports, owner, env.specHash(spec), c);
      var k := env.ReportKey(owner, c);
      assert NamesContainer(env, reports[k].hash, c);
    }
  }

  lemma CreateOrUpdateEffect(env: Env, reports: Reports, r: Report, owner: ObjectRef, hash: string, c: string)
    requires env.Faithful() && KeysOk(env, reports)
    ensures KeysOk(env, CreateOrUpdate(env, reports, r))
    ensures Holds(env, CreateOrUpdate(env, reports, r), r.owner, r.hash, r.container)
    ensures Holds(env, CreateOrUpdate(env, reports, r), owner, hash, c) ==>
              Holds(env, reports, owner, hash, c) || (owner, hash, c) == (r.owner, r.hash, r.container)
    ensures owner == r.owner && c != r.container && Holds(env, reports, owner, hash, c) ==>
              Holds(env, CreateOrUpdate(env, reports, r), owner, hash, c)
  {
    if owner == r.owner && env.ReportKey(owner, c) == env.ReportKey(owner, r.container) {
      ContainerReportNamesDistinct(env.naming, owner.kind, owner.name, c, r.container);
    }
  }

  lemma CreateOrUpdateOk(env: Env, reports: Reports, r: Report)
    requires ReportsOk(env, reports) && NamesContainer(env, r.hash, r.container)
    ensures ReportsOk(env, CreateOrUpdate(env, reports, r))
  {
    var after := CreateOrUpdate(env, reports, r);
    forall k | k in after
      ensures k == env.ReportKey(after[k].owner, after[k].container)
      ensures NamesContainer(env, after[k].hash, after[k].container)
    {
      if k == env.ReportKey(r.owner, r.container) {
        assert after[k].(ttl := r.ttl) == r;
      } else {
        assert after[k] == reports[k];
      }
    }
  }

  /** Writing keeps every report well-formed. */
  lemma {:induction false} WriteReportsOk(env: Env, reports: Reports, rs: seq<Report>, budget: nat)
    requires env.Faithful() && ReportsOk(env, reports)
    requires forall i :: 0 <= i < |rs| ==> NamesContainer(env, rs[i].hash, rs[i].container)
    ensures ReportsOk(env, WriteReports(env, reports, rs, budget))
    decreases |rs|
  {
    if rs != [] && budget > 0 {
      CreateOrUpdateOk(env, reports, rs[0]);
      WriteReportsOk(env, CreateOrUpdate(env, reports, rs[0]), rs[1..], budget - 1);
    }
  }

  /** A write adds coverage only for the owner and hash of the reports written. */
  lemma {:induction false} WriteReportsAddsNothingElse(
    env: Env, reports: Reports, rs: seq<Report>, budget: nat, owner: ObjectRef, hash: string, c: string)
    requires env.Faithful() && KeysOk(env, reports)
    requires forall i :: 0 <= i < |rs| ==> rs[i].owner != owner || rs[i].hash != hash || rs[i].container != c
    requires Holds(env, WriteReports(env, reports, rs, budget), owner, hash, c)
    ensures Holds(env, reports, owner, hash, c)
    decreases |rs|
  {
    if rs != [] && budget > 0 {
      CreateOrUpdateEffect(env, reports, rs[0], owner, hash, c);
      WriteReportsAddsNothingElse(env, CreateOrUpdate(env, reports, rs[0]), rs[1..], budget - 1, owner, hash, c);
    }
  }

  /** Reports of one owner do not overwrite each other: what is covered, or written, stays. */
  lemma {:induction false} WriteReportsKeeps(
    env: Env, reports: Reports, rs: seq<Report>, budget: nat, owner: ObjectRef, hash: string, c: string)
    requires env.Faithful() && KeysOk(env, reports)
    requires |rs| <= budget
    requires forall i :: 0 <= i < |rs| ==> rs[i].owner == owner && rs[i].hash == hash
    requires Holds(env, reports, owner, hash, c) || exists i :: 0 <= i < |rs| && rs[i].container == c
    ensures Holds(env, WriteReports(env, reports, rs, budget), owner, hash, c)
    decreases |rs|
  {
    if rs != [] {
      CreateOrUpdateEffect(env, reports, rs[0], owner, hash, c);
      if i :| 0 <= i < |rs| && rs[i].container == c {
        assert i > 0 ==> rs[1..][i - 1].container == c;
      }
      WriteReportsKeeps(env, CreateOrUpdate(env, reports, rs[0]), rs[1..], budget - 1, owner, hash, c);
    }
  }

  /** A report that is the last written under its name is what the store then holds, except for its TTL: if
      it is the only one written under the name, an older report keeps its own TTL. */
  lemma {:induction false} WriteReportsStores(env: Env, reports: Reports, rs: seq<Report>, budget: nat, i: nat)
    requires env.Faithful() && i < |rs| <= budget
    requires forall j :: i < j < |rs| ==> rs[j].owner == rs[i].owner && rs[j].container != rs[i].container
    ensures var k, after := env.ReportKey(rs[i].owner, rs[i].container), WriteReports(env, reports, rs, budget);
            && k in after && after[k].(ttl := rs[i].ttl) == rs[i]
            && ((forall j :: 0 <= j < i ==> rs[j].owner == rs[i].owner && rs[j].container != rs[i].container) ==>
                  after[k].ttl == if k in reports then reports[k].ttl else rs[i].ttl)
    decreases |rs|
  {
    var next := CreateOrUpdate(env, reports, rs[0]);
    if i > 0 {
      WriteReportsStores(env, next, rs[1..], budget - 1, i - 1);
      if forall j :: 0 <= j < i ==> rs[j].owner == rs[i].owner && rs[j].container != rs[i].container {
        OtherContainerKeeps(env, reports, rs[0], rs[i].owner, rs[i].container);
        assert forall j :: 0 <= j < i - 1 ==> rs[1..][j] == rs[j + 1];
      }
    } else {
      forall j | 0 <= j < |rs[1..]|
        ensures env.ReportKey(rs[1..][j].owner, rs[1..][j].container) != env.ReportKey(rs[0].owner, rs[0].container)
      {
        if env.ReportKey(rs[j + 1].owner, rs[j + 1].container) == env.ReportKey(rs[0].owner, rs[0].container) {
          ContainerReportNamesDistinct(
            env.naming, rs[0].owner.kind, rs[0].owner.name, rs[j + 1].container, rs[0].container);
        }
      }
      WriteReportsElsewhere(env, next, rs[1..], budget - 1, env.ReportKey(rs[0].owner, rs[0].container));
    }
  }

  lemma OtherContainerKeeps(env: Env, reports: Reports, r: Report, owner: ObjectRef, c: string)
    requires env.Faithful() && r.owner == owner && r.container != c
    ensures var k, after := env.ReportKey(owner, c), CreateOrUpdate(env, reports, r);
            (k in after <==> k in reports) && (k in reports ==> after[k] == reports[k])
  {
    if env.ReportKey(owner, c) == env.ReportKey(owner, r.container) {
      ContainerReportNamesDistinct(env.naming, owner.kind, owner.name, c, r.container);
    }
  }

  lemma {:induction false} WriteReportsElsewhere(env: Env, reports: Reports, rs: seq<Report>, budget: nat, k: Key)
    requires forall i :: 0 <= i < |rs| ==> env.ReportKey(rs[i].owner, rs[i].container) != k
    ensures var after := WriteReports(env, reports, rs, budget);
            (k in after <==> k in reports) && (k in reports ==> after[k] == reports[k])
    decreases |rs|
  {
    if rs != [] && budget > 0 {
      WriteReportsElsewhere(env, CreateOrUpdate(env, reports, rs[0]), rs[1..], budget - 1, k);
    }
  }

  lemma {:induction false} FetchedReports(env: Env, job: Job, order: seq<string>, logs: map<string, LogResult>)
    requires job.ScanJob? && forall c :: c in order ==> c in job.images
    ensures FetchReports(env, job, order, logs).Fetched? ==>
              var rs := FetchReports(env, job, order, logs).reports;
              && |rs| == |order|
              && forall i :: 0 <= i < |rs| ==>
                   && LogOf(logs, order[i]).Logs?
                   && rs[i] == ScanReport(env, job, order[i], LogOf(logs, order[i]))
  {
    if order != [] {
      FetchedReports(env, job, order[..|order| - 1], logs);
    }
  }

  lemma {:induction false} AllLogsFetched(env: Env, job: Job, order: seq<string>, logs: map<string, LogResult>)
    requires job.ScanJob? && forall c :: c in order ==> c in job.images && LogOf(logs, c).Logs?
    ensures FetchReports(env, job, order, logs).Fetched?
  {
    if order != [] {
      AllLogsFetched(env, job, order[..|order| - 1], logs);
    }
  }

  /** The first log that is missing decides how the fetch ends. */
  lemma {:induction false} FetchStops(env: Env, job: Job, order: seq<string>, logs: map<string, LogResult>, i: nat)
    requires job.ScanJob? && (forall c :: c in order ==> c in job.images) && i < |order|
    requires (forall j :: 0 <= j < i ==> LogOf(logs, order[j]).Logs?) && !LogOf(logs, order[i]).Logs?
    ensures LogOf(logs, order[i]) == JobNotFound ==> FetchReports(env, job, order, logs) == JobGone
    ensures LogOf(logs, order[i]) == PodNotFound ==> FetchReports(env, job, order, logs) == PodGone
    ensures LogOf(logs, order[i]) == Unreadable ==> FetchReports(env, job, order, logs) == Interrupted
    decreases |order|
  {
    var n := |order| - 1;
    if i < n {
      FetchStops(env, job, order[..n], logs, i);
    } else {
      AllLogsFetched(env, job, order[..n], logs);
    }
  }

  // ---------------------------------------------------------------- the invariant

  /** There is a spec with this hash and these images. */
  ghost predicate FromSpec(env: Env, hash: string, images: Images) {
    exists spec :: env.specHash(spec) == hash && SpecImages(spec) == images
  }

  ghost predicate JobsOk(env: Env, s: State) {
    forall k :: k in s.jobs ==>
      match s.jobs[k]
      case ScanJob(owner, hash, images, _) => k == env.JobKey(owner) && FromSpec(env, hash, images)
      case OtherJob => k.namespace == env.operatorNamespace && !HasPrefix(k.name, "scan-vulnerabilityreport-")
  }

  ghost predicate PendingOk(env: Env, s: State) {
    && (forall w :: w in s.pending ==> w < env.workers)
    && (forall w :: w in s.pending && s.pending[w].PendingOther? ==>
          && s.pending[w].job.namespace == env.operatorNamespace
          && !HasPrefix(s.pending[w].job.name, "scan-vulnerabilityreport-"))
    && (forall v, w ::
          && v in s.pending && s.pending[v].PendingScan?
          && w in s.pending && s.pending[w].PendingScan?
          && s.pending[v].owner == s.pending[w].owner
          ==> v == w)
  }

  ghost predicate Inv(env: Env, s: State) {
    ReportsOk(env, s.reports) && JobsOk(env, s) && PendingOk(env, s)
  }

  lemma JobKeysDistinct(env: Env, o: ObjectRef, p: ObjectRef)
    requires env.Faithful() && env.JobName(o) == env.JobName(p)
    ensures o == p
  {
    DropPrefix("scan-vulnerabilityreport-", env.refHash(o), env.refHash(p));
  }

  lemma RemoveJobKeepsInv(env: Env, s: State, k: Key)
    requires Inv(env, s)
    ensures Inv(env, RemoveJob(s, k))
  {
  }

  lemma FetchedReportsNameContainers(env: Env, job: Job, order: seq<string>, logs: map<string, LogResult>)
    requires job.ScanJob? && (forall c :: c in order ==> c in job.images) && FromSpec(env, job.hash, job.images)
    requires FetchReports(env, job, order, logs).Fetched?
    ensures forall r :: r in FetchReports(env, job, order, logs).reports ==> NamesContainer(env, r.hash, r.container)
  {
    FetchedReports(env, job, order, logs);
    var spec :| env.specHash(spec) == job.hash && SpecImages(spec) == job.images;
    forall r | r in FetchReports(env, job, order, logs).reports
      ensures NamesContainer(env, r.hash, r.container)
    {
      assert env.specHash(spec) == r.hash && r.container in SpecImages(spec);
    }
  }

  lemma ProcessCompleteScanJobEffect(
    env: Env, s: State, k: Key, order: seq<string>, logs: map<string, LogResult>, budget: nat)
    requires k in s.jobs && s.jobs[k].ScanJob? && forall c :: c in order ==> c in s.jobs[k].images
    ensures var s' := ProcessCompleteScanJob(env, s, k, order, logs, budget);
            && s'.workloads == s.workloads && s'.pending == s.pending
            && (s'.jobs == s.jobs || s'.jobs == s.jobs - {k})
    ensures var s' := ProcessCompleteScanJob(env, s, k, order, logs, budget);
            var fetch := FetchReports(env, s.jobs[k], order, logs);
            || s'.reports == s.reports
            || (fetch.Fetched? && s'.reports == WriteReports(env, s.reports, fetch.reports, budget))
  {
    var job, fetch := s.jobs[k], FetchReports(env, s.jobs[k], order, logs);
    if job.owner in s.workloads && !HasReports(s, job.owner, job.hash, job.images) && fetch.Fetched? {
      FetchedEffect(env, s, k, order, logs, budget);
    } else {
      UnfetchedEffect(env, s, k, order, logs, budget);
    }
  }

  lemma UnfetchedEffect(env: Env, s: State, k: Key, order: seq<string>, logs: map<string, LogResult>, budget: nat)
    requires k in s.jobs && s.jobs[k].ScanJob? && forall c :: c in order ==> c in s.jobs[k].images
    requires s.jobs[k].owner !in s.workloads || HasReports(s, s.jobs[k].owner, s.jobs[k].hash, s.jobs[k].images)
             || !FetchReports(env, s.jobs[k], order, logs).Fetched?
    ensures var s' := ProcessCompleteScanJob(env, s, k, order, logs, budget);
            s' == s || s' == DeleteJob(s, k, budget)
  {
  }

  lemma FetchedEffect(env: Env, s: State, k: Key, order: seq<string>, logs: map<string, LogResult>, budget: nat)
    requires k in s.jobs && s.jobs[k].ScanJob? && forall c :: c in order ==> c in s.jobs[k].images
    requires s.jobs[k].owner in s.workloads && !HasReports(s, s.jobs[k].owner, s.jobs[k].hash, s.jobs[k].images)
    requires FetchReports(env, s.jobs[k], order, logs).Fetched?
    ensures var rs := FetchReports(env, s.jobs[k], order, logs).reports;
            var written := s.(reports := WriteReports(env, s.reports, rs, budget));
            ProcessCompleteScanJob(env, s, k, order, logs, budget)
            == if budget < |rs| then written else DeleteJob(written, k, budget - |rs|)
  {
  }

  lemma ProcessCompleteScanJobKeepsInv(
    env: Env, s: State, k: Key, order: seq<string>, logs: map<string, LogResult>, budget: nat)
    requires env.Faithful() && Inv(env, s) && Enabled(env, s, ReconcileJob(k, order, logs, budget))
    ensures Inv(env, ProcessCompleteScanJob(env, s, k, order, logs, budget))
  {
    var job := s.jobs[k];
    var written := s;
    if FetchReports(env, job, order, logs).Fetched? {
      var rs := FetchReports(env, job, order, logs).reports;
      FetchedReportsNameContainers(env, job, order, logs);
      WriteReportsOk(env, s.reports, rs, budget);
      written := s.(reports := WriteReports(env, s.reports, rs, budget));
    }
    assert Inv(env, written);
    RemoveJobKeepsInv(env, s, k);
    RemoveJobKeepsInv(env, written, k);
  }

  lemma SubmitScanJobKeepsJobsOk(env: Env, s: State, owner: ObjectRef, spec: PodSpec, names: seq<string>, budget: nat)
    requires JobsOk(env, s)
    ensures JobsOk(env, SubmitScanJob(env, s, owner, spec, names, budget))
  {
    assert FromSpec(env, env.specHash(spec), SpecImages(spec));
  }

  lemma StepKeepsJobsOk(env: Env, s: State, step: Step)
    requires JobsOk(env, s) && PendingOk(env, s) && Enabled(env, s, step) && !step.ReconcileJob?
    ensures JobsOk(env, Apply(env, s, step))
  {
    match step
    case SubmitScan(w, names, budget) =>
      SubmitScanJobKeepsJobsOk(env, s, s.pending[w].owner, s.pending[w].spec, names, budget);
    case FinishJob(k, c) => assert s.jobs[k].(condition := c).owner == s.jobs[k].owner;
    case _ =>
  }

  lemma StepKeepsPendingOk(env: Env, s: State, step: Step)
    requires PendingOk(env, s) && Enabled(env, s, step) && !step.ReconcileJob?
    ensures PendingOk(env, Apply(env, s, step))
  {
    match step
    case CheckWorkload(w, owner) => ReserveScanOk(env, s, w, owner, s.workloads[owner].spec);
    case _ =>
  }

  lemma ReserveScanOk(env: Env, s: State, w: nat, owner: ObjectRef, spec: PodSpec)
    requires PendingOk(env, s) && w < env.workers && !IsPendingOwner(s, owner)
    ensures PendingOk(env, s.(pending := s.pending[w := PendingScan(owner, spec)]))
  {
  }

  lemma RemoveReportOk(env: Env, reports: Reports, k: Key)
    requires ReportsOk(env, reports)
    ensures ReportsOk(env, reports - {k})
  {
  }

  /** Every step keeps the invariant. */
  lemma StepKeepsInv(env: Env, s: State, step: Step)
    requires env.Faithful() && Inv(env, s) && Enabled(env, s, step)
    ensures Inv(env, Apply(env, s, step))
  {
    if step.ReconcileJob? {
      ProcessCompleteScanJobKeepsInv(env, s, step.job, step.order, step.logs, step.budget);
    } else {
      StepKeepsJobsOk(env, s, step);
      StepKeepsPendingOk(env, s, step);
      if step.DeleteReport? {
        RemoveReportOk(env, s.reports, step.report);
      }
    }
  }

  lemma {:induction false} RunKeepsInv(env: Env, s: State, steps: seq<Step>)
    requires env.Faithful() && Inv(env, s) && ValidRun(env, s, steps)
    ensures Inv(env, Run(env, s, steps))
    decreases |steps|
  {
    if steps != [] {
      StepKeepsInv(env, s, steps[0]);
      RunKeepsInv(env, Apply(env, s, steps[0]), steps[1..]);
    }
  }

  lemma ReachableInv(env: Env, s: State)
    requires env.Faithful() && Reachable(env, s)
    ensures Inv(env, s)
  {
    var steps :| ValidRun(env, INIT, steps) && Run(env, INIT, steps) == s;
    RunKeepsInv(env, INIT, steps);
  }

  // ---------------------------------------------------------------- safety theorems

  /** No extras: in every reachable state the exact comparison of container sets that decides
      whether a workload is scanned asks only whether every container is covered. */
  lemma HasReportsMeansCovered(env: Env, s: State, owner: ObjectRef, spec: PodSpec)
    requires env.Faithful() && Reachable(env, s)
    ensures Covered(s.reports, owner, env.specHash(spec)) <= SpecImages(spec).Keys
    ensures HasReports(s, owner, env.specHash(spec), SpecImages(spec))
            <==> SpecImages(spec).Keys <= Covered(s.reports, owner, env.specHash(spec))
  {
    ReachableInv(env, s);
    CoveredWithinSpec(env, s.reports, owner, spec);
  }

  lemma WrittenIsCovered(
    env: Env, reports: Reports, job: Job, order: seq<string>, logs: map<string, LogResult>, budget: nat, c: string)
    requires env.Faithful() && KeysOk(env, reports)
    requires job.ScanJob? && Enumerates(order, job.images.Keys) && c in job.images
    requires FetchReports(env, job, order, logs).Fetched? && |order| <= budget
    ensures var rs := FetchReports(env, job, order, logs).reports;
            Holds(env, WriteReports(env, reports, rs, budget), job.owner, job.hash, c)
  {
    var rs := FetchReports(env, job, order, logs).reports;
    FetchedReports(env, job, order, logs);
    var i :| 0 <= i < |order| && order[i] == c;
    assert rs[i].container == c;
    WriteReportsKeeps(env, reports, rs, budget, job.owner, job.hash, c);
  }

  /** After every container has been written, exactly the job's containers are covered. */
  lemma WritingEverythingCovers(
    env: Env, reports: Reports, job: Job, order: seq<string>, logs: map<string, LogResult>, budget: nat)
    requires env.Faithful() && ReportsOk(env, reports)
    requires job.ScanJob? && FromSpec(env, job.hash, job.images) && Enumerates(order, job.images.Keys)
    requires FetchReports(env, job, order, logs).Fetched? && |order| <= budget
    ensures var rs := FetchReports(env, job, order, logs).reports;
            Covered(WriteReports(env, reports, rs, budget), job.owner, job.hash) == job.images.Keys
  {
    var rs := FetchReports(env, job, order, logs).reports;
    FetchedReportsNameContainers(env, job, order, logs);
    WriteReportsOk(env, reports, rs, budget);
    var after := WriteReports(env, reports, rs, budget);
    var spec :| env.specHash(spec) == job.hash && SpecImages(spec) == job.images;
    CoveredWithinSpec(env, after, job.owner, spec);
    forall c | c in job.images
      ensures c in Covered(after, job.owner, job.hash)
    {
      WrittenIsCovered(env, reports, job, order, logs, budget, c);
      CoveredIffHolds(env, after, job.owner, job.hash, c);
    }
  }

  /** Each of the job's containers has a report with what the plugin made of that container's image and log. */
  ghost predicate StoresResults(env: Env, reports: Reports, job: Job, logs: map<string, LogResult>)
    requires job.ScanJob?
  {
    forall c :: c in job.images ==>
      var k := env.ReportKey(job.owner, c);
      var log := LogOf(logs, c);
      k in reports && log.Logs? && reports[k].data == ScanData(job.images[c], log.log, log.updated)
  }

  lemma WritingEverythingStores(
    env: Env, reports: Reports, job: Job, order: seq<string>, logs: map<string, LogResult>, budget: nat)
    requires env.Faithful() && job.ScanJob? && Enumerates(order, job.images.Keys)
    requires FetchReports(env, job, order, logs).Fetched? && |order| <= budget
    ensures var rs := FetchReports(env, job, order, logs).reports;
            StoresResults(env, WriteReports(env, reports, rs, budget), job, logs)
  {
    FetchedReports(env, job, order, logs);
    forall c | c in job.images
      ensures var k, after := env.ReportKey(job.owner, c),
                  WriteReports(env, reports, FetchReports(env, job, order, logs).reports, budget);
              k in after && LogOf(logs, c).Logs? && after[k].data == ScanReport(env, job, c, LogOf(logs, c)).data
    {
      var i :| 0 <= i < |order| && order[i] == c;
      WriteReportsStores(env, reports, FetchReports(env, job, order, logs).reports, budget, i);
    }
  }

  /** The configured TTL reaches only new reports; a report that is updated keeps the TTL that it had. */
  lemma WritingKeepsTtl(
    env: Env, reports: Reports, job: Job, order: seq<string>, logs: map<string, LogResult>, budget: nat, c: string)
    requires env.Faithful() && job.ScanJob? && Enumerates(order, job.images.Keys) && c in job.images
    requires FetchReports(env, job, order, logs).Fetched? && |order| <= budget
    ensures var k, rs := env.ReportKey(job.owner, c), FetchReports(env, job, order, logs).reports;
            var after := WriteReports(env, reports, rs, budget);
            k in after && after[k].ttl == if k in reports then reports[k].ttl else env.ttl
  {
    FetchedReports(env, job, order, logs);
    var i :| 0 <= i < |order| && order[i] == c;
    WriteReportsStores(env, reports, FetchReports(env, job, order, logs).reports, budget, i);
  }

  /** A job whose owner is gone, or whose pod is found to be gone, is deleted without a report; a job that is gone
      or a log that cannot be read leaves everything as it is. */
  lemma UnreportedJob(env: Env, s: State, k: Key, order: seq<string>, logs: map<string, LogResult>, budget: nat, i: nat)
    requires Enabled(env, s, ReconcileJob(k, order, logs, budget)) && budget > 0
    requires s.jobs[k].owner in s.workloads ==>
               && !HasReports(s, s.jobs[k].owner, s.jobs[k].hash, s.jobs[k].images) && i < |order|
               && (forall j :: 0 <= j < i ==> LogOf(logs, order[j]).Logs?) && !LogOf(logs, order[i]).Logs?
    ensures var s' := Apply(env, s, ReconcileJob(k, order, logs, budget));
            && s'.reports == s.reports && s'.workloads == s.workloads && s'.pending == s.pending
            && s'.jobs == if s.jobs[k].owner !in s.workloads || LogOf(logs, order[i]) == PodNotFound
                          then s.jobs - {k} else s.jobs
  {
    if s.jobs[k].owner in s.workloads {
      FetchStops(env, s.jobs[k], order, logs, i);
    }
  }

  /** Which workloads are skipped. */
  /** Where the objects of an owner are stored and looked for. */
  lemma KeysAre(env: Env, owner: ObjectRef, container: string)
    ensures env.JobKey(owner)
            == Key(if env.sameNamespace then owner.namespace else env.operatorNamespace,
                   "scan-vulnerabilityreport-" + env.refHash(owner))
    ensures env.LookupKey(owner) == Key(env.operatorNamespace, "scan-vulnerabilityreport-" + env.refHash(owner))
    ensures env.ReportKey(owner, container).namespace == owner.namespace
    ensures env.ReportKey(owner, container).name
            == env.naming.ContainerReportName(owner.kind, owner.name, container)
  {
  }

  /** The container has a stored report for the owner and the hash. */
  ghost predicate Reported(reports: Reports, owner: ObjectRef, hash: string, c: string) {
    exists k :: k in reports && reports[k].owner == owner && reports[k].hash == hash && reports[k].container == c
  }

  /** In a reachable state a workload is scanned exactly when it is not ignored, some container of its spec has no
      report for its hash, no job with its hash is found under its name, and fewer jobs than the limit exist. */
  lemma NeedsScanIff(env: Env, s: State, owner: ObjectRef)
    requires env.Faithful() && Reachable(env, s)
    ensures NeedsScan(env, s, owner) <==>
            && owner in s.workloads && !env.Ignores(owner, s.workloads[owner])
            && var spec, k := s.workloads[owner].spec, env.LookupKey(owner);
               && (exists i :: 0 <= i < |spec.containers|
                               && !Reported(s.reports, owner, env.specHash(spec), spec.containers[i].name))
               && !(k in s.jobs && s.jobs[k].ScanJob? && s.jobs[k].hash == env.specHash(spec))
               && |set x | x in s.jobs && (env.sameNamespace || x.namespace == env.operatorNamespace)| < env.limit
  {
    if owner in s.workloads {
      var spec := s.workloads[owner].spec;
      HasReportsIff(env, s, owner, spec);
    }
    assert CountedJobs(env, s) == set x | x in s.jobs && (env.sameNamespace || x.namespace == env.operatorNamespace);
  }

  lemma HasReportsIff(env: Env, s: State, owner: ObjectRef, spec: PodSpec)
    requires env.Faithful() && Reachable(env, s)
    ensures HasReports(s, owner, env.specHash(spec), SpecImages(spec)) <==>
            forall i :: 0 <= i < |spec.containers| ==>
              Reported(s.reports, owner, env.specHash(spec), spec.containers[i].name)
  {
    HasReportsMeansCovered(env, s, owner, spec);
    forall c
      ensures c in SpecImages(spec) <==> exists i :: 0 <= i < |spec.containers| && spec.containers[i].name == c
      ensures c in Covered(s.reports, owner, env.specHash(spec)) <==> Reported(s.reports, owner, env.specHash(spec), c)
    {
      ImagesIff(spec.containers, c);
      CoveredIff(env, s, owner, env.specHash(spec), c);
    }
    forall i | 0 <= i < |spec.containers|
      ensures spec.containers[i].name in SpecImages(spec)
    {
    }
  }

  /** In a reachable state the reports of an owner are in its namespace. */
  lemma CoveredIff(env: Env, s: State, owner: ObjectRef, hash: string, c: string)
    requires env.Faithful() && Reachable(env, s)
    ensures c in Covered(s.reports, owner, hash) <==> Reported(s.reports, owner, hash, c)
  {
    ReachableInv(env, s);
    if Reported(s.reports, owner, hash, c) {
      var k :|
        k in s.reports && s.reports[k].owner == owner && s.reports[k].hash == hash && s.reports[k].container == c;
      assert k == env.ReportKey(owner, c);
    }
  }

  lemma IgnoresIff(env: Env, ref: ObjectRef, w: Workload)
    ensures env.Ignores(ref, w) <==>
            || (ref.kind == "Pod" && (|| w.controller == Some("ReplicaSet")
                                      || w.controller == Some("ReplicationController")
                                      || w.controller == Some("StatefulSet") || w.controller == Some("DaemonSet")
                                      || w.controller == Some("Job")))
            || (ref.kind == "ReplicaSet" && env.onlyCurrentRevisions && !w.activeRevision)
            || (ref.kind == "Job" && w.controller == Some("CronJob"))
  {
    if w.controller.Some? {
      var kind := w.controller.value;
      assert kind in ["ReplicaSet", "ReplicationController", "StatefulSet", "DaemonSet", "Job"] <==>
             kind == "ReplicaSet" || kind == "ReplicationController" || kind == "StatefulSet" || kind == "DaemonSet"
             || kind == "Job";
    }
  }

  /** Scan safety: whenever a job reconcile deletes a complete job whose owner and pod still exist,
      the stored reports for the job's owner and spec hash cover exactly the job's containers, and
      unless they did so before, they hold the results of this job. Earlier attempts may have
      stopped part-way and the owner may have a new spec by now. */
  lemma DeletedJobIsReported(env: Env, s: State, k: Key, order: seq<string>, logs: map<string, LogResult>, budget: nat)
    requires env.Faithful() && Reachable(env, s)
    requires Enabled(env, s, ReconcileJob(k, order, logs, budget))
    requires k !in Apply(env, s, ReconcileJob(k, order, logs, budget)).jobs
    requires s.jobs[k].owner in s.workloads
    requires !FetchReports(env, s.jobs[k], order, logs).PodGone?
    ensures var job, s' := s.jobs[k], Apply(env, s, ReconcileJob(k, order, logs, budget));
            && HasReports(s', job.owner, job.hash, job.images)
            && (HasReports(s, job.owner, job.hash, job.images) || StoresResults(env, s'.reports, job, logs))
  {
    ReachableInv(env, s);
    var job := s.jobs[k];
    if !HasReports(s, job.owner, job.hash, job.images) {
      FetchedReports(env, job, order, logs);
      assert FetchReports(env, job, order, logs).Fetched?;
      WritingEverythingCovers(env, s.reports, job, order, logs, budget);
      WritingEverythingStores(env, s.reports, job, order, logs, budget);
    }
  }
}
