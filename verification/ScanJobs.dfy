/** Which scan jobs get created: never more than the limit allows, and never one for a spec that is
    already fully reported. */
module ScanJobs {
  import opened Collections
  import opened Strings
  import opened Kube
  import opened ScanProtocol
  import opened ScanSafety

  lemma {:induction false} RunThenStep(env: Env, s: State, steps: seq<Step>, step: Step)
    requires ValidRun(env, s, steps) && Enabled(env, Run(env, s, steps), step)
    ensures ValidRun(env, s, steps + [step])
    ensures Run(env, s, steps + [step]) == Apply(env, Run(env, s, steps), step)
    decreases |steps|
  {
    var all := steps + [step];
    if steps == [] {
      assert all[0] == step && all[1..] == [];
    } else {
      assert all[0] == steps[0] && all[1..] == steps[1..] + [step];
      RunThenStep(env, Apply(env, s, steps[0]), steps[1..], step);
    }
  }

  lemma ReachableStep(env: Env, s: State, step: Step)
    requires Reachable(env, s) && Enabled(env, s, step)
    ensures Reachable(env, Apply(env, s, step))
  {
    var steps :| ValidRun(env, INIT, steps) && Run(env, INIT, steps) == s;
    RunThenStep(env, INIT, steps, step);
  }

  lemma InitReachable(env: Env)
    ensures Reachable(env, INIT)
  {
    assert ValidRun(env, INIT, []) && Run(env, INIT, []) == INIT;
  }

  // ---------------------------------------------------------------- the limit

  lemma CountedIsAll(env: Env, s: State)
    requires JobsOk(env, s)
    ensures CountedJobs(env, s) == s.jobs.Keys
    ensures |CountedJobs(env, s)| == |s.jobs|
  {
    assert CountedJobs(env, s) == s.jobs.Keys;
  }

  lemma {:induction false} BelowBound(xs: set<nat>, n: nat)
    requires forall x :: x in xs ==> x < n
    ensures |xs| <= n
    decreases n
  {
    if n == 0 {
      assert xs == {};
    } else {
      BelowBound(xs - {n - 1}, n - 1);
      assert |xs| <= |xs - {n - 1}| + 1;
    }
  }

  lemma RemoveOne<K, V>(m: map<K, V>, k: K)
    requires k in m
    ensures |m - {k}| == |m| - 1
  {
    assert (m - {k}).Keys == m.Keys - {k};
    assert |(m - {k}).Keys| == |m - {k}| && |m.Keys| == |m|;
  }

  lemma AddOne<K, V>(m: map<K, V>, k: K, v: V)
    ensures |m[k := v]| == if k in m then |m| else |m| + 1
  {
    assert m[k := v].Keys == m.Keys + {k};
    assert |m[k := v].Keys| == |m[k := v]| && |m.Keys| == |m|;
  }

  ghost predicate WithinLimit(env: Env, s: State) {
    |s.jobs| + |s.pending| <= env.limit + env.workers - 1
  }

  lemma SubmitAddsOneJob(env: Env, s: State, owner: ObjectRef, spec: PodSpec, names: seq<string>, budget: nat)
    ensures |SubmitScanJob(env, s, owner, spec, names, budget).jobs| <= |s.jobs| + 1
  {
    AddOne(s.jobs, env.JobKey(owner), ScanJob(owner, env.specHash(spec), SpecImages(spec), NoCondition));
  }

  lemma StepKeepsLimit(env: Env, s: State, step: Step)
    requires env.Faithful() && Inv(env, s) && WithinLimit(env, s) && Enabled(env, s, step)
    ensures WithinLimit(env, Apply(env, s, step))
  {
    StepKeepsInv(env, s, step);
    match step
    case CheckWorkload(_, _) => CheckWithinLimit(env, s, Apply(env, s, step));
    case CheckOther(_, _) => CheckWithinLimit(env, s, Apply(env, s, step));
    case SubmitScan(w, names, budget) =>
      RemoveOne(s.pending, w);
      SubmitAddsOneJob(env, s, s.pending[w].owner, s.pending[w].spec, names, budget);
    case CreateOther(w) =>
      RemoveOne(s.pending, w);
      AddOne(s.jobs, s.pending[w].job, OtherJob);
    case Abandon(w) => RemoveOne(s.pending, w);
    case FinishJob(k, c) => AddOne(s.jobs, k, s.jobs[k].(condition := c));
    case ReconcileJob(k, order, logs, budget) =>
      ProcessCompleteScanJobEffect(env, s, k, order, logs, budget);
      RemoveOne(s.jobs, k);
    case DropJob(k) => RemoveOne(s.jobs, k);
    case _ =>
  }

  lemma CheckWithinLimit(env: Env, s: State, s': State)
    requires Inv(env, s) && PendingOk(env, s') && s'.jobs == s.jobs && !LimitExceeded(env, s)
    ensures WithinLimit(env, s')
  {
    CountedIsAll(env, s);
    BelowBound(s'.pending.Keys, env.workers);
    assert |s'.pending.Keys| == |s'.pending|;
  }

  lemma {:induction false} RunKeepsLimit(env: Env, s: State, steps: seq<Step>)
    requires env.Faithful() && Inv(env, s) && WithinLimit(env, s) && ValidRun(env, s, steps)
    ensures WithinLimit(env, Run(env, s, steps))
    decreases |steps|
  {
    if steps != [] {
      StepKeepsInv(env, s, steps[0]);
      StepKeepsLimit(env, s, steps[0]);
      RunKeepsLimit(env, Apply(env, s, steps[0]), steps[1..]);
    }
  }

  /** The bound on concurrent jobs, in both namespace modes: with several workers between the check
      and the Create, managed jobs and pending creations exceed the limit by fewer than the number
      of workers. With one worker they never exceed the limit. */
  lemma JobsWithinLimit(env: Env, s: State)
    requires env.Faithful() && env.limit >= 0 && env.workers >= 1 && Reachable(env, s)
    ensures |s.jobs| + |s.pending| <= env.limit + env.workers - 1
    ensures env.workers == 1 ==> |s.jobs| <= env.limit
  {
    var steps :| ValidRun(env, INIT, steps) && Run(env, INIT, steps) == s;
    RunKeepsLimit(env, INIT, steps);
  }

  function OtherKey(env: Env, i: nat): Key {
    Key(env.operatorNamespace, "scan-cisbenchmark-" + seq(i, _ => '0'))
  }

  lemma OtherKeysDistinct(env: Env, i: nat, j: nat)
    ensures OtherKey(env, i) == OtherKey(env, j) ==> i == j
    ensures !HasPrefix(OtherKey(env, i).name, "scan-vulnerabilityreport-")
  {
    assert |OtherKey(env, i).name| == 18 + i && |OtherKey(env, j).name| == 18 + j;
    assert OtherKey(env, i).name[5] == 'c' && "scan-vulnerabilityreport-"[5] == 'v';
  }

  /** `n` jobs of other reconcilers exist, and workers `lo` up to `hi` are about to create one more each. */
  ghost predicate Arranged(env: Env, s: State, n: nat, lo: nat, hi: nat) {
    && |s.jobs| == n
    && (forall i: nat :: OtherKey(env, i) in s.jobs ==> i < n)
    && (forall w :: w in s.pending <==> lo <= w < hi)
    && (forall w :: w in s.pending ==> s.pending[w] == PendingOther(OtherKey(env, n - lo + w)))
  }

  ghost predicate Filled(env: Env, s: State, n: nat, lo: nat, hi: nat) {
    Reachable(env, s) && Arranged(env, s, n, lo, hi)
  }

  lemma CheckOtherEnabled(env: Env, s: State, w: nat, i: nat)
    requires env.Faithful() && Reachable(env, s) && |s.jobs| < env.limit && w < env.workers && w !in s.pending
    ensures Enabled(env, s, CheckOther(w, OtherKey(env, i)))
  {
    ReachableInv(env, s);
    CountedIsAll(env, s);
    OtherKeysDistinct(env, i, i);
  }

  lemma Reserved(env: Env, s: State, n: nat, hi: nat)
    requires Arranged(env, s, n, 0, hi)
    ensures Arranged(env, s.(pending := s.pending[hi := PendingOther(OtherKey(env, n + hi))]), n, 0, hi + 1)
  {
  }

  lemma ReserveOne(env: Env, s: State, n: nat, hi: nat) returns (s': State)
    requires env.Faithful() && Filled(env, s, n, 0, hi) && n < env.limit && hi < env.workers
    ensures Filled(env, s', n, 0, hi + 1)
  {
    assert hi !in s.pending;
    CheckOtherEnabled(env, s, hi, n + hi);
    ReachableStep(env, s, CheckOther(hi, OtherKey(env, n + hi)));
    s' := Apply(env, s, CheckOther(hi, OtherKey(env, n + hi)));
    Reserved(env, s, n, hi);
  }

  lemma CreateOne(env: Env, s: State, n: nat, lo: nat, hi: nat) returns (s': State)
    requires env.Faithful() && Filled(env, s, n, lo, hi) && lo < hi
    ensures Filled(env, s', n + 1, lo + 1, hi)
  {
    assert lo in s.pending && s.pending[lo] == PendingOther(OtherKey(env, n));
    ReachableStep(env, s, CreateOther(lo));
    s' := Apply(env, s, CreateOther(lo));
    AddOne(s.jobs, OtherKey(env, n), OtherJob);
    forall i: nat | OtherKey(env, i) in s'.jobs
      ensures i < n + 1
    {
      OtherKeysDistinct(env, i, n);
    }
  }

  lemma NothingFilled(env: Env)
    ensures Filled(env, INIT, 0, 0, 0)
  {
    InitReachable(env);
  }

  /** One worker alone fills the store up to `n` jobs. */
  lemma {:induction false} FillJobs(env: Env, n: nat) returns (s: State)
    requires env.Faithful() && n < env.limit && env.workers >= 1
    ensures Filled(env, s, n, 0, 0)
  {
    if n == 0 {
      NothingFilled(env);
      s := INIT;
    } else {
      s := FillJobs(env, n - 1);
      s := ReserveOne(env, s, n - 1, 0);
      s := CreateOne(env, s, n - 1, 0, 1);
      assert Filled(env, s, n, 0, 0);
    }
  }

  /** Then all workers pass the check ... */
  lemma {:induction false} ReserveAll(env: Env, n: nat, w: nat) returns (s: State)
    requires env.Faithful() && n < env.limit && w <= env.workers && env.workers >= 1
    ensures Filled(env, s, n, 0, w)
  {
    if w == 0 {
      s := FillJobs(env, n);
    } else {
      s := ReserveAll(env, n, w - 1);
      s := ReserveOne(env, s, n, w - 1);
    }
  }

  /** ... and create their jobs. */
  lemma {:induction false} CreateAll(env: Env, n: nat, w: nat) returns (s: State)
    requires env.Faithful() && n < env.limit && w <= env.workers && env.workers >= 1
    ensures Filled(env, s, n + w, w, env.workers)
  {
    if w == 0 {
      s := ReserveAll(env, n, env.workers);
    } else {
      s := CreateAll(env, n, w - 1);
      s := CreateOne(env, s, n + w - 1, w - 1, env.workers);
    }
  }

  /** The bound is tight: some run really creates `limit + workers - 1` jobs. */
  lemma JobsReachTheBound(env: Env) returns (s: State)
    requires env.Faithful() && env.limit >= 1 && env.workers >= 1
    ensures Reachable(env, s) && |s.jobs| == env.limit + env.workers - 1
  {
    s := CreateAll(env, env.limit - 1, env.workers);
  }

  // ---------------------------------------------------------------- no job for a reported spec

  /** The active-job check looks where the job of `owner` is created, or no second job is ever allowed. */
  predicate JobsVisible(env: Env, owner: ObjectRef) {
    env.LookupKey(owner) == env.JobKey(owner) || env.limit <= 1
  }

  /** Some container has no report for this spec, and no job is about to deliver one. */
  ghost predicate Unfinished(env: Env, s: State, owner: ObjectRef, spec: PodSpec) {
    && !(SpecImages(spec).Keys <= Covered(s.reports, owner, env.specHash(spec)))
    && var k := env.JobKey(owner); !(k in s.jobs && s.jobs[k].ScanJob? && s.jobs[k].hash == env.specHash(spec))
  }

  ghost predicate PendingUnfinished(env: Env, s: State) {
    forall w :: w in s.pending && s.pending[w].PendingScan? && JobsVisible(env, s.pending[w].owner) ==>
      Unfinished(env, s, s.pending[w].owner, s.pending[w].spec)
  }

  /** A job reconcile covers no container of another owner or spec. */
  lemma ReconcileCoversNothingElse(
    env: Env, s: State, k: Key, order: seq<string>, logs: map<string, LogResult>, budget: nat,
    owner: ObjectRef, hash: string, c: string)
    requires env.Faithful() && Inv(env, s) && Enabled(env, s, ReconcileJob(k, order, logs, budget))
    requires s.jobs[k].owner != owner || s.jobs[k].hash != hash
    requires Holds(env, ProcessCompleteScanJob(env, s, k, order, logs, budget).reports, owner, hash, c)
    ensures Holds(env, s.reports, owner, hash, c)
  {
    ProcessCompleteScanJobEffect(env, s, k, order, logs, budget);
    FetchedReports(env, s.jobs[k], order, logs);
    if ProcessCompleteScanJob(env, s, k, order, logs, budget).reports != s.reports {
      WriteReportsAddsNothingElse(
        env, s.reports, FetchReports(env, s.jobs[k], order, logs).reports, budget, owner, hash, c);
    }
  }

  lemma ReconcileKeepsUnfinished(
    env: Env, s: State, k: Key, order: seq<string>, logs: map<string, LogResult>, budget: nat,
    owner: ObjectRef, spec: PodSpec)
    requires env.Faithful() && Inv(env, s) && Enabled(env, s, ReconcileJob(k, order, logs, budget))
    requires Unfinished(env, s, owner, spec)
    ensures Unfinished(env, ProcessCompleteScanJob(env, s, k, order, logs, budget), owner, spec)
  {
    var hash := env.specHash(spec);
    var c :| c in SpecImages(spec) && c !in Covered(s.reports, owner, hash);
    ProcessCompleteScanJobEffect(env, s, k, order, logs, budget);
    ProcessCompleteScanJobKeepsInv(env, s, k, order, logs, budget);
    var s' := ProcessCompleteScanJob(env, s, k, order, logs, budget);
    CoveredIffHolds(env, s.reports, owner, hash, c);
    CoveredIffHolds(env, s'.reports, owner, hash, c);
    if Holds(env, s'.reports, owner, hash, c) {
      ReconcileCoversNothingElse(env, s, k, order, logs, budget, owner, hash, c);
    }
  }

  lemma SubmitKeepsUnfinished(env: Env, s: State, other: ObjectRef, otherSpec: PodSpec, names: seq<string>, budget: nat,
                              owner: ObjectRef, spec: PodSpec)
    requires env.Faithful() && other != owner && Unfinished(env, s, owner, spec)
    ensures Unfinished(env, SubmitScanJob(env, s, other, otherSpec, names, budget), owner, spec)
  {
    if env.JobKey(owner) == env.JobKey(other) {
      JobKeysDistinct(env, owner, other);
    }
  }

  lemma StepKeepsUnfinished(env: Env, s: State, step: Step, owner: ObjectRef, spec: PodSpec)
    requires env.Faithful() && Inv(env, s) && Enabled(env, s, step)
    requires step.SubmitScan? ==> s.pending[step.worker].owner != owner
    requires Unfinished(env, s, owner, spec)
    ensures Unfinished(env, Apply(env, s, step), owner, spec)
  {
    match step
    case SubmitScan(w, names, budget) =>
      SubmitKeepsUnfinished(env, s, s.pending[w].owner, s.pending[w].spec, names, budget, owner, spec);
    case ReconcileJob(k, order, logs, budget) =>
      ReconcileKeepsUnfinished(env, s, k, order, logs, budget, owner, spec);
    case DeleteReport(k) =>
      assert Covered((s.reports - {k}), owner, env.specHash(spec)) <= Covered(s.reports, owner, env.specHash(spec));
    case _ =>
  }

  lemma CheckIsUnfinished(env: Env, s: State, owner: ObjectRef)
    requires env.Faithful() && Inv(env, s) && NeedsScan(env, s, owner) && JobsVisible(env, owner)
    ensures Unfinished(env, s, owner, s.workloads[owner].spec)
  {
    CoveredWithinSpec(env, s.reports, owner, s.workloads[owner].spec);
    CountedIsAll(env, s);
    assert |s.jobs| == 0 ==> s.jobs.Keys == {};
  }

  lemma StepKeepsPending(env: Env, s: State, step: Step, w: nat)
    requires Enabled(env, s, step) && w in Apply(env, s, step).pending
    requires !(step.CheckWorkload? && step.worker == w) && !(step.CheckOther? && step.worker == w)
    ensures w in s.pending && s.pending[w] == Apply(env, s, step).pending[w]
    ensures PendingOk(env, s) && step.SubmitScan? && s.pending[w].PendingScan? ==>
              s.pending[step.worker].owner != s.pending[w].owner
  {
    if step.ReconcileJob? {
      ProcessCompleteScanJobEffect(env, s, step.job, step.order, step.logs, step.budget);
    }
  }

  lemma StepKeepsPendingUnfinished(env: Env, s: State, step: Step)
    requires env.Faithful() && Inv(env, s) && PendingUnfinished(env, s) && Enabled(env, s, step)
    ensures PendingUnfinished(env, Apply(env, s, step))
  {
    var s' := Apply(env, s, step);
    forall w | w in s'.pending && s'.pending[w].PendingScan? && JobsVisible(env, s'.pending[w].owner)
      ensures Unfinished(env, s', s'.pending[w].owner, s'.pending[w].spec)
    {
      if step.CheckWorkload? && step.worker == w {
        CheckIsUnfinished(env, s, step.owner);
      } else {
        StepKeepsPending(env, s, step, w);
        StepKeepsUnfinished(env, s, step, s.pending[w].owner, s.pending[w].spec);
      }
    }
  }

  lemma {:induction false} RunKeepsPendingUnfinished(env: Env, s: State, steps: seq<Step>)
    requires env.Faithful() && Inv(env, s) && PendingUnfinished(env, s) && ValidRun(env, s, steps)
    ensures PendingUnfinished(env, Run(env, s, steps))
    decreases |steps|
  {
    if steps != [] {
      StepKeepsInv(env, s, steps[0]);
      StepKeepsPendingUnfinished(env, s, steps[0]);
      RunKeepsPendingUnfinished(env, Apply(env, s, steps[0]), steps[1..]);
    }
  }

  /** The step creates a job for a spec of `owner` whose containers all have reports already. */
  ghost predicate CreatesRedundantJob(env: Env, s: State, step: Step, owner: ObjectRef) {
    && Reachable(env, s) && Enabled(env, s, step)
    && step.SubmitScan? && s.pending[step.worker].owner == owner
    && HasReports(s, owner, env.specHash(s.pending[step.worker].spec), SpecImages(s.pending[step.worker].spec))
    && env.JobKey(owner) !in s.jobs && env.JobKey(owner) in Apply(env, s, step).jobs
  }

  lemma NoRedundantJob(env: Env, s: State, step: Step, owner: ObjectRef)
    requires env.Faithful() && JobsVisible(env, owner)
    ensures !CreatesRedundantJob(env, s, step, owner)
  {
    if CreatesRedundantJob(env, s, step, owner) {
      var steps :| ValidRun(env, INIT, steps) && Run(env, INIT, steps) == s;
      RunKeepsPendingUnfinished(env, INIT, steps);
    }
  }

  /** After `owner` was applied, checked and submitted: its job runs and nothing is reported yet. */
  lemma FirstScan(env: Env, owner: ObjectRef, workload: Workload) returns (s: State)
    requires env.Faithful() && env.limit >= 1 && env.workers >= 1
    requires !env.Ignores(owner, workload) && SpecImages(workload.spec) != map[]
    ensures Reachable(env, s)
    ensures var job := ScanJob(owner, env.specHash(workload.spec), SpecImages(workload.spec), NoCondition);
            s == State(map[owner := workload], map[env.JobKey(owner) := job], map[], map[], map[])
  {
    InitReachable(env);
    ReachableStep(env, INIT, ApplyWorkload(owner, workload));
    var s1 := Apply(env, INIT, ApplyWorkload(owner, workload));
    assert CountedJobs(env, s1) == {};
    assert Covered(s1.reports, owner, env.specHash(workload.spec)) == {};
    ReachableStep(env, s1, CheckWorkload(0, owner));
    var s2 := Apply(env, s1, CheckWorkload(0, owner));
    ReachableStep(env, s2, SubmitScan(0, [], 1));
    s := Apply(env, s2, SubmitScan(0, [], 1));
    assert s.workloads == map[owner := workload] && s.pending == map[] && s.secrets == map[];
  }

  /** When jobs run in the workload's namespace the check misses them: a worker that looked while the
      job was running submits again after the job has been reported and deleted. */
  lemma RedundantJob(env: Env, owner: ObjectRef, workload: Workload) returns (s: State, step: Step)
    requires env.Faithful() && !JobsVisible(env, owner) && env.workers >= 1
    requires !env.Ignores(owner, workload) && SpecImages(workload.spec) != map[]
    ensures CreatesRedundantJob(env, s, step, owner)
  {
    var k, spec := env.JobKey(owner), workload.spec;
    var images, hash := SpecImages(spec), env.specHash(spec);
    var s1 := FirstScan(env, owner, workload);
    assert CountedJobs(env, s1) == {k};
    assert Covered(s1.reports, owner, hash) == {};
    ReachableStep(env, s1, CheckWorkload(0, owner));
    var s2 := Apply(env, s1, CheckWorkload(0, owner));
    ReachableStep(env, s2, FinishJob(k, Complete));
    var s3 := Apply(env, s2, FinishJob(k, Complete));
    s := ReportAll(env, s3, k);
    step := SubmitScan(0, [], 1);
    assert hash == s3.jobs[k].hash && images == s3.jobs[k].images;
  }

  /** A job reconcile without failures reports every container and deletes the job. */
  lemma ReportAll(env: Env, s: State, k: Key) returns (s': State)
    requires env.Faithful() && Reachable(env, s)
    requires k in s.jobs && s.jobs[k].ScanJob? && s.jobs[k].condition == Complete && s.jobs[k].owner in s.workloads
    ensures Reachable(env, s')
    ensures s'.jobs == s.jobs - {k} && s'.pending == s.pending && s'.workloads == s.workloads
    ensures HasReports(s', s.jobs[k].owner, s.jobs[k].hash, s.jobs[k].images)
  {
    var job := s.jobs[k];
    var order := Listing(job.images.Keys);
    var logs := map c | c in job.images :: Logs("", 0);
    AllLogsFetched(env, job, order, logs);
    var step := ReconcileJob(k, order, logs, |order| + 1);
    ReachableStep(env, s, step);
    s' := Apply(env, s, step);
    ReconcileDeletes(env, s, k, order, logs, |order| + 1);
    DeletedJobIsReported(env, s, k, order, logs, |order| + 1);
  }

  lemma ReconcileDeletes(env: Env, s: State, k: Key, order: seq<string>, logs: map<string, LogResult>, budget: nat)
    requires k in s.jobs && s.jobs[k].ScanJob? && (forall c :: c in order ==> c in s.jobs[k].images)
    requires FetchReports(env, s.jobs[k], order, logs).Fetched? && |order| < budget
    ensures var s' := ProcessCompleteScanJob(env, s, k, order, logs, budget);
            && s'.jobs == s.jobs - {k} && s'.pending == s.pending && s'.workloads == s.workloads
            && s'.secrets == RemoveJob(s, k).secrets
  {
    FetchedReports(env, s.jobs[k], order, logs);
  }

  /** A fully reported spec can get another job exactly when the active-job check cannot see the
      job's namespace and the limit leaves room for a second job. */
  lemma RedundantJobIff(env: Env, owner: ObjectRef, workload: Workload)
    requires env.Faithful() && env.workers >= 1
    requires !env.Ignores(owner, workload) && SpecImages(workload.spec) != map[]
    ensures (exists s, step :: CreatesRedundantJob(env, s, step, owner)) <==> !JobsVisible(env, owner)
  {
    if JobsVisible(env, owner) {
      forall s, step
        ensures !CreatesRedundantJob(env, s, step, owner)
      {
        NoRedundantJob(env, s, step, owner);
      }
    } else {
      var s, step := RedundantJob(env, owner, workload);
    }
  }
}
