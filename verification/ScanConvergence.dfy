/** From a needed scan to a settled workload, what keeps it settled, and the one state in which the
    protocol stops making progress. */
module ScanConvergence {
  import opened Collections
  import opened Strings
  import opened Kube
  import opened ScanProtocol
  import opened ScanSafety
  import opened ScanJobs

  // ---------------------------------------------------------------- when a submit creates the job

  predicate Unused(secrets: Secrets, namespace: string, names: seq<string>) {
    && (forall i, j :: 0 <= i < j < |names| ==> names[i] != names[j])
    && (forall i :: 0 <= i < |names| ==> Key(namespace, names[i]) !in secrets)
  }

  lemma {:induction false} CreateSecretsIff(secrets: Secrets, namespace: string, names: seq<string>, budget: nat)
    ensures var created := CreateSecrets(secrets, namespace, names, budget);
            && (created.done <==> |names| <= budget && Unused(secrets, namespace, names))
            && (created.done ==> created.budget == budget - |names|)
            && (forall k :: k in secrets ==> k in created.secrets && created.secrets[k] == secrets[k])
    decreases |names|
  {
    if names != [] {
      var k := Key(namespace, names[0]);
      if budget > 0 && k !in secrets {
        var next := secrets[k := Secret(None)];
        CreateSecretsIff(next, namespace, names[1..], budget - 1);
        if Unused(secrets, namespace, names) {
          forall i | 0 <= i < |names[1..]|
            ensures Key(namespace, names[1..][i]) !in next
          {
            assert names[1..][i] == names[i + 1] && names[0] != names[i + 1];
          }
        }
        if Unused(next, namespace, names[1..]) {
          forall i | 0 <= i < |names|
            ensures Key(namespace, names[i]) !in secrets && (i > 0 ==> names[0] != names[i])
          {
            if i > 0 {
              assert names[i] == names[1..][i - 1] && Key(namespace, names[1..][i - 1]) !in next;
            }
          }
          forall i, j | 0 <= i < j < |names|
            ensures names[i] != names[j]
          {
            assert i > 0 ==> names[i] == names[1..][i - 1] && names[j] == names[1..][j - 1];
          }
        }
      }
    }
  }

  /** A submit creates the job exactly when enough calls succeed, the job does not exist, and none of
      its secrets is there yet. */
  lemma SubmitCreatesJobIff(env: Env, s: State, owner: ObjectRef, spec: PodSpec, names: seq<string>, budget: nat)
    ensures var s', k := SubmitScanJob(env, s, owner, spec, names, budget), env.JobKey(owner);
            && (k !in s.jobs && k in s'.jobs <==>
                k !in s.jobs && |names| < budget && Unused(s.secrets, env.JobNamespace(owner), names))
            && (k !in s.jobs && k in s'.jobs ==>
                s'.jobs == s.jobs[k := ScanJob(owner, env.specHash(spec), SpecImages(spec), NoCondition)])
            && (s'.jobs == s.jobs || k !in s.jobs)
            && s'.reports == s.reports && s'.workloads == s.workloads && s'.pending == s.pending
  {
    CreateSecretsIff(s.secrets, env.JobNamespace(owner), names, budget);
  }

  // ---------------------------------------------------------------- the secrets of a job

  /** The creation of the secrets gets as far as the first name that exists or repeats. */
  predicate StopsAt(secrets: Secrets, namespace: string, names: seq<string>, j: nat) {
    && j <= |names| && Unused(secrets, namespace, names[..j])
    && (j < |names| ==> Key(namespace, names[j]) in secrets || names[j] in names[..j])
  }

  lemma StopsAtRest(secrets: Secrets, namespace: string, names: seq<string>, j: nat)
    requires StopsAt(secrets, namespace, names, j) && j > 0
    ensures Key(namespace, names[0]) !in secrets
    ensures StopsAt(secrets[Key(namespace, names[0]) := Secret(None)], namespace, names[1..], j - 1)
  {
    var first, rest := names[..j], names[1..][..j - 1];
    assert first[0] == names[0] && rest == first[1..];
    forall i | 0 <= i < |rest|
      ensures rest[i] != names[0] && Key(namespace, rest[i]) !in secrets
    {
      assert rest[i] == first[i + 1];
    }
    if j < |names| && names[j] in first && names[j] != names[0] {
      assert first == [names[0]] + first[1..];
    }
  }

  /** How far the creation of the secrets gets, and which secrets there are then. */
  lemma {:induction false} CreateSecretsStops(
    secrets: Secrets, namespace: string, names: seq<string>, budget: nat, j: nat, x: Key)
    requires StopsAt(secrets, namespace, names, j)
    ensures var created := CreateSecrets(secrets, namespace, names, budget);
            && created.budget == budget - Min(j, budget) && (created.done <==> j == |names| <= budget)
            && (x in created.secrets <==>
                x in secrets || (x.namespace == namespace && x.name in names[..Min(j, budget)]))
            && (x in created.secrets ==> created.secrets[x] == if x in secrets then secrets[x] else Secret(None))
    decreases |names|
  {
    if j > 0 && budget > 0 {
      StopsAtRest(secrets, namespace, names, j);
      CreateSecretsStops(
        secrets[Key(namespace, names[0]) := Secret(None)], namespace, names[1..], budget - 1, j - 1, x);
      var n := Min(j, budget);
      assert names[..n] == [names[0]] + names[1..][..n - 1];
    }
  }

  /** The job owns the first secrets, as many as there are calls left. */
  lemma {:induction false} OwnSecretsAt(
    secrets: Secrets, namespace: string, names: seq<string>, job: Key, budget: nat, x: Key)
    ensures var after, owned := OwnSecrets(secrets, namespace, names, job, budget), names[..Min(budget, |names|)];
            && (x in after <==> x in secrets || (x.namespace == namespace && x.name in owned))
            && (x in after ==>
                  after[x] == if x.namespace == namespace && x.name in owned then Secret(Some(job)) else secrets[x])
    decreases |names|
  {
    if names != [] && budget > 0 {
      OwnSecretsAt(secrets[Key(namespace, names[0]) := Secret(Some(job))], namespace, names[1..], job, budget - 1, x);
      var n := Min(budget, |names|);
      assert names[..n] == [names[0]] + names[1..][..n - 1];
    }
  }

  /** The secrets after a submit that creates the job: each name is there, owned by the job if the calls that are left
      after the Create reach it. */
  lemma SubmittedSecrets(
    env: Env, s: State, owner: ObjectRef, spec: PodSpec, names: seq<string>, budget: nat, x: Key)
    requires env.JobKey(owner) !in s.jobs && budget > |names| && Unused(s.secrets, env.JobNamespace(owner), names)
    ensures var after := SubmitScanJob(env, s, owner, spec, names, budget).secrets;
            var mounted := x.namespace == env.JobNamespace(owner) && x.name in names;
            var owned := names[..Min(budget - |names| - 1, |names|)];
            && (x in after <==> x in s.secrets || mounted)
            && (x in after ==> after[x] == if !mounted then s.secrets[x]
                                           else Secret(if x.name in owned then Some(env.JobKey(owner)) else None))
  {
    var namespace := env.JobNamespace(owner);
    assert names[..|names|] == names;
    CreateSecretsStops(s.secrets, namespace, names, budget, |names|, x);
    var created := CreateSecrets(s.secrets, namespace, names, budget);
    OwnSecretsAt(created.secrets, namespace, names, env.JobKey(owner), created.budget - 1, x);
    OwnedIsMounted(names, Min(budget - |names| - 1, |names|), x.name);
  }

  lemma OwnedIsMounted(names: seq<string>, n: nat, name: string)
    requires n <= |names|
    ensures name in names[..n] ==> name in names
  {
  }

  /** No secret is owned by a job that is gone. */
  predicate OwnersExist(s: State) {
    forall x :: x in s.secrets && s.secrets[x].ownedBy.Some? ==> s.secrets[x].ownedBy.value in s.jobs
  }

  lemma {:induction false} CreatedAreNotOwned(
    secrets: Secrets, namespace: string, names: seq<string>, budget: nat, x: Key)
    ensures var after := CreateSecrets(secrets, namespace, names, budget).secrets;
            x in after && after[x].ownedBy.Some? ==> x in secrets && after[x] == secrets[x]
    decreases |names|
  {
    if names != [] && budget > 0 && Key(namespace, names[0]) !in secrets {
      CreatedAreNotOwned(secrets[Key(namespace, names[0]) := Secret(None)], namespace, names[1..], budget - 1, x);
    }
  }

  lemma SubmitKeepsOwners(env: Env, s: State, owner: ObjectRef, spec: PodSpec, names: seq<string>, budget: nat)
    requires OwnersExist(s)
    ensures OwnersExist(SubmitScanJob(env, s, owner, spec, names, budget))
  {
    var created := CreateSecrets(s.secrets, env.JobNamespace(owner), names, budget);
    forall x
      ensures x in created.secrets && created.secrets[x].ownedBy.Some? ==> created.secrets[x].ownedBy.value in s.jobs
    {
      CreatedAreNotOwned(s.secrets, env.JobNamespace(owner), names, budget, x);
    }
    if created.budget > 0 {
      var after := OwnSecrets(created.secrets, env.JobNamespace(owner), names, env.JobKey(owner), created.budget - 1);
      forall x | x in after && after[x].ownedBy.Some?
        ensures after[x].ownedBy.value in s.jobs || after[x].ownedBy.value == env.JobKey(owner)
      {
        OwnSecretsAt(created.secrets, env.JobNamespace(owner), names, env.JobKey(owner), created.budget - 1, x);
      }
    }
  }

  lemma RemovalKeepsOwners(s: State, k: Key)
    requires OwnersExist(s)
    ensures OwnersExist(RemoveJob(s, k))
  {
  }

  lemma StepKeepsOwners(env: Env, s: State, step: Step)
    requires OwnersExist(s) && Enabled(env, s, step)
    ensures OwnersExist(Apply(env, s, step))
  {
    match step
    case SubmitScan(w, names, budget) =>
      SubmitKeepsOwners(env, s, s.pending[w].owner, s.pending[w].spec, names, budget);
    case ReconcileJob(k, _, _, _) => RemovalKeepsOwners(s, k);
    case DropJob(k) => RemovalKeepsOwners(s, k);
    case _ =>
  }

  lemma {:induction false} RunKeepsOwners(env: Env, s: State, steps: seq<Step>)
    requires OwnersExist(s) && ValidRun(env, s, steps)
    ensures OwnersExist(Run(env, s, steps))
    decreases |steps|
  {
    if steps != [] {
      StepKeepsOwners(env, s, steps[0]);
      RunKeepsOwners(env, Apply(env, s, steps[0]), steps[1..]);
    }
  }

  /** In every reachable state the job that owns a secret exists. */
  lemma SecretsHaveJobs(env: Env, s: State)
    requires Reachable(env, s)
    ensures forall x :: x in s.secrets && s.secrets[x].ownedBy.Some? ==> s.secrets[x].ownedBy.value in s.jobs
  {
    var steps :| ValidRun(env, INIT, steps) && Run(env, INIT, steps) == s;
    RunKeepsOwners(env, INIT, steps);
  }

  /** When the job has gone, exactly the secrets that it did not get to own are left behind. */
  lemma LeftBehindIff(env: Env, s: State, owner: ObjectRef, spec: PodSpec, names: seq<string>, budget: nat, x: Key)
    requires Reachable(env, s) && env.JobKey(owner) !in s.jobs
    requires budget > |names| && Unused(s.secrets, env.JobNamespace(owner), names)
    ensures var left := SecretsLeft(env, s, owner, spec, names, budget);
            && (x in left <==>
                || x in s.secrets
                || (&& x.namespace == env.JobNamespace(owner) && x.name in names
                    && x.name !in names[..Min(budget - |names| - 1, |names|)]))
            && (x in s.secrets ==> left[x] == s.secrets[x])
  {
    SecretsHaveJobs(env, s);
    SubmittedSecrets(env, s, owner, spec, names, budget, x);
  }

  /** Nothing is left behind exactly when the calls suffice for all secrets, the job and all owner references. */
  lemma NothingLeftBehindIff(env: Env, s: State, owner: ObjectRef, spec: PodSpec, names: seq<string>, budget: nat)
    requires Reachable(env, s) && env.JobKey(owner) !in s.jobs
    requires budget > |names| && Unused(s.secrets, env.JobNamespace(owner), names)
    ensures SecretsLeft(env, s, owner, spec, names, budget) == s.secrets <==> budget > 2 * |names|
  {
    var left, n := SecretsLeft(env, s, owner, spec, names, budget), Min(budget - |names| - 1, |names|);
    forall x
      ensures x in left <==> x in s.secrets || (x.namespace == env.JobNamespace(owner) && x.name in names[n..])
      ensures x in s.secrets ==> x in left && left[x] == s.secrets[x]
    {
      LeftBehindIff(env, s, owner, spec, names, budget, x);
      SuffixMember(names, n, x.name);
    }
    if n < |names| {
      var x := Key(env.JobNamespace(owner), names[n]);
      assert names[n..][0] == x.name;
      assert x in left && x !in s.secrets;
    } else {
      assert names[n..] == [];
    }
  }

  lemma SuffixMember(names: seq<string>, n: nat, name: string)
    requires n <= |names| && forall i, j :: 0 <= i < j < |names| ==> names[i] != names[j]
    ensures name in names[n..] <==> name in names && name !in names[..n]
  {
    assert names == names[..n] + names[n..];
  }

  // ---------------------------------------------------------------- reaching a settled workload

  /** The workload is fully reported for its current spec and nothing is under way for it. */
  ghost predicate Settled(env: Env, s: State, owner: ObjectRef) {
    && owner in s.workloads
    && HasReports(s, owner, env.specHash(s.workloads[owner].spec), SpecImages(s.workloads[owner].spec))
    && env.JobKey(owner) !in s.jobs
    && !IsPendingOwner(s, owner)
  }

  /** A run that is extended by one enabled step. */
  lemma Extend(env: Env, s: State, steps: seq<Step>, step: Step) returns (longer: seq<Step>, s': State)
    requires ValidRun(env, s, steps) && Enabled(env, Run(env, s, steps), step)
    requires Reachable(env, Run(env, s, steps))
    ensures longer == steps + [step] && ValidRun(env, s, longer) && Run(env, s, longer) == s'
    ensures s' == Apply(env, Run(env, s, steps), step) && Reachable(env, s')
  {
    RunThenStep(env, s, steps, step);
    ReachableStep(env, Run(env, s, steps), step);
    longer := steps + [step];
    s' := Run(env, s, longer);
  }

  /** Whatever run leads to a state where a scan is needed: a check and a submit with enough successful
      calls create the job, if no job and no leftover secret is in the way. */
  lemma CheckAndSubmit(env: Env, s: State, steps: seq<Step>, w: nat, owner: ObjectRef, names: seq<string>, budget: nat)
    returns (s': State)
    requires env.Faithful() && ValidRun(env, s, steps) && Reachable(env, Run(env, s, steps))
    requires Enabled(env, Run(env, s, steps), CheckWorkload(w, owner)) && budget > |names|
    requires env.JobKey(owner) !in Run(env, s, steps).jobs
    requires Unused(Run(env, s, steps).secrets, env.JobNamespace(owner), names)
    ensures var longer, start := steps + [CheckWorkload(w, owner), SubmitScan(w, names, budget)], Run(env, s, steps);
            && ValidRun(env, s, longer) && Run(env, s, longer) == s' && Reachable(env, s')
            && var spec, k := start.workloads[owner].spec, env.JobKey(owner);
               && s'.jobs == start.jobs[k := ScanJob(owner, env.specHash(spec), SpecImages(spec), NoCondition)]
               && s'.workloads == start.workloads && s'.reports == start.reports && s'.pending == start.pending
               && s'.secrets == SubmitScanJob(env, start, owner, spec, names, budget).secrets
  {
    var start := Run(env, s, steps);
    var spec := start.workloads[owner].spec;
    var longer, checked := Extend(env, s, steps, CheckWorkload(w, owner));
    assert checked.pending[w] == PendingScan(owner, spec);
    longer, s' := Extend(env, s, longer, SubmitScan(w, names, budget));
    AppendTwo(steps, CheckWorkload(w, owner), SubmitScan(w, names, budget));
    SubmitCreatesJobIff(env, checked, owner, spec, names, budget);
    UpdateThenRemove(start.pending, w, PendingScan(owner, spec));
  }

  /** What is left of the secrets when the submitted job has gone. */
  function SecretsLeft(
    env: Env, s: State, owner: ObjectRef, spec: PodSpec, names: seq<string>, budget: nat): Secrets {
    RemoveJob(SubmitScanJob(env, s, owner, spec, names, budget), env.JobKey(owner)).secrets
  }

  /** Convergence: when a scan is needed, a worker is free, and neither a job nor a leftover secret is
      in the way, then a check, a submit, the end of the job and one job reconcile settle the workload. The
      submit and the reconcile may use any secrets, visiting order and logs, as long as their calls
      succeed and every log can be read. */
  lemma Converges(env: Env, s: State, w: nat, owner: ObjectRef, names: seq<string>, submitBudget: nat,
                  order: seq<string>, logs: map<string, LogResult>, budget: nat)
    requires env.Faithful() && Reachable(env, s) && Enabled(env, s, CheckWorkload(w, owner))
    requires env.JobKey(owner) !in s.jobs && Unused(s.secrets, env.JobNamespace(owner), names)
    requires submitBudget > |names| && budget > |order|
    requires Enumerates(order, SpecImages(s.workloads[owner].spec).Keys)
    requires forall c :: c in order ==> LogOf(logs, c).Logs?
    ensures var k := env.JobKey(owner);
            var steps := [CheckWorkload(w, owner), SubmitScan(w, names, submitBudget),
                          FinishJob(k, Complete), ReconcileJob(k, order, logs, budget)];
            && ValidRun(env, s, steps)
            && var s' := Run(env, s, steps);
               && Settled(env, s', owner) && StoresLogs(env, s'.reports, owner, s.workloads[owner].spec, logs)
               && s'.workloads == s.workloads && s'.jobs == s.jobs && s'.pending == s.pending
               && s'.secrets == SecretsLeft(env, s, owner, s.workloads[owner].spec, names, submitBudget)
  {
    var k, spec := env.JobKey(owner), s.workloads[owner].spec;
    var submitted := CheckAndSubmit(env, s, [], w, owner, names, submitBudget);
    var steps := [CheckWorkload(w, owner), SubmitScan(w, names, submitBudget)];
    AppendTwo(steps, steps[0], steps[1]);
    FinishAndReport(env, s, steps, k, order, logs, budget);
    FourElements(CheckWorkload(w, owner), SubmitScan(w, names, submitBudget),
                 FinishJob(k, Complete), ReconcileJob(k, order, logs, budget));
    UpdateThenRemove(s.jobs, k, submitted.jobs[k]);
    var longer := steps + [FinishJob(k, Complete), ReconcileJob(k, order, logs, budget)];
    RunKeepsInvFrom(env, s, longer);
    StoredResultsAreLogs(env, Run(env, s, longer), owner, spec, submitted.jobs[k], logs);
  }

  lemma RunKeepsInvFrom(env: Env, s: State, steps: seq<Step>)
    requires env.Faithful() && Reachable(env, s) && ValidRun(env, s, steps)
    ensures Inv(env, Run(env, s, steps))
  {
    ReachableInv(env, s);
    RunKeepsInv(env, s, steps);
  }

  /** A running job that ends and whose logs can be read is reported and deleted. */
  lemma FinishAndReport(env: Env, s: State, steps: seq<Step>, k: Key,
                        order: seq<string>, logs: map<string, LogResult>, budget: nat)
    requires env.Faithful() && ValidRun(env, s, steps) && Reachable(env, Run(env, s, steps))
    requires var start := Run(env, s, steps);
             && k in start.jobs && start.jobs[k].ScanJob? && start.jobs[k].condition == NoCondition
             && start.jobs[k].owner in start.workloads && Enumerates(order, start.jobs[k].images.Keys)
             && !HasReports(start, start.jobs[k].owner, start.jobs[k].hash, start.jobs[k].images)
    requires budget > |order| && forall c :: c in order ==> LogOf(logs, c).Logs?
    ensures var longer := steps + [FinishJob(k, Complete), ReconcileJob(k, order, logs, budget)];
            && ValidRun(env, s, longer)
            && var s', start := Run(env, s, longer), Run(env, s, steps);
               && s'.jobs == start.jobs - {k} && s'.pending == start.pending && s'.workloads == start.workloads
               && s'.secrets == RemoveJob(start, k).secrets
               && HasReports(s', start.jobs[k].owner, start.jobs[k].hash, start.jobs[k].images)
               && StoresResults(env, s'.reports, start.jobs[k], logs)
  {
    var start := Run(env, s, steps);
    var longer, finished := Extend(env, s, steps, FinishJob(k, Complete));
    AllLogsFetched(env, finished.jobs[k], order, logs);
    var s';
    ReconcileSettles(env, finished, k, order, logs, budget);
    longer, s' := Extend(env, s, longer, ReconcileJob(k, order, logs, budget));
    AppendTwo(steps, FinishJob(k, Complete), ReconcileJob(k, order, logs, budget));
    UpdateThenRemove(start.jobs, k, finished.jobs[k]);
  }

  /** Every container of the spec has a report under the owner and the hash, with its own image and log; of several
      containers with one name the last counts. */
  ghost predicate StoresLogs(
    env: Env, reports: Reports, owner: ObjectRef, spec: PodSpec, logs: map<string, LogResult>) {
    forall i :: IsLast(spec.containers, i) ==>
      var c := spec.containers[i];
      var k, log := env.ReportKey(owner, c.name), LogOf(logs, c.name);
      && log.Logs? && k in reports && reports[k].owner == owner && reports[k].hash == env.specHash(spec)
      && reports[k].container == c.name && reports[k].data == ScanData(c.image, log.log, log.updated)
  }

  lemma StoredResultsAreLogs(
    env: Env, s: State, owner: ObjectRef, spec: PodSpec, job: Job, logs: map<string, LogResult>)
    requires Inv(env, s) && job.ScanJob? && job.owner == owner && job.hash == env.specHash(spec)
    requires job.images == SpecImages(spec) && StoresResults(env, s.reports, job, logs)
    requires HasReports(s, owner, job.hash, job.images)
    ensures StoresLogs(env, s.reports, owner, spec, logs)
  {
    forall i | IsLast(spec.containers, i)
      ensures var c := spec.containers[i];
              && c.name in job.images && job.images[c.name] == c.image
              && Holds(env, s.reports, owner, job.hash, c.name)
    {
      ImagesIff(spec.containers, spec.containers[i].name);
      CoveredIffHolds(env, s.reports, owner, job.hash, spec.containers[i].name);
    }
  }

  /** A job reconcile that meets no failure covers the job's containers and deletes the job. Nothing was
      reported for the job before, so the reports hold its results. */
  lemma ReconcileSettles(env: Env, s: State, k: Key, order: seq<string>, logs: map<string, LogResult>, budget: nat)
    requires env.Faithful() && Reachable(env, s) && Enabled(env, s, ReconcileJob(k, order, logs, budget))
    requires s.jobs[k].owner in s.workloads && budget > |order|
    requires FetchReports(env, s.jobs[k], order, logs).Fetched?
    requires !HasReports(s, s.jobs[k].owner, s.jobs[k].hash, s.jobs[k].images)
    ensures var s', job := Apply(env, s, ReconcileJob(k, order, logs, budget)), s.jobs[k];
            && s'.jobs == s.jobs - {k} && s'.pending == s.pending && s'.workloads == s.workloads
            && s'.secrets == RemoveJob(s, k).secrets
            && HasReports(s', job.owner, job.hash, job.images) && StoresResults(env, s'.reports, job, logs)
  {
    ReconcileDeletes(env, s, k, order, logs, budget);
    DeletedJobIsReported(env, s, k, order, logs, budget);
  }

  /** The steps after which a settled workload may need another scan: its spec changes or it goes
      away, one of its reports is deleted, or a job writes a report under the name of one of its own. */
  ghost predicate Disturbs(env: Env, s: State, step: Step, owner: ObjectRef)
    requires owner in s.workloads && Enabled(env, s, step)
  {
    match step
    case ApplyWorkload(o, w) => o == owner && w.spec != s.workloads[owner].spec
    case DeleteWorkload(o) => o == owner
    case DeleteReport(k) => s.reports[k].owner == owner
    case ReconcileJob(k, _, _, _) =>
      exists c, d :: c in s.jobs[k].images && d in SpecImages(s.workloads[owner].spec) &&
                     SharesName(s.jobs[k].owner, c, owner, d)
    case _ => false
  }

  /** The reports of two containers are stored under one name. Kinds have no dash; of a kind that had one
      nothing could be said. */
  predicate SharesName(o: ObjectRef, c: string, p: ObjectRef, d: string) {
    && o.namespace == p.namespace
    && ('-' in o.kind || '-' in p.kind || (Lower(o.kind) == Lower(p.kind) && o.name + "-" + c == p.name + "-" + d))
  }

  lemma SharesNameIff(env: Env, o: ObjectRef, c: string, p: ObjectRef, d: string)
    requires env.Faithful()
    ensures env.ReportKey(o, c) == env.ReportKey(p, d) ==> SharesName(o, c, p, d)
    ensures '-' !in o.kind && '-' !in p.kind && SharesName(o, c, p, d) ==> env.ReportKey(o, c) == env.ReportKey(p, d)
  {
    if '-' !in o.kind && '-' !in p.kind {
      SameReportNameIff(env.naming, o.kind, o.name, c, p.kind, p.name, d);
    }
  }

  /** The reports of `owner` for its current spec are the same in both states. */
  ghost predicate SameReports(env: Env, s: State, s': State, owner: ObjectRef)
    requires owner in s.workloads
  {
    forall c :: c in SpecImages(s.workloads[owner].spec) ==>
      var k := env.ReportKey(owner, c);
      k in s.reports && k in s'.reports && s'.reports[k] == s.reports[k]
  }

  lemma SettledHolds(env: Env, s: State, owner: ObjectRef, c: string)
    requires Inv(env, s) && Settled(env, s, owner) && c in SpecImages(s.workloads[owner].spec)
    ensures Holds(env, s.reports, owner, env.specHash(s.workloads[owner].spec), c)
  {
    CoveredIffHolds(env, s.reports, owner, env.specHash(s.workloads[owner].spec), c);
  }

  lemma StaysReported(env: Env, s: State, s': State, owner: ObjectRef)
    requires env.Faithful() && Inv(env, s) && Inv(env, s') && Settled(env, s, owner)
    requires SameReports(env, s, s', owner)
    ensures HasReports(s', owner, env.specHash(s.workloads[owner].spec), SpecImages(s.workloads[owner].spec))
  {
    var spec := s.workloads[owner].spec;
    CoveredWithinSpec(env, s'.reports, owner, spec);
    forall c | c in SpecImages(spec)
      ensures c in Covered(s'.reports, owner, env.specHash(spec))
    {
      SettledHolds(env, s, owner, c);
      CoveredIffHolds(env, s'.reports, owner, env.specHash(spec), c);
    }
  }

  lemma UndisturbedReports(env: Env, s: State, step: Step, owner: ObjectRef)
    requires env.Faithful() && Inv(env, s) && Settled(env, s, owner)
    requires Enabled(env, s, step) && !Disturbs(env, s, step, owner)
    ensures SameReports(env, s, Apply(env, s, step), owner)
  {
    SettledSame(env, s, owner);
    if step.ReconcileJob? {
      forall c | c in SpecImages(s.workloads[owner].spec)
        ensures var k, after := env.ReportKey(owner, c), Apply(env, s, step).reports;
                k in after && after[k] == s.reports[k]
      {
        ReconcileElsewhere(env, s, step, owner, c);
      }
    } else if step.DeleteReport? {
      OtherReportDeleted(env, s, step.report, owner);
    } else {
      StepKeepsReports(env, s, step);
    }
  }

  lemma OtherReportDeleted(env: Env, s: State, k: Key, owner: ObjectRef)
    requires Inv(env, s) && Settled(env, s, owner) && k in s.reports && s.reports[k].owner != owner
    ensures SameReports(env, s, s.(reports := s.reports - {k}), owner)
  {
    forall c | c in SpecImages(s.workloads[owner].spec)
      ensures env.ReportKey(owner, c) != k && env.ReportKey(owner, c) in s.reports
    {
      SettledHolds(env, s, owner, c);
    }
  }

  lemma StepKeepsReports(env: Env, s: State, step: Step)
    requires Enabled(env, s, step) && !step.ReconcileJob? && !step.DeleteReport?
    ensures Apply(env, s, step).reports == s.reports
  {
  }

  lemma ReconcileElsewhere(env: Env, s: State, step: Step, owner: ObjectRef, c: string)
    requires env.Faithful() && owner in s.workloads
    requires step.ReconcileJob? && Enabled(env, s, step) && !Disturbs(env, s, step, owner)
    requires c in SpecImages(s.workloads[owner].spec)
    ensures var k, after := env.ReportKey(owner, c), Apply(env, s, step).reports;
            (k in after <==> k in s.reports) && (k in after ==> after[k] == s.reports[k])
  {
    var job := s.jobs[step.job];
    ProcessCompleteScanJobEffect(env, s, step.job, step.order, step.logs, step.budget);
    FetchedReports(env, job, step.order, step.logs);
    var fetch := FetchReports(env, job, step.order, step.logs);
    if fetch.Fetched? {
      forall i | 0 <= i < |fetch.reports|
        ensures env.ReportKey(fetch.reports[i].owner, fetch.reports[i].container) != env.ReportKey(owner, c)
      {
        SharesNameIff(env, job.owner, fetch.reports[i].container, owner, c);
      }
      WriteReportsElsewhere(env, s.reports, fetch.reports, step.budget, env.ReportKey(owner, c));
    }
  }

  lemma SettledStep(env: Env, s: State, step: Step, owner: ObjectRef)
    requires env.Faithful() && Inv(env, s) && Settled(env, s, owner)
    requires Enabled(env, s, step) && !Disturbs(env, s, step, owner)
    ensures Settled(env, Apply(env, s, step), owner)
    ensures Apply(env, s, step).workloads[owner].spec == s.workloads[owner].spec
    ensures SameReports(env, s, Apply(env, s, step), owner)
  {
    var s' := Apply(env, s, step);
    StepKeepsInv(env, s, step);
    UndisturbedReports(env, s, step, owner);
    StaysReported(env, s, s', owner);
    NothingStarts(env, s, step, owner);
  }

  lemma NothingStarts(env: Env, s: State, step: Step, owner: ObjectRef)
    requires env.Faithful() && Inv(env, s) && Settled(env, s, owner)
    requires Enabled(env, s, step) && !Disturbs(env, s, step, owner)
    ensures var s' := Apply(env, s, step);
            && env.JobKey(owner) !in s'.jobs && !IsPendingOwner(s', owner)
            && owner in s'.workloads && s'.workloads[owner].spec == s.workloads[owner].spec
  {
    match step
    case SubmitScan(w, names, budget) =>
      OtherSubmit(env, s, s.pending[w].owner, s.pending[w].spec, names, budget, owner);
    case CreateOther(w) => assert HasPrefix(env.JobName(owner), "scan-vulnerabilityreport-");
    case ReconcileJob(k, order, logs, budget) => ProcessCompleteScanJobEffect(env, s, k, order, logs, budget);
    case _ =>
  }

  /** A submit for another owner creates no job for this one. */
  lemma OtherSubmit(
    env: Env, s: State, other: ObjectRef, spec: PodSpec, names: seq<string>, budget: nat, owner: ObjectRef)
    requires env.Faithful() && other != owner && env.JobKey(owner) !in s.jobs
    ensures var s' := SubmitScanJob(env, s, other, spec, names, budget);
            env.JobKey(owner) !in s'.jobs && s'.workloads == s.workloads && s'.pending == s.pending
  {
    SubmitCreatesJobIff(env, s, other, spec, names, budget);
    if env.JobKey(owner) == env.JobKey(other) {
      JobKeysDistinct(env, owner, other);
    }
  }

  ghost predicate Undisturbed(env: Env, s: State, steps: seq<Step>, owner: ObjectRef)
    requires ValidRun(env, s, steps)
    decreases |steps|
  {
    steps == [] || (
      && owner in s.workloads && !Disturbs(env, s, steps[0], owner)
      && Undisturbed(env, Apply(env, s, steps[0]), steps[1..], owner))
  }

  lemma SettledSame(env: Env, s: State, owner: ObjectRef)
    requires Inv(env, s) && Settled(env, s, owner)
    ensures SameReports(env, s, s, owner)
  {
    forall c | c in SpecImages(s.workloads[owner].spec)
      ensures env.ReportKey(owner, c) in s.reports
    {
      SettledHolds(env, s, owner, c);
    }
  }

  lemma SameReportsTransitive(env: Env, s: State, t: State, u: State, owner: ObjectRef)
    requires owner in s.workloads && owner in t.workloads && t.workloads[owner].spec == s.workloads[owner].spec
    requires SameReports(env, s, t, owner) && SameReports(env, t, u, owner)
    ensures SameReports(env, s, u, owner)
  {
  }

  /** A settled workload is a fixpoint: along every run that does not disturb it, whatever the other
      owners and workers do, it gets no job and no pending scan, and its reports stay as they are. */
  lemma {:induction false} SettledIsFixpoint(env: Env, s: State, steps: seq<Step>, owner: ObjectRef)
    requires env.Faithful() && Inv(env, s) && Settled(env, s, owner)
    requires ValidRun(env, s, steps) && Undisturbed(env, s, steps, owner)
    ensures Settled(env, Run(env, s, steps), owner)
    ensures SameReports(env, s, Run(env, s, steps), owner)
    decreases |steps|
  {
    if steps == [] {
      SettledSame(env, s, owner);
    } else {
      var s' := Apply(env, s, steps[0]);
      StepKeepsInv(env, s, steps[0]);
      SettledStep(env, s, steps[0], owner);
      SettledIsFixpoint(env, s', steps[1..], owner);
      SameReportsTransitive(env, s, s', Run(env, s', steps[1..]), owner);
    }
  }

  /** What a name clash does: two owners with containers that share a report name are never settled together. */
  lemma NamesakesAreNotBothSettled(env: Env, s: State, o: ObjectRef, c: string, p: ObjectRef, d: string)
    requires env.Faithful() && Reachable(env, s) && o != p && '-' !in o.kind && '-' !in p.kind
    requires o in s.workloads && c in SpecImages(s.workloads[o].spec)
    requires p in s.workloads && d in SpecImages(s.workloads[p].spec) && SharesName(o, c, p, d)
    ensures !(Settled(env, s, o) && Settled(env, s, p))
  {
    ReachableInv(env, s);
    SharesNameIff(env, o, c, p, d);
    if Settled(env, s, o) && Settled(env, s, p) {
      SettledHolds(env, s, o, c);
      SettledHolds(env, s, p, d);
    }
  }

  // ---------------------------------------------------------------- report removal

  /** When a report for the current spec is removed, by its TTL or otherwise, a scan is needed again
      unless one is running or the limit is reached; without leftovers the next check and submit create
      the job. */
  lemma RemovalLeadsToRescan(env: Env, s: State, k: Key, w: nat, names: seq<string>, budget: nat)
    requires env.Faithful() && Reachable(env, s) && k in s.reports && budget > |names|
    requires var owner := s.reports[k].owner;
             && owner in s.workloads && !env.Ignores(owner, s.workloads[owner])
             && s.reports[k].hash == env.specHash(s.workloads[owner].spec)
             && env.LookupKey(owner) !in s.jobs && env.JobKey(owner) !in s.jobs
             && !LimitExceeded(env, s) && Unused(s.secrets, env.JobNamespace(owner), names)
             && w < env.workers && w !in s.pending && !IsPendingOwner(s, owner)
    ensures var owner := s.reports[k].owner;
            var spec := s.workloads[owner].spec;
            var steps := [DeleteReport(k), CheckWorkload(w, owner), SubmitScan(w, names, budget)];
            && ValidRun(env, s, steps)
            && var s' := Run(env, s, steps);
               && s'.reports == s.reports - {k} && s'.workloads == s.workloads && s'.pending == s.pending
               && s'.jobs == s.jobs[env.JobKey(owner) :=
                                      ScanJob(owner, env.specHash(spec), SpecImages(spec), NoCondition)]
  {
    var owner := s.reports[k].owner;
    assert ValidRun(env, s, []) && Run(env, s, []) == s;
    var steps, removed := Extend(env, s, [], DeleteReport(k));
    RemovalUncovers(env, s, k);
    assert CountedJobs(env, removed) == CountedJobs(env, s);
    var s' := CheckAndSubmit(env, s, steps, w, owner, names, budget);
    AppendTwo([DeleteReport(k)], CheckWorkload(w, owner), SubmitScan(w, names, budget));
    FourElements(DeleteReport(k), CheckWorkload(w, owner), SubmitScan(w, names, budget), DeleteReport(k));
  }

  lemma RemovalUncovers(env: Env, s: State, k: Key)
    requires env.Faithful() && Reachable(env, s) && k in s.reports && s.reports[k].owner in s.workloads
    requires s.reports[k].hash == env.specHash(s.workloads[s.reports[k].owner].spec)
    ensures var owner := s.reports[k].owner;
            var spec := s.workloads[owner].spec;
            !HasReports(s.(reports := s.reports - {k}), owner, env.specHash(spec), SpecImages(spec))
  {
    ReachableInv(env, s);
    var owner, c := s.reports[k].owner, s.reports[k].container;
    var spec := s.workloads[owner].spec;
    assert NamesContainer(env, env.specHash(spec), c);
    assert c in SpecImages(spec);
    RemoveReportOk(env, s.reports, k);
    CoveredIffHolds(env, s.reports - {k}, owner, env.specHash(spec), c);
  }

  // ---------------------------------------------------------------- leftover secrets

  /** A secret that no job owns. */
  predicate Leftover(s: State, k: Key) {
    k in s.secrets && s.secrets[k].ownedBy == None
  }

  lemma {:induction false} OwnSecretsElsewhere(
    secrets: Secrets, namespace: string, names: seq<string>, job: Key, budget: nat, k: Key)
    requires k in secrets && forall i :: 0 <= i < |names| ==> Key(namespace, names[i]) != k
    ensures var after := OwnSecrets(secrets, namespace, names, job, budget); k in after && after[k] == secrets[k]
    decreases |names|
  {
    if names != [] && budget > 0 {
      var next := secrets[Key(namespace, names[0]) := Secret(Some(job))];
      OwnSecretsElsewhere(next, namespace, names[1..], job, budget - 1, k);
    }
  }

  lemma SubmitKeepsLeftover(
    env: Env, s: State, owner: ObjectRef, spec: PodSpec, names: seq<string>, budget: nat, k: Key)
    requires Leftover(s, k)
    ensures Leftover(SubmitScanJob(env, s, owner, spec, names, budget), k)
  {
    var namespace := env.JobNamespace(owner);
    CreateSecretsIff(s.secrets, namespace, names, budget);
    var created := CreateSecrets(s.secrets, namespace, names, budget);
    if created.done && created.budget > 0 {
      OwnSecretsElsewhere(created.secrets, namespace, names, env.JobKey(owner), created.budget - 1, k);
    }
  }

  lemma StepKeepsLeftover(env: Env, s: State, step: Step, k: Key)
    requires Enabled(env, s, step) && Leftover(s, k)
    ensures Leftover(Apply(env, s, step), k)
  {
    if step.SubmitScan? {
      var p := s.pending[step.worker];
      SubmitKeepsLeftover(env, s, p.owner, p.spec, step.secretNames, step.budget, k);
    }
  }

  /** Every submit for `owner` along the run mounts the secret `name`. */
  ghost predicate AlwaysMounts(env: Env, s: State, steps: seq<Step>, owner: ObjectRef, name: string)
    requires ValidRun(env, s, steps)
    decreases |steps|
  {
    steps == [] || (
      && (steps[0].SubmitScan? && s.pending[steps[0].worker].owner == owner ==> name in steps[0].secretNames)
      && AlwaysMounts(env, Apply(env, s, steps[0]), steps[1..], owner, name))
  }

  /** A leftover secret blocks its owner for ever: no later run creates a job for it, because every
      submit stops at the secret that already exists. */
  lemma {:induction false} LeftoverBlocksForever(env: Env, s: State, steps: seq<Step>, owner: ObjectRef, name: string)
    requires env.Faithful() && Inv(env, s) && env.JobKey(owner) !in s.jobs
    requires Leftover(s, Key(env.JobNamespace(owner), name))
    requires ValidRun(env, s, steps) && AlwaysMounts(env, s, steps, owner, name)
    ensures env.JobKey(owner) !in Run(env, s, steps).jobs
    decreases |steps|
  {
    if steps != [] {
      var s' := Apply(env, s, steps[0]);
      StepKeepsInv(env, s, steps[0]);
      StepKeepsLeftover(env, s, steps[0], Key(env.JobNamespace(owner), name));
      BlockedStep(env, s, steps[0], owner, name);
      LeftoverBlocksForever(env, s', steps[1..], owner, name);
    }
  }

  lemma BlockedStep(env: Env, s: State, step: Step, owner: ObjectRef, name: string)
    requires env.Faithful() && Inv(env, s) && env.JobKey(owner) !in s.jobs
    requires Leftover(s, Key(env.JobNamespace(owner), name)) && Enabled(env, s, step)
    requires step.SubmitScan? && s.pending[step.worker].owner == owner ==> name in step.secretNames
    ensures env.JobKey(owner) !in Apply(env, s, step).jobs
  {
    match step
    case SubmitScan(w, names, budget) =>
      var pending := s.pending[w];
      SubmitCreatesJobIff(env, s, pending.owner, pending.spec, names, budget);
      if env.JobKey(owner) == env.JobKey(pending.owner) {
        JobKeysDistinct(env, owner, pending.owner);
      }
    case CreateOther(w) => assert HasPrefix(env.JobName(owner), "scan-vulnerabilityreport-");
    case ReconcileJob(k, order, logs, budget) => ProcessCompleteScanJobEffect(env, s, k, order, logs, budget);
    case _ =>
  }

  /** A submit that finds the job of an older spec leaves the secret it has just created behind. */
  lemma SubmitOverOldJob(env: Env, s: State, w: nat, owner: ObjectRef, name: string) returns (s': State)
    requires Reachable(env, s) && env.JobKey(owner) in s.jobs && s.secrets == map[]
    requires w in s.pending && s.pending[w].PendingScan? && s.pending[w].owner == owner
    ensures Reachable(env, s')
    ensures s'.jobs == s.jobs && s'.workloads == s.workloads && s'.reports == s.reports
    ensures s'.secrets == map[Key(env.JobNamespace(owner), name) := Secret(None)]
  {
    var step := SubmitScan(w, [name], 3);
    ReachableStep(env, s, step);
    s' := Apply(env, s, step);
    var key := Key(env.JobNamespace(owner), name);
    assert [name][1..] == [];
    assert CreateSecrets(s.secrets, key.namespace, [name], 3).secrets == s.secrets[key := Secret(None)];
  }

  /** Such a secret is left behind without any failing call: the spec changes while the job of the old
      spec is running, and the new spec is the first to need a secret. */
  lemma LeftoverIsReachable(env: Env, owner: ObjectRef, before: Workload, after: Workload, name: string)
    returns (s: State)
    requires env.Faithful() && env.limit >= 2 && env.workers >= 1
    requires !env.Ignores(owner, before) && !env.Ignores(owner, after) && before.spec != after.spec
    requires SpecImages(before.spec) != map[] && SpecImages(after.spec) != map[]
    ensures Reachable(env, s) && owner in s.workloads && s.jobs == map[] && s.reports == map[]
    ensures Leftover(s, Key(env.JobNamespace(owner), name))
  {
    var s1 := FirstScan(env, owner, before);
    var s2 := CheckAgain(env, s1, owner, after);
    var s3 := SubmitOverOldJob(env, s2, 0, owner, name);
    ReachableStep(env, s3, DropJob(env.JobKey(owner)));
    s := Apply(env, s3, DropJob(env.JobKey(owner)));
  }

  lemma CheckAgain(env: Env, s: State, owner: ObjectRef, after: Workload) returns (s': State)
    requires env.Faithful() && Reachable(env, s) && env.limit >= 2 && env.workers >= 1
    requires |s.jobs| == 1 && s.reports == map[] && s.pending == map[]
    requires env.JobKey(owner) in s.jobs && s.jobs[env.JobKey(owner)].ScanJob?
    requires s.jobs[env.JobKey(owner)].hash != env.specHash(after.spec)
    requires !env.Ignores(owner, after) && SpecImages(after.spec) != map[]
    ensures Reachable(env, s')
    ensures s' == s.(workloads := s.workloads[owner := after], pending := map[0 := PendingScan(owner, after.spec)])
  {
    ReachableStep(env, s, ApplyWorkload(owner, after));
    var applied := Apply(env, s, ApplyWorkload(owner, after));
    assert Covered(applied.reports, owner, env.specHash(after.spec)) == {};
    ReachableInv(env, applied);
    CountedIsAll(env, applied);
    var k := env.LookupKey(owner);
    assert k in s.jobs ==> s.jobs.Keys == {k} by {
      if k in s.jobs {
        RemoveOne(s.jobs, k);
        assert (s.jobs - {k}).Keys == {};
      }
    }
    ReachableStep(env, applied, CheckWorkload(0, owner));
    s' := Apply(env, applied, CheckWorkload(0, owner));
  }
}
