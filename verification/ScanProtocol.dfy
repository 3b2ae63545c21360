/** The vulnerability-scan protocol as a state machine over the cluster's object store.

    A workload reconcile is two steps, because the check that a scan is needed and the creation of
    its job are separate API calls and other workers run in between. A job reconcile is one step.
    Every step that calls the API carries a budget: the number of calls that succeed before one
    fails, so a write can stop anywhere part-way. */
module ScanProtocol {
  import opened Collections
  import opened Strings
  import opened Kube

  /** `rest` stands for everything else that the hash of a pod spec covers. */
  datatype PodSpec = PodSpec(containers: seq<Container>, rest: string)

  datatype Container = Container(name: string, image: string)

  type Images = map<string, string>

  /** Container names to images; the last container of a name wins. */
  function ImagesOf(containers: seq<Container>): Images {
    if containers == [] then map[]
    else
      var last := containers[|containers| - 1];
      ImagesOf(containers[..|containers| - 1])[last.name := last.image]
  }

  function SpecImages(spec: PodSpec): Images {
    ImagesOf(spec.containers)
  }

  datatype Workload = Workload(spec: PodSpec, controller: Option<string>, activeRevision: bool)

  datatype Condition = NoCondition | Complete | Failed | Unrecognized

  /** A job managed by the operator: a vulnerability scan job, or one that another reconciler made. */
  datatype Job = ScanJob(owner: ObjectRef, hash: string, images: Images, condition: Condition) | OtherJob

  datatype Ttl = NoTtl | Malformed | Ttl(duration: int)

  /** What the plugin makes of the logs of one container. */
  datatype ScanData = ScanData(image: string, log: string, updated: int)

  datatype Report = Report(owner: ObjectRef, container: string, hash: string, data: ScanData, ttl: Ttl)

  type Reports = map<Key, Report>

  /** A secret mounted by scan pods. Once owned it is collected together with its job. */
  datatype Secret = Secret(ownedBy: Option<Key>)

  type Secrets = map<Key, Secret>

  /** What a worker that passed the limit check is about to create. */
  datatype Pending = PendingScan(owner: ObjectRef, spec: PodSpec) | PendingOther(job: Key)

  datatype State = State(
    workloads: map<ObjectRef, Workload>,
    jobs: map<Key, Job>,
    reports: Reports,
    secrets: Secrets,
    pending: map<nat, Pending>)

  const INIT := State(map[], map[], map[], map[], map[])

  /** The operator's configuration and the hash functions it uses. `workers` is the number of
      reconcilers that may be between the limit check and the Create at one time. */
  datatype Env = Env(
    naming: Naming,
    specHash: PodSpec -> string,
    refHash: ObjectRef -> string,
    operatorNamespace: string,
    sameNamespace: bool,
    onlyCurrentRevisions: bool,
    limit: int,
    workers: nat,
    ttl: Ttl)
  {
    ghost predicate Faithful() {
      naming.Faithful() && Injective(specHash) && Injective(refHash)
    }

    function JobName(owner: ObjectRef): string {
      "scan-vulnerabilityreport-" + refHash(owner)
    }

    function JobNamespace(owner: ObjectRef): string {
      if sameNamespace then owner.namespace else operatorNamespace
    }

    /** Where the scan job of `owner` is created. */
    function JobKey(owner: ObjectRef): Key {
      Key(JobNamespace(owner), JobName(owner))
    }

    /** Where the active-job check looks for it. */
    function LookupKey(owner: ObjectRef): Key {
      Key(operatorNamespace, JobName(owner))
    }

    function ReportKey(owner: ObjectRef, container: string): Key {
      Key(owner.namespace, naming.ContainerReportName(owner.kind, owner.name, container))
    }

    /** Workloads whose pods are covered by another workload's reports. */
    predicate Ignores(ref: ObjectRef, w: Workload) {
      || (ref.kind == "Pod" && IsBuiltInWorkload(w.controller))
      || (onlyCurrentRevisions && ref.kind == "ReplicaSet" && !w.activeRevision)
      || (ref.kind == "Job" && w.controller == Some("CronJob"))
    }
  }

  // ---------------------------------------------------------------- what the reconcilers look at

  /** The containers of `owner` that have a report for the given spec hash. */
  function Covered(reports: Reports, owner: ObjectRef, hash: string): set<string> {
    set k | k in reports && k.namespace == owner.namespace && reports[k].owner == owner && reports[k].hash == hash
      :: reports[k].container
  }

  predicate HasReports(s: State, owner: ObjectRef, hash: string, images: Images) {
    Covered(s.reports, owner, hash) == images.Keys
  }

  predicate HasActiveScanJob(env: Env, s: State, owner: ObjectRef, hash: string) {
    var k := env.LookupKey(owner);
    k in s.jobs && s.jobs[k].ScanJob? && s.jobs[k].hash == hash
  }

  /** The jobs that the limit checker lists. */
  function CountedJobs(env: Env, s: State): set<Key> {
    set k | k in s.jobs && (env.sameNamespace || k.namespace == env.operatorNamespace)
  }

  predicate LimitExceeded(env: Env, s: State) {
    |CountedJobs(env, s)| >= env.limit
  }

  predicate NeedsScan(env: Env, s: State, owner: ObjectRef) {
    && owner in s.workloads
    && !env.Ignores(owner, s.workloads[owner])
    && var spec := s.workloads[owner].spec;
       !HasReports(s, owner, env.specHash(spec), SpecImages(spec)) &&
       !HasActiveScanJob(env, s, owner, env.specHash(spec)) &&
       !LimitExceeded(env, s)
  }

  // ---------------------------------------------------------------- what they do

  datatype SecretsCreated = SecretsCreated(secrets: Secrets, done: bool, budget: nat)

  /** Creates the secrets in order, and stops at the first that exists or fails. */
  function CreateSecrets(secrets: Secrets, namespace: string, names: seq<string>, budget: nat): SecretsCreated
    decreases |names|
  {
    if names == [] then SecretsCreated(secrets, true, budget)
    else
      var k := Key(namespace, names[0]);
      if budget == 0 || k in secrets then SecretsCreated(secrets, false, budget)
      else CreateSecrets(secrets[k := Secret(None)], namespace, names[1..], budget - 1)
  }

  /** Makes the job own the secrets, in order, until an update fails. */
  function OwnSecrets(secrets: Secrets, namespace: string, names: seq<string>, job: Key, budget: nat): Secrets
    decreases |names|
  {
    if names == [] || budget == 0 then secrets
    else OwnSecrets(secrets[Key(namespace, names[0]) := Secret(Some(job))], namespace, names[1..], job, budget - 1)
  }

  /** Creates the secrets, then the job, then sets the owner references of the secrets. */
  function SubmitScanJob(env: Env, s: State, owner: ObjectRef, spec: PodSpec, names: seq<string>, budget: nat): State {
    var created := CreateSecrets(s.secrets, env.JobNamespace(owner), names, budget);
    var k := env.JobKey(owner);
    if !created.done || created.budget == 0 || k in s.jobs then s.(secrets := created.secrets)
    else s.(
      jobs := s.jobs[k := ScanJob(owner, env.specHash(spec), SpecImages(spec), NoCondition)],
      secrets := OwnSecrets(created.secrets, env.JobNamespace(owner), names, k, created.budget - 1))
  }

  /** Removes the job and the secrets it owns. */
  function RemoveJob(s: State, k: Key): State {
    s.(jobs := s.jobs - {k},
       secrets := map x | x in s.secrets && s.secrets[x].ownedBy != Some(k) :: s.secrets[x])
  }

  function DeleteJob(s: State, k: Key, budget: nat): State {
    if budget == 0 then s else RemoveJob(s, k)
  }

  datatype LogResult = Logs(log: string, updated: int) | JobNotFound | PodNotFound | Unreadable

  datatype Fetch = Fetched(reports: seq<Report>) | JobGone | PodGone | Interrupted

  function LogOf(logs: map<string, LogResult>, container: string): LogResult {
    if container in logs then logs[container] else Unreadable
  }

  function ScanReport(env: Env, job: Job, container: string, log: LogResult): Report
    requires job.ScanJob? && container in job.images && log.Logs?
  {
    Report(job.owner, container, job.hash, ScanData(job.images[container], log.log, log.updated), env.ttl)
  }

  /** Builds the reports of the containers in `order`; nothing is written yet. */
  function FetchReports(env: Env, job: Job, order: seq<string>, logs: map<string, LogResult>): Fetch
    requires job.ScanJob? && forall c :: c in order ==> c in job.images
  {
    if order == [] then Fetched([])
    else
      var last := order[|order| - 1];
      match FetchReports(env, job, order[..|order| - 1], logs)
      case Fetched(reports) =>
        (match LogOf(logs, last)
         case Logs(_, _) => Fetched(reports + [ScanReport(env, job, last, LogOf(logs, last))])
         case JobNotFound => JobGone
         case PodNotFound => PodGone
         case Unreadable => Interrupted)
      case stopped => stopped
  }

  /** An update replaces labels and data and keeps the annotations, hence the TTL, of the stored report. */
  function CreateOrUpdate(env: Env, reports: Reports, r: Report): Reports {
    var k := env.ReportKey(r.owner, r.container);
    reports[k := if k in reports then r.(ttl := reports[k].ttl) else r]
  }

  /** Writes the first reports that the budget allows. */
  function WriteReports(env: Env, reports: Reports, rs: seq<Report>, budget: nat): Reports
    decreases |rs|
  {
    if rs == [] || budget == 0 then reports
    else WriteReports(env, CreateOrUpdate(env, reports, rs[0]), rs[1..], budget - 1)
  }

  function ProcessCompleteScanJob(
    env: Env, s: State, k: Key, order: seq<string>, logs: map<string, LogResult>, budget: nat): State
    requires k in s.jobs && s.jobs[k].ScanJob? && forall c :: c in order ==> c in s.jobs[k].images
  {
    var job := s.jobs[k];
    if job.owner !in s.workloads || HasReports(s, job.owner, job.hash, job.images) then DeleteJob(s, k, budget)
    else match FetchReports(env, job, order, logs)
      case JobGone => s
      case PodGone => DeleteJob(s, k, budget)
      case Interrupted => s
      case Fetched(rs) =>
        var written := s.(reports := WriteReports(env, s.reports, rs, budget));
        if budget < |rs| then written else DeleteJob(written, k, budget - |rs|)
  }

  // ---------------------------------------------------------------- the state machine

  datatype Step =
    | ApplyWorkload(owner: ObjectRef, workload: Workload)
    | DeleteWorkload(owner: ObjectRef)
    | CheckWorkload(worker: nat, owner: ObjectRef)
    | SubmitScan(worker: nat, secretNames: seq<string>, budget: nat)
    | CheckOther(worker: nat, job: Key)
    | CreateOther(worker: nat)
    | Abandon(worker: nat)
    | FinishJob(job: Key, condition: Condition)
    | ReconcileJob(job: Key, order: seq<string>, logs: map<string, LogResult>, budget: nat)
    | DropJob(job: Key)
    | DeleteReport(report: Key)

  predicate IsPendingOwner(s: State, owner: ObjectRef) {
    exists w :: w in s.pending && s.pending[w].PendingScan? && s.pending[w].owner == owner
  }

  /** Steps of the environment may happen at any time. A reconciler works on one key at a time, so
      two workers never handle the same owner. */
  ghost predicate Enabled(env: Env, s: State, step: Step) {
    match step
    case ApplyWorkload(_, _) => true
    case DeleteWorkload(_) => true
    case CheckWorkload(w, owner) =>
      w < env.workers && w !in s.pending && !IsPendingOwner(s, owner) && NeedsScan(env, s, owner)
    case SubmitScan(w, _, _) => w in s.pending && s.pending[w].PendingScan?
    case CheckOther(w, k) =>
      && w < env.workers && w !in s.pending && !LimitExceeded(env, s)
      && k.namespace == env.operatorNamespace && !HasPrefix(k.name, "scan-vulnerabilityreport-")
    case CreateOther(w) => w in s.pending && s.pending[w].PendingOther?
    case Abandon(w) => w in s.pending
    case FinishJob(k, _) => k in s.jobs && s.jobs[k].ScanJob? && s.jobs[k].condition == NoCondition
    case ReconcileJob(k, order, _, _) =>
      && k in s.jobs && s.jobs[k].ScanJob? && s.jobs[k].condition == Complete
      && Enumerates(order, s.jobs[k].images.Keys)
    case DropJob(k) => k in s.jobs
    case DeleteReport(k) => k in s.reports
  }

  function Apply(env: Env, s: State, step: Step): State
    requires Enabled(env, s, step)
  {
    match step
    case ApplyWorkload(owner, workload) => s.(workloads := s.workloads[owner := workload])
    case DeleteWorkload(owner) => s.(workloads := s.workloads - {owner})
    case CheckWorkload(w, owner) => s.(pending := s.pending[w := PendingScan(owner, s.workloads[owner].spec)])
    case SubmitScan(w, names, budget) =>
      SubmitScanJob(env, s, s.pending[w].owner, s.pending[w].spec, names, budget).(pending := s.pending - {w})
    case CheckOther(w, k) => s.(pending := s.pending[w := PendingOther(k)])
    case CreateOther(w) =>
      var k := s.pending[w].job;
      s.(jobs := if k in s.jobs then s.jobs else s.jobs[k := OtherJob], pending := s.pending - {w})
    case Abandon(w) => s.(pending := s.pending - {w})
    case FinishJob(k, c) => s.(jobs := s.jobs[k := s.jobs[k].(condition := c)])
    case ReconcileJob(k, order, logs, budget) => ProcessCompleteScanJob(env, s, k, order, logs, budget)
    case DropJob(k) => RemoveJob(s, k)
    case DeleteReport(k) => s.(reports := s.reports - {k})
  }

  ghost predicate ValidRun(env: Env, s: State, steps: seq<Step>)
    decreases |steps|
  {
    steps == [] || (Enabled(env, s, steps[0]) && ValidRun(env, Apply(env, s, steps[0]), steps[1..]))
  }

  function Run(env: Env, s: State, steps: seq<Step>): State
    requires ValidRun(env, s, steps)
    decreases |steps|
  {
    if steps == [] then s else Run(env, Apply(env, s, steps[0]), steps[1..])
  }

  ghost predicate Reachable(env: Env, s: State) {
    exists steps :: ValidRun(env, INIT, steps) && Run(env, INIT, steps) == s
  }
}
