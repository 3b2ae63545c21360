/** The cache of configuration audit reports: a report is reused while its two hash labels match, and
    stale reports are deleted in batches when the policies change. */
module AuditCache {
  import opened Collections
  import opened Kube
  import opened Policy
  import opened PolicyEval

  /** Reports of cluster-scoped resources are stored apart from the namespaced ones. */
  datatype ReportKey = Namespaced(key: Key) | ClusterWide(name: string)

  datatype Check = Check(
    id: string, title: string, description: string, severity: string, category: string,
    success: bool, messages: seq<string>)

  datatype AuditReport = AuditReport(owner: ObjectRef, specHash: string, configHash: string, checks: seq<Check>)

  datatype State = State(
    resources: map<ObjectRef, Resource>,
    policies: Option<Data>,
    reports: map<ReportKey, AuditReport>)

  const INIT := State(map[], None, map[])

  /** What the spec hash of a resource is computed from. */
  datatype HashedPart = PodSpecOf(podSpec: string) | WholeObject(resource: Resource)

  predicate IsHashedWhole(kind: string) {
    kind in ["Service", "ConfigMap", "Role", "RoleBinding", "NetworkPolicy", "Ingress", "ResourceQuota", "LimitRange",
             "ClusterRole", "ClusterRoleBinding", "CustomResourceDefinition", "PodSecurityPolicy"]
  }

  /** Kinds without a spec hash are an error. */
  function Hashed(r: Resource): Option<HashedPart> {
    if IsWorkload(r.ref.kind) then Some(PodSpecOf(r.podSpec))
    else if IsHashedWhole(r.ref.kind) then Some(WholeObject(r))
    else None
  }

  function ToCheck(r: CheckResult): Check {
    Check(r.metadata.id, r.metadata.title, r.metadata.description, r.metadata.severity, r.metadata.category,
          r.success, r.messages)
  }

  /** `admissible` are the policy ConfigMaps that the cluster may ever hold. */
  datatype Env = Env(
    naming: Naming,
    specHash: HashedPart -> string,
    modulesHash: Data -> string,
    engine: Engine,
    admissible: Data -> bool,
    batchLimit: nat)
  {
    ghost predicate Faithful() {
      naming.Faithful() && Injective(specHash) && Injective(modulesHash)
    }

    function ReportKeyOf(ref: ObjectRef): ReportKey {
      var name := naming.ResourceReportName(ref.kind, ref.name);
      if IsClusterScopedKind(ref.kind) then ClusterWide(name) else Namespaced(Key(ref.namespace, name))
    }

    /** The pair of hashes that labels a report, when the resource has a spec hash. */
    function Hashes(v: Resource, d: Data): Option<(string, string)> {
      match Hashed(v)
      case None => None
      case Some(part) => Some((specHash(part), modulesHash(ModulesOf(d, v.ref.kind))))
    }
  }

  predicate Ignores(r: Resource) {
    || (r.ref.kind == "Pod" && IsBuiltInWorkload(r.controller))
    || (r.ref.kind == "Job" && r.controller == Some("CronJob"))
  }

  /** A reconcile of this version under these policies gets as far as looking for a report. */
  predicate Auditable(env: Env, v: Resource, d: Data) {
    && !Ignores(v) && v.ref.kind != "" && Hashed(v).Some?
    && !Malformed(d, v.ref.kind) && Selected(d, v.ref.kind) != map[]
  }

  predicate Reviewable(env: Env, s: State, ref: ObjectRef) {
    ref in s.resources && s.policies.Some? && Auditable(env, s.resources[ref], s.policies.value)
  }

  predicate HasReport(env: Env, s: State, ref: ObjectRef)
    requires Reviewable(env, s, ref)
  {
    var k := env.ReportKeyOf(ref);
    && k in s.reports && s.reports[k].owner == ref
    && Some((s.reports[k].specHash, s.reports[k].configHash)) == env.Hashes(s.resources[ref], s.policies.value)
  }

  /** The checks are what evaluating the version under the policies gives, for some iteration order. */
  ghost predicate ChecksOf(env: Env, checks: seq<Check>, v: Resource, d: Data) {
    exists order :: Enumerates(order, Selected(d, v.ref.kind).Keys) && checks == ChecksIn(env, v, d, order)
  }

  function ChecksIn(env: Env, v: Resource, d: Data, order: seq<string>): seq<Check> {
    MapSeq(ToCheck, ResultsIn(env.engine, d, v.ref.kind, v, order))
  }

  // ---------------------------------------------------------------- batch deletion

  /** The reports for `kind` that were made under other policies. */
  function Stale(env: Env, s: State, kind: string): set<ReportKey>
    requires s.policies.Some?
  {
    set k | k in s.reports && k.ClusterWide? == IsClusterScopedKind(kind) && s.reports[k].owner.kind == kind
            && s.reports[k].configHash != env.modulesHash(ModulesOf(s.policies.value, kind))
  }

  /** One call deletes up to the batch limit, and asks for another call when more was listed. */
  predicate IsBatch(env: Env, s: State, kind: string, deleted: set<ReportKey>)
    requires s.policies.Some?
  {
    deleted <= Stale(env, s, kind) && |deleted| == Min(env.batchLimit, |Stale(env, s, kind)|)
  }

  predicate Requeues(env: Env, s: State, kind: string)
    requires s.policies.Some?
  {
    |Stale(env, s, kind)| > env.batchLimit
  }

  // ---------------------------------------------------------------- the state machine

  datatype Step =
    | ApplyResource(resource: Resource)
    | DeleteResource(ref: ObjectRef)
    | ChangePolicies(policies: Option<Data>)
    | Reconcile(ref: ObjectRef, order: seq<string>)
    | Invalidate(kind: string, deleted: set<ReportKey>)
    | DeleteReport(report: ReportKey)

  ghost predicate Enabled(env: Env, s: State, step: Step) {
    match step
    case ApplyResource(_) => true
    case DeleteResource(_) => true
    case ChangePolicies(policies) => policies.Some? ==> env.admissible(policies.value)
    case Reconcile(ref, order) =>
      && Reviewable(env, s, ref) && !HasReport(env, s, ref)
      && Evaluates(env.engine, s.policies.value, ref.kind, s.resources[ref])
      && Enumerates(order, Selected(s.policies.value, ref.kind).Keys)
    case Invalidate(kind, deleted) =>
      s.policies.Some? && !Malformed(s.policies.value, kind) && IsBatch(env, s, kind, deleted)
    case DeleteReport(k) => k in s.reports
  }

  /** The report that a reconcile writes, under the name that belongs to its owner. */
  function NewReport(env: Env, s: State, ref: ObjectRef, order: seq<string>): AuditReport
    requires Reviewable(env, s, ref)
  {
    var hashes := env.Hashes(s.resources[ref], s.policies.value).value;
    AuditReport(ref, hashes.0, hashes.1, ChecksIn(env, s.resources[ref], s.policies.value, order))
  }

  function Apply(env: Env, s: State, step: Step): State
    requires Enabled(env, s, step)
  {
    match step
    case ApplyResource(r) => s.(resources := s.resources[r.ref := r])
    case DeleteResource(ref) => s.(resources := s.resources - {ref})
    case ChangePolicies(policies) => s.(policies := policies)
    case Reconcile(ref, order) => s.(reports := s.reports[env.ReportKeyOf(ref) := NewReport(env, s, ref, order)])
    case Invalidate(_, deleted) => s.(reports := s.reports - deleted)
    case DeleteReport(k) => s.(reports := s.reports - {k})
  }

  ghost predicate ValidRun(env: Env, s: State, steps: seq<Step>)
    decreases |steps|
  {
    steps == [] || (Enabled(env, s, steps[0]) && ValidRun(env, Apply(env, s, steps[0]), steps[1..]))
  }

  function Run(env: Env, s: State, steps: seq<Step>): State
    requires ValidRun(env, s, steps)
    decreases |steps|
  {
    if steps == [] then s else Run(env, Apply(env, s, steps[0]), steps[1..])
  }

  ghost predicate Reachable(env: Env, s: State) {
    exists steps :: ValidRun(env, INIT, steps) && Run(env, INIT, steps) == s
  }
}
