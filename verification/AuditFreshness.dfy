/** When reusing a report gives what a new evaluation would give, and how invalidation ends. */
module AuditFreshness {
  import opened Collections
  import opened Strings
  import opened Kube
  import opened Policy
  import opened PolicyEval
  import opened AuditCache

  // ---------------------------------------------------------------- the invariant

  /** The report holds the evaluation of a version and policies with the hashes on its labels. */
  ghost predicate WasEvaluated(env: Env, r: AuditReport, v: Resource, d: Data) {
    && v.ref == r.owner && env.admissible(d) && Auditable(env, v, d)
    && env.Hashes(v, d) == Some((r.specHash, r.configHash))
    && Evaluates(env.engine, d, v.ref.kind, v) && ChecksOf(env, r.checks, v, d)
  }

  ghost predicate ReportOk(env: Env, k: ReportKey, r: AuditReport) {
    k == env.ReportKeyOf(r.owner) && exists v, d :: WasEvaluated(env, r, v, d)
  }

  ghost predicate Inv(env: Env, s: State) {
    && (forall ref :: ref in s.resources ==> s.resources[ref].ref == ref)
    && (s.policies.Some? ==> env.admissible(s.policies.value))
    && (forall k :: k in s.reports ==> ReportOk(env, k, s.reports[k]))
  }

  lemma StepKeepsInv(env: Env, s: State, step: Step)
    requires Inv(env, s) && Enabled(env, s, step)
    ensures Inv(env, Apply(env, s, step))
  {
    match step
    case Reconcile(ref, order) => NewReportOk(env, s, ref, order);
    case Invalidate(_, deleted) => RemovalKeepsInv(env, s, deleted);
    case DeleteReport(k) => RemovalKeepsInv(env, s, {k});
    case _ =>
  }

  lemma RemovalKeepsInv(env: Env, s: State, deleted: set<ReportKey>)
    requires Inv(env, s)
    ensures Inv(env, s.(reports := s.reports - deleted))
  {
  }

  lemma NewReportOk(env: Env, s: State, ref: ObjectRef, order: seq<string>)
    requires Inv(env, s) && Enabled(env, s, Reconcile(ref, order))
    ensures Inv(env, Apply(env, s, Reconcile(ref, order)))
  {
    NewReportWasEvaluated(env, s, ref, order);
    WriteKeepsInv(env, s, env.ReportKeyOf(ref), NewReport(env, s, ref, order));
  }

  lemma NewReportWasEvaluated(env: Env, s: State, ref: ObjectRef, order: seq<string>)
    requires Inv(env, s) && Enabled(env, s, Reconcile(ref, order))
    ensures ReportOk(env, env.ReportKeyOf(ref), NewReport(env, s, ref, order))
  {
    var v, d := s.resources[ref], s.policies.value;
    assert ChecksOf(env, ChecksIn(env, v, d, order), v, d);
    assert WasEvaluated(env, NewReport(env, s, ref, order), v, d);
  }

  lemma WriteKeepsInv(env: Env, s: State, k: ReportKey, r: AuditReport)
    requires Inv(env, s) && ReportOk(env, k, r)
    ensures Inv(env, s.(reports := s.reports[k := r]))
  {
  }

  lemma {:induction false} RunKeepsInv(env: Env, s: State, steps: seq<Step>)
    requires Inv(env, s) && ValidRun(env, s, steps)
    ensures Inv(env, Run(env, s, steps))
    decreases |steps|
  {
    if steps != [] {
      StepKeepsInv(env, s, steps[0]);
      RunKeepsInv(env, Apply(env, s, steps[0]), steps[1..]);
    }
  }

  lemma ReachableInv(env: Env, s: State)
    requires Reachable(env, s)
    ensures Inv(env, s)
  {
    var steps :| ValidRun(env, INIT, steps) && Run(env, INIT, steps) == s;
    RunKeepsInv(env, INIT, steps);
  }

  /** There is never more than one report for an owner, and it has the owner's own name. */
  lemma OneReportPerOwner(env: Env, s: State, j: ReportKey, k: ReportKey)
    requires Reachable(env, s) && j in s.reports && k in s.reports
    requires s.reports[j].owner == s.reports[k].owner
    ensures j == k == env.ReportKeyOf(s.reports[k].owner)
  {
    ReachableInv(env, s);
    assert ReportOk(env, j, s.reports[j]) && ReportOk(env, k, s.reports[k]);
  }

  // ---------------------------------------------------------------- which resources share a report

  /** Exactly when two resources have one report between them: they are both cluster-scoped or in one namespace,
      their kinds agree up to case, and their names are equal or one of them is the hash that stands for the other. */
  lemma SameReportKeyIff(env: Env, a: ObjectRef, b: ObjectRef)
    requires env.naming.Faithful() && '-' !in a.kind && '-' !in b.kind
    ensures env.ReportKeyOf(a) == env.ReportKeyOf(b) <==>
            && IsClusterScopedKind(a.kind) == IsClusterScopedKind(b.kind)
            && (IsClusterScopedKind(a.kind) || a.namespace == b.namespace)
            && Lower(a.kind) == Lower(b.kind)
            && (|| a.name == b.name || HashOfOther(env.naming, a.kind, a.name, b.kind, b.name)
                || HashOfOther(env.naming, b.kind, b.name, a.kind, a.name))
  {
    SameResourceNameIff(env.naming, a.kind, a.name, b.kind, b.name);
  }

  /** A reconcile leaves the report of another resource as it was exactly when the two do not share one. */
  lemma ReconcileKeepsOthersIff(env: Env, s: State, ref: ObjectRef, order: seq<string>, k: ReportKey)
    requires env.naming.Faithful() && Reachable(env, s) && Enabled(env, s, Reconcile(ref, order))
    requires k in s.reports && s.reports[k].owner != ref
    requires '-' !in ref.kind && '-' !in s.reports[k].owner.kind
    ensures var s', other := Apply(env, s, Reconcile(ref, order)), s.reports[k].owner;
            && k in s'.reports
            && (s'.reports[k] != s.reports[k] <==>
                && IsClusterScopedKind(ref.kind) == IsClusterScopedKind(other.kind)
                && (IsClusterScopedKind(ref.kind) || ref.namespace == other.namespace)
                && Lower(ref.kind) == Lower(other.kind)
                && (|| ref.name == other.name || HashOfOther(env.naming, ref.kind, ref.name, other.kind, other.name)
                    || HashOfOther(env.naming, other.kind, other.name, ref.kind, ref.name)))
  {
    ReachableInv(env, s);
    assert ReportOk(env, k, s.reports[k]);
    SameReportKeyIff(env, ref, s.reports[k].owner);
  }

  /** Resources of one name and different kinds have reports of their own. */
  lemma DeploymentAndServiceApart(env: Env, name: string, namespace: string)
    requires env.naming.Faithful()
    ensures env.ReportKeyOf(ObjectRef("Deployment", name, namespace))
            != env.ReportKeyOf(ObjectRef("Service", name, namespace))
  {
    assert |Lower("Deployment")| != |Lower("Service")|;
    SameReportKeyIff(env, ObjectRef("Deployment", name, namespace), ObjectRef("Service", name, namespace));
  }

  // ---------------------------------------------------------------- what a reconcile reads and writes

  /** Pods of the built-in controllers and jobs of cron jobs are audited through their controllers. */
  lemma IgnoresIff(r: Resource)
    ensures Ignores(r) <==>
            || (r.ref.kind == "Pod" && (|| r.controller == Some("ReplicaSet")
                                        || r.controller == Some("ReplicationController")
                                        || r.controller == Some("StatefulSet") || r.controller == Some("DaemonSet")
                                        || r.controller == Some("Job")))
            || (r.ref.kind == "Job" && r.controller == Some("CronJob"))
  {
    if r.controller.Some? {
      var kind := r.controller.value;
      assert kind in ["ReplicaSet", "ReplicationController", "StatefulSet", "DaemonSet", "Job"] <==>
             kind == "ReplicaSet" || kind == "ReplicationController" || kind == "StatefulSet" || kind == "DaemonSet"
             || kind == "Job";
    }
  }

  /** The spec hash of a workload covers its pod spec, that of the other known kinds the whole object. */
  lemma HashedIff(r: Resource)
    ensures Hashed(r) == Some(PodSpecOf(r.podSpec)) <==>
            || r.ref.kind == "Pod" || r.ref.kind == "Deployment" || r.ref.kind == "ReplicaSet"
            || r.ref.kind == "ReplicationController" || r.ref.kind == "StatefulSet" || r.ref.kind == "DaemonSet"
            || r.ref.kind == "Job" || r.ref.kind == "CronJob"
    ensures Hashed(r) == Some(WholeObject(r)) <==>
            || r.ref.kind == "Service" || r.ref.kind == "ConfigMap" || r.ref.kind == "Role"
            || r.ref.kind == "RoleBinding" || r.ref.kind == "NetworkPolicy" || r.ref.kind == "Ingress"
            || r.ref.kind == "ResourceQuota" || r.ref.kind == "LimitRange" || r.ref.kind == "ClusterRole"
            || r.ref.kind == "ClusterRoleBinding" || r.ref.kind == "CustomResourceDefinition"
            || r.ref.kind == "PodSecurityPolicy"
    ensures Hashed(r).None? || Hashed(r) == Some(PodSpecOf(r.podSpec)) || Hashed(r) == Some(WholeObject(r))
  {
    WorkloadIff(r.ref.kind);
    HashedWholeIff(r.ref.kind);
    if IsHashedWhole(r.ref.kind) {
      WholeObjectsAreNoWorkloads(r.ref.kind);
    }
  }

  lemma WholeObjectsAreNoWorkloads(kind: string)
    requires IsHashedWhole(kind)
    ensures !IsWorkload(kind)
  {
  }

  lemma HashedWholeIff(kind: string)
    ensures IsHashedWhole(kind) <==>
            || kind == "Service" || kind == "ConfigMap" || kind == "Role" || kind == "RoleBinding"
            || kind == "NetworkPolicy" || kind == "Ingress" || kind == "ResourceQuota" || kind == "LimitRange"
            || kind == "ClusterRole" || kind == "ClusterRoleBinding" || kind == "CustomResourceDefinition"
            || kind == "PodSecurityPolicy"
  {
  }

  lemma NewReportIs(env: Env, s: State, ref: ObjectRef, order: seq<string>)
    requires Reviewable(env, s, ref) && s.resources[ref].ref == ref
    ensures var r, v, d := NewReport(env, s, ref, order), s.resources[ref], s.policies.value;
            && r.owner == ref && Hashed(v).Some? && r.specHash == env.specHash(Hashed(v).value)
            && r.configHash == env.modulesHash(ModulesOf(d, ref.kind)) && r.checks == ChecksIn(env, v, d, order)
  {
  }

  /** A reconcile stores a report of the resource with the hashes of what was evaluated, and changes nothing else. */
  lemma ReconcileWrites(env: Env, s: State, ref: ObjectRef, order: seq<string>)
    requires Inv(env, s) && Enabled(env, s, Reconcile(ref, order))
    ensures var s', k := Apply(env, s, Reconcile(ref, order)), env.ReportKeyOf(ref);
            && k in s'.reports && s' == s.(reports := s.reports[k := s'.reports[k]])
            && var r, v, d := s'.reports[k], s.resources[ref], s.policies.value;
               && r.owner == ref && Hashed(v).Some? && r.specHash == env.specHash(Hashed(v).value)
               && r.configHash == env.modulesHash(ModulesOf(d, ref.kind)) && r.checks == ChecksIn(env, v, d, order)
  {
    NewReportIs(env, s, ref, order);
    var r := NewReport(env, s, ref, order);
    assert Apply(env, s, Reconcile(ref, order)) == s.(reports := s.reports[env.ReportKeyOf(ref) := r]);
  }

  /** Its checks are the results of the selected policies, one for each. */
  lemma StoredChecks(env: Env, v: Resource, d: Data, order: seq<string>, i: nat)
    requires Enumerates(order, Selected(d, v.ref.kind).Keys) && Evaluates(env.engine, d, v.ref.kind, v) && i < |order|
    ensures |ChecksIn(env, v, d, order)| == |order| == |Selected(d, v.ref.kind)|
    ensures var check := ChecksIn(env, v, d, order)[i];
            var result := EvalPolicy(env.engine, LibrariesOf(d), order[i], Selected(d, v.ref.kind)[order[i]], v);
            && result.Ok? && check.id == result.value.metadata.id && check.title == result.value.metadata.title
            && check.description == result.value.metadata.description
            && check.severity == result.value.metadata.severity && check.category == result.value.metadata.category
            && check.success == result.value.success && check.messages == result.value.messages
  {
    EnumerationCounts(order, Selected(d, v.ref.kind).Keys);
    assert PolicyResult(env.engine, d, v.ref.kind, order[i], v).Ok?;
  }

  // ---------------------------------------------------------------- freshness

  /** If the reconcile of `ref` skips because a report matches, then evaluating now would succeed
      and could give exactly the stored checks. */
  ghost predicate Fresh(env: Env, s: State, ref: ObjectRef) {
    Reviewable(env, s, ref) && HasReport(env, s, ref) ==>
      && Evaluates(env.engine, s.policies.value, ref.kind, s.resources[ref])
      && ChecksOf(env, s.reports[env.ReportKeyOf(ref)].checks, s.resources[ref], s.policies.value)
  }

  /** Two versions of one resource, each under admissible policies, that the labels cannot tell apart. */
  ghost predicate SameLabels(env: Env, ref: ObjectRef, v: Resource, d: Data, v': Resource, d': Data) {
    && v.ref == ref && v'.ref == ref && env.admissible(d) && env.admissible(d')
    && Auditable(env, v, d) && Auditable(env, v', d') && env.Hashes(v, d) == env.Hashes(v', d')
  }

  ghost predicate SameOutcome(env: Env, v: Resource, d: Data, v': Resource, d': Data) {
    Evaluates(env.engine, d, v.ref.kind, v) ==>
      && Evaluates(env.engine, d', v'.ref.kind, v')
      && forall order :: Enumerates(order, Selected(d, v.ref.kind).Keys) ==>
           ChecksOf(env, ChecksIn(env, v, d, order), v', d')
  }

  /** Whatever the labels cannot tell apart evaluates alike. */
  ghost predicate LabelsDecide(env: Env, ref: ObjectRef) {
    forall v, d, v', d' :: SameLabels(env, ref, v, d, v', d') ==> SameOutcome(env, v, d, v', d')
  }

  lemma DecidingLabelsAreFresh(env: Env, s: State, ref: ObjectRef)
    requires Reachable(env, s) && LabelsDecide(env, ref)
    ensures Fresh(env, s, ref)
  {
    ReachableInv(env, s);
    if Reviewable(env, s, ref) && HasReport(env, s, ref) {
      var k := env.ReportKeyOf(ref);
      assert ReportOk(env, k, s.reports[k]);
      var v, d :| WasEvaluated(env, s.reports[k], v, d);
      assert SameLabels(env, ref, v, d, s.resources[ref], s.policies.value);
      assert SameOutcome(env, v, d, s.resources[ref], s.policies.value);
    }
  }

  /** A run that evaluates one version and then looks at another with the same labels. */
  lemma SkipRun(env: Env, ref: ObjectRef, v: Resource, d: Data, v': Resource, d': Data, order: seq<string>)
    returns (s: State)
    requires SameLabels(env, ref, v, d, v', d') && Evaluates(env.engine, d, ref.kind, v)
    requires Enumerates(order, Selected(d, ref.kind).Keys)
    ensures Reachable(env, s) && Reviewable(env, s, ref) && HasReport(env, s, ref)
    ensures s.resources[ref] == v' && s.policies == Some(d')
    ensures s.reports[env.ReportKeyOf(ref)].checks == ChecksIn(env, v, d, order)
  {
    InitReachable(env);
    var s1 := Switch(env, INIT, v, d);
    ReachableStep(env, s1, Reconcile(ref, order));
    var s2 := Apply(env, s1, Reconcile(ref, order));
    s := Switch(env, s2, v', d');
  }

  lemma Switch(env: Env, s: State, v: Resource, d: Data) returns (s': State)
    requires Reachable(env, s) && env.admissible(d)
    ensures Reachable(env, s') && s' == s.(resources := s.resources[v.ref := v], policies := Some(d))
  {
    ReachableStep(env, s, ApplyResource(v));
    var applied := Apply(env, s, ApplyResource(v));
    ReachableStep(env, applied, ChangePolicies(Some(d)));
    s' := Apply(env, applied, ChangePolicies(Some(d)));
  }

  lemma InitReachable(env: Env)
    ensures Reachable(env, INIT)
  {
    assert ValidRun(env, INIT, []) && Run(env, INIT, []) == INIT;
  }

  lemma {:induction false} RunThenStep(env: Env, s: State, steps: seq<Step>, step: Step)
    requires ValidRun(env, s, steps) && Enabled(env, Run(env, s, steps), step)
    ensures ValidRun(env, s, steps + [step])
    ensures Run(env, s, steps + [step]) == Apply(env, Run(env, s, steps), step)
    decreases |steps|
  {
    var all := steps + [step];
    if steps == [] {
      assert all[0] == step && all[1..] == [];
    } else {
      assert all[0] == steps[0] && all[1..] == steps[1..] + [step];
      RunThenStep(env, Apply(env, s, steps[0]), steps[1..], step);
    }
  }

  lemma ReachableStep(env: Env, s: State, step: Step)
    requires Reachable(env, s) && Enabled(env, s, step)
    ensures Reachable(env, Apply(env, s, step))
  {
    var steps :| ValidRun(env, INIT, steps) && Run(env, INIT, steps) == s;
    RunThenStep(env, INIT, steps, step);
  }

  /** Cache freshness over all runs holds exactly when the labels decide the outcome. */
  lemma FreshIff(env: Env, ref: ObjectRef)
    ensures (forall s :: Reachable(env, s) ==> Fresh(env, s, ref)) <==> LabelsDecide(env, ref)
  {
    if LabelsDecide(env, ref) {
      forall s | Reachable(env, s)
        ensures Fresh(env, s, ref)
      {
        DecidingLabelsAreFresh(env, s, ref);
      }
    } else {
      var v, d, v', d' :| SameLabels(env, ref, v, d, v', d') && !SameOutcome(env, v, d, v', d');
      var order := Listing(Selected(d, ref.kind).Keys);
      if Evaluates(env.engine, d', ref.kind, v') {
        order :| Enumerates(order, Selected(d, ref.kind).Keys) && !ChecksOf(env, ChecksIn(env, v, d, order), v', d');
      }
      var s := SkipRun(env, ref, v, d, v', d', order);
      assert !Fresh(env, s, ref);
    }
  }

  /** The rules of the policies look only at what the spec hash covers. */
  ghost predicate ReadsHashedPart(e: Engine, ref: ObjectRef) {
    forall v: Resource, v': Resource, modules, name ::
      v.ref == ref && v'.ref == ref && Hashed(v) == Hashed(v') ==>
        e.deny(modules, name, v) == e.deny(modules, name, v') && e.warn(modules, name, v) == e.warn(modules, name, v')
  }

  /** The lists of kinds of every ConfigMap belong to policies, not to libraries. */
  ghost predicate CleanPolicies(env: Env, kind: string) {
    forall d :: env.admissible(d) ==> SelectedLibraries(d, kind) == {}
  }

  lemma HashedPartDecides(e: Engine, d: Data, v: Resource, v': Resource, name: string)
    requires v.ref == v'.ref && Hashed(v) == Hashed(v') && ReadsHashedPart(e, v.ref)
    ensures PolicyResult(e, d, v.ref.kind, name, v) == PolicyResult(e, d, v.ref.kind, name, v')
  {
    if name in Selected(d, v.ref.kind) {
      var libs, code := LibrariesOf(d), Selected(d, v.ref.kind)[name];
      assert e.deny(libs[name := code], name, v) == e.deny(libs[name := code], name, v');
      RulesDecide(e, libs, name, code, v, v');
    }
  }

  lemma LabelsDecideWhen(env: Env, ref: ObjectRef)
    requires env.Faithful() && CleanPolicies(env, ref.kind) && ReadsHashedPart(env.engine, ref)
    ensures LabelsDecide(env, ref)
  {
    forall v, d, v', d' | SameLabels(env, ref, v, d, v', d')
      ensures SameOutcome(env, v, d, v', d')
    {
      SameLabelsSameOutcome(env, ref, v, d, v', d');
    }
  }

  lemma SameLabelsSameOutcome(env: Env, ref: ObjectRef, v: Resource, d: Data, v': Resource, d': Data)
    requires env.Faithful() && CleanPolicies(env, ref.kind) && ReadsHashedPart(env.engine, ref)
    requires SameLabels(env, ref, v, d, v', d')
    ensures SameOutcome(env, v, d, v', d')
  {
    SameLabelsSameParts(env, ref, v, d, v', d');
    PartsEvaluateAlike(env, ref, v, d, v', d', []);
    EqualModulesIff(d, d', ref.kind);
    forall order | Enumerates(order, Selected(d, ref.kind).Keys)
      ensures ChecksOf(env, ChecksIn(env, v, d, order), v', d')
    {
      PartsEvaluateAlike(env, ref, v, d, v', d', order);
    }
  }

  lemma PartsEvaluateAlike(
    env: Env, ref: ObjectRef, v: Resource, d: Data, v': Resource, d': Data, order: seq<string>)
    requires ReadsHashedPart(env.engine, ref) && v.ref == ref && v'.ref == ref && Hashed(v) == Hashed(v')
    requires !Malformed(d, ref.kind) && !Malformed(d', ref.kind) && ModulesOf(d, ref.kind) == ModulesOf(d', ref.kind)
    requires SelectedLibraries(d, ref.kind) == SelectedLibraries(d', ref.kind)
    ensures Evaluates(env.engine, d, ref.kind, v) <==> Evaluates(env.engine, d', ref.kind, v')
    ensures ChecksIn(env, v, d, order) == ChecksIn(env, v', d', order)
  {
    EqualModulesEvaluateAlike(env.engine, d, d', ref.kind, v', order);
    VersionsEvaluateAlike(env.engine, d, v, v', order);
  }

  /** The hashes are injective, so equal labels mean equal modules and an equal hashed part. */
  lemma SameLabelsSameParts(env: Env, ref: ObjectRef, v: Resource, d: Data, v': Resource, d': Data)
    requires env.Faithful() && CleanPolicies(env, ref.kind) && SameLabels(env, ref, v, d, v', d')
    ensures Hashed(v) == Hashed(v') && ModulesOf(d, ref.kind) == ModulesOf(d', ref.kind)
    ensures !Malformed(d, ref.kind) && !Malformed(d', ref.kind)
    ensures SelectedLibraries(d, ref.kind) == SelectedLibraries(d', ref.kind)
  {
    assert env.modulesHash(ModulesOf(d, ref.kind)) == env.modulesHash(ModulesOf(d', ref.kind));
    assert env.specHash(Hashed(v).value) == env.specHash(Hashed(v').value);
  }

  /** Under one ConfigMap, versions that hash alike evaluate alike. */
  ghost predicate HashedPartSuffices(env: Env, ref: ObjectRef) {
    forall d, v: Resource, v': Resource ::
      && env.admissible(d) && v.ref == ref && v'.ref == ref && Hashed(v) == Hashed(v')
      && Auditable(env, v, d) && Auditable(env, v', d)
      ==> SameOutcome(env, v, d, v', d)
  }

  /** With injective hashes and clean policies, cache freshness over all runs is a matter of single
      ConfigMaps: it holds exactly when each of them evaluates alike what hashes alike. */
  lemma FreshIffHashedPartSuffices(env: Env, ref: ObjectRef)
    requires env.Faithful() && CleanPolicies(env, ref.kind)
    ensures (forall s :: Reachable(env, s) ==> Fresh(env, s, ref)) <==> HashedPartSuffices(env, ref)
  {
    FreshIff(env, ref);
    if LabelsDecide(env, ref) {
      forall d, v: Resource, v': Resource |
        && env.admissible(d) && v.ref == ref && v'.ref == ref && Hashed(v) == Hashed(v')
        && Auditable(env, v, d) && Auditable(env, v', d)
        ensures SameOutcome(env, v, d, v', d)
      {
        assert SameLabels(env, ref, v, d, v', d);
      }
    }
    if HashedPartSuffices(env, ref) {
      forall v, d, v', d' | SameLabels(env, ref, v, d, v', d')
        ensures SameOutcome(env, v, d, v', d')
      {
        OneConfigMapIsEnough(env, ref, v, d, v', d');
      }
    }
  }

  lemma OneConfigMapIsEnough(env: Env, ref: ObjectRef, v: Resource, d: Data, v': Resource, d': Data)
    requires env.Faithful() && CleanPolicies(env, ref.kind) && HashedPartSuffices(env, ref)
    requires SameLabels(env, ref, v, d, v', d')
    ensures SameOutcome(env, v, d, v', d')
  {
    SameLabelsSameParts(env, ref, v, d, v', d');
    EqualModulesIff(d, d', ref.kind);
    assert Auditable(env, v', d);
    assert SameOutcome(env, v, d, v', d);
    OutcomeUnderOther(env, ref, v, d, v', d');
  }

  lemma OutcomeUnderOther(env: Env, ref: ObjectRef, v: Resource, d: Data, v': Resource, d': Data)
    requires v.ref == ref && v'.ref == ref && SameOutcome(env, v, d, v', d)
    requires !Malformed(d, ref.kind) && !Malformed(d', ref.kind) && ModulesOf(d, ref.kind) == ModulesOf(d', ref.kind)
    requires SelectedLibraries(d, ref.kind) == SelectedLibraries(d', ref.kind)
    ensures SameOutcome(env, v, d, v', d')
  {
    EqualModulesEvaluateAlike(env.engine, d, d', ref.kind, v', []);
    if Evaluates(env.engine, d, ref.kind, v) {
      forall order | Enumerates(order, Selected(d, ref.kind).Keys)
        ensures ChecksOf(env, ChecksIn(env, v, d, order), v', d')
      {
        ChecksUnderOther(env, ChecksIn(env, v, d, order), v', d, d');
      }
    }
  }

  lemma ChecksUnderOther(env: Env, checks: seq<Check>, v: Resource, d: Data, d': Data)
    requires ChecksOf(env, checks, v, d)
    requires !Malformed(d, v.ref.kind) && !Malformed(d', v.ref.kind)
    requires ModulesOf(d, v.ref.kind) == ModulesOf(d', v.ref.kind)
    requires SelectedLibraries(d, v.ref.kind) == SelectedLibraries(d', v.ref.kind)
    ensures ChecksOf(env, checks, v, d')
  {
    var order :| Enumerates(order, Selected(d, v.ref.kind).Keys) && checks == ChecksIn(env, v, d, order);
    EqualModulesEvaluateAlike(env.engine, d, d', v.ref.kind, v, order);
  }

  lemma VersionsEvaluateAlike(e: Engine, d: Data, v: Resource, v': Resource, order: seq<string>)
    requires v.ref == v'.ref && Hashed(v) == Hashed(v') && ReadsHashedPart(e, v.ref)
    ensures Evaluates(e, d, v.ref.kind, v) <==> Evaluates(e, d, v.ref.kind, v')
    ensures ResultsIn(e, d, v.ref.kind, v, order) == ResultsIn(e, d, v.ref.kind, v', order)
  {
    forall name
      ensures PolicyResult(e, d, v.ref.kind, name, v) == PolicyResult(e, d, v.ref.kind, name, v')
    {
      HashedPartDecides(e, d, v, v', name);
    }
  }

  /** Cache freshness: with clean policies that read only the hashed part of a resource, a reconcile
      that skips leaves a report that a new evaluation would write, in every reachable state. */
  lemma SkippedReportIsFresh(env: Env, s: State, ref: ObjectRef)
    requires env.Faithful() && CleanPolicies(env, ref.kind) && ReadsHashedPart(env.engine, ref)
    requires Reachable(env, s)
    ensures Fresh(env, s, ref)
  {
    LabelsDecideWhen(env, ref);
    DecidingLabelsAreFresh(env, s, ref);
  }

  /** The restriction matters: a change outside the pod spec of a workload that the policies do notice
      leads to a run in which the reconcile skips and the old report stays. */
  lemma UnhashedChangeIsMissed(env: Env, v: Resource, v': Resource, d: Data, order: seq<string>)
    requires IsWorkload(v.ref.kind) && v.ref == v'.ref && v.podSpec == v'.podSpec && env.admissible(d)
    requires Auditable(env, v, d) && Auditable(env, v', d) && Evaluates(env.engine, d, v.ref.kind, v)
    requires Enumerates(order, Selected(d, v.ref.kind).Keys) && !ChecksOf(env, ChecksIn(env, v, d, order), v', d)
    ensures exists s :: Reachable(env, s) && !Fresh(env, s, v.ref)
  {
    SamePodSpecSameLabels(env, v, v', d);
    var s := SkipRun(env, v.ref, v, d, v', d, order);
    StoredChecksDecide(env, s, v.ref, ChecksIn(env, v, d, order));
  }

  lemma SamePodSpecSameLabels(env: Env, v: Resource, v': Resource, d: Data)
    requires IsWorkload(v.ref.kind) && v.ref == v'.ref && v.podSpec == v'.podSpec && env.admissible(d)
    requires Auditable(env, v, d) && Auditable(env, v', d)
    ensures SameLabels(env, v.ref, v, d, v', d)
  {
  }

  lemma StoredChecksDecide(env: Env, s: State, ref: ObjectRef, checks: seq<Check>)
    requires Reviewable(env, s, ref) && HasReport(env, s, ref) && s.reports[env.ReportKeyOf(ref)].checks == checks
    requires !ChecksOf(env, checks, s.resources[ref], s.policies.value)
    ensures !Fresh(env, s, ref)
  {
  }

  /** An engine whose deny rule looks outside the pod spec. */
  const LOOKS_OUTSIDE := Engine(
    (name: string, code: string) => true,
    (modules: Data) => true,
    (modules: Data, name: string) => Some(Metadata("id", "title", "HIGH", "type", "description")),
    (modules: Data, name: string, r: Resource) => Bindings(if r.rest == "" then [] else [Values(Some("found"))]),
    (modules: Data, name: string, r: Resource) => Bindings([]))

  lemma SingletonOrder(order: seq<string>, x: string)
    requires Enumerates(order, {x})
    ensures order == [x]
  {
    EnumerationCounts(order, {x});
    assert order[0] == x;
  }

  /** What that engine finds in a version, with a single policy. */
  lemma LooksOutside(env: Env, v: Resource, key: string, code: string, order: seq<string>)
    requires env.engine == LOOKS_OUTSIDE && IsPolicyKey(key)
    requires Enumerates(order, Selected(OnePolicy(key, code), v.ref.kind).Keys)
    ensures Evaluates(env.engine, OnePolicy(key, code), v.ref.kind, v)
    ensures var checks := ChecksIn(env, v, OnePolicy(key, code), order);
            |checks| == 1 && (checks[0].success <==> v.rest == "")
  {
    var d := OnePolicy(key, code);
    OnePolicyData(key, code, v.ref.kind);
    SingletonOrder(order, key);
    OutsideResult(LibrariesOf(d), key, code, v);
  }

  lemma OutsideResult(libs: Data, key: string, code: string, v: Resource)
    ensures var r := EvalPolicy(LOOKS_OUTSIDE, libs, key, code, v); r.Ok? && (r.value.success <==> v.rest == "")
  {
    var rows := [Values(Some("found"))];
    assert HasBindings(rows) && AllHaveMessages(rows);
  }

  /** Such a change exists: for any pod and policy, hashes and batch limit. */
  lemma UnhashedChangeExample(env: Env, name: string, namespace: string, podSpec: string, key: string, code: string)
    requires env.engine == LOOKS_OUTSIDE && IsPolicyKey(key) && env.admissible(OnePolicy(key, code))
    ensures exists s :: Reachable(env, s) && !Fresh(env, s, ObjectRef("Pod", name, namespace))
  {
    var v := Resource(ObjectRef("Pod", name, namespace), None, podSpec, "");
    var v' := v.(rest := "changed");
    var d := OnePolicy(key, code);
    OnePolicyData(key, code, "Pod");
    var order := [key];
    LooksOutside(env, v, key, code, order);
    LooksOutside(env, v', key, code, order);
    forall other | Enumerates(other, Selected(d, "Pod").Keys)
      ensures ChecksIn(env, v, d, order) != ChecksIn(env, v', d, other)
    {
      LooksOutside(env, v', key, code, other);
    }
    UnhashedChangeIsMissed(env, v, v', d, order);
  }

  /** For kinds that are hashed as a whole the rules need no restriction. */
  lemma WholeObjectsAreAlwaysRead(e: Engine, ref: ObjectRef)
    requires IsHashedWhole(ref.kind)
    ensures ReadsHashedPart(e, ref)
  {
    WholeObjectsAreNoWorkloads(ref.kind);
  }

  // ---------------------------------------------------------------- batch invalidation

  lemma BatchEffect(env: Env, s: State, kind: string, deleted: set<ReportKey>)
    requires Enabled(env, s, Invalidate(kind, deleted))
    ensures var s', n := Apply(env, s, Invalidate(kind, deleted)), |Stale(env, s, kind)|;
            && Stale(env, s', kind) == Stale(env, s, kind) - deleted
            && |Stale(env, s', kind)| == n - Min(env.batchLimit, n)
            && (forall k :: k in s.reports && k !in Stale(env, s, kind) ==>
                  k in s'.reports && s'.reports[k] == s.reports[k])
  {
    assert Stale(env, Apply(env, s, Invalidate(kind, deleted)), kind) == Stale(env, s, kind) - deleted;
  }

  /** The calls that follow each other's requeues until one does not ask for another. */
  ghost predicate Drains(env: Env, s: State, kind: string, steps: seq<Step>)
    requires ValidRun(env, s, steps) && s.policies.Some?
    decreases |steps|
  {
    && steps != [] && steps[0].Invalidate? && steps[0].kind == kind
    && if Requeues(env, s, kind) then Drains(env, Apply(env, s, steps[0]), kind, steps[1..]) else |steps| == 1
  }

  /** `max(1, ceil(n / limit))`. */
  function Calls(n: nat, limit: nat): nat
    requires limit >= 1
  {
    if n == 0 then 1 else (n + limit - 1) / limit
  }

  lemma CallsStep(n: nat, limit: nat)
    requires limit >= 1
    ensures n <= limit ==> Calls(n, limit) == 1
    ensures n > limit ==> Calls(n, limit) == 1 + Calls(n - limit, limit)
  {
    if 0 < n <= limit {
      assert n + limit - 1 == 1 * limit + (n - 1);
      DivUnique(n + limit - 1, limit, 1, n - 1);
    } else if n > limit {
      var q, r := (n - 1) / limit, (n - 1) % limit;
      assert n + limit - 1 == (q + 1) * limit + r;
      DivUnique(n + limit - 1, limit, q + 1, r);
    }
  }

  lemma DivUnique(a: int, b: int, q: int, r: int)
    requires b > 0 && a == q * b + r && 0 <= r < b
    ensures a / b == q
  {
    var k := q - a / b;
    assert a == (a / b) * b + a % b;
    assert k * b == a % b - r;
    assert k > 0 ==> k * b >= b;
    assert k < 0 ==> k * b <= -b;
  }

  /** Following the requeues ends after exactly `max(1, ceil(n / limit))` calls. By then all the stale
      reports are gone and every other report is untouched. */
  lemma {:induction false} RequeuesDrain(env: Env, s: State, kind: string, steps: seq<Step>)
    requires env.batchLimit >= 1 && s.policies.Some?
    requires ValidRun(env, s, steps) && Drains(env, s, kind, steps)
    ensures |steps| == Calls(|Stale(env, s, kind)|, env.batchLimit)
    ensures Run(env, s, steps) == s.(reports := s.reports - Stale(env, s, kind))
    decreases |steps|
  {
    var s', n := Apply(env, s, steps[0]), |Stale(env, s, kind)|;
    var deleted := steps[0].deleted;
    BatchEffect(env, s, kind, deleted);
    CallsStep(n, env.batchLimit);
    if Requeues(env, s, kind) {
      RequeuesDrain(env, s', kind, steps[1..]);
      assert s.reports - deleted - Stale(env, s', kind) == s.reports - Stale(env, s, kind);
    } else {
      FullSubset(deleted, Stale(env, s, kind));
      assert steps[1..] == [];
    }
  }

  /** When the requeues end, every report for the kind was made under the current policies, and what was made under
      them, or for another kind, is as it was. */
  lemma DrainedIsCurrent(env: Env, s: State, kind: string, steps: seq<Step>, k: ReportKey)
    requires env.batchLimit >= 1 && s.policies.Some? && Reachable(env, s)
    requires ValidRun(env, s, steps) && Drains(env, s, kind, steps) && k in s.reports
    ensures var s' := Run(env, s, steps);
            && s'.resources == s.resources && s'.policies == s.policies && s'.reports.Keys <= s.reports.Keys
            && (k in s'.reports <==> s.reports[k].owner.kind != kind
                                     || s.reports[k].configHash == env.modulesHash(ModulesOf(s.policies.value, kind)))
            && (k in s'.reports ==> s'.reports[k] == s.reports[k])
  {
    RequeuesDrain(env, s, kind, steps);
    ReachableInv(env, s);
    assert ReportOk(env, k, s.reports[k]);
  }

  lemma FullSubset<T>(part: set<T>, whole: set<T>)
    requires part <= whole && |part| == |whole|
    ensures part == whole
  {
    assert |whole - part| == |whole| - |part|;
  }

  lemma {:induction false} SubsetOfSize<T>(whole: set<T>, n: nat) returns (part: set<T>)
    requires n <= |whole|
    ensures part <= whole && |part| == n
  {
    if n == 0 {
      part := {};
    } else {
      var x :| x in whole;
      part := SubsetOfSize(whole - {x}, n - 1);
      part := part + {x};
    }
  }

  /** From every state with well-formed policies the requeues can be followed to the end. */
  lemma {:induction false} DrainExists(env: Env, s: State, kind: string) returns (steps: seq<Step>)
    requires env.batchLimit >= 1 && s.policies.Some? && !Malformed(s.policies.value, kind)
    ensures ValidRun(env, s, steps) && Drains(env, s, kind, steps)
    decreases |Stale(env, s, kind)|
  {
    var n := |Stale(env, s, kind)|;
    var deleted := SubsetOfSize(Stale(env, s, kind), Min(env.batchLimit, n));
    var step := Invalidate(kind, deleted);
    BatchEffect(env, s, kind, deleted);
    if Requeues(env, s, kind) {
      var rest := DrainExists(env, Apply(env, s, step), kind);
      steps := [step] + rest;
      assert steps[1..] == rest;
    } else {
      steps := [step];
      assert steps[1..] == [];
    }
  }

  /** With a batch limit of zero a call deletes nothing and asks for another one as long as anything is stale. */
  lemma ZeroLimitNeverDrains(env: Env, s: State, kind: string, deleted: set<ReportKey>)
    requires env.batchLimit == 0 && Enabled(env, s, Invalidate(kind, deleted))
    ensures Apply(env, s, Invalidate(kind, deleted)) == s
    ensures Requeues(env, s, kind) <==> Stale(env, s, kind) != {}
  {
    assert deleted == {};
    assert s.reports - {} == s.reports;
  }

  /** While the policies stay, nothing makes a report stale: what a reconcile writes is current. */
  lemma StaleOnlyShrinks(env: Env, s: State, step: Step, kind: string)
    requires Inv(env, s) && Enabled(env, s, step) && !step.ChangePolicies? && s.policies.Some?
    ensures Apply(env, s, step).policies == s.policies
    ensures Stale(env, Apply(env, s, step), kind) <= Stale(env, s, kind)
  {
  }

  ghost predicate PoliciesStay(steps: seq<Step>) {
    forall i :: 0 <= i < |steps| ==> !steps[i].ChangePolicies?
  }

  /** The number of batch deletions for `kind` in a run. */
  function BatchCalls(steps: seq<Step>, kind: string): nat {
    if steps == [] then 0
    else (if IsBatchCall(steps[0], kind) then 1 else 0) + BatchCalls(steps[1..], kind)
  }

  /** One step leaves no more stale reports, and a batch deletion a whole batch fewer. */
  lemma StepDrains(env: Env, s: State, step: Step, kind: string)
    requires Inv(env, s) && Enabled(env, s, step) && !step.ChangePolicies? && s.policies.Some?
    ensures Apply(env, s, step).policies == s.policies
    ensures var left, n := |Stale(env, Apply(env, s, step), kind)|, |Stale(env, s, kind)|;
            left <= n && (step.Invalidate? && step.kind == kind ==> left == n - Min(env.batchLimit, n))
  {
    StaleOnlyShrinks(env, s, step, kind);
    SubsetSize(Stale(env, Apply(env, s, step), kind), Stale(env, s, kind));
    if step.Invalidate? && step.kind == kind {
      BatchEffect(env, s, kind, step.deleted);
    }
  }

  /** What `calls` batches leave of `n`. */
  function Left(n: nat, calls: nat, limit: nat): nat
    decreases calls
  {
    if calls == 0 then n else Left(n - Min(limit, n), calls - 1, limit)
  }

  lemma {:induction false} LeftMonotone(m: nat, n: nat, calls: nat, limit: nat)
    requires m <= n
    ensures Left(m, calls, limit) <= Left(n, calls, limit)
    decreases calls
  {
    if calls > 0 {
      LeftMonotone(m - Min(limit, m), n - Min(limit, n), calls - 1, limit);
    }
  }

  lemma {:induction false} LeftIs(n: nat, calls: nat, limit: nat)
    ensures Left(n, calls, limit) == if calls * limit >= n then 0 else n - calls * limit
    decreases calls
  {
    if calls > 0 {
      LeftIs(n - Min(limit, n), calls - 1, limit);
      assert calls * limit == (calls - 1) * limit + limit;
    }
  }

  lemma LeftAfter(middle: nat, n: nat, batch: bool, calls: nat, limit: nat)
    requires if batch then middle == n - Min(limit, n) else middle <= n
    ensures Left(middle, calls, limit) <= Left(n, (if batch then 1 else 0) + calls, limit)
  {
    if !batch {
      LeftMonotone(middle, n, calls, limit);
    }
  }

  lemma PoliciesStayAfter(steps: seq<Step>)
    requires steps != [] && PoliciesStay(steps)
    ensures !steps[0].ChangePolicies? && PoliciesStay(steps[1..])
  {
    assert forall i :: 0 <= i < |steps[1..]| ==> steps[1..][i] == steps[i + 1];
  }

  ghost function StaleCount(env: Env, s: State, kind: string): nat {
    if s.policies.Some? then |Stale(env, s, kind)| else 0
  }

  predicate IsBatchCall(step: Step, kind: string) {
    step.Invalidate? && step.kind == kind
  }

  lemma CountDrains(env: Env, s: State, step: Step, kind: string, calls: nat)
    requires Inv(env, s) && Enabled(env, s, step) && !step.ChangePolicies? && s.policies.Some?
    ensures Inv(env, Apply(env, s, step)) && Apply(env, s, step).policies == s.policies
    ensures Left(StaleCount(env, Apply(env, s, step), kind), calls, env.batchLimit)
            <= Left(StaleCount(env, s, kind), (if IsBatchCall(step, kind) then 1 else 0) + calls, env.batchLimit)
  {
    StepKeepsInv(env, s, step);
    StepDrains(env, s, step, kind);
    LeftAfter(StaleCount(env, Apply(env, s, step), kind), StaleCount(env, s, kind), IsBatchCall(step, kind), calls,
              env.batchLimit);
  }

  lemma {:induction false} InterleavedBatches(env: Env, s: State, kind: string, steps: seq<Step>)
    requires Inv(env, s) && s.policies.Some? && ValidRun(env, s, steps) && PoliciesStay(steps)
    ensures Run(env, s, steps).policies == s.policies
    ensures StaleCount(env, Run(env, s, steps), kind)
            <= Left(StaleCount(env, s, kind), BatchCalls(steps, kind), env.batchLimit)
    decreases |steps|
  {
    if steps != [] {
      PoliciesStayAfter(steps);
      CountDrains(env, s, steps[0], kind, BatchCalls(steps[1..], kind));
      InterleavedBatches(env, Apply(env, s, steps[0]), kind, steps[1..]);
    }
  }

  /** Whatever reconciles, resource changes and deletions run in between, `c` calls leave at most
      `n - c * limit` stale reports, so `ceil(n / limit)` calls are enough. */
  lemma InterleavedDrain(env: Env, s: State, kind: string, steps: seq<Step>)
    requires Inv(env, s) && s.policies.Some? && ValidRun(env, s, steps) && PoliciesStay(steps)
    ensures Run(env, s, steps).policies == s.policies
    ensures var left, n := |Stale(env, Run(env, s, steps), kind)|, |Stale(env, s, kind)|;
            var calls := BatchCalls(steps, kind);
            left == 0 || left + calls * env.batchLimit <= n
  {
    InterleavedBatches(env, s, kind, steps);
    LeftIs(|Stale(env, s, kind)|, BatchCalls(steps, kind), env.batchLimit);
  }

  lemma SubsetSize<T>(part: set<T>, whole: set<T>)
    requires part <= whole
    ensures |part| <= |whole|
  {
    assert |whole - part| == |whole| - |part|;
  }
}
