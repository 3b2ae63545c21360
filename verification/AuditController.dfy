/** The reconcilers of the built-in configuration audit scanner, proved against the steps of the cache. */
module AuditController {
  import opened Collections
  import opened Kube
  import opened Policy
  import opened PolicyEval
  import A = AuditCache

  /** The stored objects. `budget` is the number of writes that succeed from now on. */
  class AuditStore {
    var resources: map<ObjectRef, Resource>
    var policies: Option<Data>
    var reports: map<A.ReportKey, A.AuditReport>
    var budget: nat

    constructor (s: A.State, budget: nat)
      ensures Contents() == s && this.budget == budget
    {
      resources, policies, reports := s.resources, s.policies, s.reports;
      this.budget := budget;
    }

    function Contents(): A.State
      reads this
    {
      A.State(resources, policies, reports)
    }

    method Delete(k: A.ReportKey) returns (ok: bool)
      modifies `reports, `budget
      ensures ok <==> old(budget) > 0
      ensures reports == if ok then old(reports) - {k} else old(reports)
      ensures budget == if ok then old(budget) - 1 else old(budget)
    {
      if budget == 0 {
        return false;
      }
      reports := reports - {k};
      budget := budget - 1;
      ok := true;
    }
  }

  class ResourceController {
    const env: A.Env
    const store: AuditStore
    const retryAfter: int
    const batchDeleteDelay: int

    constructor (env: A.Env, store: AuditStore, retryAfter: int, batchDeleteDelay: int)
      ensures this.env == env && this.store == store
    {
      this.env, this.store := env, store;
      this.retryAfter, this.batchDeleteDelay := retryAfter, batchDeleteDelay;
    }

    /** Every report is stored under the name of its owner, and every resource under its reference. */
    ghost predicate Valid()
      reads store
    {
      && (forall k :: k in store.reports ==> k == env.ReportKeyOf(store.reports[k].owner))
      && (forall ref :: ref in store.resources ==> store.resources[ref].ref == ref)
    }

    /** The first of the reports listed for the owner; there is at most one. */
    method FindReportByOwner(owner: ObjectRef) returns (r: Option<A.AuditReport>)
      requires Valid()
      ensures var k := env.ReportKeyOf(owner);
              r == if k in store.reports && store.reports[k].owner == owner then Some(store.reports[k]) else None
    {
      var clusterWide := IsClusterScopedKind(owner.kind);
      var keys := set k | k in store.reports && k.ClusterWide? == clusterWide && store.reports[k].owner == owner;
      var items := Enumerate(keys);
      ghost var k := env.ReportKeyOf(owner);
      assert k in keys <==> k in store.reports && store.reports[k].owner == owner;
      assert k in keys ==> k in items;
      if |items| > 0 {
        assert items[0] == k;
        return Some(store.reports[items[0]]);
      }
      r := None;
    }

    method HasReport(owner: ObjectRef, specHash: string, configHash: string) returns (has: bool)
      requires Valid()
      ensures var k := env.ReportKeyOf(owner);
              has == (k in store.reports && store.reports[k].owner == owner &&
                      store.reports[k].specHash == specHash && store.reports[k].configHash == configHash)
    {
      var report := FindReportByOwner(owner);
      if report.None? {
        return false;
      }
      has := report.value.specHash == specHash && report.value.configHash == configHash;
    }

    /** Turns results into checks, slot by slot. */
    method ToChecks(results: seq<CheckResult>) returns (checks: array<A.Check>)
      ensures fresh(checks) && checks[..] == MapSeq(A.ToCheck, results)
      ensures forall i :: 0 <= i < |results| ==>
                && checks[i].id == results[i].metadata.id && checks[i].title == results[i].metadata.title
                && checks[i].description == results[i].metadata.description
                && checks[i].severity == results[i].metadata.severity
                && checks[i].category == results[i].metadata.category
                && checks[i].success == results[i].success && checks[i].messages == results[i].messages
    {
      checks := new A.Check[|results|](_ => A.Check("", "", "", "", "", false, []));
      for i := 0 to |results|
        invariant forall j :: 0 <= j < i ==> checks[j] == A.ToCheck(results[j])
      {
        var result := results[i];
        checks[i] := A.Check(
          result.metadata.id, result.metadata.title, result.metadata.description, result.metadata.severity,
          result.metadata.category, result.success, result.messages);
      }
    }

    /** Writes exactly the report of the cache's reconcile step when one is due and can be evaluated and
        stored, and changes nothing otherwise. A reconcile that is not skipped ends with an error when the policies are
        missing or malformed, the kind has no spec hash, or the report that is due cannot be evaluated or stored. */
    method ReconcileResource(ref: ObjectRef) returns (result: ReconcileResult, ghost order: seq<string>)
      requires Valid()
      modifies store
      ensures Valid()
      ensures var s := old(store.Contents());
              if A.Reviewable(env, s, ref) && !A.HasReport(env, s, ref) && old(store.budget) > 0
                 && Evaluates(env.engine, s.policies.value, ref.kind, s.resources[ref])
              then A.Enabled(env, s, A.Reconcile(ref, order))
                   && store.Contents() == A.Apply(env, s, A.Reconcile(ref, order))
              else store.Contents() == s
      ensures result.Error? <==>
                var s, budget := old(store.Contents()), old(store.budget);
                && ref in s.resources && !A.Ignores(s.resources[ref])
                && (|| s.policies.None? || ref.kind == "" || Malformed(s.policies.value, ref.kind)
                    || (Selected(s.policies.value, ref.kind) != map[] && A.Hashed(s.resources[ref]).None?)
                    || (A.Reviewable(env, s, ref) && !A.HasReport(env, s, ref)
                        && (budget == 0 || !Evaluates(env.engine, s.policies.value, ref.kind, s.resources[ref]))))
      ensures result.RequeueAfter? <==>
                var s := old(store.Contents());
                && ref in s.resources && !A.Ignores(s.resources[ref]) && s.policies.Some? && ref.kind != ""
                && !Malformed(s.policies.value, ref.kind) && Selected(s.policies.value, ref.kind) == map[]
    {
      order := [];
      if ref !in store.resources {
        return Done, order;
      }
      var resource := store.resources[ref];
      if ref.kind == "Pod" && IsBuiltInWorkload(resource.controller) {
        return Done, order;
      }
      if ref.kind == "Job" && resource.controller == Some("CronJob") {
        return Done, order;
      }
      if store.policies.None? {
        return Error, order;
      }
      var policies := Policies(store.policies.value);
      var applicable := policies.Applicable(ref.kind);
      if applicable.Err? {
        return Error, order;
      }
      if !applicable.value {
        return RequeueAfter(retryAfter), order;
      }
      var part := A.Hashed(resource);
      if part.None? {
        return Error, order;
      }
      var modules := policies.ModulesByKind(ref.kind);
      var specHash, configHash := env.specHash(part.value), env.modulesHash(modules.value);
      var hasReport := HasReport(ref, specHash, configHash);
      if hasReport {
        return Done, order;
      }
      result, order := EvaluateAndWrite(ref, specHash, configHash);
    }

    method Evaluate(resource: Resource, policies: Policies)
      returns (r: Result<seq<A.Check>, EvalError>, ghost order: seq<string>)
      ensures r.Ok? <==> resource.ref.kind != "" && Evaluates(env.engine, policies.data, resource.ref.kind, resource)
      ensures r.Ok? ==>
                && Enumerates(order, Selected(policies.data, resource.ref.kind).Keys)
                && r.value == A.ChecksIn(env, resource, policies.data, order)
    {
      var evaluator := new Evaluator(env.engine, policies);
      var results;
      results, order := evaluator.Eval(resource);
      if results.Err? {
        return Err(results.error), order;
      }
      var checks := ToChecks(results.value);
      r := Ok(checks[..]);
    }

    /** Creates the report or replaces the stored one of the same name. */
    method WriteReport(report: A.AuditReport) returns (ok: bool)
      requires Valid()
      modifies store`reports, store`budget
      ensures Valid() && (ok <==> old(store.budget) > 0)
      ensures store.reports == if ok then old(store.reports)[env.ReportKeyOf(report.owner) := report]
                               else old(store.reports)
    {
      if store.budget == 0 {
        return false;
      }
      store.reports := store.reports[env.ReportKeyOf(report.owner) := report];
      store.budget := store.budget - 1;
      ok := true;
    }

    method EvaluateAndWrite(ref: ObjectRef, specHash: string, configHash: string)
      returns (result: ReconcileResult, ghost order: seq<string>)
      requires Valid() && A.Reviewable(env, store.Contents(), ref)
      requires env.Hashes(store.resources[ref], store.policies.value) == Some((specHash, configHash))
      modifies store`reports, store`budget
      ensures Valid() && !result.RequeueAfter?
      ensures result.Error? <==>
                var s := old(store.Contents());
                old(store.budget) == 0 || !Evaluates(env.engine, s.policies.value, ref.kind, s.resources[ref])
      ensures var s := old(store.Contents());
              if old(store.budget) > 0 && Evaluates(env.engine, s.policies.value, ref.kind, s.resources[ref])
              then Enumerates(order, Selected(s.policies.value, ref.kind).Keys)
                   && store.Contents()
                      == s.(reports := s.reports[env.ReportKeyOf(ref) := A.NewReport(env, s, ref, order)])
              else store.Contents() == s
    {
      var checks;
      checks, order := Evaluate(store.resources[ref], Policies(store.policies.value));
      if checks.Err? {
        return Error, order;
      }
      EvaluatedReport(env, store.Contents(), ref, order, specHash, configHash);
      var ok := WriteReport(A.AuditReport(ref, specHash, configHash, checks.value));
      return if ok then Done else Error, order;
    }

    /** Lists reports of the kind that carry another policies hash, at most `limit` of them. */
    method ListStale(kind: string, configHash: string, limit: nat) returns (items: seq<A.ReportKey>)
      ensures var all := set k | k in store.reports && k.ClusterWide? == IsClusterScopedKind(kind)
                                 && store.reports[k].owner.kind == kind && store.reports[k].configHash != configHash;
              && |items| == Min(limit, |all|)
              && (forall i :: 0 <= i < |items| ==> items[i] in all)
              && (forall i, j :: 0 <= i < j < |items| ==> items[i] != items[j])
    {
      var clusterWide := IsClusterScopedKind(kind);
      var all := set k | k in store.reports && k.ClusterWide? == clusterWide
                         && store.reports[k].owner.kind == kind && store.reports[k].configHash != configHash;
      items := Enumerate(all);
      EnumerationCounts(items, all);
      if |items| > limit {
        items := items[..limit];
      }
    }

    /** Deletes the first `count` items, until a call fails. */
    method DeleteItems(items: seq<A.ReportKey>, count: nat) returns (ok: bool, ghost deleted: set<A.ReportKey>)
      requires count <= |items| && forall i, j :: 0 <= i < j < |items| ==> items[i] != items[j]
      modifies store`reports, store`budget
      ensures store.reports == old(store.reports) - deleted
      ensures deleted == Elements(items[..Min(count, old(store.budget))]) && |deleted| == Min(count, old(store.budget))
      ensures ok <==> old(store.budget) >= count
    {
      deleted := {};
      assert store.reports - {} == store.reports;
      for i := 0 to count
        invariant store.reports == old(store.reports) - deleted
        invariant i <= old(store.budget) && store.budget == old(store.budget) - i
        invariant |deleted| == i && deleted == Elements(items[..i])
      {
        ok := store.Delete(items[i]);
        if !ok {
          return;
        }
        NextItem(items, i);
        deleted := deleted + {items[i]};
      }
      ok := true;
    }

    /** One call of the batch deletion. While deletes succeed it is exactly one invalidation step of the
        cache, and it asks to be called again exactly when the step leaves stale reports behind. */
    method ReconcileConfig(kind: string) returns (result: ReconcileResult, ghost deleted: set<A.ReportKey>)
      modifies store
      ensures var s := old(store.Contents());
              if s.policies.None? || Malformed(s.policies.value, kind)
              then store.Contents() == s && result == if s.policies.None? then Done else Error
              else
                && deleted <= A.Stale(env, s, kind)
                && store.Contents() == s.(reports := s.reports - deleted)
                && |deleted| == Min(old(store.budget), Min(env.batchLimit, |A.Stale(env, s, kind)|))
                && (result.Error? <==> old(store.budget) < Min(env.batchLimit, |A.Stale(env, s, kind)|))
                && (!result.Error? ==> A.IsBatch(env, s, kind, deleted))
                && (!result.Error? ==> (result.RequeueAfter? <==> A.Requeues(env, s, kind)))
    {
      deleted := {};
      assert store.reports - {} == store.reports;
      if store.policies.None? {
        return Done, deleted;
      }
      var policies := Policies(store.policies.value);
      var modules := policies.ModulesByKind(kind);
      if modules.Err? {
        return Error, deleted;
      }
      ghost var s := store.Contents();
      var items := ListStale(kind, env.modulesHash(modules.value), env.batchLimit + 1);
      var count := if env.batchLimit < |items| then env.batchLimit else |items|;
      var ok;
      ok, deleted := DeleteItems(items, count);
      assert deleted <= A.Stale(env, s, kind);
      if !ok {
        return Error, deleted;
      }
      if |items| > env.batchLimit {
        return RequeueAfter(batchDeleteDelay), deleted;
      }
      return Done, deleted;
    }
  }

  lemma NextItem(items: seq<A.ReportKey>, i: nat)
    requires i < |items| && forall j, k :: 0 <= j < k < |items| ==> items[j] != items[k]
    ensures Elements(items[..i + 1]) == Elements(items[..i]) + {items[i]} && items[i] !in Elements(items[..i])
  {
    PrefixStep(items, i);
  }

  lemma EvaluatedReport(
    env: A.Env, s: A.State, ref: ObjectRef, order: seq<string>, specHash: string, configHash: string)
    requires A.Reviewable(env, s, ref)
    requires env.Hashes(s.resources[ref], s.policies.value) == Some((specHash, configHash))
    ensures A.AuditReport(ref, specHash, configHash, A.ChecksIn(env, s.resources[ref], s.policies.value, order))
            == A.NewReport(env, s, ref, order)
  {
  }
}
