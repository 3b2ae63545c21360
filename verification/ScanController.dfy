/** The reconcilers of the vulnerability scanner, working call by call on the object store. Each
    method is proved against the step of the protocol it implements. */
module ScanController {
  import opened Collections
  import opened Kube
  import P = ScanProtocol
  import S = ScanSafety
  import C = ScanConvergence

  datatype ApiResult = Succeeded | AlreadyExists | NotFound | Unavailable

  /** The objects in the cluster. `budget` is the number of API calls that succeed from now on. */
  class Cluster {
    var workloads: map<ObjectRef, P.Workload>
    var jobs: map<Key, P.Job>
    var reports: P.Reports
    var secrets: P.Secrets
    var budget: nat

    constructor (s: P.State, budget: nat)
      ensures Contents() == s.(pending := map[]) && this.budget == budget
    {
      workloads, jobs, reports, secrets := s.workloads, s.jobs, s.reports, s.secrets;
      this.budget := budget;
    }

    function Contents(): P.State
      reads this
    {
      P.State(workloads, jobs, reports, secrets, map[])
    }

    method CreateSecret(k: Key) returns (r: ApiResult)
      modifies `secrets, `budget
      ensures r == if old(budget) == 0 then Unavailable else if k in old(secrets) then AlreadyExists else Succeeded
      ensures secrets == if r.Succeeded? then old(secrets)[k := P.Secret(None)] else old(secrets)
      ensures budget == if r.Succeeded? then old(budget) - 1 else old(budget)
    {
      if budget == 0 {
        return Unavailable;
      }
      if k in secrets {
        return AlreadyExists;
      }
      secrets := secrets[k := P.Secret(None)];
      budget := budget - 1;
      return Succeeded;
    }

    method CreateJob(k: Key, job: P.Job) returns (r: ApiResult)
      modifies `jobs, `budget
      ensures r == if old(budget) == 0 then Unavailable else if k in old(jobs) then AlreadyExists else Succeeded
      ensures jobs == if r.Succeeded? then old(jobs)[k := job] else old(jobs)
      ensures budget == if r.Succeeded? then old(budget) - 1 else old(budget)
    {
      if budget == 0 {
        return Unavailable;
      }
      if k in jobs {
        return AlreadyExists;
      }
      jobs := jobs[k := job];
      budget := budget - 1;
      return Succeeded;
    }

    method UpdateSecret(k: Key, secret: P.Secret) returns (r: ApiResult)
      modifies `secrets, `budget
      ensures r == if old(budget) == 0 then Unavailable else Succeeded
      ensures secrets == if r.Succeeded? then old(secrets)[k := secret] else old(secrets)
      ensures budget == if r.Succeeded? then old(budget) - 1 else old(budget)
    {
      if budget == 0 {
        return Unavailable;
      }
      secrets := secrets[k := secret];
      budget := budget - 1;
      return Succeeded;
    }

    /** Deletes the job; its secrets are collected with it. */
    method DeleteJob(k: Key) returns (r: ApiResult)
      modifies this
      ensures Contents() == P.DeleteJob(old(Contents()), k, old(budget))
      ensures r.Unavailable? <==> old(budget) == 0
    {
      if budget == 0 {
        return Unavailable;
      }
      budget := budget - 1;
      r := if k in jobs then Succeeded else NotFound;
      jobs := jobs - {k};
      secrets := map x | x in secrets && secrets[x].ownedBy != Some(k) :: secrets[x];
    }

    method DeleteReport(k: Key) returns (r: ApiResult)
      modifies `reports, `budget
      ensures reports == if old(budget) == 0 then old(reports) else old(reports) - {k}
      ensures r.Unavailable? <==> old(budget) == 0
    {
      if budget == 0 {
        return Unavailable;
      }
      budget := budget - 1;
      r := if k in reports then Succeeded else NotFound;
      reports := reports - {k};
    }
  }

  /** Where the reports of an owner are stored. */
  function OwnedBy(reports: P.Reports, owner: ObjectRef): set<Key> {
    set k | k in reports && k.namespace == owner.namespace && reports[k].owner == owner
  }

  /** The list holds the reports stored under these keys, in this order. */
  predicate ListsReports(reports: P.Reports, order: seq<Key>, list: seq<P.Report>) {
    |list| == |order| && forall i :: 0 <= i < |order| ==> order[i] in reports && list[i] == reports[order[i]]
  }

  /** Counts the managed jobs against the configured limit. */
  class LimitChecker {
    const env: P.Env
    const cluster: Cluster

    constructor (env: P.Env, cluster: Cluster)
      ensures this.env == env && this.cluster == cluster
    {
      this.env, this.cluster := env, cluster;
    }

    method Check() returns (exceeded: bool, count: nat)
      ensures exceeded == P.LimitExceeded(env, cluster.Contents())
      ensures count == |P.CountedJobs(env, cluster.Contents())|
    {
      var listed := set k | k in cluster.jobs && (env.sameNamespace || k.namespace == env.operatorNamespace);
      assert listed == P.CountedJobs(env, cluster.Contents());
      count := |listed|;
      exceeded := count >= env.limit;
    }
  }

  class WorkloadController {
    const env: P.Env
    const cluster: Cluster
    const limits: LimitChecker
    const retryAfter: int

    constructor (env: P.Env, cluster: Cluster, retryAfter: int)
      ensures this.env == env && this.cluster == cluster && Valid()
    {
      this.env, this.cluster, this.retryAfter := env, cluster, retryAfter;
      limits := new LimitChecker(env, cluster);
    }

    ghost predicate Valid() {
      limits.env == env && limits.cluster == cluster
    }

    /** Lists every report of the owner in its namespace once. */
    method FindByOwner(owner: ObjectRef) returns (list: seq<P.Report>)
      ensures exists order ::
                Enumerates(order, OwnedBy(cluster.reports, owner)) && ListsReports(cluster.reports, order, list)
      ensures Elements(list) == set k | k in OwnedBy(cluster.reports, owner) :: cluster.reports[k]
    {
      var keys := OwnedBy(cluster.reports, owner);
      var order := Enumerate(keys);
      list := [];
      for i := 0 to |order|
        invariant |list| == i && forall j :: 0 <= j < i ==> list[j] == cluster.reports[order[j]]
      {
        list := list + [cluster.reports[order[i]]];
      }
      forall k | k in keys
        ensures cluster.reports[k] in list
      {
        var j :| 0 <= j < |order| && order[j] == k;
        assert list[j] == cluster.reports[k];
      }
      assert ListsReports(cluster.reports, order, list);
    }

    method HasReports(owner: ObjectRef, hash: string, images: P.Images) returns (has: bool)
      ensures has == P.HasReports(cluster.Contents(), owner, hash, images)
    {
      var list := FindByOwner(owner);
      var actual := {};
      for i := 0 to |list|
        invariant actual == set r | r in list[..i] && r.hash == hash :: r.container
      {
        if hash == list[i].hash {
          actual := actual + {list[i].container};
        }
        assert list[..i + 1] == list[..i] + [list[i]];
      }
      assert list[..|list|] == list;
      var names := Enumerate(images.Keys);
      var expected := {};
      for i := 0 to |names|
        invariant expected == Elements(names[..i])
      {
        expected := expected + {names[i]};
        assert names[..i + 1] == names[..i] + [names[i]];
      }
      assert names[..|names|] == names && Elements(names) == images.Keys;
      assert actual == P.Covered(cluster.reports, owner, hash) by {
        ListedContainers(list, owner, hash);
      }
      has := actual == expected;
    }

    lemma ListedContainers(list: seq<P.Report>, owner: ObjectRef, hash: string)
      requires Elements(list) == set k | k in OwnedBy(cluster.reports, owner) :: cluster.reports[k]
      ensures (set r | r in list && r.hash == hash :: r.container) == P.Covered(cluster.reports, owner, hash)
    {
      var listed := set r | r in list && r.hash == hash :: r.container;
      forall c | c in listed
        ensures c in P.Covered(cluster.reports, owner, hash)
      {
        var r :| r in list && r.hash == hash && r.container == c;
        assert r in Elements(list);
      }
      forall c | c in P.Covered(cluster.reports, owner, hash)
        ensures c in listed
      {
        var k :| k in cluster.reports && k.namespace == owner.namespace && cluster.reports[k].owner == owner
                 && cluster.reports[k].hash == hash && cluster.reports[k].container == c;
        assert k in OwnedBy(cluster.reports, owner);
        assert cluster.reports[k] in Elements(list);
      }
    }

    method HasActiveScanJob(owner: ObjectRef, hash: string) returns (active: bool)
      ensures active == P.HasActiveScanJob(env, cluster.Contents(), owner, hash)
    {
      var k := Key(env.operatorNamespace, env.JobName(owner));
      if k !in cluster.jobs {
        return false;
      }
      active := cluster.jobs[k].ScanJob? && cluster.jobs[k].hash == hash;
    }

    /** A call of the submit is not answered: one that creates a secret or the job, or one that makes the new
        job own a secret. */
    predicate SubmitFails(s: P.State, owner: ObjectRef, names: seq<string>, budget: nat) {
      var created := P.CreateSecrets(s.secrets, env.JobNamespace(owner), names, budget);
      created.budget == 0 || (created.done && env.JobKey(owner) !in s.jobs && created.budget <= |names|)
    }

    /** The number of calls below which a submit fails: one for each secret before the first that exists already,
        else one for each secret and one for the job that exists already, else one more for each secret. */
    lemma SubmitFailsIff(s: P.State, owner: ObjectRef, names: seq<string>, budget: nat, j: nat)
      requires C.StopsAt(s.secrets, env.JobNamespace(owner), names, j)
      ensures SubmitFails(s, owner, names, budget) <==>
              budget <= if j < |names| then j else if env.JobKey(owner) in s.jobs then |names| else 2 * |names|
    {
      C.CreateSecretsStops(s.secrets, env.JobNamespace(owner), names, budget, j, env.JobKey(owner));
    }

    /** Creates the secrets one by one, until one exists or a call fails. */
    method CreateSecrets(namespace: string, names: seq<string>) returns (r: ApiResult)
      modifies cluster
      ensures var created := P.CreateSecrets(old(cluster.secrets), namespace, names, old(cluster.budget));
              && cluster.Contents() == old(cluster.Contents()).(secrets := created.secrets)
              && cluster.budget == created.budget && (r == Succeeded <==> created.done)
              && (!created.done ==> r == if created.budget == 0 then Unavailable else AlreadyExists)
    {
      for i := 0 to |names|
        invariant cluster.Contents() == old(cluster.Contents()).(secrets := cluster.secrets)
        invariant P.CreateSecrets(old(cluster.secrets), namespace, names, old(cluster.budget))
               == P.CreateSecrets(cluster.secrets, namespace, names[i..], cluster.budget)
      {
        assert names[i..][1..] == names[i + 1..];
        r := cluster.CreateSecret(Key(namespace, names[i]));
        if r != Succeeded {
          return;
        }
      }
      r := Succeeded;
    }

    /** Makes the job own the secrets one by one, until a call fails. */
    method OwnSecrets(namespace: string, names: seq<string>, job: Key) returns (r: ApiResult)
      modifies cluster
      ensures cluster.Contents() == old(cluster.Contents()).(
                secrets := P.OwnSecrets(old(cluster.secrets), namespace, names, job, old(cluster.budget)))
      ensures r == if old(cluster.budget) >= |names| then Succeeded else Unavailable
    {
      for i := 0 to |names|
        invariant cluster.Contents() == old(cluster.Contents()).(secrets := cluster.secrets)
        invariant i <= old(cluster.budget) && cluster.budget == old(cluster.budget) - i
        invariant P.OwnSecrets(old(cluster.secrets), namespace, names, job, old(cluster.budget))
               == P.OwnSecrets(cluster.secrets, namespace, names[i..], job, cluster.budget)
      {
        assert names[i..][1..] == names[i + 1..];
        r := cluster.UpdateSecret(Key(namespace, names[i]), P.Secret(Some(job)));
        if r != Succeeded {
          return;
        }
      }
      r := Succeeded;
    }

    method CreateScanJob(owner: ObjectRef, spec: P.PodSpec) returns (r: ApiResult)
      modifies cluster`jobs, cluster`budget
      ensures r == if old(cluster.budget) == 0 then Unavailable
                   else if env.JobKey(owner) in old(cluster.jobs) then AlreadyExists else Succeeded
      ensures cluster.jobs
              == if r.Succeeded?
                 then old(cluster.jobs)[env.JobKey(owner) :=
                        P.ScanJob(owner, env.specHash(spec), P.SpecImages(spec), P.NoCondition)]
                 else old(cluster.jobs)
      ensures cluster.budget == if r.Succeeded? then old(cluster.budget) - 1 else old(cluster.budget)
    {
      var images := ContainerImages(spec);
      r := cluster.CreateJob(env.JobKey(owner), P.ScanJob(owner, env.specHash(spec), images, P.NoCondition));
    }

    /** `names` are the secrets that the plugin asks for. */
    method SubmitScanJob(owner: ObjectRef, spec: P.PodSpec, names: seq<string>) returns (result: ReconcileResult)
      modifies cluster
      ensures cluster.Contents()
              == P.SubmitScanJob(env, old(cluster.Contents()), owner, spec, names, old(cluster.budget))
      ensures result
              == if SubmitFails(old(cluster.Contents()), owner, names, old(cluster.budget)) then Error else Done
    {
      var namespace, jobKey := env.JobNamespace(owner), env.JobKey(owner);
      var created := CreateSecrets(namespace, names);
      if created == AlreadyExists {
        return Done;
      }
      if created != Succeeded {
        return Error;
      }
      var submitted := CreateScanJob(owner, spec);
      if submitted == AlreadyExists {
        return Done;
      }
      if submitted != Succeeded {
        return Error;
      }
      var owned := OwnSecrets(namespace, names, jobKey);
      return if owned == Succeeded then Done else Error;
    }

    method ContainerImages(spec: P.PodSpec) returns (images: P.Images)
      ensures images == P.SpecImages(spec)
      ensures forall c :: c in images ==> exists i :: 0 <= i < |spec.containers| && spec.containers[i].name == c
      ensures forall i :: S.IsLast(spec.containers, i) ==>
                var c := spec.containers[i]; c.name in images && images[c.name] == c.image
    {
      images := map[];
      for i := 0 to |spec.containers|
        invariant images == P.ImagesOf(spec.containers[..i])
      {
        images := images[spec.containers[i].name := spec.containers[i].image];
        assert spec.containers[..i + 1][..i] == spec.containers[..i];
      }
      assert spec.containers[..|spec.containers|] == spec.containers;
      forall c
        ensures c in images ==> exists i :: 0 <= i < |spec.containers| && spec.containers[i].name == c
        ensures forall i :: S.IsLast(spec.containers, i) && spec.containers[i].name == c ==>
                  c in images && images[c] == spec.containers[i].image
      {
        S.ImagesIff(spec.containers, c);
      }
    }

    /** Submits a scan exactly when one is needed, and asks to be called again only at the limit. */
    method ReconcileWorkload(owner: ObjectRef, names: seq<string>) returns (result: ReconcileResult)
      requires Valid()
      modifies cluster
      ensures var s := old(cluster.Contents());
              cluster.Contents() ==
                if P.NeedsScan(env, s, owner)
                then P.SubmitScanJob(env, s, owner, s.workloads[owner].spec, names, old(cluster.budget))
                else s
      ensures result.RequeueAfter? <==>
                var s := old(cluster.Contents());
                && owner in s.workloads && !env.Ignores(owner, s.workloads[owner])
                && var spec := s.workloads[owner].spec;
                   && !P.HasReports(s, owner, env.specHash(spec), P.SpecImages(spec))
                   && !P.HasActiveScanJob(env, s, owner, env.specHash(spec))
                   && P.LimitExceeded(env, s)
      ensures result.Error? <==>
                var s := old(cluster.Contents());
                P.NeedsScan(env, s, owner) && SubmitFails(s, owner, names, old(cluster.budget))
    {
      if owner !in cluster.workloads {
        return Done;
      }
      var workload := cluster.workloads[owner];
      if owner.kind == "Pod" && IsBuiltInWorkload(workload.controller) {
        return Done;
      }
      if env.onlyCurrentRevisions && owner.kind == "ReplicaSet" && !workload.activeRevision {
        return Done;
      }
      if owner.kind == "Job" && workload.controller == Some("CronJob") {
        return Done;
      }
      var images := ContainerImages(workload.spec);
      var hash := env.specHash(workload.spec);
      var hasReports := HasReports(owner, hash, images);
      if hasReports {
        return Done;
      }
      var active := HasActiveScanJob(owner, hash);
      if active {
        return Done;
      }
      var exceeded, _ := limits.Check();
      if exceeded {
        return RequeueAfter(retryAfter);
      }
      result := SubmitScanJob(owner, workload.spec, names);
    }

    method CreateOrUpdate(r: P.Report) returns (result: ApiResult)
      modifies cluster`reports, cluster`budget
      ensures result == if old(cluster.budget) == 0 then Unavailable else Succeeded
      ensures cluster.reports == if result.Succeeded? then P.CreateOrUpdate(env, old(cluster.reports), r)
                                 else old(cluster.reports)
      ensures cluster.budget == if result.Succeeded? then old(cluster.budget) - 1 else old(cluster.budget)
    {
      if cluster.budget == 0 {
        return Unavailable;
      }
      var k := env.ReportKey(r.owner, r.container);
      if k in cluster.reports {
        var copied := cluster.reports[k].(owner := r.owner, container := r.container, hash := r.hash, data := r.data);
        cluster.reports := cluster.reports[k := copied];
      } else {
        cluster.reports := cluster.reports[k := r];
      }
      cluster.budget := cluster.budget - 1;
      return Succeeded;
    }

    method Write(rs: seq<P.Report>) returns (ok: bool)
      modifies cluster`reports, cluster`budget
      ensures cluster.reports == P.WriteReports(env, old(cluster.reports), rs, old(cluster.budget))
      ensures ok <==> |rs| <= old(cluster.budget)
      ensures ok ==> cluster.budget == old(cluster.budget) - |rs|
    {
      for i := 0 to |rs|
        invariant i <= old(cluster.budget) && cluster.budget == old(cluster.budget) - i
        invariant P.WriteReports(env, old(cluster.reports), rs, old(cluster.budget))
               == P.WriteReports(env, cluster.reports, rs[i..], cluster.budget)
      {
        assert rs[i..][1..] == rs[i + 1..];
        var result := CreateOrUpdate(rs[i]);
        if result != Succeeded {
          return false;
        }
      }
      ok := true;
    }

    /** Reads logs in an order chosen by the map iteration, and stops at the first that is not there. */
    method FetchReports(job: P.Job, logs: map<string, P.LogResult>)
      returns (fetch: P.Fetch, ghost order: seq<string>)
      requires job.ScanJob?
      ensures Enumerates(order, job.images.Keys)
      ensures fetch == P.FetchReports(env, job, order, logs)
      ensures fetch.Fetched? <==> forall c :: c in job.images ==> P.LogOf(logs, c).Logs?
    {
      var names := Enumerate(job.images.Keys);
      order := names;
      FetchesAll(job, names, logs);
      fetch := P.Fetched([]);
      for i := 0 to |names|
        invariant fetch.Fetched? && fetch == P.FetchReports(env, job, names[..i], logs)
      {
        assert names[..i + 1][..i] == names[..i];
        var log := P.LogOf(logs, names[i]);
        match log
        case Logs(_, _) => fetch := P.Fetched(fetch.reports + [P.ScanReport(env, job, names[i], log)]);
        case JobNotFound =>
          StoppedFetch(job, names, logs, i + 1);
          return P.JobGone, order;
        case PodNotFound =>
          StoppedFetch(job, names, logs, i + 1);
          return P.PodGone, order;
        case Unreadable =>
          StoppedFetch(job, names, logs, i + 1);
          return P.Interrupted, order;
      }
      assert names[..|names|] == names;
    }

    lemma FetchesAll(job: P.Job, order: seq<string>, logs: map<string, P.LogResult>)
      requires job.ScanJob? && Enumerates(order, job.images.Keys)
      ensures P.FetchReports(env, job, order, logs).Fetched? <==> forall c :: c in job.images ==> P.LogOf(logs, c).Logs?
    {
      S.FetchedReports(env, job, order, logs);
      if forall c :: c in job.images ==> P.LogOf(logs, c).Logs? {
        S.AllLogsFetched(env, job, order, logs);
      }
    }

    lemma {:induction false} StoppedFetch(job: P.Job, names: seq<string>, logs: map<string, P.LogResult>, i: nat)
      requires job.ScanJob? && (forall c :: c in names ==> c in job.images) && i <= |names|
      requires !P.FetchReports(env, job, names[..i], logs).Fetched?
      ensures P.FetchReports(env, job, names, logs) == P.FetchReports(env, job, names[..i], logs)
      decreases |names|
    {
      if i == |names| {
        assert names[..i] == names;
      } else {
        var init := names[..|names| - 1];
        assert init[..i] == names[..i];
        StoppedFetch(job, init, logs, i);
      }
    }

    /** The reconcile of a complete job ends without an error: nothing that it had to call failed. */
    predicate Succeeds(s: P.State, k: Key, order: seq<string>, logs: map<string, P.LogResult>, budget: nat)
      requires k in s.jobs && s.jobs[k].ScanJob? && forall c :: c in order ==> c in s.jobs[k].images
    {
      var job := s.jobs[k];
      if job.owner !in s.workloads || P.HasReports(s, job.owner, job.hash, job.images) then budget > 0
      else match P.FetchReports(env, job, order, logs)
        case JobGone => true
        case PodGone => budget > 0
        case Interrupted => false
        case Fetched(reports) => budget > |reports|
    }

    method ProcessCompleteScanJob(k: Key, logs: map<string, P.LogResult>)
      returns (result: ReconcileResult, ghost order: seq<string>)
      requires k in cluster.jobs && cluster.jobs[k].ScanJob?
      modifies cluster
      ensures Enumerates(order, old(cluster.jobs)[k].images.Keys)
      ensures cluster.Contents()
              == P.ProcessCompleteScanJob(env, old(cluster.Contents()), k, order, logs, old(cluster.budget))
      ensures result == if Succeeds(old(cluster.Contents()), k, order, logs, old(cluster.budget)) then Done else Error
      ensures var job := old(cluster.jobs)[k];
              result.Done? <==>
                || k !in cluster.jobs
                || (&& job.owner in old(cluster.workloads)
                    && !P.HasReports(old(cluster.Contents()), job.owner, job.hash, job.images)
                    && P.FetchReports(env, job, order, logs).JobGone?)
    {
      var job := cluster.jobs[k];
      var deleted: ApiResult;
      if job.owner !in cluster.workloads {
        order := Listing(job.images.Keys);
        deleted := cluster.DeleteJob(k);
        return if deleted.Unavailable? then Error else Done, order;
      }
      var hasReports := HasReports(job.owner, job.hash, job.images);
      if hasReports {
        order := Listing(job.images.Keys);
        deleted := cluster.DeleteJob(k);
        return if deleted.Unavailable? then Error else Done, order;
      }
      var fetch;
      fetch, order := FetchReports(job, logs);
      match fetch
      case JobGone =>
        return Done, order;
      case PodGone =>
        deleted := cluster.DeleteJob(k);
        return if deleted.Unavailable? then Error else Done, order;
      case Interrupted =>
        return Error, order;
      case Fetched(reports) =>
        var ok := Write(reports);
        if !ok {
          return Error, order;
        }
        deleted := cluster.DeleteJob(k);
        return if deleted.Unavailable? then Error else Done, order;
    }

    predicate FailedJobSucceeds(podStatus: P.LogResult, budget: nat) {
      podStatus.JobNotFound? || (!podStatus.Unreadable? && budget > 0)
    }

    /** `podStatus` is the answer to the request for the statuses of the job's containers. */
    method ProcessFailedScanJob(k: Key, podStatus: P.LogResult) returns (result: ReconcileResult)
      modifies cluster
      ensures cluster.Contents() ==
                if podStatus.Logs? || podStatus.PodNotFound?
                then P.DeleteJob(old(cluster.Contents()), k, old(cluster.budget))
                else old(cluster.Contents())
      ensures result == if FailedJobSucceeds(podStatus, old(cluster.budget)) then Done else Error
      ensures result.Error? <==> podStatus.Unreadable? || (!podStatus.JobNotFound? && old(cluster.budget) == 0)
    {
      match podStatus
      case JobNotFound => return Done;
      case Unreadable => return Error;
      case _ =>
        var deleted := cluster.DeleteJob(k);
        return if deleted.Unavailable? then Error else Done;
    }

    /** A job reconcile acts on the first condition of the job and changes nothing while there is none. */
    method ReconcileJob(k: Key, logs: map<string, P.LogResult>, podStatus: P.LogResult)
      returns (result: ReconcileResult, ghost order: seq<string>)
      modifies cluster
      ensures var s, budget := old(cluster.Contents()), old(cluster.budget);
              if k !in s.jobs || s.jobs[k].OtherJob? then cluster.Contents() == s
              else match s.jobs[k].condition
                case Complete =>
                  && Enumerates(order, s.jobs[k].images.Keys)
                  && cluster.Contents() == P.ProcessCompleteScanJob(env, s, k, order, logs, budget)
                case Failed =>
                  cluster.Contents()
                  == if podStatus.Logs? || podStatus.PodNotFound? then P.DeleteJob(s, k, budget) else s
                case _ => cluster.Contents() == s
      ensures var s, budget := old(cluster.Contents()), old(cluster.budget);
              if k !in s.jobs || s.jobs[k].OtherJob? then result == Done
              else match s.jobs[k].condition
                case NoCondition => result == Done
                case Complete => result == if Succeeds(s, k, order, logs, budget) then Done else Error
                case Failed => result == if FailedJobSucceeds(podStatus, budget) then Done else Error
                case Unrecognized => result == Error
    {
      order := [];
      if k !in cluster.jobs || cluster.jobs[k].OtherJob? {
        return Done, order;
      }
      match cluster.jobs[k].condition
      case NoCondition => return Done, order;
      case Complete => result, order := ProcessCompleteScanJob(k, logs);
      case Failed => result := ProcessFailedScanJob(k, podStatus);
      case Unrecognized => return Error, order;
    }
  }

  /** A reconcile that runs without interruption is the check followed at once by the submit. */
  lemma ReconcileIsCheckThenSubmit(
    env: P.Env, s: P.State, w: nat, owner: ObjectRef, names: seq<string>, budget: nat)
    requires P.NeedsScan(env, s, owner) && w < env.workers && w !in s.pending && !P.IsPendingOwner(s, owner)
    ensures P.Enabled(env, s, P.CheckWorkload(w, owner))
    ensures var checked := P.Apply(env, s, P.CheckWorkload(w, owner));
            && P.Enabled(env, checked, P.SubmitScan(w, names, budget))
            && P.Apply(env, checked, P.SubmitScan(w, names, budget))
               == P.SubmitScanJob(env, s, owner, s.workloads[owner].spec, names, budget)
  {
    UpdateThenRemove(s.pending, w, P.PendingScan(owner, s.workloads[owner].spec));
  }

  /** Removes reports whose time to live is over. */
  class TTLReportReconciler {
    const cluster: Cluster

    constructor (cluster: Cluster)
      ensures this.cluster == cluster
    {
      this.cluster := cluster;
    }

    /** A report is removed only once its update time plus its time to live has passed; until then
        the reconciler asks to be called exactly at that time, which is always in the future. */
    method ReconcileReport(k: Key, now: int) returns (result: ReconcileResult)
      modifies cluster`reports, cluster`budget
      ensures cluster.reports == old(cluster.reports) || cluster.reports == old(cluster.reports) - {k}
      ensures var reports := old(cluster.reports);
              if k !in reports || reports[k].ttl.NoTtl? then result == Done && cluster.reports == reports
              else if reports[k].ttl.Malformed? then result == Error && cluster.reports == reports
              else
                var deadline := reports[k].data.updated + reports[k].ttl.duration;
                && (now < deadline ==> cluster.reports == reports && result == RequeueAfter(deadline - now))
                && (deadline <= now && old(cluster.budget) > 0 ==> cluster.reports == reports - {k} && result == Done)
                && (deadline <= now && old(cluster.budget) == 0 ==> cluster.reports == reports && result == Error)
      ensures result.RequeueAfter? ==> result.delay > 0
    {
      if k !in cluster.reports {
        return Done;
      }
      var report := cluster.reports[k];
      match report.ttl
      case NoTtl => return Done;
      case Malformed => return Error;
      case Ttl(duration) =>
        var (expired, remaining) := IsTTLExpired(duration, report.data.updated, now);
        if expired {
          var deleted := cluster.DeleteReport(k);
          return if deleted.Unavailable? then Error else Done;
        }
        return RequeueAfter(remaining);
    }

  }

  /** Whether the time to live is over, and how long it still lasts. */
  function IsTTLExpired(ttl: int, created: int, now: int): (bool, int) {
    var remaining := created + ttl - now;
    (remaining <= 0, remaining)
  }
}
