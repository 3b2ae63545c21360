# Starboard operator: a verified model

The Starboard operator keeps a cache of security reports in Kubernetes objects. This project models the
parts of it where that cache can disagree with the cluster, and proves when it does not.

1. **Vulnerability scans** (`ScanProtocol`, `ScanSafety`, `ScanJobs`, `ScanConvergence`, `ScanController`).
   A state machine over the object store: workloads, scan jobs, reports, secrets and workers that have
   passed the limit check but not yet created their job. The check and the Create are separate steps, and
   every step that writes carries the number of API calls that succeed before one fails, so a write may stop
   anywhere. The theorems are about every run. `ScanController` holds the reconcilers as methods that
   change a `Cluster` object call by call; each is proved to be the protocol step.
2. **Configuration audits** (`Policy`, `PolicyEval`, `AuditCache`, `AuditFreshness`, `AuditController`).
   A report is reused while its spec hash and its policies hash match; stale reports are deleted in batches.
   The cache is compared with evaluating again, and freshness is characterised exactly.
3. **Compliance reports** (`ComplianceMapper`, `ComplianceReport`, `ComplianceCounts`, `ComplianceManager`,
   `ComplianceTheorems`, `ComplianceDetails`).
   Scanner results are grouped by check id, counted by control, and published twice: as a summary and as
   details. The two must agree, nothing may be lost, and no iteration order may matter.
4. **Rankings of the namespace report** (`Ranking`, `TopOrder`, `Tally`, `CheckRanking`, `CheckOrder`, `VulnerabilityRanking`,
   `VulnerabilityOrder`).
   A multi-key comparison, an in-place stable sort, counting with repetitions removed, and truncation.

`Kube` holds names and labels of owners, `Strings` the string operations, `Collections` what is known about
loops over unordered collections. A Go `range` over a map is `Collections.Enumerate`: callers know only that
the order lists every key once, so what they prove holds for all orders.

Conventions of the model:

- Hash functions are parameters. Where a theorem needs it, it requires `Faithful`: the hash is injective and its
  output has no dash. The real hash is 32-bit FNV-1a (`pkg/kube/resources.go:46-50`), so this is an assumption.
- The Rego library, the plugin that turns logs into report data, and the test whether a string is a valid label
  value are uninterpreted functions of their arguments.
- Reads see the current store. A read that fails ends a reconcile before it writes anything, which is the same as
  the step not happening.

Where the code does something a reader of its names or comments might not expect, the model follows the code, and a
lemma shows when:

- The active-job check looks in the operator's namespace even when jobs run in the workload's namespace
  (`ScanJobs.RedundantJobIff`).
- A secret created just before the Create of the job fails is never removed, and blocks its owner from then on
  (`ScanConvergence.LeftoverBlocksForever`, `ScanConvergence.LeftoverIsReachable`). So is one that the job does not get
  to own (`ScanConvergence.NothingLeftBehindIff`).
- The spec hash of a workload covers its pod spec only, while policies see the whole object
  (`AuditFreshness.FreshIff`, `AuditFreshness.UnhashedChangeIsMissed`).
- A list of kinds that belongs to a library can change which modules are policies without changing the hash
  (`Policy.ModulesDecideAllPoliciesIff`, `Policy.EqualModulesDifferentPolicies`).
- An older name label survives encoding a new owner whose name is not a valid label value, and then shadows it
  (`Kube.OwnerRoundTrip`). Updating a report keeps the TTL annotation of the stored one
  (`ScanSafety.WritingKeepsTtl`).
- Report names of different owners can clash (`Kube.SameReportNameIff`, `Kube.SameResourceNameIff`).
- A batch limit of zero asks to be called again for ever (`AuditFreshness.ZeroLimitNeverDrains`).
- A control that does not fail in the summary can still be listed in the details, where statuses other than PASS
  and WARN count as failures (`ComplianceReport.DetailsWithoutFailureIff`). When both totals are zero, no check is
  published at all (`ComplianceTheorems.NothingPublishedIff`).
- The number of affected workloads of a failed check counts failing pod checks one by one
  (`CheckRanking.CountsReportsIff`), that of a vulnerability misses reports without a score that come first
  (`VulnerabilityRanking.AffectedIsExactIff`). Severities are compared as strings.
- A deny rule with one result that is not an object counts as not denying (`PolicyEval.DeniedYetPassesIff`).
- What differs between failing checks of one id, its severity among it, is taken from the container that is visited
  first (`CheckOrder.ViewIsDeterminedIff`).
- Which vulnerabilities of one score are listed can follow the iteration order of a map
  (`VulnerabilityOrder.TopIsDeterminedIff`).

## Model

| member | source | states |
|---|---|---|
| Kube.ContainerReportNamesDistinct | pkg/vulnerabilityreport/builder.go:220-229 | reports of different containers of one owner never share a name, for every mix of plain and hashed names |
| Kube.SameReportNameIff | pkg/vulnerabilityreport/builder.go:220-229 | the exact condition for two containers of any two owners to share a report name: kinds equal up to case, and equal texts of owner name, dash and container name |
| Kube.ContainerReportNamesClash | pkg/vulnerabilityreport/builder.go:220-229 | names do clash across owners: a dash can move from one name to the other |
| Kube.SameResourceNameIff | pkg/configauditreport/builder.go:191-199 | the exact condition for two resources to share a report name: kinds equal up to case, and names equal or one name, used as it is, the hash that stands for the other |
| Kube.DeploymentName | pkg/configauditreport/builder.go:191-199 | the names of a deployment `web` and of its container `app`, written out, plain and hashed |
| Kube.WorkloadIff | pkg/kube/object.go:87-96 | the eight workload kinds |
| Kube.ClusterScopedIff | pkg/kube/object.go:102-109 | the four cluster-scoped kinds |
| Kube.ObjectMeta.AddOwner | pkg/kube/object.go:132-148 | the metadata after encoding an owner: the labels of its selector added, and the annotation for a name that is no label value |
| Kube.OwnerLabels | pkg/kube/object.go:132-148 | which label holds the kind, the namespace, the name or its hash, and when the annotation holds the name |
| Kube.DecodedIs | pkg/kube/object.go:150-169 | which metadata is refused and with which error, and where kind, name and namespace are read from: the name label goes before the annotation, a missing namespace is empty |
| Kube.OwnerRoundTrip | pkg/kube/object.go:132-169 | decoding what was encoded returns the owner iff no older name label shadows the annotation, through both branches |
| Kube.SelectorFindsOwner | pkg/kube/object.go:117-148 | on metadata without an earlier owner the selector of a reference matches iff the encoded reference is equal |
| ScanSafety.CreateOrUpdateEffect | pkg/vulnerabilityreport/io.go:64-84 | a write covers its own container, adds no other coverage, and does not uncover other containers of its owner |
| ScanSafety.WriteReportsAddsNothingElse | pkg/vulnerabilityreport/io.go:54-62 | a write that may stop part-way adds coverage only for what it writes |
| ScanSafety.WriteReportsKeeps | pkg/vulnerabilityreport/io.go:54-62 | after a full write everything covered before or written is covered |
| ScanSafety.WriteReportsStores | pkg/vulnerabilityreport/io.go:54-84 | the store holds the written report itself, except for the TTL: that of the stored report if there was one |
| ScanSafety.FetchedReports | pkg/vulnerabilityreport/controller.go:371-409 | reports are built for all containers of the job, each from its own image and log, or for none |
| ScanSafety.StepKeepsInv | pkg/vulnerabilityreport/controller.go:91-418 | every step of every actor keeps the invariant on names, hashes, containers and pending workers |
| ScanSafety.ReachableInv | pkg/vulnerabilityreport/controller.go:91-418 | the invariant holds in every reachable state |
| ScanSafety.HasReportsMeansCovered | pkg/vulnerabilityreport/controller.go:184-206 | no extras: in every reachable state a report for the hash of a spec names one of its containers, so exact equality asks just for coverage |
| ScanSafety.ImagesIff | pkg/kube/resources.go:17-27 | a name is mapped iff some container has it, and to the image of the last such container |
| ScanSafety.IgnoresIff | pkg/vulnerabilityreport/controller.go:108-135 | which workloads are skipped: pods of five built-in controllers, jobs of cron jobs, and replica sets that are not active when only current revisions are scanned |
| ScanSafety.KeysAre | pkg/vulnerabilityreport/builder.go:168-174 | the namespace and name of the job of an owner, where the active-job check looks, and where reports are stored |
| ScanSafety.NeedsScanIff | pkg/vulnerabilityreport/controller.go:137-180 | in every reachable state a scan is needed iff the workload is not skipped, some container of its spec has no report for its hash, no job with the hash is seen, and fewer jobs than the limit are listed |
| ScanSafety.FetchStops | pkg/vulnerabilityreport/controller.go:371-409 | the first container whose log is missing decides the outcome: the job is gone, its pod is gone, or an error |
| ScanSafety.UnreportedJob | pkg/vulnerabilityreport/controller.go:333-418 | a complete job that is not reported is deleted without a write iff its workload or its pod is gone |
| ScanSafety.WritingEverythingCovers | pkg/vulnerabilityreport/controller.go:371-414 | after all containers were written exactly the job's containers are covered, whatever was stored before |
| ScanSafety.WritingEverythingStores | pkg/vulnerabilityreport/controller.go:371-414 | and each report holds the image and log of its own container |
| ScanSafety.WritingKeepsTtl | pkg/vulnerabilityreport/io.go:71-77 | the configured TTL reaches new reports only; an updated report keeps its own |
| ScanSafety.DeletedJobIsReported | pkg/vulnerabilityreport/controller.go:333-418 | scan safety over every run: a complete job is deleted only when the reports for its owner and hash cover exactly its containers and hold its results or did so before |
| ScanJobs.JobsWithinLimit | pkg/operator/controller/limit_checker.go:30-54 | with W workers between check and Create, jobs and pending creations never exceed limit + W - 1, in both namespace modes; never the limit when serial |
| ScanJobs.JobsReachTheBound | pkg/operator/controller/limit_checker.go:30-54 | the bound is tight: some run creates that many jobs |
| ScanJobs.NoRedundantJob | pkg/vulnerabilityreport/controller.go:147-180 | in no run is a job created for a spec that is fully reported, if the job would be seen by the check or the limit is at most one |
| ScanJobs.RedundantJob | pkg/vulnerabilityreport/controller.go:208-222 | otherwise there is a run that does so |
| ScanJobs.RedundantJobIff | pkg/vulnerabilityreport/controller.go:147-222 | the exact condition for a redundant job |
| ScanConvergence.CreateSecretsIff | pkg/vulnerabilityreport/controller.go:267-275 | all secrets get created iff enough calls succeed and none exists or repeats; existing secrets stay |
| ScanConvergence.CreateSecretsStops | pkg/vulnerabilityreport/controller.go:267-275 | how many calls are used up to the first name that exists or repeats, and exactly which secrets there are then |
| ScanConvergence.SubmittedSecrets | pkg/vulnerabilityreport/controller.go:267-298 | after a submit that creates the job every name is there, owned by the job iff the remaining calls reach it, and no other secret changes |
| ScanConvergence.SecretsHaveJobs | pkg/vulnerabilityreport/controller.go:290-298 | in every reachable state the job that owns a secret exists |
| ScanConvergence.LeftBehindIff | pkg/vulnerabilityreport/controller.go:267-298 | when the job has gone, the secrets left are the earlier ones and exactly those that it did not get to own |
| ScanConvergence.NothingLeftBehindIff | pkg/vulnerabilityreport/controller.go:267-298 | a scan leaves the secrets as they were iff more than twice as many calls succeed as there are names |
| ScanConvergence.SubmitCreatesJobIff | pkg/vulnerabilityreport/controller.go:267-298 | a submit creates the job iff the job and its secrets do not exist and enough calls succeed; then with which owner, hash and images |
| ScanConvergence.Converges | pkg/vulnerabilityreport/controller.go:137-181 | from every reachable state where a scan is needed and nothing is left over, the run of check, submit, completion and job reconcile is valid and settles the workload: each container of the spec, by its index, has a report with its own image and log. Other jobs and workers are left alone; for all secrets, visiting orders, readable logs and sufficient calls |
| ScanConvergence.SettledIsFixpoint | pkg/vulnerabilityreport/controller.go:137-181 | along every run that does not change the spec, delete a report or write under the same name, a settled workload gets no job and keeps its reports |
| ScanConvergence.SharesNameIff | pkg/vulnerabilityreport/builder.go:220-229 | what disturbs a settled workload by name is exactly a report stored under one of its names |
| ScanConvergence.NamesakesAreNotBothSettled | pkg/vulnerabilityreport/builder.go:220-229 | in no reachable state are two owners whose containers share a report name both settled |
| ScanConvergence.RemovalLeadsToRescan | pkg/operator/controller/ttl_report.go:71-79 | from every such state the run of removing a report for the current spec, check and submit is valid and creates the new scan job |
| ScanConvergence.LeftoverBlocksForever | pkg/vulnerabilityreport/controller.go:267-284 | no run creates a job for an owner with a leftover secret that its jobs mount |
| ScanConvergence.LeftoverIsReachable | pkg/vulnerabilityreport/controller.go:277-284 | such a state is reachable without any failing call |
| ScanController.Cluster.DeleteJob | pkg/vulnerabilityreport/controller.go:445-454 | the job and the secrets it owns are gone, or nothing changes when the call fails |
| ScanController.WorkloadController.FindByOwner | pkg/vulnerabilityreport/io.go:86-97 | lists every report of the owner in its namespace exactly once |
| ScanController.WorkloadController.HasReports | pkg/vulnerabilityreport/controller.go:184-206 | the two loops decide equality of covered and expected containers |
| ScanController.WorkloadController.SubmitScanJob | pkg/vulnerabilityreport/controller.go:224-298 | the call-by-call submit is the protocol's submit for every number of successful calls; it returns an error iff a call fails |
| ScanController.WorkloadController.SubmitFailsIff | pkg/vulnerabilityreport/controller.go:267-298 | the number of successful calls from which on a submit does not fail, by whether a secret or the job exists already |
| ScanController.WorkloadController.ContainerImages | pkg/kube/resources.go:17-27 | the loop gives the image of the last container of every name, stated on the containers |
| ScanController.WorkloadController.ReconcileWorkload | pkg/vulnerabilityreport/controller.go:91-182 | submits iff a scan is needed, asks for a retry iff only the limit is in the way, and fails iff the submit does |
| ScanController.WorkloadController.CreateOrUpdate | pkg/vulnerabilityreport/io.go:64-84 | creates, or replaces labels and data and keeps the annotations |
| ScanController.WorkloadController.Write | pkg/vulnerabilityreport/io.go:54-62 | writes the first reports that the calls allow and succeeds iff all |
| ScanController.WorkloadController.FetchReports | pkg/vulnerabilityreport/controller.go:371-409 | the loop stops at the first missing log with the right outcome, for every iteration order |
| ScanController.WorkloadController.ProcessCompleteScanJob | pkg/vulnerabilityreport/controller.go:333-418 | the new store is the protocol's job reconcile; it ends without an error iff the job is gone, now or already when its logs were read |
| ScanController.WorkloadController.ProcessFailedScanJob | pkg/vulnerabilityreport/controller.go:420-443 | deletes the job unless it is gone already or its pod cannot be read |
| ScanController.WorkloadController.ReconcileJob | pkg/vulnerabilityreport/controller.go:300-331 | acts on the first condition only, with the exact result in every case |
| ScanController.ReconcileIsCheckThenSubmit | pkg/vulnerabilityreport/controller.go:91-182 | an uninterrupted workload reconcile is the check step followed by the submit step |
| ScanController.TTLReportReconciler.ReconcileReport | pkg/operator/controller/ttl_report.go:46-83 | no report is removed before its update time plus TTL; until then the requeue delay is exactly the rest and positive; afterwards it is removed, or the call failed and so does the reconcile |
| Policy.Policies.Libraries | pkg/policy/policy.go:124-136 | exactly the library entries, for every iteration order |
| Policy.Policies.SelectPolicy | pkg/policy/policy.go:152-167 | one list of kinds selects its policy iff an entry covers the kind, and fails iff that policy is missing |
| Policy.Policies.PoliciesByKind | pkg/policy/policy.go:138-170 | for every iteration order: fails iff a policy lacks its kinds or a matching list lacks its policy, naming that entry, else exactly the matching Rego entries |
| Policy.SelectsIff | pkg/policy/policy.go:152-158 | a joined list of entries covers a kind iff an entry is `*`, or is the kind and not `Workload`, or is `Workload` and the kind is one of the eight workload kinds |
| Policy.SelectedIff | pkg/policy/policy.go:138-170 | a `.rego` entry is selected iff the `.kinds` entry beside it lists `*`, or the kind if that is not `Workload`, or `Workload` when the kind is one of the eight written out |
| Policy.SelectedHasKinds | pkg/policy/policy.go:138-170 | nothing else is selected, every list of kinds is such a joined list, and the code is that of the entry |
| Policy.MalformedIff | pkg/policy/policy.go:142-163 | the two ways in which the data is refused, by the names of the entries |
| Policy.ModulesIff | pkg/policy/policy.go:124-189 | libraries by prefix and suffix; modules are the selected policies and all libraries, each with its own code |
| Strings.SplitJoin | pkg/policy/policy.go:152 | splitting what was joined gives back entries without separators |
| Strings.JoinSplit | pkg/policy/policy.go:152 | every text is its pieces joined, and no piece holds a separator |
| Policy.Policies.ModulesByKind | pkg/policy/policy.go:180-189 | the selected policies overridden by the libraries, with the same error condition |
| Policy.Policies.Applicable | pkg/policy/policy.go:191-204 | true iff some policy is selected; an error for a blank kind or malformed data |
| Policy.EqualModulesIff | pkg/policy/policy.go:172-189 | equal modules have equal libraries, and equal policies iff they select the same libraries |
| Policy.PolicyKindsSelectNoLibrary | pkg/policy/policy.go:138-170 | if every list of kinds belongs to a policy then no library is selected |
| Policy.ModulesDecidePoliciesIff | pkg/policy/policy.go:172-189 | equal modules force equal policies on every other ConfigMap that selects no library iff this one selects none either |
| Policy.ModulesDecideAllPoliciesIff | pkg/policy/policy.go:172-189 | equal modules force equal policies on every other ConfigMap iff there is no library |
| Policy.EqualModulesDifferentPolicies | pkg/policy/policy.go:138-189 | two ConfigMaps with the same hash and different policies |
| PolicyEval.ResultsPermute | pkg/policy/policy.go:226-318 | one result for each selected policy; the multiset of results does not depend on the iteration order |
| PolicyEval.EqualModulesEvaluateAlike | pkg/policy/policy.go:210-319 | equal modules and equal selected libraries give the same outcome on every resource |
| PolicyEval.ModulesDecideEvaluation | pkg/policy/policy.go:172-319 | if all lists of kinds belong to policies, equal hashes give the same outcome and the same multiset of results |
| PolicyEval.Evaluator.CollectBindings | pkg/policy/policy.go:329-347 | all rows are usable iff there is a row and every row binds an object |
| PolicyEval.DeniedYetPassesIff | pkg/policy/policy.go:281-315 | a policy whose deny rule has results passes iff one of them is not an object and the warn rule has none or one that is not |
| PolicyEval.FailureIs | pkg/policy/policy.go:270-315 | a failing policy has the message of each result of its deny rule, or of its warn rule when the deny rule does not count, in order; a missing message is an error |
| PolicyEval.StagesFail | pkg/policy/policy.go:227-290 | which stage gives which error |
| PolicyEval.OddResultHidesMessages | pkg/policy/policy.go:329-347 | a concrete list of results: one that is not an object hides the message of the other |
| PolicyEval.Evaluator.ValuesToResults | pkg/policy/policy.go:367-385 | one failed result with all messages in order, or an error iff a message is missing or blank |
| PolicyEval.Evaluator.EvalOne | pkg/policy/policy.go:227-315 | parse, compile, metadata, deny before warn, with every error case |
| PolicyEval.Evaluator.Eval | pkg/policy/policy.go:210-319 | succeeds iff every selected policy does, with their results in iteration order |
| AuditFreshness.StepKeepsInv | pkg/configauditreport/controller.go:139-230 | every step keeps: a stored report is an evaluation of some version and policies with the hashes on its labels |
| AuditFreshness.OneReportPerOwner | pkg/configauditreport/builder.go:191-199 | in every reachable state an owner has at most one report, under its own name |
| AuditFreshness.SameReportKeyIff | pkg/configauditreport/builder.go:191-199 | the exact condition for two resources to share a stored report: scope, namespace, kind up to case, and equal names or one the hash of the other |
| AuditFreshness.ReconcileKeepsOthersIff | pkg/configauditreport/controller.go:213-228 | in every reachable state a reconcile overwrites the report of another resource iff that condition holds between the two |
| AuditFreshness.DeploymentAndServiceApart | pkg/configauditreport/builder.go:191-199 | a deployment and a service of one name in one namespace have different reports |
| AuditFreshness.IgnoresIff | pkg/configauditreport/controller.go:153-172 | which resources are skipped |
| AuditFreshness.HashedIff | pkg/kube/object.go:229-266 | which kinds are hashed by pod spec, which as a whole, and that others are not hashed |
| AuditFreshness.ReconcileWrites | pkg/configauditreport/controller.go:192-228 | a reconcile stores one report, under its owner and with the hashes of what was evaluated, and changes nothing but it |
| AuditFreshness.StoredChecks | pkg/configauditreport/controller.go:273-305 | a stored check has the texts, the success and the messages of the result of its policy |
| AuditFreshness.FreshIff | pkg/configauditreport/controller.go:192-213 | over all runs a skipped reconcile leaves what a new evaluation could write iff equal labels imply equal outcomes |
| AuditFreshness.FreshIffHashedPartSuffices | pkg/configauditreport/controller.go:192-213 | with injective hashes and clean policies, iff under every single ConfigMap versions that hash alike evaluate alike |
| AuditFreshness.LabelsDecideWhen | pkg/configauditreport/controller.go:192-213 | labels decide for clean policies that read only the hashed part |
| AuditFreshness.SkippedReportIsFresh | pkg/configauditreport/controller.go:202-211 | cache freshness in every reachable state under those conditions |
| AuditFreshness.UnhashedChangeIsMissed | pkg/kube/object.go:229-236 | a change outside the pod spec that policies notice leads to a run with a stale report |
| AuditFreshness.UnhashedChangeExample | pkg/kube/object.go:229-236 | such a change exists: an engine, a policy and two versions of a pod that lead there |
| AuditFreshness.WholeObjectsAreAlwaysRead | pkg/kube/object.go:237-266 | for kinds hashed as a whole no restriction is needed |
| AuditFreshness.BatchEffect | pkg/configauditreport/controller.go:339-366 | one call removes exactly min(limit, n) stale reports and no other |
| AuditFreshness.RequeuesDrain | pkg/configauditreport/controller.go:307-370 | following the requeues takes exactly max(1, ceil(n / limit)) calls; then no report is stale and all others are untouched |
| AuditFreshness.DrainedIsCurrent | pkg/configauditreport/controller.go:307-370 | afterwards exactly the reports of other kinds and those made under the current policies are left, unchanged |
| AuditFreshness.DrainExists | pkg/configauditreport/controller.go:307-370 | from every state with well-formed policies the requeues can be followed to the end |
| AuditFreshness.ZeroLimitNeverDrains | pkg/configauditreport/controller.go:352-365 | with limit zero a call changes nothing and requeues iff something is stale |
| AuditFreshness.StaleOnlyShrinks | pkg/configauditreport/controller.go:192-228 | while the policies stay, no step makes a report stale |
| AuditFreshness.InterleavedDrain | pkg/configauditreport/controller.go:307-370 | with any steps in between, c calls leave at most n - c * limit stale reports |
| AuditController.ResourceController.FindReportByOwner | pkg/configauditreport/io.go:106-121 | the report stored under the owner's name, if it is the owner's |
| AuditController.ResourceController.HasReport | pkg/configauditreport/controller.go:232-258 | true iff that report carries both hashes, for namespaced and cluster reports |
| AuditController.ResourceController.ToChecks | pkg/configauditreport/controller.go:279-291 | the array filled slot by slot is the conversion of the results, field by field |
| AuditController.ResourceController.Evaluate | pkg/configauditreport/controller.go:273-305 | succeeds iff the evaluation does, with its checks |
| AuditController.ResourceController.ReconcileResource | pkg/configauditreport/controller.go:139-230 | performs exactly the reconcile step when due and changes nothing otherwise; asks for a retry iff no policy applies, and fails exactly in the listed cases |
| AuditController.ResourceController.ListStale | pkg/configauditreport/controller.go:332-345 | min(limit, n) distinct stale reports |
| AuditController.ResourceController.DeleteItems | pkg/configauditreport/controller.go:352-361 | deletes exactly the first min(count, successful calls) items and fails iff that is fewer than count |
| AuditController.ResourceController.ReconcileConfig | pkg/configauditreport/controller.go:307-435 | a call is one invalidation step, for namespaced and cluster reports, and requeues iff more than the limit is stale; with failing calls it deletes exactly as many as succeed and fails |
| ComplianceMapper.GroupsAreNotEmpty | pkg/compliance/mapper.go:46-95 | no group is empty |
| ComplianceMapper.GroupingConserves | pkg/compliance/mapper.go:46-95 | the sizes of the groups sum to the number of results |
| ComplianceMapper.GroupedAppend | pkg/compliance/mapper.go:58-62 | the in-place update of a group is grouping one more result |
| ComplianceMapper.MapBenchReports | pkg/compliance/mapper.go:46-68 | the four nested loops group the flattened results: each group is the order-preserving filter by its id |
| ComplianceMapper.MapAuditReports | pkg/compliance/mapper.go:70-95 | the same for configuration audits, with first message and status of each check |
| ComplianceDetails.AuditEntriesIff | pkg/compliance/mapper.go:76-91 | the results of a list of audit reports: each check of each report with its first message, a pass iff it succeeded and else a failure |
| ComplianceDetails.BenchEntriesIff | pkg/compliance/mapper.go:52-66 | the results of a list of benchmark reports: each result of each test of each section with its own status and no message |
| ComplianceDetails.GroupIs | pkg/compliance/mapper.go:46-95 | the group of an id holds the results with that id in their order, and the remediation of the first |
| ComplianceCounts.AuditCounts | pkg/compliance/mapper.go:76-91 | the passes and failures of an id are the numbers of pairs of report and check with that id that succeed and that do not |
| ComplianceCounts.BenchCounts | pkg/compliance/io.go:168-180 | the passes and failures of an id are the numbers of benchmark results with that test number that pass or warn and that fail |
| ComplianceCounts.FetchedCounts | pkg/compliance/io.go:160-202 | the same over all fetched lists, each counted by the rule of its scanner |
| ComplianceReport.CountsAgree | pkg/compliance/io.go:268-289 | the collected groups of an id count exactly the fetched results with that id, for every visiting order |
| ComplianceReport.ControlChecksConserve | pkg/compliance/io.go:160-202 | totals of a control are the pass and fail counts over all fetched reports summed over its check ids, or the default when both are zero |
| ComplianceReport.HasDetailsIff | pkg/compliance/io.go:205-266 | a control has details iff a check has a failing result to list, or no result while the default is to fail |
| ComplianceReport.FailingControlsHaveDetails | pkg/compliance/io.go:160-266 | a control that fails in the summary has details, if the limit is positive and it has kinds |
| ComplianceReport.DetailsWithoutFailureIff | pkg/compliance/io.go:160-266 | the converse fails; exactly which controls are listed without failing: no check fails, a failing default is overruled by a pass, and a check has another status or a missing result that defaults to failing |
| ComplianceReport.DetailsWithoutFailure | pkg/compliance/io.go:160-266 | one family of such controls |
| ComplianceReport.DetailsPermute | pkg/compliance/io.go:205-266 | for every order of lists and of kinds a control has the same entries with the same results, up to the order of the results |
| ComplianceManager.MapKinds | pkg/compliance/util.go:9-23 | every expanded kind exactly once |
| ComplianceManager.AddControl | pkg/compliance/io.go:302-320 | the four maps after one more control |
| ComplianceManager.PopulateSpecDataToMaps | pkg/compliance/io.go:292-328 | the maps describe the specification: last control of an id, joined check ids and kinds |
| ComplianceCounts.LastControlIs | pkg/compliance/io.go:302-320 | the control that gives an id its texts and default is the last one with the id |
| ComplianceCounts.ExpandKindsIff | pkg/compliance/util.go:9-23 | `Workload` stands for the seven kinds written out, every other name for itself |
| ComplianceCounts.ResourcesCount | pkg/compliance/io.go:302-320 | each kind of each control with the id is listed once |
| ComplianceManager.MapScannersToResources | pkg/compliance/mapper.go:97-132 | one list for every known scanner and kind that can be read; an unknown scanner has no list type and is skipped |
| ComplianceManager.CheckIdsToResults | pkg/compliance/io.go:268-289 | fails iff a list was fetched for an unknown scanner, else joins all groups by id |
| ComplianceManager.ControlChecksByScannerChecks | pkg/compliance/io.go:160-202 | one check per control id with checks, with its totals or default |
| ComplianceManager.GetTotals | pkg/compliance/io.go:148-157 | the sums of the totals |
| ComplianceManager.FailedEntries | pkg/compliance/io.go:249-259 | the first results that neither pass nor warn, up to the limit |
| ComplianceDetails.ListedIs | pkg/compliance/io.go:249-259 | the listed results are in order, neither pass nor warn, and one is left out only after the limit is reached by earlier ones |
| ComplianceManager.CreateScanCheckResult | pkg/compliance/io.go:245-266 | the groups that have such results, truncated |
| ComplianceManager.CreateDefaultScanResult | pkg/compliance/io.go:235-243 | one missing-resource failure per kind iff the default is to fail |
| ComplianceManager.ControlChecksDetailsByScannerChecks | pkg/compliance/io.go:205-233 | the details of all controls in iteration order |
| ComplianceManager.GenerateComplianceReport | pkg/compliance/io.go:54-145 | both reports for some iteration orders; the error for an unknown scanner is never raised |
| ComplianceManager.SourcesAreDetermined | pkg/compliance/io.go:301-312 | which lists are fetched depends on the controls only |
| ComplianceDetails.FetchedIff | pkg/compliance/mapper.go:97-132 | a list is fetched iff its scanner is `kube-bench` or `config-audit`, it can be read, and a control of that scanner names its kind |
| ComplianceTheorems.ReportsAgree | pkg/compliance/io.go:54-81 | every failing control of the published summary has an entry in the published details |
| ComplianceTheorems.ReportsAreDeterministic | pkg/compliance/io.go:54-81 | two generations from the same lists publish the same checks and summary, whatever the iteration orders |
| ComplianceTheorems.DetailsAreDeterministic | pkg/compliance/io.go:54-81 | and the same details, up to the order of entries and of the results in an entry |
| ComplianceTheorems.OneCheckPerControl | pkg/compliance/io.go:84-202 | the published list has exactly one check for each control id with check ids and none for others, unless both totals are zero, when it is empty |
| ComplianceTheorems.NothingPublishedIff | pkg/compliance/io.go:86-89 | no check is published iff nothing was fetched, or no control with checks has a passing or failing result or default |
| ComplianceTheorems.ReportConserves | pkg/compliance/io.go:84-202 | each check has the texts of the last control with its id; its totals are the numbers of raw audit checks and benchmark results, by success and by status, with the check ids of the controls with that id, counted with multiplicity, or the default when both are zero; the summary is their sum |
| ComplianceDetails.PublishedDetail | pkg/compliance/io.go:205-266 | each published detail entry has the texts of the last control with its id and shows either results of fetched lists with one of its check ids, none of which pass or warn and at most the limit from each list, or one missing-resource failure for kinds of its controls because its default is to fail |
| Ranking.LexIsLexicographic | pkg/vulnerabilityreport/sort.go:64-89 | comparing key by key is lexicographic comparison |
| Ranking.LexIsStrictWeakOrder | pkg/vulnerabilityreport/sort.go:64-89 | any list of strict weak orders gives a strict weak order |
| Ranking.SwapKeepsTies | pkg/vulnerabilityreport/sort.go:60-62 | swapping neighbours that do not tie keeps every class of ties in order |
| Ranking.RankingsTie | pkg/vulnerabilityreport/sort.go:40-44 | two descending arrangements of the same elements tie position by position |
| Ranking.TotalRankingsAreEqual | pkg/vulnerabilityreport/sort.go:40-44 | where different elements never tie they are equal |
| Ranking.StableOrderIsUnique | pkg/vulnerabilityreport/sort.go:40-44 | there is only one stable descending order |
| Ranking.NothingBetterIsExcluded | pkg/report/html.go:113-120 | the top holds min(n, length) of the elements in order, and nothing left out ranks above one of them |
| Ranking.TopIsUnique | pkg/report/html.go:113-120 | the top is determined by its input |
| Ranking.TopsTie | pkg/report/html.go:172-181 | tops of two arrangements of the same elements tie position by position |
| TopOrder.StableOrderExists | pkg/vulnerabilityreport/sort.go:41-44 | every list has a stable descending order |
| TopOrder.FirstStandsAtRank | pkg/vulnerabilityreport/sort.go:41-44 | the first element of the input stands exactly behind the elements that rank above it |
| TopOrder.TopIsDetermined | pkg/report/html.go:113-120 | if different elements that tie have at least n elements above them, the top n is the same for every arrangement |
| Ranking.MultiSorter.Less | pkg/vulnerabilityreport/sort.go:70-89 | the loop decides lexicographic comparison for any non-empty list of keys |
| Ranking.MultiSorter.Swap | pkg/vulnerabilityreport/sort.go:60-62 | exchanges two items and nothing else |
| Ranking.MultiSorter.SortDesc | pkg/vulnerabilityreport/sort.go:41-44 | sorts the given array in place into its stable descending order |
| CheckRanking.CountChecks | pkg/report/html.go:122-170 | the map of counted checks after all loops |
| CheckRanking.CountsAreExact | pkg/report/html.go:122-170 | a check is counted iff it fails somewhere; the count is its failing pod checks plus one per report with a failing container, for every container order |
| CheckRanking.CountsReportsIff | pkg/report/html.go:126-139 | that is the number of reports with the failure iff no report has it twice |
| CheckRanking.RepeatedCheckCountsTwice | pkg/report/html.go:126-139 | one report with two failing pod checks of one id counts twice |
| CheckRanking.CheckCompareOrders | pkg/report/sort.go:68-77 | the three keys give a strict weak order |
| CheckRanking.CheckCompareIff | pkg/report/sort.go:68-77 | the order on the fields: affected workloads, then the severity string, then the id, the later string last |
| CheckRanking.DistinctIdsDoNotTie | pkg/report/sort.go:68-77 | checks that tie have the same id |
| CheckRanking.TopNFailedChecks | pkg/report/html.go:122-182 | the top n of the counted checks in stable descending order: affected workloads do not increase, equal ones are ordered by severity string and id, and every failing check that is left out affects at most as many as each one listed |
| CheckRanking.TopChecksAreDetermined | pkg/report/html.go:172-181 | the returned list is the same for every iteration order of the counted map |
| CheckOrder.TopChecksFollowReports | pkg/report/html.go:122-182 | end to end: if no id leaves a choice of its severity, ids, severities and counts of the result are the same for every order of containers and of the counted map |
| CheckOrder.ViewIsDeterminedIff | pkg/report/html.go:145-168 | any view of the check that stands for an id, such as its severity or the whole check, is the same for every order of containers iff, in the first report where the id fails, a pod check fails or the first failing checks of the containers look the same |
| CheckOrder.TopChecksAreSame | pkg/report/html.go:122-182 | end to end: if no id leaves a choice of its check, the returned list is the same for every order of containers and of the counted map |
| CheckOrder.ViewFollowsOrder | pkg/report/html.go:145-168 | two containers whose checks look different lead to two orders that show different checks |
| CheckOrder.SharedViewsAgree | pkg/report/html.go:145-168 | if failing checks with one id look the same, no id leaves a choice |
| VulnerabilityRanking.SummaryCountOrders | pkg/vulnerabilityreport/sort.go:91-104 | the five severity counts give a strict weak order |
| VulnerabilityRanking.SummaryCountIff | pkg/vulnerabilityreport/sort.go:91-104 | the order on the counts: critical, high, medium, low, unknown |
| VulnerabilityRanking.TopNImages | pkg/report/html.go:113-120 | the top n in stable descending order, computed on a copy |
| VulnerabilityRanking.TopImagesAreWorst | pkg/report/html.go:113-120 | no image left out has a worse summary than one in the top, compared by critical, high, medium, low and unknown counts in this order |
| VulnerabilityRanking.CountVulnerabilities | pkg/report/html.go:184-216 | the counted map after all loops |
| VulnerabilityRanking.AffectedIsExactIff | pkg/report/html.go:184-216 | the count is the number of reports with the id iff the first occurrence of the id has a score; always at least one and at most that number |
| VulnerabilityRanking.AffectedIsExact | pkg/report/html.go:184-216 | if having a score depends on the id only, every count is the number of reports with that id |
| VulnerabilityRanking.EntriesHaveScores | pkg/report/html.go:196-214 | an id is listed iff some report gives its first occurrence a score; every entry has a score |
| VulnerabilityRanking.EntryIs | pkg/report/html.go:184-216 | each entry has the link, severity and score of the first occurrence in the first report that scores its id, and counts the reports with the id from that one on |
| VulnerabilityRanking.UnscoredReportIsMissed | pkg/report/html.go:201-203 | a report whose occurrence has no score and comes first is not counted |
| VulnerabilityRanking.TopNVulnerabilities | pkg/report/html.go:184-230 | the top n of the counted vulnerabilities by score, each with a score; none left out has a higher score than one listed |
| VulnerabilityRanking.TopScores | pkg/report/html.go:225-229 | min(n, ids) entries, each with a score, scores non-increasing |
| VulnerabilityRanking.TopScoresAreDetermined | pkg/report/html.go:218-229 | the list of scores is the same for every iteration order of the counted map |
| VulnerabilityOrder.TopIsDeterminedIff | pkg/report/html.go:218-229 | the listed entries are the same for every iteration order iff ids with one score and different entries have at least n ids above them |
| VulnerabilityOrder.TopVulnerabilitiesAreDeterminedIff | pkg/report/html.go:184-230 | the same for the counted vulnerabilities of any reports: iff different ids with one score have at least n ids above them |
| VulnerabilityOrder.TieFollowsOrder | pkg/report/html.go:218-229 | two vulnerabilities with one score: the iteration order decides which is the top |

## Left out

- Hash collisions: the 32-bit hashes are assumed injective (`Faithful`) where a theorem depends on it.
- Name clashes between owners are not excluded by the code; `ScanConvergence.SettledIsFixpoint` counts a job that writes under a shared name as a disturbance, by the condition of `Kube.SameReportNameIff`.
- Liveness driven by events: jobs do not wake their workload, so theorems say what a reconcile does when it runs.
- Informer lag, leader election, install-mode namespace filters and event predicates.
- Reading errors, parse errors of annotations and errors of the job builder end a reconcile without a write and are not told apart.
- The JSON of container images in the job annotation is taken as the map itself; labels of reports are the owner, container and hash they encode, which `Kube.SelectorFindsOwner` justifies.
- Garbage collection of secrets happens together with the deletion of their job.
- Owner references, schemes, tolerations, service accounts, timeouts and the pod specs that plugins build.
- Resolving the owner of a report through ReplicaSets and CronJobs (`pkg/kube/object.go:356-398`).
- The plugin-based configuration audit and the CIS benchmark reconciler appear only as other creators of managed jobs in the limit bound (`pkg/operator/controller/configauditreport.go:216-280`, `pkg/operator/controller/ciskubebenchreport.go:103-126`).
- The batch deletion of the plugins configuration (`pkg/operator/controller/plugins_config.go:58-116`) is the same loop as the one modelled.
- A negative batch limit, and a negative N, which make the original panic or misbehave.
- Durations and times are unbounded integers and scores are reals; NaN scores do not occur in the model.
- A metadata query whose row lacks the variable panics in the original; here it is a metadata error.
- Scanner name, version and summary of an audit report, and names, versions and timestamps of compliance objects.
- The map of scanner to kind to list is one map keyed by scanner and kind; storing the two compliance objects is not modelled.
- The standard library's stable sort works in blocks with rotations; the model sorts by insertion through the same `Less` and `Swap`. `Ranking.StableOrderIsUnique` shows that the result is the same. `sort.SliceStable` on scores is the same sort with one key.
- CheckRanking.TopNFailedChecks: the fields of a check other than id, severity and success are one text field.
- Log parsing, credentials, HTML templates, CLI commands and the installer.
