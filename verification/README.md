# A verified model of the image scanner

This project models, in Dafny, the logic by which a Kubernetes image scanner keeps
shared records consistent while independent actors update them: controllers, queue
workers, storage replicas. `dafny verify dfyconfig.toml` checks all of it.

The Dafny files follow six components.

1. **The ScanJob pipeline.** `ScanJobStatus.dfy` is the job's status, a list of
   conditions updated by find-or-append, and the object that changes it in place.
   `PipelineHandlers.dfy` is what each writer does to a fetched job. `ScanPipeline.dfy`
   is the protocol: the reconciler, the catalog, SBOM and scan workers, the failure
   handler and the report counter, each as steps that read and later write if the
   version has not moved. Messages are delivered any number of times, actors stop
   anywhere, jobs and reports are deleted, and a job's name can be used again.
   `PipelineInvariants.dfy` holds what every step keeps; `PipelineHistory.dfy`,
   `PipelineFinality.dfy`, `PipelineMetric.dfy`, `PipelineOnce.dfy` and
   `PipelineWork.dfy` the claims about whole runs; `PipelineEffects.dfy` what an actor
   leaves that is not overtaken, or tries again; `PipelineSteps.dfy` and
   `PipelineCases.dfy` the runs that show which hypotheses those claims need.
2. **The workload registry reconciler.** `Registries.dfy` is the Registry resource and
   its canonical form; `WorkloadRegistry.dfy` the update of one registry by one
   namespace; `WorkloadFleet.dfy` the reconcile of all registries of a namespace,
   partial failure included; `WorkloadRuns.dfy` sequences of reconciles;
   `WorkloadRequests.dfy` the rescans two of them ask for; `WorkloadRaces.dfy` reconciles
   that overlap on one registry; `WorkloadCases.dfy` runs that end where the exact
   conditions fail.
3. **Rescan requests.** `RescanTargets.dfy` merges requests into job targets;
   `ScanScope.dfy` validates targets, narrows a registry and filters tags;
   `RescanScope.dfy` puts the path from new conditions to scanned tags together;
   `RescanRuns.dfy` is the protocol of writers and runner.
4. **The storage list.** `ListPaging.dfy` and `LabelSelector.dfy`.
5. **The watch fan-out.** `WatchFanout.dfy` is the protocol from commit to client, and
   what a client sees; `WatchVersions.dfy` what its view is made of;
   `WatchConvergence.dfy` when the view is what the store holds.
6. **Workload reports.** `ReportJoin.dfy`, `VulnerabilitySummary.dfy`, `ReportOrder.dfy`
   on what a summary owes to the order of reports, `WorkloadReports.dfy` and
   `ImageIndex.dfy`.

`Ordering.dfy` has the string order, sorting, and the fact that a strictly sorted list
is determined by its elements, on which every claim about iteration order rests.

## What turned out not to hold

Some claims one would expect are false of the code. Each is shown by an example, and
stated with the condition under which it holds.

- A finished job is counted twice when a failure of an earlier job of the same name is
  charged to it between the reconciler's read and its annotation patch
  (`CountedTwice`). The failure handler looks the job up by name and not by UID. When
  nothing is owed or lost the counter is exact if and only if nothing was counted again,
  and whatever was counted again follows such a failure of the same job
  (`CompletionsCounted`).
- A failed job can be reopened, even with a single delivery of its catalog message
  (`FailedReopened`). In every run Failed is final for a job if and only if no failure
  was written to it between the start and the close of one of its catalog runs
  (`FailedFinal`). With a single delivery such a failure is always that of an earlier
  job of the same name (`FailedIsFinal`).
- When two catalogs of a job list different images, the job can be completed while one
  of them was never scanned (`CompletedUnscanned`). A completing count has listed every
  discovered image if and only if the last catalog lists as many images as were
  discovered in all (`CounterCompletes`).
- A job whose catalog lists a name twice is never completed by its count
  (`CompletesIffDistinct`).
- Reconciles of two namespaces commute in their effect on repositories, but not in the
  rescans they ask for: those are of the same conditions in either order if and only if
  none is handed over from one to the other (`RequestsCommute`, `HandOverHappens`). That
  covers a registry that one of them deletes and the other makes anew.
- When reconciles of two namespaces overlap, a registry can be deleted that another
  namespace has just added to, since the deletion carries no version (`DeletionRaces`).
  The labels are what each namespace last needed, throughout a run, if and only if no
  deletion finds another namespace's label (`LabelsExactIff`); one that finds the version
  it has read never does (`VersionedDeletion`).
- Target validation and narrowing disagree on a repository that declares a condition
  name twice (`ChecksAgree`).
- On Docker Hub, where `GetRepository` takes the name without `library/` for an alias, a
  request can scan something else than it asks for (`AliasMisses`). Every request for
  declared conditions is scanned exactly if and only if two things hold
  (`ScansExactlyDeclared`). An official image declared under both its names has the one
  same condition under both (`BothNamesClash` shows it otherwise). And a longer name,
  such as `app/web`, does not sort before its long form `library/app/web`. Reconciles
  declare only parsed names (`ReconciledNames`), of which the first cannot be. The second
  can: `library/app/web` is then overshadowed (`OvershadowedHappens`), and a request is
  scanned exactly if and only if it names no overshadowed repository
  (`ScansExactlyParsed`). A name of two parts, as Docker Hub has them, is never
  overshadowed (`TwoPartsClear`).
- If no rescan request can be decoded, the whole registry is scanned (`JobTargets`).
- Negative label selectors drop rows without the label, and a selector that selects
  nothing keeps every row (`KeptIffMatchesVisibly`, `NegationDropsRow`,
  `NothingKeepsAll`).
- A client misses an event that could not be published or rehydrated, and its view of the
  key can then stay behind for good, or be right all the same (`LatestMissed`). A stored key
  is viewed as it is stored if and only if an event about its object was received after its
  last commit; one that is not stored is not viewed if and only if the client was last told
  of its deletion, or never of it (`ViewExactIff`).
- A client can be handed an older version of an object than it has (`ViewGoesBack`). It
  is if and only if the store no longer holds the object and the event carries an older
  version (`OlderExactlyWhenGone`).
- An update that asks for a version is not answered with a conflict when another one is
  stored: `GuaranteedUpdate` tries again until its context ends. For a version that has
  been drawn, some attempt reads it, whatever is committed in between, if and only if it is
  the stored version now (`StaleNeverAnswered`); otherwise only the removal of the object
  or the end of the context ends the update. `NeverAnswered` is a run with an older version
  of the key's own and a later one drawn for another key.
- The severity counters of a summary depend on the order in which reports are read, when
  two reports of a container hold a vulnerability with different severities
  (`OrderChanges`); the query has no order. A vulnerability is counted under the same
  severity in every order if and only if all reports that hold it meet it first with the
  same (`KeyOrderIff`). If that is so for all of them the summary is the same in every order
  (`AgreeingSummary`), but not only then, for two disagreements can cancel out (`Cancels`).
  The summary is the same in every order if and only if any two reports of a container,
  whichever others are read before them, count equally many of the vulnerabilities that
  they share and those others lack under each severity (`SummaryOrderIff`).
- A reference without a namespace requeues images that do not list its report
  (`PathsAgree`).

The comment on `RescanRequest` says that an annotation key carries a timestamp; the code
makes it from a UUID, and the model follows the code.

## Assumptions

- A read returns the object as stored at that step. What an actor reads can be out of
  date by the time it writes.
- The API server rejects an update whose version is not the stored one. The annotation
  patch checks no version, and its response overwrites the local object. The deletion of
  a registry checks no version.
- The work queue runs one reconcile of an object at a time. UUIDs and UIDs are not
  reused.
- A registry's URI is the parsed one. The repository part of a parsed reference is the
  name as declared, except that on Docker Hub a name of one part gets `library/`.
- Image reference parsing, the hash that names a registry, JSON decoding, expression
  evaluation and the lookup of a pod's owner are parameters.
- A table query returns its rows in table order, so that two queries that select the
  same rows return them in the same order.
- Watch events are published in commit order and received in the order published.

## Model

| member | source | states |
|---|---|---|
| ScanJobStatus.SetConditionTruth | api/v1alpha1/scanjob_types.go:140-311 | one find-or-append update changes the truth of its own condition type and of no other, on any list, and adds no second condition of a type |
| ScanJobStatus.SetConditionEntry | api/v1alpha1/scanjob_types.go:140-311 | one find-or-append update replaces what the list says of its own condition type, with the earlier transition time exactly if the truth stays, and nothing it says of another type |
| ScanJobStatus.MarkAllLeavesOne | api/v1alpha1/scanjob_types.go:174-311 | whatever list a Mark method starts from, exactly its own condition is True afterwards, and one condition per type stays one per type |
| ScanJobStatus.MarkAllSays | api/v1alpha1/scanjob_types.go:174-311 | whatever list a Mark method starts from, its own condition is True with the given reason, message and generation, and each other one False with the common ones |
| ScanJobStatus.InitializedPhase | api/v1alpha1/scanjob_types.go:140-172 | initialised conditions are well-formed, one of every type, and make the job pending |
| ScanJobStatus.ScanJob.InitializeConditions | api/v1alpha1/scanjob_types.go:140-172 | every condition type is Unknown for the reason Pending, and nothing else of the object changes |
| ScanJobStatus.ScanJob.MarkScheduled | api/v1alpha1/scanjob_types.go:174-204 | Scheduled is True with the given reason and the other three False; counters and times are kept |
| ScanJobStatus.ScanJob.MarkInProgress | api/v1alpha1/scanjob_types.go:206-241 | InProgress is True with the given reason and the other three False; the start time is the earlier one, or now if there was none |
| ScanJobStatus.ScanJob.MarkComplete | api/v1alpha1/scanjob_types.go:243-276 | Complete is True with the given reason and the other three False; the completion time is now |
| ScanJobStatus.ScanJob.MarkFailed | api/v1alpha1/scanjob_types.go:278-311 | Failed is True with the given reason and the other three False; the completion time is now |
| PipelineHandlers.ReconcileJob | internal/controller/scanjob_controller.go:68-162 | a pending job is published exactly when its registry is found, declares all its targets and is in the annotation, snapshotted exactly when only the last is missing, and otherwise refused for the first thing that is wrong; a refused job has failed for that reason, a published one is scheduled, any other pending |
| PipelineHandlers.StartCatalog | internal/handlers/create_catalog.go:92-116 | a finished job is left alone and reported; any other is in progress, with a start time, as in the protocol |
| PipelineHandlers.CloseCatalog | internal/handlers/create_catalog.go:293-320 | with no images the job is complete now; otherwise it is in progress with the number of images and no scanned one, as in the protocol; the earlier finished state is remembered |
| PipelineHandlers.CountReports | internal/controller/vulnerabilityreport_controller.go:90-101 | the count is stored; a failed job only gets that; any other is complete exactly when the count is the image count, and in progress otherwise |
| PipelineHandlers.FailJob | internal/handlers/scanjob_failure.go:53-66 | the job has failed for an internal error, now, with its counters kept and the earlier finished state remembered |
| PipelineHandlers.CloseAndRecord | internal/handlers/create_catalog.go:293-334 | after the closing update the counter has grown by one exactly if the job went from unfinished to finished, whatever was discovered |
| PipelineHandlers.FailAndRecord | internal/handlers/scanjob_failure.go:53-79 | after the failure update the counter has grown by one exactly if the job had not finished before |
| PipelineHandlers.CountAndRecord | internal/controller/vulnerabilityreport_controller.go:69-109 | a completed job is left alone; otherwise the counter grows by one exactly if this count took the job from unfinished to finished, although only an earlier failure is remembered |
| PipelineInvariants.RunInv | internal/handlers/create_catalog.go:92-354 | in every run: each actor's copy is the stored job while the version stands, every message and report names an image some catalog of the job listed, the stored image count is the length of the last list, and every write keeps its writer's rule |
| PipelineHistory.StatusHistory | internal/controller/scanjob_controller.go:65-79 | for every accepted write of every run: at most one condition True before and after, and one of every type after; Scheduled only from pending; nothing returns to pending; Failed left only by the closing write of a catalog that started on an unfinished job; Complete left only that way or to Failed by the failure handler; giving up takes the fifth delivery and fails the job; a catalog starts an unfinished job and closes with the number of images it found; a finished job has a completion time, one in progress a start time, which stays |
| PipelineHistory.StoredStatus | internal/handlers/create_catalog.go:293-320 | the stored status is what the job's last accepted write left, and well-formed |
| PipelineHistory.GoneStaysUntouched | internal/handlers/create_catalog.go:293-320 | once a job is deleted no status is written for it in any continuation of the run, whatever its workers still do and whichever job takes its name |
| PipelineHistory.CounterCompletes | internal/controller/vulnerabilityreport_controller.go:78-101 | a count stores the number of listed reports, each for a discovered image; it completes the job exactly when that number is the length of the last catalog's list; a completing count has listed every discovered image if and only if that list is as long as all discoveries together |
| PipelineHistory.CompletedJobIsScanned | internal/controller/vulnerabilityreport_controller.go:90-101 | when all catalogs of a job list the same names, a count never exceeds the image count, and completes the job only if every listed image has had a report of the job |
| PipelineFinality.FailedFinal | internal/handlers/create_catalog.go:92-320 | in every run, for every job: once Failed it stays Failed if and only if no failure was written between the start and the close of one of its catalog runs |
| PipelineFinality.FailedIsFinal | internal/handlers/scanjob_failure.go:55-66 | with one delivery of its catalog message, a job once Failed stays Failed if and only if no failure of another job was charged to it between the start and the close of its catalog run |
| PipelineMetric.RunMetric | internal/telemetry/jobs.go:74-92 | in every run, crashes included: counted, owed and lost increments add up to the completing writes plus the repeated ones |
| PipelineOnce.CompletionsCounted | internal/handlers/scanjob_failure.go:54-79 | the same sum for every run; each repeated completion follows a failure of another job charged to the same job; with nothing owed or lost the counter equals the number of writes that finished an unfinished job if and only if none was repeated |
| PipelineCases.CountedTwice | internal/controller/scanjob_controller.go:115-140 | a run without a crash in which one completion is counted twice |
| PipelineCases.FailedReopened | internal/handlers/scanjob_failure.go:55-66 | a run with a single catalog delivery in which a failed job is reopened |
| PipelineCases.CompletedUnscanned | internal/handlers/create_catalog.go:308-317 | a run that completes a job one of whose discovered images was never reported |
| PipelineCases.CountStores | internal/controller/vulnerabilityreport_controller.go:51-109 | an undisturbed count of a reported job that is not complete is possible and stores the status of its labelled reports |
| PipelineCases.FailedRecounted | internal/controller/vulnerabilityreport_controller.go:69-101 | an undisturbed count of a failed job stores the number of its labelled reports and changes nothing else of its status |
| PipelineCases.CompletesIffDistinct | internal/handlers/create_catalog.go:256-317 | once every listed image is labelled, the next undisturbed count completes the job if and only if no name is listed twice |
| PipelineEffects.RefusalStored | internal/controller/scanjob_controller.go:97-111 | a refusal that is not overtaken leaves the job failed for the given reason, with its completion time, nothing published, and one increment owed to the job counter |
| PipelineEffects.PublicationStored | internal/controller/scanjob_controller.go:142-161 | a publication that is not overtaken leaves the job scheduled and its catalog message published |
| PipelineEffects.SnapshotStored | internal/controller/scanjob_controller.go:113-140 | the first reconcile of a job that is not overtaken leaves it annotated, with all its conditions pending |
| PipelineEffects.StartRetried | internal/handlers/create_catalog.go:92-116 | a catalog start that was overtaken can be retried and then starts the job as it then is |
| PipelineEffects.CloseRetried | internal/handlers/create_catalog.go:293-320 | a catalog closing that was overtaken can be retried and then closes the job as it then is with the images found before, and goes on to ask for their SBOMs |
| PipelineEffects.FailureRetried | internal/handlers/scanjob_failure.go:53-79 | a failure update that was overtaken can be retried and then fails the job as it then is, with an increment owed to the job counter exactly if the job had not finished |
| PipelineWork.NoImageLost | internal/handlers/create_catalog.go:336-356 | in every run, every image a catalog closed with has its SBOM message published or about to be by the run that found it, unless that run stopped before |
| PipelineWork.HaltedRun | internal/handlers/generate_sbom.go:74-102 | for as long as a job is failed, deleted or replaced no SBOM and no scan is begun for it: what is then asked for or reported comes from work under way before |
| Registries.CanonicalUnique | internal/controller/workloadscan_controller_registry.go:395-404 | two canonical repository lists with the same labels are the same list |
| Registries.TargetsUnique | internal/controller/workloadscan_controller_registry.go:165-193 | sorted targets that name conditions are determined by what they list |
| WorkloadRegistry.BuildNeededMatchConditions | internal/controller/workloadscan_controller_registry.go:196-208 | exactly one key for each tag of each repository |
| WorkloadRegistry.ExtractMatchConditions | internal/controller/workloadscan_controller_registry.go:211-223 | exactly the declared conditions |
| WorkloadRegistry.ProcessRepositoryMatchConditions | internal/controller/workloadscan_controller_registry.go:253-286 | the conditions that keep a label once the namespace's own is set or removed, in order, and the needed ones among them |
| WorkloadRegistry.ProcessExistingRepositories | internal/controller/workloadscan_controller_registry.go:227-249 | the repositories that keep a condition, and the needed conditions that were declared |
| WorkloadRegistry.ProcessedClaims | internal/controller/workloadscan_controller_registry.go:227-286 | on any list, the pass sets the namespace's label on exactly the needed declared conditions and touches no other label |
| WorkloadRegistry.FindOrAppendRepository | internal/controller/workloadscan_controller_registry.go:382-393 | the first repository of the name, or a new one at the end |
| WorkloadRegistry.AddNewMatchConditions | internal/controller/workloadscan_controller_registry.go:289-305 | in whatever order: the claims grow by exactly the new conditions under the namespace's label, and distinct names stay distinct |
| WorkloadRegistry.SortRepositories | internal/controller/workloadscan_controller_registry.go:395-404 | a permutation at both levels, canonical when names are distinct |
| WorkloadRegistry.BuildRescanRequest | internal/controller/workloadscan_controller_registry.go:165-193 | strictly sorted targets that list exactly the given conditions |
| WorkloadRegistry.RequestUnique | internal/controller/workloadscan_controller_registry.go:164-193 | a set of conditions has one request, whatever order it is built in |
| WorkloadRegistry.RegistryObject.Update | internal/controller/workloadscan_controller_registry.go:100-162 | delete exactly when no claim is left; otherwise the namespace's label follows its needs, every other label stays, canonical stays canonical, the settings are the configured ones, and a request is added exactly when scanning on change and conditions are new, for exactly those |
| WorkloadRegistry.TagConditions | internal/controller/workloadscan_controller_registry.go:317-332 | one condition per tag, named and labelled in the registry's format, each under the namespace's label |
| WorkloadRegistry.CreateRegistry | internal/controller/workloadscan_controller_registry.go:308-380 | exactly the needed conditions under the namespace's label, canonical, with a request for all of it when scanning on change |
| WorkloadRegistry.GroupImagesByRegistry | internal/controller/workloadscan_controller_registry.go:414-443 | exactly the parsed references of the non-empty images, with no empty group |
| WorkloadFleet.Cluster.UpdateExisting | internal/controller/workloadscan_controller_registry.go:61-82 | every listed registry is updated or deleted; after a failed call, some are and the rest are untouched |
| WorkloadFleet.Cluster.CreateMissing | internal/controller/workloadscan_controller_registry.go:84-92 | every group without a registry gets one; after a failed call, some do |
| WorkloadFleet.Cluster.ReconcileRegistries | internal/controller/workloadscan_controller_registry.go:35-96 | success exactly when no call fails; on success every registry of the namespace's home is reconciled; only registries in the artifacts namespace change, or, when none is configured, in the workload namespace; in any case each registry is as before or fully reconciled |
| WorkloadRuns.VisitClaims | internal/controller/workloadscan_controller_registry.go:35-96 | one reconcile, failed or not, changes no label but the namespace's own, which at every registry it got to then marks exactly its needs |
| WorkloadRuns.ReferencesClaimed | internal/controller/workloadscan_controller_registry.go:35-96 | after a reconcile without an error every reference the namespace uses is claimed in the artifacts namespace, or, when none is configured, in the workload namespace itself |
| WorkloadRuns.NamespacesApart | internal/controller/workloadscan_controller_registry.go:35-96 | without an artifacts namespace reconciles of two namespaces, failed ones included, change no registry in common |
| WorkloadRuns.LabelsAreLastNeeds | internal/controller/workloadscan_controller_registry.go:35-162 | after any sequence of reconciles, those that failed half way included: a registry is there exactly when some namespace, when last dealt with there, needed it, declares exactly what some namespace needed, and carries a namespace's label exactly on its last needs there |
| WorkloadRuns.OrderIndependent | internal/controller/workloadscan_controller_registry.go:109-150 | runs that agree on each namespace's last needs end with the same repository lists |
| WorkloadRuns.VisitsCommute | internal/controller/workloadscan_controller_registry.go:109-150 | reconciles of two namespaces commute after any run |
| WorkloadRuns.RetryCatchesUp | internal/controller/workloadscan_controller_registry.go:61-96 | a reconcile that failed half way and is repeated ends with the lists of one that did not fail |
| WorkloadRuns.VisitTwice | internal/controller/workloadscan_controller_registry.go:129-150 | a repeated reconcile changes nothing and adds no request |
| WorkloadRequests.RequestsCommute | internal/controller/workloadscan_controller_registry.go:61-148 | two reconciles leave requests for the same declared conditions in either order if and only if no condition is handed over from one namespace to the other, also when there is no registry at first or one of them deletes it and the other makes it anew |
| WorkloadCases.HandOverHappens | internal/controller/workloadscan_controller_registry.go:270-281 | a run of two reconciles that leaves a registry in which a condition can be handed over |
| WorkloadRaces.LabelsSinceDeletion | internal/controller/workloadscan_controller_registry.go:52-92 | in every run of overlapping reconciles, failures included, the labels are what each namespace needed at its last write after the last deletion |
| WorkloadRaces.LabelsExactIff | internal/controller/workloadscan_controller_registry.go:76-81 | throughout a run of overlapping reconciles the labels are what each namespace last needed if and only if no deletion finds a label of another namespace on the stored registry |
| WorkloadRaces.VersionedDeletion | internal/controller/workloadscan_controller_registry.go:76-81 | a deletion that finds the version it has read loses no label |
| WorkloadCases.DeletionRaces | internal/controller/workloadscan_controller_registry.go:76-81 | a run in which a deletion takes the condition another namespace has just added |
| RescanTargets.Tracker.MergeRescanRequest | internal/controller/registry_scan_runner.go:180-199 | the sets come to denote the union with the request; wildcard and conditional repositories stay disjoint |
| RescanTargets.BuildMergedTargets | internal/controller/registry_scan_runner.go:202-224 | strictly sorted targets that denote what the sets denote, with no conditions exactly for wildcards |
| RescanTargets.CollectRescanRequests | internal/controller/registry_scan_runner.go:138-176 | all rescan keys; everything exactly if some value is empty or decodes to no target; otherwise sorted targets for the union of the values that decode |
| RescanTargets.JobTargets | internal/controller/registry_scan_runner.go:93-119 | sorted targets that denote exactly the union of the decoded requests: the whole registry if some value is empty or names no repository, and also when none can be decoded |
| RescanTargets.WantsUnique | internal/controller/registry_scan_runner.go:202-224 | sorted targets are determined by what they denote, so the order of the annotations does not matter |
| ScanScope.GetRepository | api/v1alpha1/registry_types.go:148-161 | a declared repository of the name or its alias, and none only if there is none |
| ScanScope.GetsFirst | api/v1alpha1/registry_types.go:148-161 | of several repositories that match, the first is taken |
| ScanScope.ValidateScanJobTargets | internal/controller/scanjob_controller.go:209-226 | accepted exactly when every target is declared, with the reason of the first that is not |
| ScanScope.ApplyTargetsToRegistry | internal/handlers/create_catalog.go:626-655 | no target leaves the registry; otherwise success exactly when each target can be narrowed, with one entry per target, in order: the declared repository and operator, and of its conditions all, or those the target names |
| ScanScope.Chosen | internal/handlers/create_catalog.go:640-644 | precisely the conditions of the wanted names |
| ScanScope.ChosenInOrder | internal/handlers/create_catalog.go:640-644 | the wanted conditions are taken at increasing positions, each as often as it is declared |
| ScanScope.ChecksAgree | internal/handlers/create_catalog.go:633-650 | validation and narrowing agree on every target if and only if no reachable repository declares a condition name twice |
| ScanScope.FilterByTag | internal/filters/tag.go:13-46 | without an operator or with `and` all conditions, with `or` one of them, with any other nothing; an error exactly when an evaluation fails before the verdict is settled |
| ScanScope.WorkloadReferences | internal/handlers/create_catalog.go:420-453 | the references of a managed repository are named, not listed, exactly when all its conditions name valid references and one a digest; they are then exactly those the tag filter admits |
| RescanScope.WantedIsListed | internal/controller/registry_scan_runner.go:138-224 | sorted targets that denote exactly a set of conditions name those conditions one by one, never a whole repository or registry |
| RescanScope.ScansExactlyDeclared | internal/handlers/create_catalog.go:213-228 | every set of declared conditions is accepted and scanned exactly, as pairs of full repository name and tag, if and only if an official image under both its names has the one same condition and no longer name precedes its long form |
| RescanScope.BothNamesClash | api/v1alpha1/registry_types.go:143-161 | a registry that declares an official image under both its names with different tags |
| RescanScope.AliasMisses | api/v1alpha1/registry_types.go:148-161 | where that fails, a request for one or two declared conditions that is rejected or not scanned exactly |
| RescanScope.ScansExactlyParsed | internal/handlers/create_catalog.go:213-228 | among parsed names a request is scanned exactly if and only if it names no overshadowed repository: one that is `library/` before a declared name that sorts before it |
| WorkloadCases.OvershadowedHappens | api/v1alpha1/registry_types.go:148-161 | a run of one reconcile of parsed names that leaves a registry with an overshadowed repository |
| RescanScope.TwoPartsClear | api/v1alpha1/registry_types.go:143-161 | a repository of two name parts is never overshadowed, whatever is declared |
| RescanScope.ReconciledNames | internal/controller/workloadscan_controller_registry.go:426-437 | after any run of reconciles a registry declares only names that parsing gives |
| RescanScope.AddedConditionsScanned | internal/controller/workloadscan_controller_registry.go:129-150 | the conditions any number of updates added, requested, merged by the runner, validated, narrowed and filtered, are exactly what is scanned, if and only if none is in an overshadowed repository |
| RescanRuns.NoRequestLost | internal/controller/registry_scan_runner.go:93-132 | at every point of every run each well-formed request of the registry is still an annotation, unchanged, or covered by the targets of a job created after the request was written |
| RescanRuns.CleaningWrite | internal/controller/registry_scan_runner.go:263-299 | an accepted cleaning write removes exactly the keys its runner had listed and leaves every other annotation as it is stored |
| RescanRuns.HandledStaysGone | internal/controller/registry_scan_runner.go:93-132 | once a runner has ended its cleanup, other than by stopping, none of the keys it had listed is an annotation in any continuation of the run |
| RescanRuns.UnlistedUntouched | internal/controller/registry_scan_runner.go:263-299 | no step of a runner touches an annotation it has not listed |
| RescanRuns.OwedSince | internal/controller/workloadscan_controller_registry.go:129-150 | the job count kept with a request is the one at the step that stored it, and no later step changes it |
| ListPaging.TokenRoundTrip | internal/storage/repository/list.go:37-43 | a token reads back as the id it was written from if and only if the id fits in 64 bits |
| ListPaging.ScanRows | internal/storage/repository/list.go:105-131 | the first rows up to the limit, and the id of the last one exactly when a row is left |
| ListPaging.List | internal/storage/repository/list.go:25-143 | an error for a malformed token; otherwise the page past the cursor and its token |
| ListPaging.WalkIsQuery | internal/storage/repository/list.go:85-143 | on a fixed table the pages concatenate to the whole filtered list, all but the last are full, and none is empty unless nothing matches |
| ListPaging.FollowTokens | internal/storage/repository/list.go:85-143 | following the tokens ends, with exactly the filtered list in id order |
| ListPaging.VisitOrdered | internal/storage/repository/list.go:37-43 | whatever changes between pages, ids strictly increase |
| ListPaging.ReturnedOnce | internal/storage/repository/list.go:85-143 | a row that is there and matches throughout is returned exactly once, as it stood in the table its page was read from |
| LabelSelector.BuildLabelSelectorExpressions | internal/storage/repository/list.go:148-179 | one condition per requirement, none for a selector that selects nothing, an error exactly for an unsupported operator |
| LabelSelector.KeptIffMatchesVisibly | internal/storage/repository/list.go:155-176 | a row is kept if and only if it matches the selector, has every key of a negative comparison, and has a labels object when a key must be absent |
| LabelSelector.NegationDropsRow | internal/storage/repository/list.go:161-170 | every row that lacks the label, with other labels or none, matches a negative comparison and is dropped |
| LabelSelector.NothingKeepsAll | internal/storage/repository/list.go:150-153 | a selector that selects nothing keeps every row |
| WatchFanout.Storage.Create | internal/storage/store.go:85-130 | the version is spent in any case; an existing key is refused and nothing else changes; otherwise the store holds the given contents under that version, and the event is the protocol's |
| WatchFanout.Storage.Delete | internal/storage/store.go:136-187 | the key is removed, without a version, exactly when it exists and both checks pass; otherwise nothing changes |
| WatchFanout.Storage.GuaranteedUpdate | internal/storage/store.go:466-555 | the first attempt that does not lose the lock decides: when it and the precondition succeed the store holds its contents under the next version and the same UID; a missing key as asked; cancelled exactly when every attempt the context allows loses the lock; otherwise nothing changes |
| WatchFanout.Storage.Publish | internal/storage/watcher.go:286-322 | the next event enters the subject without the heavy fields, lost exactly if publication fails |
| WatchFanout.Storage.ProcessMessage | internal/storage/watcher.go:148-178 | a deletion takes the key out of the view, any other event brings the stored object or the payload, one that is missed changes nothing |
| WatchFanout.Storage.Rehydrate | internal/storage/watcher.go:182-220 | the stored object if it has the event's UID, else the payload |
| WatchFanout.StoredAsGiven | internal/storage/store.go:85-187 | in every run the store holds under each key exactly what the steps last gave it: the UID of its creation, the contents of the last creation or update, and as version the number of versions drawn by then |
| WatchFanout.SameSequence | internal/storage/watcher.go:148-220 | for a key no event of which was missed, what the client saw and what is under way is, kind and UID, the sequence of commits |
| WatchFanout.ToldAsHappened | internal/storage/watcher.go:148-220 | for a key no event of which was missed, what the client saw and what is under way is, kind and UID, one event for each creation, update and deletion in the steps |
| WatchFanout.ViewConverges | internal/storage/store.go:114-120 | a key with nothing under way is viewed exactly as stored, unless its latest event was missed |
| WatchFanout.ViewedAsGiven | internal/storage/watcher.go:148-220 | a key with nothing under way and its latest event not missed is viewed with the contents the steps last gave it |
| WatchConvergence.ViewExactIff | internal/storage/watcher.go:148-220 | at every point of every run, whatever was missed: the view of a key is what is stored if and only if an event about the stored object was received after the key's last commit, or, when nothing is stored, the client was last told of the deletion or never of the key |
| WatchConvergence.LatestMissed | internal/storage/watcher.go:198-206 | two runs whose latest event of a key is missed, one that leaves the client behind and one that does not |
| WatchVersions.NothingInvented | internal/storage/watcher.go:182-220 | every delivered event carries an object the store held under the key, whole or stripped, with the UID of its commit and at least its version |
| WatchVersions.NotOlderWhileStored | internal/storage/watcher.go:182-220 | while the store holds an event's object, the client gets the stored one, no older than what it had |
| WatchVersions.OlderExactlyWhenGone | internal/storage/watcher.go:182-220 | an event about an object the client has makes its view older if and only if the store no longer holds that object and the event carries an older version |
| WatchVersions.ViewGoesBack | internal/storage/watcher.go:198-206 | a run in which the client is handed an older version than it has |
| WatchVersions.StaleStaysStale | internal/storage/store.go:512-521 | a drawn version that is not the stored one is that of the key's object in no continuation of the run |
| WatchVersions.VersionReachable | internal/storage/store.go:523-530 | some continuation stores the key's object at a version if and only if it is at that version now or the version has not been drawn |
| WatchVersions.StaleNeverAnswered | internal/storage/store.go:492-521 | an update that asks for a drawn version is answered by an object on some attempt in some continuation if and only if that version is the stored one |
| WatchVersions.NeverAnswered | internal/storage/store.go:512-521 | after a run that draws three versions, the one of them that can ever be read under the key |
| ReportJoin.BuildImageRefConditions | internal/storage/repository/workloadscanreport_repository.go:328-346 | four parallel arrays, each position one reference |
| ReportJoin.SelectsRequested | internal/storage/repository/workloadscanreport_repository.go:322-346 | exactly the requested references are selected, with no combination of parts of different ones |
| ReportJoin.QueryHoldsRows | internal/storage/repository/workloadscanreport_repository.go:270-290 | the batch query holds all rows of each requested reference, in order |
| ReportJoin.RowsMember | internal/storage/repository/workloadscanreport_repository.go:322-346 | the rows of a reference are the table rows with its namespace, registry, repository and tag |
| ReportJoin.FetchImageCounts | internal/storage/repository/workloadscanreport_repository.go:209-267 | for each requested reference, the number of its images |
| ReportJoin.FetchVulnerabilityReports | internal/storage/repository/workloadscanreport_repository.go:270-320 | for each requested reference, its reports in table order |
| ReportJoin.CollectContainers | internal/storage/repository/workloadscanreport_repository.go:162-174 | exactly the references of the reports, each once |
| ReportJoin.ReportsAdvance | internal/storage/repository/workloadscanreport_repository.go:371-379 | whatever reports are added to the table, a container's status only moves forward, reports of other references change nothing, and it is complete exactly when its own reports are as many as its images |
| ReportJoin.ImagesHoldBack | internal/storage/repository/workloadscanreport_repository.go:371-379 | images added to the table take a complete container back to in progress exactly when it then has more images than reports |
| ReportJoin.PopulateContainerResults | internal/storage/repository/workloadscanreport_repository.go:161-206 | each report with containers ends with the results of a lookup of its own, whatever else is in the batch: at each container's position its name, the rows of its reference and the status they give, and in each counter the distinct vulnerabilities of every container; one without is unchanged |
| ReportJoin.KeysAtRows | internal/storage/repository/workloadscanreport_repository.go:386-410 | the vulnerabilities counted for a container are those of the rows of its reference, told apart by CVE, suppression, package and version |
| ReportJoin.SummaryCountsAll | internal/storage/repository/workloadscanreport_repository.go:386-410 | every container contributes to each counter its distinct vulnerabilities first met with it, and nothing else is counted |
| VulnerabilitySummary.SummaryObject.Add | api/storage/v1alpha1/summary.go:44-64 | a suppressed vulnerability grows the suppressed counter by one, any other that of its severity, or the unknown one; no other counter changes |
| VulnerabilitySummary.NewSummaryFromResults | api/storage/v1alpha1/summary.go:33-42 | each counter holds the number of vulnerabilities that belong to it |
| VulnerabilitySummary.CalculateSummary | internal/storage/repository/workloadscanreport_repository.go:386-410 | the summary of all containers, each counted without repetition |
| VulnerabilitySummary.SummaryCountsKeys | internal/storage/repository/workloadscanreport_repository.go:386-410 | the six counters add up to the distinct keys of each container, the suppressed one to the suppressed keys |
| ReportOrder.SummaryOrder | internal/storage/repository/workloadscanreport_repository.go:389-408 | however the vulnerabilities of a container are ordered, the total and the suppressed counter stay, and all counters when equal keys have equal counters |
| ReportOrder.TotalsKept | internal/storage/repository/workloadscanreport_repository.go:270-320 | no order of the reports changes the total or the suppressed counter |
| ReportOrder.KeyOrderIff | internal/storage/repository/workloadscanreport_repository.go:386-410 | the counter a key is counted under is the same for every order of the reports if and only if any two reports that hold it meet it first with the same counter |
| ReportOrder.AgreeingSummary | internal/storage/repository/workloadscanreport_repository.go:386-410 | if in every container the reports agree on every key, no order of the reports changes the summary |
| ReportOrder.Cancels | internal/storage/repository/workloadscanreport_repository.go:386-410 | two reports that disagree on two keys and yet count the same in both orders |
| ReportOrder.OrderChanges | internal/storage/repository/workloadscanreport_repository.go:386-410 | two reports whose order changes the summary |
| ReportOrder.SummaryOrderIff | internal/storage/repository/workloadscanreport_repository.go:386-410 | the summary is the same for every order of the reports within containers if and only if any two reports of a container, whichever others come before, count equally many of the keys that they share and those others lack under each counter |
| WorkloadReports.ReportNameInjective | internal/controller/workloadscan_controller_report.go:187-189 | reports of different owners have different names when kinds hold no dash |
| WorkloadReports.LowerAt | internal/controller/workloadscan_controller_report.go:187-189 | the kind in a report name has each capital letter made small and everything else as it was |
| WorkloadReports.BuildContainerRefs | internal/controller/workloadscan_controller_report.go:192-222 | exactly the parsed images of all containers, init containers included, in strict name order when names are distinct |
| WorkloadReports.BuildPodsByReport | internal/controller/workloadscan_controller_report.go:76-93 | one entry per report name with its first pod, and an error exactly when an owner cannot be resolved |
| WorkloadReports.NamespaceReports.ReconcileWorkloadScanReports | internal/controller/workloadscan_controller_report.go:35-72 | afterwards the managed reports are those of the current workloads, each built from its first pod |
| WorkloadReports.OneReportPerOwner | internal/controller/workloadscan_controller_report.go:76-93 | every pod has its owner's report, every report a pod, and pods share a report only if they share the owner |
| WorkloadReports.EveryReferenceBacked | internal/controller/workloadscan_controller.go:92-98 | after both reconciles every container reference names the artifacts namespace, or the workload namespace when none is configured, and is backed there by a registry of its name whose repository and tag carry the namespace's label |
| ImageIndex.MetadataKeyInjective | internal/controller/indexer.go:104-106 | equal metadata keys come from equal registry, repository and tag |
| ImageIndex.RefKeyInjective | internal/controller/indexer.go:114-116 | equal reference keys come from equal references |
| ImageIndex.IndexWorkloadByImageRef | internal/controller/indexer.go:82-101 | each key of the report's references, once |
| ImageIndex.MapReportToImages | internal/controller/image_workloadscan_watch_helpers.go:24-65 | exactly the namespaces and names of the images found for some reference whose lookup did not fail |
| ImageIndex.PathsAgree | internal/controller/image_workloadscan_watch_helpers.go:24-65 | a report requeues exactly the images that list it, for all images, if and only if all its references name a namespace |
| ImageIndex.ReconcileImage | internal/controller/image_workloadscan_controller.go:26-71 | the sorted list of exactly the reports that reference the image, and a patch exactly when the status differs |

## Left out

- The node-scan pipeline: the same state machine with fewer actors.
- Scanning itself, registry clients, authentication, TLS, telemetry other than the job
  counter, the MCP server, commands, generated code: input and output, or wiring.
- Admission webhooks and platform filters: flat checks.
- Obsolete image deletion and the discovery of repositories and images: in the pipeline a
  discovery is any list of image names. What a repository offers is not modelled, only
  what the filter lets through of it, and the references a workload registry names.
- The cleaning of a declared repository name by `path.Join`, and a registry whose URI is
  written `docker.io`.
- Acknowledgements and retry delays of the queue: a message can be delivered any number
  of times, at any time, which includes redelivery after an acknowledgement.
- The text of a processing error, the job's generation and the clock in the protocol:
  they do not influence its course; `FailJob` and its siblings take them as parameters.
- Deletion of old jobs by the reconciler: a job can be deleted at any step.
- Field selectors, resource versions and namespaces in list queries: part of one
  arbitrary row filter.
- Concurrent updates of one key in the store: each commit is one step.
- Initial events of a watch and the synthetic events of workload reports.
- The decision to scan on an interval: a runner that lists no request makes no claim.
- Aliasing of label maps between a fetched registry and its processed copy: the copy is
  discarded whenever it is not written.
- Ownership of nested slices by each container result.
- The walk up a pod's owner chain: its result is a parameter.
- A hash collision between registry names, and a foreign registry of the same name: the
  creation fails, which `Cluster.CreateMissing` covers as a failing call.
- PipelineHistory.CompletedJobIsScanned: agreement of the catalogs is sufficient and not
  necessary; `CounterCompletes` gives the weaker condition on the lengths.
- WatchFanout.Storage.GuaranteedUpdate: no other writer commits between two attempts of the
  method; `StaleNeverAnswered` is about attempts between which others do.
