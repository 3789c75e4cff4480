/** What each writer does to the fetched ScanJob before it writes it back. The steps
    of the pipeline use the same functions, for jobs of generation zero. */
module PipelineHandlers {
  import opened Ordering
  import opened ScanJobStatus
  import opened ScanPipeline
  import Registries
  import Scope = ScanScope

  /** The registry of a job, as the reconciler finds it. */
  datatype Lookup = Missing | Unavailable | Found(uri: string, repositories: seq<Registries.Repository>)

  datatype Decision = Refuse(reason: string) | Leave | TakeSnapshot | Publish

  ghost predicate TargetsDeclared(registry: Lookup, targets: seq<Registries.Target>) {
    registry.Found? && forall t :: t in targets ==> Scope.TargetValid(registry.uri, registry.repositories, t)
  }

  /** The first target that is not declared, and the reason given for it. */
  ghost predicate RefusedFor(registry: Lookup, targets: seq<Registries.Target>, i: int, reason: string) {
    && registry.Found? && 0 <= i < |targets|
    && (forall j :: 0 <= j < i ==> Scope.TargetValid(registry.uri, registry.repositories, targets[j]))
    && !Scope.TargetValid(registry.uri, registry.repositories, targets[i])
    && reason == if Scope.GetRepository(registry.uri, registry.repositories, targets[i].name) == None
                 then "RepositoryNotFound" else "MatchConditionNotFound"
  }

  /** The reconciler on a pending job; `text` is the wording of a failure. A job is
      published exactly when its registry is found, declares all its targets and has
      been recorded in the annotation. */
  method ReconcileJob(job: ScanJob, registry: Lookup, targets: seq<Registries.Target>, annotated: bool, text: string,
                      now: int)
    returns (decision: Decision)
    modifies job
    ensures decision == Publish <==> TargetsDeclared(registry, targets) && annotated
    ensures decision == TakeSnapshot <==> TargetsDeclared(registry, targets) && !annotated
    ensures decision == Leave <==> registry == Unavailable
    ensures registry == Missing ==> decision == Refuse("RegistryNotFound")
    ensures registry.Found? && decision.Refuse? ==> exists i :: RefusedFor(registry, targets, i, decision.reason)
    // a refused job has failed, a published one is scheduled, any other is pending
    ensures decision.Refuse? ==>
        && job.State() == AsFailed(Initialized(old(job.State()), job.generation, now), decision.reason, text,
                                   job.generation, now)
        && Says(job.conditions, Failed, True, decision.reason, text, job.generation) && job.completionTime == Some(now)
    ensures decision == Publish ==>
        && job.State() == Published(Initialized(old(job.State()), job.generation, now), now, job.generation)
        && Says(job.conditions, Scheduled, True, "Scheduled",
                "ScanJob has been scheduled for processing by the controller", job.generation)
    ensures decision == Leave || decision == TakeSnapshot ==>
        && job.State() == Initialized(old(job.State()), job.generation, now)
        && forall kind :: Says(job.conditions, kind, Unknown, "Pending", "ScanJob is pending", job.generation)
    ensures job.imagesCount == old(job.imagesCount) && job.scannedImagesCount == old(job.scannedImagesCount)
  {
    hide AsFailed, AsScheduled, Initialized, Says, Scope.TargetValid;
    job.InitializeConditions(now);
    if registry == Missing {
      job.MarkFailed("RegistryNotFound", text, now);
      return Refuse("RegistryNotFound");
    }
    if registry == Unavailable { return Leave; }
    var v := Scope.ValidateScanJobTargets(registry.uri, registry.repositories, targets);
    if v != Scope.Accepted {
      ghost var i :| Scope.FirstInvalid(registry.uri, registry.repositories, targets, i, v);
      assert targets[i] in targets;
      var reason := if v == Scope.RepositoryNotFound then "RepositoryNotFound" else "MatchConditionNotFound";
      assert RefusedFor(registry, targets, i, reason);
      job.MarkFailed(reason, text, now);
      return Refuse(reason);
    }
    if !annotated { return TakeSnapshot; }
    job.MarkScheduled("Scheduled", "ScanJob has been scheduled for processing by the controller", now);
    return Publish;
  }

  /** The catalog worker's start check. */
  method StartCatalog(job: ScanJob, now: int) returns (alreadyFinished: bool)
    modifies job
    ensures alreadyFinished == Finished(old(job.State()))
    ensures job.State() == if alreadyFinished then old(job.State()) else Started(old(job.State()), now, job.generation)
    ensures !alreadyFinished ==>
        && job.startTime.Some?
        && Says(job.conditions, InProgress, True, "CatalogCreationInProgress", "Catalog creation in progress",
                job.generation)
  {
    hide AsInProgress, IsTrue, Says;
    alreadyFinished := Finished(job.State());
    if !alreadyFinished { job.MarkInProgress("CatalogCreationInProgress", "Catalog creation in progress", now); }
  }

  /** The catalog worker's closing update. */
  method CloseCatalog(job: ScanJob, found: seq<string>, now: int) returns (wasFinished: bool)
    modifies job
    ensures wasFinished == Finished(old(job.State()))
    ensures job.State() == Closed(old(job.State()), found, now, job.generation)
    ensures found == [] ==>
        && Says(job.conditions, Complete, True, "NoImagesToScan", "No images to process", job.generation)
        && job.completionTime == Some(now) && job.imagesCount == old(job.imagesCount)
    ensures found != [] ==>
        && Says(job.conditions, InProgress, True, "SBOMGenerationInProgress", "SBOM generation in progress",
                job.generation)
        && job.startTime.Some? && job.imagesCount == |found| && job.scannedImagesCount == 0
  {
    hide AsInProgress, AsComplete, IsTrue, Says;
    wasFinished := Finished(job.State());
    if |found| == 0 {
      job.MarkComplete("NoImagesToScan", "No images to process", now);
    } else {
      job.MarkInProgress("SBOMGenerationInProgress", "SBOM generation in progress", now);
      job.imagesCount := |found|;
      job.scannedImagesCount := 0;
    }
  }

  /** The report counter's update. */
  method CountReports(job: ScanJob, count: nat, now: int) returns (wasFailed: bool)
    modifies job
    ensures wasFailed == IsFailed(old(job.State()))
    ensures job.State() == Counted(old(job.State()), count, now, job.generation)
    ensures job.scannedImagesCount == count && job.imagesCount == old(job.imagesCount)
    ensures wasFailed ==> job.conditions == old(job.conditions) && job.completionTime == old(job.completionTime)
    ensures !wasFailed && count == job.imagesCount ==>
        && Says(job.conditions, Complete, True, "AllImagesScanned", "All images scanned successfully", job.generation)
        && job.completionTime == Some(now)
    ensures !wasFailed && count != job.imagesCount ==>
        Says(job.conditions, InProgress, True, "ImageScanInProgress", "Image scan in progress", job.generation)
  {
    hide AsInProgress, AsComplete, IsTrue, Says;
    job.scannedImagesCount := count;
    wasFailed := IsFailed(job.State());
    if !wasFailed {
      if job.scannedImagesCount == job.imagesCount {
        job.MarkComplete("AllImagesScanned", "All images scanned successfully", now);
      } else {
        job.MarkInProgress("ImageScanInProgress", "Image scan in progress", now);
      }
    }
  }

  /** The failure handler's update. */
  method FailJob(job: ScanJob, text: string, now: int) returns (wasFinished: bool)
    modifies job
    ensures wasFinished == Finished(old(job.State()))
    ensures job.State() == GivenUp(old(job.State()), now, text, job.generation)
    ensures Says(job.conditions, Failed, True, "InternalError", text, job.generation)
    ensures job.completionTime == Some(now) && job.imagesCount == old(job.imagesCount)
  {
    hide AsFailed, IsTrue, Says;
    wasFinished := Finished(job.State());
    job.MarkFailed("InternalError", text, now);
  }

  /** The finished-job counter: nothing for a job that is not finished. */
  method RecordScanJobFinished(counter: nat, status: Status) returns (next: nat)
    ensures next == counter + if IsComplete(status) || IsFailed(status) then 1 else 0
  {
    next := if !Finished(status) then counter else counter + 1;
  }

  // --- Each writer counts what it finishes, once ---------------------------------------

  /** One for a write that takes a job from unfinished to finished. */
  function Finishes(before: Status, after: Status): nat { if !Finished(before) && Finished(after) then 1 else 0 }

  lemma FinishedIfComplete(s: Status, active: Kind)
    requires OnlyPhase(s, active)
    ensures Finished(s) <==> active == Complete || active == Failed
  {
    hide IsTrue;
  }

  /** The catalog worker after its closing update was accepted. */
  method CloseAndRecord(job: ScanJob, found: seq<string>, now: int, counter: nat) returns (next: nat)
    modifies job
    ensures job.State() == Closed(old(job.State()), found, now, job.generation)
    ensures next == counter + Finishes(old(job.State()), job.State())
  {
    hide Closed, IsTrue;
    var wasFinished := CloseCatalog(job, found, now);
    next := counter;
    if !wasFinished { next := RecordScanJobFinished(counter, job.State()); }
  }

  /** The failure handler after its update was accepted: one exactly for a job that
      had not finished. */
  method FailAndRecord(job: ScanJob, text: string, now: int, counter: nat) returns (next: nat)
    modifies job
    ensures job.State() == GivenUp(old(job.State()), now, text, job.generation)
    ensures next == counter + Finishes(old(job.State()), job.State())
    ensures next == counter + if Finished(old(job.State())) then 0 else 1
  {
    ghost var before := job.State();
    var wasFinished := FailJob(job, text, now);
    next := counter;
    if !wasFinished { next := RecordScanJobFinished(counter, job.State()); }
    AsFailedPhase(before, "InternalError", text, job.generation, now);
    hide IsTrue, AsFailed;
    FinishedIfComplete(job.State(), Failed);
  }

  lemma CountedFailed(s: Status, count: nat, now: int, generation: int)
    requires IsFailed(s)
    ensures Finished(s) && Counted(s, count, now, generation) == s.(scannedImagesCount := count)
  {
  }

  /** The report counter: a completed job is left alone; otherwise one exactly for the
      write that finishes the job, although only an earlier failure is remembered. */
  method CountAndRecord(job: ScanJob, count: nat, now: int, counter: nat) returns (next: nat)
    modifies job
    ensures job.State() == if IsComplete(old(job.State())) then old(job.State())
                           else Counted(old(job.State()), count, now, job.generation)
    ensures next == counter + Finishes(old(job.State()), job.State())
  {
    hide Counted, IsTrue;
    if IsComplete(job.State()) { return counter; }
    ghost var before := job.State();
    var wasFailed := CountReports(job, count, now);
    next := counter;
    if !wasFailed {
      next := RecordScanJobFinished(counter, job.State());
    } else {
      CountedFailed(before, count, now, job.generation);
    }
  }
}
