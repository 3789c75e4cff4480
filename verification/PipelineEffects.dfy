/** What an actor leaves when no other actor interferes between its read and its write,
    and when one did and it tries again. */
module PipelineEffects {
  import opened Ordering
  import opened ScanJobStatus
  import opened ScanPipeline
  import opened PipelineSteps

  /** The reconciler has read what is stored. */
  ghost predicate Reads(s: State, pid: Pid) {
    pid in s.procs && s.procs[pid].Reconciling? && s.slot == Some(s.procs[pid].read)
  }

  /** A write whose version is still the stored one is accepted. */
  lemma Lands(s: State, pid: Pid, now: int) returns (t: State)
    requires pid in s.procs && IntentOf(s.procs[pid], |s.writes|, now).Some?
    requires s.slot == Some(IntentOf(s.procs[pid], |s.writes|, now).value.read)
    ensures Goes(s, Persist(pid, now), t)
    ensures var i := IntentOf(s.procs[pid], |s.writes|, now).value;
            && t.slot == Some(i.read.(version := s.nextVersion, status := i.next))
            && t.procs == Put(s.procs, pid, i.onward) && t.published == s.published
  {
    hide IntentOf, Put;
    t := Apply(s, Persist(pid, now));
  }

  // --- The reconciler ------------------------------------------------------------------

  /** A refused job has failed for the given reason, and is counted as finished. */
  lemma RefusalStored(s: State, pid: Pid, reason: string, text: string, now: int) returns (s1: State, t: State)
    requires Reads(s, pid)
    ensures Goes(s, ReconcileFail(pid, reason, text, now), s1) && Goes(s1, Persist(pid, now), t)
    ensures Holds(t, s.slot.value.uid) && t.published == s.published
    ensures var status := t.slot.value.status;
            && Says(status.conditions, Failed, True, reason, text, 0) && OnlyPhase(status, Failed)
            && status.completionTime == Some(now)
    ensures pid in t.procs && t.procs[pid] == Recording
  {
    var read := s.procs[pid].read;
    var initial := Initialized(read.status, 0, now);
    var next := AsFailed(initial, reason, text, 0, now);
    s1 := s.(procs := s.procs[pid := ReconcileWrite(read, next)]);
    assert Goes(s, ReconcileFail(pid, reason, text, now), s1) by { hide Initialized, AsFailed, IntentOf; }
    assert next.completionTime == Some(now) by { hide MarkAll; }
    AsFailedPhase(initial, reason, text, 0, now);
    MarkAllSays(initial.conditions, Failed, reason, text, "Failed", "ScanJob failed", 0, now);
    assert Says(next.conditions, Failed, True, reason, text, 0) by { hide Says, MarkAll; }
    assert IsFailed(next) by { hide AsFailed; }
    hide AsFailed, Initialized, Says, OnlyPhase, IsTrue;
    t := Lands(s1, pid, now);
  }

  /** A job that was asked for is scheduled, and its catalog message is out. */
  lemma PublicationStored(s: State, pid: Pid, now: int) returns (s1: State, t: State)
    requires Reads(s, pid) && s.procs[pid].read.annotated
    ensures Goes(s, ReconcilePublish(pid, now), s1) && Goes(s1, Persist(pid, now), t)
    ensures Holds(t, s.slot.value.uid) && t.published == s.published + {CreateCatalog(s.slot.value.uid)}
    ensures OnlyPhase(t.slot.value.status, Scheduled)
  {
    var read := s.procs[pid].read;
    var initial := Initialized(read.status, 0, now);
    var next := Published(initial, now);
    s1 := s.(procs := s.procs[pid := ReconcileWrite(read, next)],
             published := s.published + {CreateCatalog(read.uid)});
    assert Goes(s, ReconcilePublish(pid, now), s1) by { hide Initialized, Published, IntentOf; }
    AsScheduledPhase(initial, "Scheduled", "ScanJob has been scheduled for processing by the controller", 0, now);
    hide Published, Initialized, OnlyPhase, Finished;
    t := Lands(s1, pid, now);
  }

  /** A job without conditions that gets its annotation also gets its pending conditions. */
  lemma SnapshotStored(s: State, pid: Pid, now: int) returns (s1: State, t: State)
    requires Reads(s, pid) && !s.procs[pid].read.annotated && s.slot.value.status.conditions == []
    ensures Goes(s, ReconcileSnapshot(pid, now), s1) && Goes(s1, Persist(pid, now), t)
    ensures Holds(t, s.slot.value.uid) && t.slot.value.annotated && t.published == s.published
    ensures forall kind :: Says(t.slot.value.status.conditions, kind, Unknown, "Pending", "ScanJob is pending", 0)
  {
    var read := s.procs[pid].read;
    var initial := Initialized(read.status, 0, now);
    var patched := Patched(s);
    var next := PatchResponse(initial, patched.status);
    s1 := s.(slot := Some(patched), nextVersion := s.nextVersion + 1,
             procs := s.procs[pid := ReconcileWrite(patched, next)]);
    assert Goes(s, ReconcileSnapshot(pid, now), s1) by { hide Initialized, PatchResponse, IntentOf; }
    InitializedSays(read.status, 0, now);
    assert next.conditions == initial.conditions by { hide Initialized; }
    hide PatchResponse, Initialized, Says, Finished;
    t := Lands(s1, pid, now);
  }

  // --- Conflicts -------------------------------------------------------------------------

  /** A worker that was overtaken reads again. */
  lemma Again(s: State, pid: Pid) returns (s1: State)
    requires Enabled(s, Conflict(pid)) && Retried(s.procs[pid]).Some?
    ensures Goes(s, Conflict(pid), s1) && s1 == s.(procs := s.procs[pid := Retried(s.procs[pid]).value])
  {
    hide IntentOf, Retried;
    s1 := s.(procs := s.procs[pid := Retried(s.procs[pid]).value]);
  }

  lemma ReadsAgain(s: State, pid: Pid, step: Step, next: Proc) returns (t: State)
    requires Enabled(s, step) && Mover(step) == Some(pid) && Local(s, step) == Some(next)
    requires step.CatalogRead? || step.CatalogEndRead? || step.FailRead?
    ensures Goes(s, step, t) && t == s.(procs := s.procs[pid := next])
  {
    hide Enabled, Local;
    t := s.(procs := s.procs[pid := next]);
  }

  /** A catalog whose start was overtaken starts the job as it then is. */
  lemma StartRetried(s: State, pid: Pid, now: int) returns (s1: State, s2: State, t: State)
    requires pid in s.procs && s.procs[pid].CatalogBeginWrite? && Enabled(s, Conflict(pid))
    requires Holds(s, s.procs[pid].d.message.uid) && !Finished(s.slot.value.status)
    ensures Goes(s, Conflict(pid), s1) && Goes(s1, CatalogRead(pid), s2) && Goes(s2, Persist(pid, now), t)
    ensures Holds(t, s.slot.value.uid) && t.slot.value.status == Started(s.slot.value.status, now)
    ensures pid in t.procs && t.procs[pid] == Discovering(s.procs[pid].d, |s.writes|)
  {
    hide Started, Finished;
    var d := s.procs[pid].d;
    s1 := Again(s, pid);
    s2 := ReadsAgain(s1, pid, CatalogRead(pid), CatalogBeginWrite(d, s.slot.value));
    hide Enabled, Apply, Local;
    t := Lands(s2, pid, now);
  }

  /** A catalog whose closing was overtaken closes the job as it then is, with the images
      it had found before, and goes on to ask for their SBOMs. */
  lemma CloseRetried(s: State, pid: Pid, now: int) returns (s1: State, s2: State, t: State)
    requires pid in s.procs && s.procs[pid].CatalogEndWrite? && Enabled(s, Conflict(pid))
    requires Holds(s, s.procs[pid].d.message.uid)
    ensures Goes(s, Conflict(pid), s1) && Goes(s1, CatalogEndRead(pid), s2) && Goes(s2, Persist(pid, now), t)
    ensures Holds(t, s.slot.value.uid)
    ensures var p := s.procs[pid];
            && t.slot.value.status == Closed(s.slot.value.status, p.found, now)
            && (p.found != [] ==> pid in t.procs && t.procs[pid] == Publishing(p.d, p.found))
  {
    hide Closed, Finished;
    var p := s.procs[pid];
    var next := CatalogEndWrite(p.d, p.start, p.found, s.slot.value);
    s1 := Again(s, pid);
    s2 := ReadsAgain(s1, pid, CatalogEndRead(pid), next);
    hide Enabled, Apply, Local;
    t := Lands(s2, pid, now);
  }

  /** A failure handler that was overtaken fails the job as it then is. */
  lemma FailureRetried(s: State, pid: Pid, now: int) returns (s1: State, s2: State, t: State)
    requires pid in s.procs && s.procs[pid].FailWrite? && Enabled(s, Conflict(pid)) && s.slot.Some?
    ensures Goes(s, Conflict(pid), s1) && Goes(s1, FailRead(pid), s2) && Goes(s2, Persist(pid, now), t)
    ensures Holds(t, s.slot.value.uid) && t.slot.value.status == GivenUp(s.slot.value.status, now)
    ensures !Finished(s.slot.value.status) <==> pid in t.procs
  {
    hide GivenUp, Finished;
    var d := s.procs[pid].d;
    s1 := Again(s, pid);
    s2 := ReadsAgain(s1, pid, FailRead(pid), FailWrite(d, s.slot.value));
    hide Enabled, Apply, Local;
    t := Lands(s2, pid, now);
  }
}
