/** When the job counter counts each completion exactly once: unless a failure
    message of an earlier job of the same name was charged to the job, because only
    then can another actor finish it between a reconcile's read and its annotation
    patch.
 */
module PipelineOnce {
  import opened Ordering
  import opened ScanJobStatus
  import opened ScanPipeline
  import opened PipelineInvariants
  import opened PipelineMetric
  import opened PipelineFinality

  ghost predicate NoneFor(s: State, uid: Uid) {
    forall m :: m in s.published ==> m.uid != uid
  }

  /** No failure of another job has been charged to the job. */
  ghost predicate Clean(writes: seq<Write>, uid: Uid) {
    forall i :: 0 <= i < |writes| && writes[i].uid == uid ==> !ForeignFailure(writes[i])
  }

  lemma CleanBefore(writes: seq<Write>, more: seq<Write>, uid: Uid)
    requires writes <= more && Clean(more, uid)
    ensures Clean(writes, uid)
  {
    assert forall i :: 0 <= i < |writes| ==> writes[i] == more[i];
  }

  /** While a reconcile that read the job without its annotation is under way, no
      other actor can have finished the job, if it is clean. */
  ghost predicate SnapshotOk(s: State, p: Proc) {
    match p
    case Reconciling(read) =>
      s.slot.Some? ==>
        if read.annotated then (s.slot.value.uid == read.uid ==> s.slot.value.annotated)
        else !s.slot.value.annotated && (Clean(s.writes, s.slot.value.uid) ==> IsPending(s.slot.value.status))
    case ReconcileWrite(read, next) => Clean(s.writes, read.uid) && Finished(next) ==> !Finished(read.status)
    case _ => true
  }

  ghost predicate OnceOk(s: State) {
    && (forall q, r :: q in s.procs && r in s.procs && IsReconcile(s.procs[q]) && IsReconcile(s.procs[r]) ==> q == r)
    && (s.slot.Some? && !s.slot.value.annotated ==> NoneFor(s, s.slot.value.uid))
    && (forall u :: At(s.discovered, u) != {} ==> CreateCatalog(u) in s.published)
    && (forall q :: q in s.procs ==> SnapshotOk(s, s.procs[q]))
    && (forall i :: 0 <= i < |s.writes| && Clean(s.writes[..i], s.writes[i].uid) ==> !Recounts(s.writes[i]))
  }

  // --- Steps that make no status write -------------------------------------------

  lemma QuietJob(s: State, step: Step)
    requires Enabled(s, step) && !step.Persist?
    ensures var t := Apply(s, step);
            && t.writes == s.writes && t.discovered == s.discovered
            && (t.slot.Some? ==>
                  || (s.slot.Some? && t.slot.value.uid == s.slot.value.uid && t.slot.value.status == s.slot.value.status
                      && (s.slot.value.annotated ==> t.slot.value.annotated)
                      && (!step.ReconcileSnapshot? ==> t.slot.value.annotated == s.slot.value.annotated))
                  || (t.slot.value.uid == s.nextUid && t.slot.value.status == EMPTY_STATUS && !t.slot.value.annotated
                      && t.published == s.published))
  {
    hide Apply, Local, IntentOf, Persisted;
    ApplyShared(s, step);
  }

  lemma QuietPublished(s: State, step: Step)
    requires Enabled(s, step) && !step.Persist?
    ensures var t := Apply(s, step);
            && s.published <= t.published
            && (forall m :: m in t.published && m !in s.published ==>
                  || (step.ReconcilePublish? && m.uid == s.procs[step.pid].read.uid)
                  || ((step.PublishSbom? || step.SbomDone?) && m.uid == s.procs[step.pid].d.message.uid))
  {
    hide Apply, Local, IntentOf, Persisted, Patched;
    ApplyShared(s, step);
  }

  /** The reconcile an actor is in comes from its own previous step. */
  lemma LocalReconcile(s: State, step: Step)
    requires Enabled(s, step) && !step.Persist? && Mover(step).Some? && Local(s, step).Some?
    requires IsReconcile(Local(s, step).value)
    ensures step.ReconcileRead? || (step.pid in s.procs && IsReconcile(s.procs[step.pid]))
  {
    hide IntentOf, IsTrue, AsFailed, AsScheduled, Initialized, PatchResponse;
  }

  lemma ReconcileFrom(s: State, step: Step, q: Pid)
    requires Enabled(s, step) && !step.Persist? && q in Apply(s, step).procs
    requires IsReconcile(Apply(s, step).procs[q])
    ensures step == ReconcileRead(q) || (q in s.procs && IsReconcile(s.procs[q]))
  {
    if Mover(step) == Some(q) {
      assert Apply(s, step).procs == Put(s.procs, q, Local(s, step));
      LocalReconcile(s, step);
    } else {
      hide Enabled, Shared, Local, Apply;
      OthersUnchanged(s, step, q);
    }
  }

  lemma QuietUnique(s: State, step: Step)
    requires OnceOk(s) && Enabled(s, step) && !step.Persist?
    ensures var procs := Apply(s, step).procs;
            forall q, r :: (q in procs && r in procs && IsReconcile(procs[q]) && IsReconcile(procs[r])) ==> q == r
  {
    var t := Apply(s, step);
    forall q, r | q in t.procs && r in t.procs && IsReconcile(t.procs[q]) && IsReconcile(t.procs[r]) ensures q == r {
      ReconcileFrom(s, step, q);
      ReconcileFrom(s, step, r);
      hide Shared, Local, Apply, SnapshotOk, NoneFor, IsTrue;
    }
  }

  lemma QuietNone(s: State, step: Step)
    requires Inv(s) && OnceOk(s) && Enabled(s, step) && !step.Persist?
    ensures var t := Apply(s, step);
            t.slot.Some? && !t.slot.value.annotated ==> NoneFor(t, t.slot.value.uid)
  {
    hide Shared, Local, Apply, IsTrue, SlotOk, WritesOk, IntentOf, CopyOk, StartOk;
    QuietJob(s, step);
    QuietPublished(s, step);
    if step.ReconcilePublish? {
      assert SnapshotOk(s, s.procs[step.pid]);
    } else if step.PublishSbom? || step.SbomDone? {
      assert ProcOk(s, s.procs[step.pid]);
      assert s.procs[step.pid].d.message in s.published;
    }
  }

  /** A slot that moved without a status write leaves a reconcile in order. */
  lemma SnapshotFrame(s: State, step: Step, p: Proc)
    requires Inv(s) && Enabled(s, step) && !step.Persist? && !step.ReconcileSnapshot?
    requires ProcOk(s, p) && SnapshotOk(s, p)
    ensures SnapshotOk(Apply(s, step), p)
  {
    hide Shared, Local, Apply, IsTrue, WritesOk, NamesOk, Enabled;
    QuietJob(s, step);
    QuietPublished(s, step);
    EmptyIsPending();
  }

  lemma EmptyIsPending()
    ensures IsPending(EMPTY_STATUS)
  {
  }

  lemma MovedSnapshot(s: State, step: Step)
    requires Inv(s) && OnceOk(s) && Enabled(s, step) && !step.Persist? && Mover(step).Some? && Local(s, step).Some?
    ensures SnapshotOk(Apply(s, step), Local(s, step).value)
  {
    var p := Local(s, step).value;
    if IsReconcile(p) {
      if step.ReconcileRead? {
        QuietJob(s, step);
        QuietPublished(s, step);
        hide IsTrue;
      } else {
        LocalReconcile(s, step);
        MovedReconcile(s, step);
      }
    }
  }

  lemma MovedReconcile(s: State, step: Step)
    requires Inv(s) && OnceOk(s) && Enabled(s, step) && !step.Persist? && Mover(step).Some? && Local(s, step).Some?
    requires !step.ReconcileRead? && step.pid in s.procs && IsReconcile(s.procs[step.pid])
    requires IsReconcile(Local(s, step).value)
    ensures SnapshotOk(Apply(s, step), Local(s, step).value)
  {
    hide Enabled, Shared, Local, Apply, Inv, OnceOk, SnapshotOk, IsTrue;
    if step.ReconcileSnapshot? {
      SnapshotWritten(s, step);
    } else {
      ReconcileWrites(s, step);
      PendingWritten(s, step);
    }
  }

  /** A pending copy leads to a write that, if it finishes the job, is the first. */
  lemma PendingWritten(s: State, step: Step)
    requires Inv(s) && Enabled(s, step) && Mover(step).Some? && Local(s, step).Some? && step.pid in s.procs
    requires s.procs[step.pid].Reconciling? && Local(s, step).value.ReconcileWrite?
    requires Local(s, step).value.read == s.procs[step.pid].read
    ensures SnapshotOk(Apply(s, step), Local(s, step).value)
  {
    hide Enabled, Shared, Local, Apply, SlotOk, NamesOk, WritesOk, CopyOk, IsTrue;
    assert ProcOk(s, s.procs[step.pid]);
  }

  lemma SnapshotWritten(s: State, step: Step)
    requires Inv(s) && OnceOk(s) && Enabled(s, step) && step.ReconcileSnapshot?
    ensures Local(s, step).Some? && SnapshotOk(Apply(s, step), Local(s, step).value)
  {
    hide Shared, Apply, Initialized, IsTrue, NamesOk, WritesOk, CopyOk, IntentOf, NoneFor;
    assert SnapshotOk(s, s.procs[step.pid]) && ProcOk(s, s.procs[step.pid]);
    var read, server := s.procs[step.pid].read, s.slot.value.status;
    InitializedOk(read.status, step.now);
    if IsPending(server) { PatchedPending(read.status, server, step.now); }
    QuietJob(s, step);
  }

  lemma PatchedPending(read: Status, server: Status, now: int)
    requires IsPending(read) && IsPending(server)
    ensures !Finished(PatchResponse(Initialized(read, 0, now), server))
  {
    InitializedOk(read, now);
  }

  lemma ReconcileWrites(s: State, step: Step)
    requires Enabled(s, step) && !step.Persist? && Mover(step).Some? && Local(s, step).Some?
    requires !step.ReconcileRead? && !step.ReconcileSnapshot? && step.pid in s.procs && IsReconcile(s.procs[step.pid])
    requires IsReconcile(Local(s, step).value)
    ensures s.procs[step.pid].Reconciling? && Local(s, step).value.ReconcileWrite?
    ensures Local(s, step).value.read == s.procs[step.pid].read
  {
    hide AsFailed, AsScheduled, Initialized, IsTrue, IntentOf;
  }

  lemma QuietSnapshots(s: State, step: Step, q: Pid)
    requires Inv(s) && OnceOk(s) && Enabled(s, step) && !step.Persist? && q in Apply(s, step).procs
    ensures SnapshotOk(Apply(s, step), Apply(s, step).procs[q])
  {
    var t := Apply(s, step);
    if Mover(step) == Some(q) {
      assert t.procs == Put(s.procs, q, Local(s, step));
      MovedSnapshot(s, step);
    } else {
      OthersUnchanged(s, step, q);
      assert SnapshotOk(s, s.procs[q]) && ProcOk(s, s.procs[q]);
      if step.ReconcileSnapshot? {
        assert s.procs[step.pid].Reconciling?;
        hide Shared, Local, Apply;
        assert !IsReconcile(s.procs[q]);
      } else {
        hide Shared, Local, Apply;
        SnapshotFrame(s, step, s.procs[q]);
      }
    }
  }

  lemma QuietKeepsOnce(s: State, step: Step)
    requires Inv(s) && OnceOk(s) && Enabled(s, step) && !step.Persist?
    ensures OnceOk(Apply(s, step))
  {
    QuietUnique(s, step);
    QuietNone(s, step);
    QuietJob(s, step);
    QuietPublished(s, step);
    forall q | q in Apply(s, step).procs ensures SnapshotOk(Apply(s, step), Apply(s, step).procs[q]) {
      QuietSnapshots(s, step, q);
    }
    hide Shared, Local, Apply, Enabled, IsTrue, SnapshotOk, NoneFor, Inv;
  }

  // --- Status writes -----------------------------------------------------------------

  predicate ForeignIntent(i: Intent) { i.writer.FailureHandler? && i.writer.cause.message.uid != i.read.uid }

  /** Every writer but the reconciler works on a message published for the job, or
      on a failure of another. */
  lemma WriterHasMessage(s: State, p: Proc, i: Intent, now: int)
    requires Inv(s) && OnceOk(s) && ProcOk(s, p) && !IsReconcile(p)
    requires IntentOf(p, |s.writes|, now) == Some(i) && s.slot == Some(i.read)
    ensures NoneFor(s, i.read.uid) ==> ForeignIntent(i)
    ensures i.writer.CatalogClose? ==> CreateCatalog(i.read.uid) in s.published
  {
    hide IsTrue, WellFormed, Finished, IsFailed, Counted, Closed, AsFailed, AsInProgress, SlotOk, ProcsOk, WritesOk,
      Noted;
    match p
    case CatalogBeginWrite(d, read) =>
    case CatalogEndWrite(d, _, _, read) =>
    case FailWrite(d, read) =>
    case Counting(uid, _, _) => assert CreateCatalog(uid) in s.published;
  }

  lemma PersistKeepsOnce(s: State, step: Step)
    requires Inv(s) && OnceOk(s) && Enabled(s, step) && step.Persist?
    ensures OnceOk(Apply(s, step))
  {
    var i := PersistShape(s, step);
    var p := s.procs[step.pid];
    assert SnapshotOk(s, p);
    OnwardNoReconcile(p, i, |s.writes|, step.now);
    if !IsReconcile(p) { WriterHasMessage(s, p, i, step.now); }
    hide Shared, Local, Apply, Enabled, Inv, IntentOf, IntentGood, ProcOk, OnceOk, SnapshotOk, NoneFor;
    WrittenOnce(s, Apply(s, step), step.pid, i);
  }

  lemma WrittenOnce(s: State, t: State, pid: Pid, i: Intent)
    requires OnceOk(s) && pid in s.procs && s.slot == Some(i.read)
    requires t == Persisted(s, i).(procs := Put(s.procs, pid, i.onward))
    requires i.onward.Some? ==> !IsReconcile(i.onward.value)
    requires i.writer.Reconciler? <==> IsReconcile(s.procs[pid])
    requires IsReconcile(s.procs[pid]) ==> s.procs[pid] == ReconcileWrite(i.read, i.next)
    requires !IsReconcile(s.procs[pid]) && NoneFor(s, i.read.uid) ==> ForeignIntent(i)
    requires i.writer.CatalogClose? ==> CreateCatalog(i.read.uid) in s.published
    ensures OnceOk(t)
  {
    hide IsTrue, SnapshotOk, Recounts, NoneFor;
    assert SnapshotOk(s, s.procs[pid]);
    forall q | q in t.procs ensures SnapshotOk(t, t.procs[q]) {
      if q != pid { assert SnapshotOk(s, s.procs[q]); }
      WrittenSnapshot(s, t, pid, i, q);
    }
    WrittenRecord(s, t, i);
    NotRecounted(s, t, i);
    forall k | 0 <= k < |t.writes| && Clean(t.writes[..k], t.writes[k].uid) ensures !Recounts(t.writes[k]) {
      if k < |s.writes| { assert t.writes[..k] == s.writes[..k] && t.writes[k] == s.writes[k]; }
    }
  }

  /** Other reconciles do not run beside a status write, or have written already. */
  lemma WrittenSnapshot(s: State, t: State, pid: Pid, i: Intent, q: Pid)
    requires OnceOk(s) && pid in s.procs && s.slot == Some(i.read) && q in t.procs
    requires t == Persisted(s, i).(procs := Put(s.procs, pid, i.onward))
    requires i.onward.Some? ==> !IsReconcile(i.onward.value)
    requires !IsReconcile(s.procs[pid]) && NoneFor(s, i.read.uid) ==> ForeignIntent(i)
    requires q != pid ==> SnapshotOk(s, s.procs[q])
    ensures SnapshotOk(t, t.procs[q])
  {
    hide IsTrue, Recounts, NoneFor, Noted;
    WrittenClean(s, t, i);
  }

  /** A foreign failure leaves the job unclean; nothing makes a job clean again. */
  lemma WrittenClean(s: State, t: State, i: Intent)
    requires s.slot == Some(i.read) && t.writes == Persisted(s, i).writes
    ensures forall u :: Clean(t.writes, u) ==> Clean(s.writes, u)
    ensures Clean(t.writes, i.read.uid) ==> !ForeignIntent(i)
  {
    forall u | Clean(t.writes, u) ensures Clean(s.writes, u) { CleanBefore(s.writes, t.writes, u); }
    assert t.writes[|s.writes|].writer == i.writer && t.writes[|s.writes|].uid == i.read.uid;
  }

  lemma WrittenRecord(s: State, t: State, i: Intent)
    requires OnceOk(s) && s.slot == Some(i.read) && t == Persisted(s, i).(procs := t.procs)
    requires i.writer.CatalogClose? ==> CreateCatalog(i.read.uid) in s.published
    ensures forall u :: At(t.discovered, u) != {} ==> CreateCatalog(u) in t.published
    ensures t.published == s.published && (NoneFor(s, i.read.uid) ==> NoneFor(t, i.read.uid))
    ensures t.slot == Some(i.read.(version := s.nextVersion, status := i.next)) && |t.writes| == |s.writes| + 1
  {
    hide SnapshotOk, Recounts;
  }

  lemma NotRecounted(s: State, t: State, i: Intent)
    requires s.slot == Some(i.read) && t == Persisted(s, i).(procs := t.procs)
    requires i.writer.Reconciler? ==> SnapshotOk(s, ReconcileWrite(i.read, i.next))
    ensures Clean(t.writes[..|s.writes|], i.read.uid) ==> !Recounts(t.writes[|s.writes|])
    ensures t.writes[|s.writes|].uid == i.read.uid
  {
    hide Noted, IsTrue;
    assert t.writes[..|s.writes|] == s.writes;
  }

  lemma OnwardNoReconcile(p: Proc, i: Intent, start: nat, now: int)
    requires IntentOf(p, start, now) == Some(i)
    ensures i.onward.Some? ==> !IsReconcile(i.onward.value)
    ensures i.writer.Reconciler? <==> IsReconcile(p)
    ensures IsReconcile(p) ==> p == ReconcileWrite(i.read, i.next)
  {
    hide Finished, IsFailed, Counted, Closed, AsFailed, AsInProgress;
  }

  lemma {:induction false} RunOnce(steps: seq<Step>)
    requires Execute(steps).Some?
    ensures OnceOk(Execute(steps).value)
  {
    if steps != [] {
      var prefix, step := steps[..|steps| - 1], steps[|steps| - 1];
      var s := Execute(prefix).value;
      RunInv(prefix);
      hide Inv, OnceOk, Apply, Enabled;
      RunOnce(prefix);
      if step.Persist? {
        PersistKeepsOnce(s, step);
      } else {
        QuietKeepsOnce(s, step);
      }
    }
  }

  lemma {:induction false} NoTally(p: Write -> bool, writes: seq<Write>)
    ensures Tally(p, writes) == 0 <==> forall i :: 0 <= i < |writes| ==> !p(writes[i])
  {
    if writes != [] {
      NoTally(p, writes[..|writes| - 1]);
      assert forall i :: 0 <= i < |writes| - 1 ==> writes[..|writes| - 1][i] == writes[i];
    }
  }

  /** A failure of another job was charged to this one before. */
  ghost predicate ForeignBefore(writes: seq<Write>, i: nat)
    requires i < |writes|
  {
    exists j :: 0 <= j < i && writes[j].uid == writes[i].uid && ForeignFailure(writes[j])
  }

  lemma RecountsAreForeign(steps: seq<Step>, i: nat)
    requires Execute(steps).Some? && i < |Execute(steps).value.writes|
    requires Recounts(Execute(steps).value.writes[i])
    ensures ForeignBefore(Execute(steps).value.writes, i)
  {
    RunOnce(steps);
    hide Execute, Recounts, SnapshotOk, NoneFor, ForeignFailure;
    var writes := Execute(steps).value.writes;
    assert !Clean(writes[..i], writes[i].uid);
    var j :| 0 <= j < i && writes[..i][j].uid == writes[i].uid && ForeignFailure(writes[..i][j]);
    assert writes[..i][j] == writes[j];
  }

  /** In every run, crashes included, each persisted completion is counted, still
      owed or lost in a crash. Beyond that only repeated completions are counted,
      each of a job to which a failure of an earlier job of the same name had been
      charged; so when nothing is owed or lost the counter is exact if and only if
      there was no repeated one. */
  lemma CompletionsCounted(steps: seq<Step>)
    requires Execute(steps).Some?
    ensures var s := Execute(steps).value;
            && s.counter + Owed(s.procs) + s.lost == Tally(Completes, s.writes) + Tally(Recounts, s.writes)
            && (forall i :: 0 <= i < |s.writes| && Recounts(s.writes[i]) ==> ForeignBefore(s.writes, i))
            && (Owed(s.procs) == 0 && s.lost == 0 ==>
                  (s.counter == Tally(Completes, s.writes) <==>
                   forall i :: 0 <= i < |s.writes| ==> !Recounts(s.writes[i])))
  {
    RunMetric(steps);
    var s := Execute(steps).value;
    hide Execute, Recounts, ForeignBefore;
    NoTally(Recounts, s.writes);
    forall i | 0 <= i < |s.writes| && Recounts(s.writes[i]) ensures ForeignBefore(s.writes, i) {
      RecountsAreForeign(steps, i);
    }
  }
}
