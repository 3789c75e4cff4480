/** What every step of the scan pipeline keeps. */
module PipelineInvariants {
  import opened Ordering
  import opened ScanJobStatus
  import opened ScanPipeline

  // --- The invariant --------------------------------------------------------

  /** A copy of the job read earlier: it is the stored object for as long as the
      version has not moved. */
  ghost predicate CopyOk(s: State, job: Job) {
    && job.version < s.nextVersion && job.uid < s.nextUid && Valid(job.status)
    && (s.slot.Some? && s.slot.value.version == job.version ==> s.slot.value == job)
  }

  ghost predicate DeliveryOk(s: State, d: Delivery) {
    d.message in s.published && 1 <= d.number <= CountAt(s.delivered, d.message)
  }

  /** A catalog run past its start check names its accepted start write. */
  ghost predicate StartOk(writes: seq<Write>, uid: Uid, start: nat) {
    && start < |writes| && writes[start].writer == CatalogStart && writes[start].uid == uid
    && !Finished(writes[start].before)
  }

  ghost predicate SamePhase(a: Status, b: Status) {
    forall kind :: IsTrue(a.conditions, kind) <==> IsTrue(b.conditions, kind)
  }

  ghost predicate ReconcileOk(a: Status, b: Status) {
    && Valid(b) && KeepsCounts(a, b) && b.conditions != []
    && (SamePhase(a, b) || (IsPending(a) && (OnlyPhase(b, Failed) || OnlyPhase(b, Scheduled))))
  }

  ghost predicate ProcOk(s: State, p: Proc) {
    match p
    case Reconciling(read) => CopyOk(s, read) && IsPending(read.status)
    case ReconcileWrite(read, next) => CopyOk(s, read) && ReconcileOk(read.status, next)
    case CatalogBegin(d) => DeliveryOk(s, d) && d.message.CreateCatalog?
    case CatalogBeginWrite(d, read) =>
      && DeliveryOk(s, d) && d.message.CreateCatalog?
      && CopyOk(s, read) && read.uid == d.message.uid && !Finished(read.status)
    case Discovering(d, start) =>
      DeliveryOk(s, d) && d.message.CreateCatalog? && StartOk(s.writes, d.message.uid, start)
    case CatalogEnd(d, start, _) =>
      DeliveryOk(s, d) && d.message.CreateCatalog? && StartOk(s.writes, d.message.uid, start)
    case CatalogEndWrite(d, start, _, read) =>
      && DeliveryOk(s, d) && d.message.CreateCatalog? && StartOk(s.writes, d.message.uid, start)
      && CopyOk(s, read) && read.uid == d.message.uid
    case Publishing(d, rest) =>
      && DeliveryOk(s, d) && d.message.CreateCatalog?
      && forall x :: x in rest ==> x in At(s.discovered, d.message.uid)
    case SbomReceived(d) => DeliveryOk(s, d) && d.message.GenerateSbom?
    case SbomGenerating(d) => DeliveryOk(s, d) && d.message.GenerateSbom?
    case ScanReceived(d) => DeliveryOk(s, d) && d.message.ScanSbom?
    case ScanRunning(d) => DeliveryOk(s, d) && d.message.ScanSbom?
    case Failing(d) => DeliveryOk(s, d) && d.number >= MAX_DELIVER
    case FailWrite(d, read) => DeliveryOk(s, d) && d.number >= MAX_DELIVER && CopyOk(s, read)
    case Counting(uid, job, listed) =>
      && At(s.reported, uid) != {}
      && (job.Some? ==> CopyOk(s, job.value) && job.value.uid == uid && !IsComplete(job.value.status))
      && (listed.Some? ==> listed.value <= At(s.reported, uid))
    case Recording => true
  }

  ghost predicate ProcsOk(s: State) {
    forall q :: q in s.procs ==> ProcOk(s, s.procs[q])
  }

  /** Every name in a message or report comes from a catalog that closed, and the
      stored image count is the length of the list the last one closed with. */
  ghost predicate NamesOk(s: State) {
    && (forall m :: m in s.published ==> m.uid < s.nextUid)
    && (forall m :: m in s.published && !m.CreateCatalog? ==> m.image in At(s.discovered, m.uid))
    && (forall n :: n in s.reports ==> n in At(s.reported, s.reports[n]))
    && (forall u :: At(s.reported, u) <= At(s.discovered, u))
    && (forall u :: At(s.discovered, u) != {} ==> u in s.closed)
    && (forall u :: u in s.closed ==> u < s.nextUid && s.closed[u] != [])
    && (forall u, x :: u in s.closed && x in s.closed[u] ==> x in At(s.discovered, u))
  }

  ghost predicate SlotOk(s: State) {
    s.slot.Some? ==>
      var job := s.slot.value;
      && job.version < s.nextVersion && job.uid < s.nextUid && Valid(job.status)
      && job.status.imagesCount == |ListAt(s.closed, job.uid)|
      && job.status.scannedImagesCount <= |At(s.discovered, job.uid)|
  }

  /** A catalog that found images sets the image count and starts the count of scanned
      ones afresh. */
  ghost predicate ClosedCounts(a: Status, b: Status, found: seq<string>) {
    if found == [] then KeepsCounts(a, b) else b.imagesCount == |found| && b.scannedImagesCount == 0
  }

  /** The rule each writer keeps to. */
  ghost predicate WriteOk(writes: seq<Write>, i: nat)
    requires i < |writes|
  {
    var w := writes[i];
    && Valid(w.before) && Valid(w.after)
    && (w.before.startTime.Some? ==> w.after.startTime == w.before.startTime)
    && w.reported <= w.discovered
    && match w.writer
       case Reconciler => ReconcileOk(w.before, w.after)
       case CatalogStart => !Finished(w.before) && OnlyPhase(w.after, InProgress) && KeepsCounts(w.before, w.after)
       case CatalogClose(start, found) =>
         && start < i && StartOk(writes, w.uid, start)
         && OnlyPhase(w.after, if found == [] then Complete else InProgress)
         && ClosedCounts(w.before, w.after, found)
       case FailureHandler(cause) =>
         OnlyPhase(w.after, Failed) && KeepsCounts(w.before, w.after) && cause.number >= MAX_DELIVER
       case ReportCounter(listed) =>
         && !IsComplete(w.before) && w.reported != {} && w.closed != []
         && listed <= w.reported && w.after.scannedImagesCount == |listed|
         && w.before.imagesCount == w.after.imagesCount == |w.closed|
         && (forall x :: x in w.closed ==> x in w.discovered)
         && if IsFailed(w.before) then SamePhase(w.before, w.after)
            else OnlyPhase(w.after, if |listed| == |w.closed| then Complete else InProgress)
  }

  predicate Completes(w: Write) { !Finished(w.before) && Finished(w.after) }

  /** A reconcile that wrote back a terminal status another writer had stored
      between its read and its annotation patch. */
  predicate Recounts(w: Write) { w.writer.Reconciler? && Finished(w.before) && Finished(w.after) }

  ghost predicate WritesOk(writes: seq<Write>) {
    forall i :: 0 <= i < |writes| ==> WriteOk(writes, i)
  }

  ghost predicate Inv(s: State) {
    SlotOk(s) && NamesOk(s) && ProcsOk(s) && WritesOk(s.writes)
  }

  // --- Frame: what one step cannot take away from the other actors ----------

  ghost predicate Extends(s: State, t: State) {
    && s.published <= t.published
    && (forall m :: CountAt(s.delivered, m) <= CountAt(t.delivered, m))
    && (forall u :: At(s.discovered, u) <= At(t.discovered, u))
    && (forall u :: At(s.reported, u) <= At(t.reported, u))
    && s.writes <= t.writes && s.nextUid <= t.nextUid && s.nextVersion <= t.nextVersion
    && (t.slot == s.slot || t.slot == None || (t.slot.Some? && s.nextVersion <= t.slot.value.version))
  }

  lemma PersistedExtends(s: State, i: Intent)
    requires s.slot.Some?
    ensures Extends(s, Persisted(s, i))
  {
  }

  lemma SharedExtends(s: State, step: Step)
    requires Enabled(s, step)
    ensures Extends(s, Shared(s, step))
  {
    if step.Persist? {
      hide IntentOf, Persisted, Extends;
      PersistedExtends(s, IntentOf(s.procs[step.pid], |s.writes|, step.now).value);
    } else {
      hide IntentOf, IsTrue;
    }
  }

  lemma StepExtends(s: State, step: Step)
    requires Enabled(s, step)
    ensures Extends(s, Apply(s, step))
  {
    SharedExtends(s, step);
  }

  lemma ProcFrame(s: State, t: State, p: Proc)
    requires Extends(s, t) && ProcOk(s, p)
    ensures ProcOk(t, p)
  {
    hide IsTrue, WellFormed;
    if p.Counting? { assert At(s.reported, p.uid) <= At(t.reported, p.uid); }
  }

  lemma ApplyShared(s: State, step: Step)
    requires Enabled(s, step)
    ensures Apply(s, step) == Shared(s, step).(procs := Apply(s, step).procs)
  {
    hide Enabled, Shared, Local, Put;
  }

  lemma OthersUnchanged(s: State, step: Step, q: Pid)
    requires Enabled(s, step) && Mover(step) != Some(q)
    ensures q in Apply(s, step).procs <==> q in s.procs
    ensures q in s.procs ==> Apply(s, step).procs[q] == s.procs[q]
  {
  }

  // --- The moved actor -------------------------------------------------------

  lemma InitializedOk(read: Status, now: int)
    requires IsPending(read)
    ensures var i := Initialized(read, 0, now);
            IsPending(i) && Valid(i) && KeepsCounts(read, i) && SamePhase(read, i)
  {
    InitializedPhase(read, 0, now);
    PendingPhase(read);
    PendingPhase(Initialized(read, 0, now));
  }

  lemma PendingPhase(s: Status)
    requires IsPending(s)
    ensures forall kind :: !IsTrue(s.conditions, kind)
  {
    forall kind ensures !IsTrue(s.conditions, kind) {
      match kind case Scheduled => case InProgress => case Complete => case Failed =>
    }
  }

  lemma PublishedPhase(s: Status, now: int)
    ensures OnlyPhase(Published(s, now), Scheduled) && KeepsCounts(s, Published(s, now))
    ensures Valid(s) ==> Valid(Published(s, now))
  {
    hide IsTrue, WellFormed, AsScheduled;
    AsScheduledPhase(s, "Scheduled", "ScanJob has been scheduled for processing by the controller", 0, now);
  }

  lemma StartedPhase(s: Status, now: int)
    ensures OnlyPhase(Started(s, now), InProgress) && KeepsCounts(s, Started(s, now))
    ensures Valid(s) ==> Valid(Started(s, now))
  {
    hide IsTrue, WellFormed, AsInProgress;
    AsInProgressPhase(s, "CatalogCreationInProgress", "Catalog creation in progress", 0, now);
  }

  lemma GivenUpPhase(s: Status, now: int)
    ensures OnlyPhase(GivenUp(s, now), Failed) && KeepsCounts(s, GivenUp(s, now))
    ensures Valid(s) ==> Valid(GivenUp(s, now))
  {
    hide IsTrue, WellFormed, AsFailed;
    AsFailedPhase(s, "InternalError", "message processing failed", 0, now);
  }

  /** Shape of the lemmas below: the actor moved by one kind of step is in order
      in the state the step leaves. */
  ghost predicate MovedOk(s: State, step: Step)
    requires Enabled(s, step) && Mover(step).Some?
  {
    Local(s, step).Some? ==> ProcOk(Apply(s, step), Local(s, step).value)
  }

  lemma MovedFrame(s: State, step: Step)
    requires Enabled(s, step) && Mover(step).Some?
    requires Local(s, step).Some? ==> ProcOk(s, Local(s, step).value)
    ensures MovedOk(s, step)
  {
    hide Apply, Local, Enabled, ProcOk, Extends;
    StepExtends(s, step);
    if Local(s, step).Some? { ProcFrame(s, Apply(s, step), Local(s, step).value); }
  }

  lemma ReadMovedOk(s: State, step: Step)
    requires Inv(s) && Enabled(s, step) && step.ReconcileRead?
    ensures MovedOk(s, step)
  {
    hide IsTrue, WellFormed, IntentOf;
    assert ProcOk(s, Local(s, step).value);
    MovedFrame(s, step);
  }

  lemma NextReconcileOk(s: State, read: Job, next: Status, now: int)
    requires ProcOk(s, Reconciling(read))
    requires var i := Initialized(read.status, 0, now);
             next == i || (OnlyPhase(next, Failed) && KeepsCounts(i, next) && (Valid(i) ==> Valid(next)))
             || (OnlyPhase(next, Scheduled) && KeepsCounts(i, next) && (Valid(i) ==> Valid(next)))
    ensures ProcOk(s, ReconcileWrite(read, next))
  {
    assert next == Initialized(read.status, 0, now) ==> next.conditions != [];
    hide IsTrue, WellFormed, CopyOk, Initialized;
    assert IsPending(read.status);
    InitializedOk(read.status, now);
    if OnlyPhase(next, Failed) { PhaseStocked(next, Failed); }
    if OnlyPhase(next, Scheduled) { PhaseStocked(next, Scheduled); }
  }

  lemma ReconcileMovedOk(s: State, step: Step)
    requires Inv(s) && Enabled(s, step) && (step.ReconcileFail? || step.ReconcileLeave? || step.ReconcilePublish?)
    ensures MovedOk(s, step)
  {
    hide ProcOk, Valid, OnlyPhase, KeepsCounts, Initialized, AsFailed, Published, IntentOf, SlotOk, NamesOk,
      WritesOk, MovedOk;
    var read := s.procs[step.pid].read;
    assert ProcOk(s, s.procs[step.pid]);
    var i := Initialized(read.status, 0, step.now);
    match step {
      case ReconcileFail(pid, reason, text, now) => AsFailedPhase(i, reason, text, 0, now);
      case ReconcilePublish(pid, now) => PublishedPhase(i, now);
      case ReconcileLeave(pid, now) =>
    }
    NextReconcileOk(s, read, Local(s, step).value.next, step.now);
    MovedFrame(s, step);
  }

  lemma PatchedOk(read: Status, server: Status, now: int)
    requires IsPending(read) && Valid(server)
    ensures ReconcileOk(server, PatchResponse(Initialized(read, 0, now), server))
  {
    InitializedOk(read, now);
    if server.conditions == [] {
      PendingPhase(server);
      PendingPhase(server.(conditions := Initialized(read, 0, now).conditions));
    }
  }

  lemma SnapshotMovedOk(s: State, step: Step)
    requires Inv(s) && Enabled(s, step) && step.ReconcileSnapshot?
    ensures MovedOk(s, step)
  {
    hide IsTrue, Valid, Initialized, PatchResponse, ReconcileOk, NamesOk, WritesOk, IntentOf;
    assert ProcOk(s, s.procs[step.pid]);
    PatchedOk(s.procs[step.pid].read.status, s.slot.value.status, step.now);
  }

  lemma DeliverMovedOk(s: State, step: Step)
    requires Inv(s) && Enabled(s, step) && step.Deliver?
    ensures MovedOk(s, step)
  {
    hide IsTrue, WellFormed;
  }

  lemma CatalogMovedOk(s: State, step: Step)
    requires Inv(s) && Enabled(s, step)
    requires step.CatalogRead? || step.Discover? || step.CatalogEndRead? || step.PublishSbom?
    ensures MovedOk(s, step)
  {
    hide IsTrue, WellFormed;
    assert ProcOk(s, s.procs[step.pid]);
    assert Local(s, step).Some? ==> ProcOk(s, Local(s, step).value);
    MovedFrame(s, step);
  }

  lemma CheckMovedOk(s: State, step: Step)
    requires Inv(s) && Enabled(s, step) && (step.SbomCheck? || step.ScanCheck? || step.GiveUp?)
    ensures MovedOk(s, step)
  {
    hide DeliveryOk, StartOk, CopyOk, SlotOk, NamesOk, WritesOk, IntentOf, IsTrue, WellFormed, MovedOk;
    assert ProcOk(s, s.procs[step.pid]);
    assert Local(s, step).Some? ==> ProcOk(s, Local(s, step).value);
    MovedFrame(s, step);
  }

  lemma FailReadMovedOk(s: State, step: Step)
    requires Inv(s) && Enabled(s, step) && step.FailRead?
    ensures MovedOk(s, step)
  {
    hide DeliveryOk, NamesOk, WritesOk, IntentOf, WellFormed, MovedOk;
    assert ProcOk(s, s.procs[step.pid]);
    assert Local(s, step).Some? ==> ProcOk(s, Local(s, step).value);
    MovedFrame(s, step);
  }

  lemma RetriedOk(s: State, p: Proc)
    requires ProcOk(s, p) && Retried(p).Some?
    ensures ProcOk(s, Retried(p).value)
  {
    hide DeliveryOk, StartOk, CopyOk;
  }

  lemma ConflictMovedOk(s: State, step: Step)
    requires Inv(s) && Enabled(s, step) && step.Conflict?
    ensures MovedOk(s, step)
  {
    hide ProcOk, SlotOk, NamesOk, WritesOk, IntentOf, Retried, MovedOk;
    assert ProcOk(s, s.procs[step.pid]);
    if Local(s, step).Some? { RetriedOk(s, s.procs[step.pid]); }
    MovedFrame(s, step);
  }

  lemma CountStartMovedOk(s: State, step: Step)
    requires Inv(s) && Enabled(s, step) && step.CountStart?
    ensures MovedOk(s, step)
  {
    hide IsTrue, WellFormed;
    assert step.report in At(s.reported, s.reports[step.report]);
    assert ProcOk(s, Local(s, step).value);
    MovedFrame(s, step);
  }

  lemma CountMovedOk(s: State, step: Step)
    requires Inv(s) && Enabled(s, step) && (step.CountRead? || step.CountList?)
    ensures MovedOk(s, step)
  {
    hide IsTrue, Valid, WritesOk, IntentOf, MovedOk, DeliveryOk, StartOk;
    assert ProcOk(s, s.procs[step.pid]);
    assert Local(s, step).Some? ==> ProcOk(s, Local(s, step).value);
    MovedFrame(s, step);
  }

  lemma EndedMovedOk(s: State, step: Step)
    requires Inv(s) && Enabled(s, step)
    requires step.SbomDone? || step.ScanDone? || step.Record? || step.Abandon?
    ensures MovedOk(s, step)
  {
    hide IsTrue, WellFormed;
  }

  /** What the version check buys: an accepted write starts from the stored status. */
  lemma PersistReadsSlot(s: State, p: Proc, now: int)
    requires ProcOk(s, p) && IntentOf(p, |s.writes|, now).Some? && s.slot.Some?
    requires s.slot.value.version == IntentOf(p, |s.writes|, now).value.read.version
    ensures s.slot == Some(IntentOf(p, |s.writes|, now).value.read)
  {
    hide IsTrue, WellFormed, Counted, Closed, GivenUp, Started, Finished, IsFailed;
  }

  lemma StartedOk(s: State, d: Delivery, read: Job, now: int)
    requires SlotOk(s) && s.slot == Some(read) && ProcOk(s, CatalogBeginWrite(d, read))
    ensures var i := IntentOf(CatalogBeginWrite(d, read), |s.writes|, now).value;
            ProcOk(Persisted(s, i), i.onward.value)
  {
    hide Started, WellFormed, IsTrue;
    var i := IntentOf(CatalogBeginWrite(d, read), |s.writes|, now).value;
    assert StartOk(Persisted(s, i).writes, d.message.uid, |s.writes|);
  }

  lemma PublishingOk(s: State, d: Delivery, start: nat, found: seq<string>, read: Job, now: int)
    requires s.slot == Some(read) && ProcOk(s, CatalogEndWrite(d, start, found, read)) && found != []
    ensures var i := IntentOf(CatalogEndWrite(d, start, found, read), |s.writes|, now).value;
            ProcOk(Persisted(s, i), i.onward.value)
  {
    hide Closed, WellFormed, IsTrue;
  }

  lemma OnwardOk(s: State, p: Proc, now: int)
    requires SlotOk(s) && ProcOk(s, p) && IntentOf(p, |s.writes|, now).Some?
    requires s.slot == Some(IntentOf(p, |s.writes|, now).value.read)
    ensures var i := IntentOf(p, |s.writes|, now).value;
            i.onward.Some? ==> ProcOk(Persisted(s, i), i.onward.value)
  {
    hide SlotOk, Closed, Counted, GivenUp, Started, Finished, IsFailed, Persisted, CopyOk, DeliveryOk, StartOk;
    match p
    case CatalogBeginWrite(d, read) => StartedOk(s, d, read, now);
    case CatalogEndWrite(d, start, found, read) =>
      if found != [] { PublishingOk(s, d, start, found, read, now); }
    case _ =>
  }

  lemma ProcsAside(s: State, t: State, p: Proc)
    requires ProcOk(s, p) && t == s.(procs := t.procs)
    ensures ProcOk(t, p)
  {
    hide IsTrue, WellFormed;
  }

  lemma PersistMovedOk(s: State, step: Step)
    requires Inv(s) && Enabled(s, step) && step.Persist?
    ensures MovedOk(s, step)
  {
    var i := PersistShape(s, step);
    hide Enabled, Shared, Local, Apply, Persisted, SlotOk, NamesOk, ProcsOk, WritesOk, IntentOf, IntentGood, ProcOk;
    OnwardOk(s, s.procs[step.pid], step.now);
    if i.onward.Some? {
      ProcsAside(Persisted(s, i), Apply(s, step), i.onward.value);
    }
  }

  lemma MoverOk(s: State, step: Step)
    requires Inv(s) && Enabled(s, step) && Mover(step).Some?
    ensures MovedOk(s, step)
  {
    hide *;
    match step
    case ReconcileRead(_) => ReadMovedOk(s, step);
    case ReconcileFail(_, _, _, _) => ReconcileMovedOk(s, step);
    case ReconcileLeave(_, _) => ReconcileMovedOk(s, step);
    case ReconcilePublish(_, _) => ReconcileMovedOk(s, step);
    case ReconcileSnapshot(_, _) => SnapshotMovedOk(s, step);
    case Deliver(_, _) => DeliverMovedOk(s, step);
    case CatalogRead(_) => CatalogMovedOk(s, step);
    case Discover(_, _) => CatalogMovedOk(s, step);
    case CatalogEndRead(_) => CatalogMovedOk(s, step);
    case PublishSbom(_) => CatalogMovedOk(s, step);
    case SbomCheck(_) => CheckMovedOk(s, step);
    case ScanCheck(_) => CheckMovedOk(s, step);
    case FailRead(_) => FailReadMovedOk(s, step);
    case GiveUp(_) => CheckMovedOk(s, step);
    case Conflict(_) => ConflictMovedOk(s, step);
    case CountStart(_, _) => CountStartMovedOk(s, step);
    case CountRead(_) => CountMovedOk(s, step);
    case CountList(_) => CountMovedOk(s, step);
    case Persist(_, _) => PersistMovedOk(s, step);
    case SbomDone(_) => EndedMovedOk(s, step);
    case ScanDone(_) => EndedMovedOk(s, step);
    case Record(_) => EndedMovedOk(s, step);
    case Abandon(_) => EndedMovedOk(s, step);
    case _ => NoMover(step);
  }

  lemma NoMover(step: Step)
    requires step.CreateJob? || step.DeleteJob? || step.TouchJob? || step.DeleteReport?
    ensures Mover(step) == None
  {
  }

  lemma ProcsKept(s: State, step: Step)
    requires Inv(s) && Enabled(s, step)
    ensures ProcsOk(Apply(s, step))
  {
    hide Shared, Local, Enabled, ProcOk, Extends;
    var t := Apply(s, step);
    StepExtends(s, step);
    forall q | q in t.procs ensures ProcOk(t, t.procs[q]) {
      if Mover(step) == Some(q) {
        MoverOk(s, step);
      } else {
        OthersUnchanged(s, step, q);
        ProcFrame(s, t, s.procs[q]);
      }
    }
  }

  // --- The stored object, the names and the history --------------------------

  /** An accepted write keeps its writer's rule, and owes the job counter an
      increment exactly when it completes the job or counts it again. */
  ghost predicate IntentGood(s: State, i: Intent)
    requires s.slot.Some?
  {
    var writes := Persisted(s, i).writes;
    var w := writes[|s.writes|];
    && WriteOk(writes, |s.writes|)
    && ((i.onward == Some(Recording)) <==> (Completes(w) || Recounts(w)))
  }

  lemma ReconcileIntent(s: State, read: Job, next: Status, now: int)
    requires SlotOk(s) && NamesOk(s) && s.slot == Some(read) && ProcOk(s, ReconcileWrite(read, next))
    ensures IntentGood(s, IntentOf(ReconcileWrite(read, next), |s.writes|, now).value)
  {
    hide IsTrue, WellFormed;
  }

  lemma StartIntent(s: State, d: Delivery, read: Job, now: int)
    requires SlotOk(s) && NamesOk(s) && s.slot == Some(read) && ProcOk(s, CatalogBeginWrite(d, read))
    ensures IntentGood(s, IntentOf(CatalogBeginWrite(d, read), |s.writes|, now).value)
  {
    hide IsTrue, WellFormed, Started;
    StartedPhase(read.status, now);
  }

  lemma CloseRule(writes: seq<Write>, w: Write)
    requires w.writer.CatalogClose? && StartOk(writes, w.uid, w.writer.start)
    requires Valid(w.before) && Valid(w.after) && (w.before.startTime.Some? ==> w.after.startTime == w.before.startTime)
    requires w.reported <= w.discovered
    requires OnlyPhase(w.after, if w.writer.discovered == [] then Complete else InProgress)
    requires ClosedCounts(w.before, w.after, w.writer.discovered)
    ensures WriteOk(writes + [w], |writes|)
    ensures Completes(w) <==> w.writer.discovered == [] && !Finished(w.before)
  {
    hide IsTrue, WellFormed;
    assert (writes + [w])[w.writer.start] == writes[w.writer.start];
  }

  lemma NotedGrows(s: State, uid: Uid, writer: Writer)
    requires NamesOk(s)
    ensures var t := Noted(s, uid, writer); At(t.reported, uid) <= At(t.discovered, uid)
  {
  }

  lemma EndCopy(s: State, d: Delivery, start: nat, found: seq<string>, read: Job)
    requires ProcOk(s, CatalogEndWrite(d, start, found, read))
    ensures Valid(read.status) && StartOk(s.writes, read.uid, start)
  {
    hide Valid, StartOk;
  }

  lemma CloseIntent(s: State, d: Delivery, start: nat, found: seq<string>, read: Job, now: int)
    requires SlotOk(s) && NamesOk(s) && s.slot == Some(read) && ProcOk(s, CatalogEndWrite(d, start, found, read))
    ensures IntentGood(s, IntentOf(CatalogEndWrite(d, start, found, read), |s.writes|, now).value)
  {
    hide Valid, Closed, WriteOk, StartOk, ProcOk, NamesOk, SlotOk, Noted, OnlyPhase, Finished, Completes;
    EndCopy(s, d, start, found, read);
    ClosedPhase(read.status, found, now);
    var i := IntentOf(CatalogEndWrite(d, start, found, read), |s.writes|, now).value;
    NotedGrows(s, read.uid, i.writer);
    CloseRule(s.writes, Persisted(s, i).writes[|s.writes|]);
  }

  lemma FailIntent(s: State, d: Delivery, read: Job, now: int)
    requires SlotOk(s) && NamesOk(s) && s.slot == Some(read) && ProcOk(s, FailWrite(d, read))
    ensures IntentGood(s, IntentOf(FailWrite(d, read), |s.writes|, now).value)
  {
    hide IsTrue, WellFormed, GivenUp;
    GivenUpPhase(read.status, now);
  }

  lemma CountRule(writes: seq<Write>, w: Write)
    requires w.writer.ReportCounter? && Valid(w.before) && Valid(w.after) && !IsComplete(w.before)
    requires w.before.startTime.Some? ==> w.after.startTime == w.before.startTime
    requires w.writer.listed <= w.reported <= w.discovered && w.reported != {} && w.closed != []
    requires w.after.scannedImagesCount == |w.writer.listed|
    requires w.before.imagesCount == w.after.imagesCount == |w.closed|
    requires forall x :: x in w.closed ==> x in w.discovered
    requires if IsFailed(w.before) then SamePhase(w.before, w.after)
             else OnlyPhase(w.after, if |w.writer.listed| == |w.closed| then Complete else InProgress)
    ensures WriteOk(writes + [w], |writes|)
    ensures Completes(w) <==> !IsFailed(w.before) && Finished(w.after)
  {
    hide IsTrue, WellFormed;
  }

  lemma CountFacts(s: State, uid: Uid, read: Job, listed: set<string>)
    requires SlotOk(s) && NamesOk(s) && s.slot == Some(read) && ProcOk(s, Counting(uid, Some(read), Some(listed)))
    ensures Valid(read.status) && !IsComplete(read.status) && read.uid == uid
    ensures listed <= At(s.reported, uid) <= At(s.discovered, uid) && At(s.reported, uid) != {}
    ensures read.status.imagesCount == |ListAt(s.closed, uid)| && ListAt(s.closed, uid) != []
    ensures forall x :: x in ListAt(s.closed, uid) ==> x in At(s.discovered, uid)
  {
    hide Valid, IsComplete;
  }

  lemma CountIntent(s: State, uid: Uid, read: Job, listed: set<string>, now: int)
    requires SlotOk(s) && NamesOk(s) && s.slot == Some(read) && ProcOk(s, Counting(uid, Some(read), Some(listed)))
    ensures IntentGood(s, IntentOf(Counting(uid, Some(read), Some(listed)), |s.writes|, now).value)
  {
    hide SlotOk, NamesOk, ProcOk, Valid, Counted, WriteOk, SamePhase, OnlyPhase, IsFailed, IsComplete, Completes;
    CountFacts(s, uid, read, listed);
    CountedPhase(read.status, |listed|, now);
    var i := IntentOf(Counting(uid, Some(read), Some(listed)), |s.writes|, now).value;
    CountRule(s.writes, Persisted(s, i).writes[|s.writes|]);
  }

  lemma IntentOk(s: State, p: Proc, now: int)
    requires SlotOk(s) && NamesOk(s) && ProcOk(s, p) && IntentOf(p, |s.writes|, now).Some?
    requires s.slot == Some(IntentOf(p, |s.writes|, now).value.read)
    ensures IntentGood(s, IntentOf(p, |s.writes|, now).value)
  {
    hide IsTrue, WellFormed;
    hide SlotOk, NamesOk, ProcOk, IntentGood, Closed, Counted, GivenUp, Started, Finished, IsFailed;
    match p
    case ReconcileWrite(read, next) => ReconcileIntent(s, read, next, now);
    case CatalogBeginWrite(d, read) => StartIntent(s, d, read, now);
    case CatalogEndWrite(d, start, found, read) => CloseIntent(s, d, start, found, read, now);
    case FailWrite(d, read) => FailIntent(s, d, read, now);
    case Counting(uid, Some(read), Some(listed)) => CountIntent(s, uid, read, listed, now);
  }

  /** An accepted write seen as one value: what was read is what is stored. */
  lemma PersistShape(s: State, step: Step) returns (i: Intent)
    requires Inv(s) && Enabled(s, step) && step.Persist?
    ensures IntentOf(s.procs[step.pid], |s.writes|, step.now) == Some(i)
    ensures s.slot == Some(i.read) && ProcOk(s, s.procs[step.pid]) && IntentGood(s, i)
    ensures Apply(s, step) == Persisted(s, i).(procs := Put(s.procs, step.pid, i.onward))
    ensures Local(s, step) == i.onward
  {
    hide IsTrue, WellFormed;
    assert ProcOk(s, s.procs[step.pid]);
    PersistReadsSlot(s, s.procs[step.pid], step.now);
    IntentOk(s, s.procs[step.pid], step.now);
    hide ProcOk, IntentGood, IntentOf, SlotOk, NamesOk, ProcsOk, WritesOk;
    i := IntentOf(s.procs[step.pid], |s.writes|, step.now).value;
  }

  lemma ClosedPhase(s: Status, found: seq<string>, now: int)
    requires Valid(s)
    ensures OnlyPhase(Closed(s, found, now), if found == [] then Complete else InProgress)
    ensures Valid(Closed(s, found, now)) && ClosedCounts(s, Closed(s, found, now), found)
    ensures s.startTime.Some? ==> Closed(s, found, now).startTime == s.startTime
  {
    hide IsTrue, WellFormed;
    AsCompletePhase(s, "NoImagesToScan", "No images to process", 0, now);
    AsInProgressPhase(s, "SBOMGenerationInProgress", "SBOM generation in progress", 0, now);
  }

  lemma CountedPhase(s: Status, count: nat, now: int)
    requires Valid(s)
    ensures var t := Counted(s, count, now);
            && Valid(t) && t.imagesCount == s.imagesCount && t.scannedImagesCount == count
            && (s.startTime.Some? ==> t.startTime == s.startTime)
            && if IsFailed(s) then SamePhase(s, t)
               else OnlyPhase(t, if count == s.imagesCount then Complete else InProgress)
  {
    hide IsTrue, WellFormed, Stocked;
    var u := s.(scannedImagesCount := count);
    AsCompletePhase(u, "AllImagesScanned", "All images scanned successfully", 0, now);
    AsInProgressPhase(u, "ImageScanInProgress", "Image scan in progress", 0, now);
  }

  lemma WritesKept(s: State, step: Step)
    requires Inv(s) && Enabled(s, step)
    ensures WritesOk(Apply(s, step).writes)
  {
    hide Enabled, Shared, Local, Apply, IntentOf, ProcOk, WriteOk, SlotOk, NamesOk, ProcsOk, Completes, Recounts;
    if step.Persist? {
      var i := PersistShape(s, step);
      var writes := Persisted(s, i).writes;
      assert Apply(s, step).writes == writes && s.writes <= writes && |writes| == |s.writes| + 1;
      hide Persisted;
      forall k | 0 <= k < |writes| ensures WriteOk(writes, k) {
        if k < |s.writes| { WritePrefix(s.writes, writes, k); }
      }
    } else {
      QuietWrites(s, step);
    }
  }

  lemma QuietWrites(s: State, step: Step)
    requires Enabled(s, step) && !step.Persist?
    ensures Apply(s, step).writes == s.writes
  {
    hide Apply, Local, IntentOf, Persisted;
    ApplyShared(s, step);
  }

  lemma WritePrefix(a: seq<Write>, b: seq<Write>, k: nat)
    requires a <= b && k < |a| && WriteOk(a, k)
    ensures WriteOk(b, k)
  {
    hide IsTrue, WellFormed;
  }

  predicate ChangesNames(step: Step) {
    || step.ReconcilePublish? || step.PublishSbom? || step.SbomDone? || step.ScanDone? || step.DeleteReport?
    || step.Persist?
  }

  lemma NamesKept(s: State, step: Step)
    requires Inv(s) && Enabled(s, step)
    ensures NamesOk(Apply(s, step))
  {
    hide Enabled, Shared, Local, Apply, NamesOk, SlotOk, ProcsOk, WritesOk;
    if ChangesNames(step) {
      match step
      case ReconcilePublish(_, _) => CatalogMessageNames(s, step);
      case PublishSbom(_) => SbomMessageNames(s, step);
      case SbomDone(_) => ScanMessageNames(s, step);
      case ScanDone(_) => ReportedNames(s, step);
      case DeleteReport(_) => DeletedNames(s, step);
      case Persist(_, _) => ClosedNames(s, step);
    } else {
      QuietNames(s, step);
      SameNames(s, Apply(s, step));
    }
  }

  lemma QuietNames(s: State, step: Step)
    requires Enabled(s, step) && !ChangesNames(step)
    ensures var t := Apply(s, step);
            && t.published == s.published && t.reports == s.reports && t.reported == s.reported
            && t.discovered == s.discovered && t.closed == s.closed && s.nextUid <= t.nextUid
  {
    hide Apply, Local, IntentOf, Persisted;
    ApplyShared(s, step);
  }

  lemma SameNames(s: State, t: State)
    requires NamesOk(s) && s.published == t.published && s.reports == t.reports && s.reported == t.reported
    requires s.discovered == t.discovered && s.closed == t.closed && s.nextUid <= t.nextUid
    ensures NamesOk(t)
  {
  }

  lemma AddedMessage(s: State, t: State, m: Message)
    requires NamesOk(s) && t.published == s.published + {m} && s.reports == t.reports && s.reported == t.reported
    requires s.discovered == t.discovered && s.closed == t.closed && s.nextUid == t.nextUid
    requires m.uid < s.nextUid && (!m.CreateCatalog? ==> m.image in At(s.discovered, m.uid))
    ensures NamesOk(t)
  {
  }

  lemma CatalogMessageNames(s: State, step: Step)
    requires Inv(s) && Enabled(s, step) && step.ReconcilePublish?
    ensures NamesOk(Apply(s, step))
  {
    hide IsTrue, WellFormed;
    hide NamesOk, SlotOk, WritesOk;
    assert ProcOk(s, s.procs[step.pid]);
    AddedMessage(s, Apply(s, step), CreateCatalog(s.procs[step.pid].read.uid));
  }

  lemma SbomMessageNames(s: State, step: Step)
    requires Inv(s) && Enabled(s, step) && step.PublishSbom?
    ensures NamesOk(Apply(s, step))
  {
    hide IsTrue, WellFormed;
    hide SlotOk, WritesOk;
    assert ProcOk(s, s.procs[step.pid]);
    var p := s.procs[step.pid];
    if p.rest == [] {
      SameNames(s, Apply(s, step));
    } else {
      assert p.d.message in s.published && p.rest[0] in p.rest;
      AddedMessage(s, Apply(s, step), GenerateSbom(p.d.message.uid, p.rest[0]));
    }
  }

  lemma ScanMessageNames(s: State, step: Step)
    requires Inv(s) && Enabled(s, step) && step.SbomDone?
    ensures NamesOk(Apply(s, step))
  {
    hide IsTrue, WellFormed;
    hide SlotOk, WritesOk;
    assert ProcOk(s, s.procs[step.pid]);
    var m := s.procs[step.pid].d.message;
    assert m in s.published;
    AddedMessage(s, Apply(s, step), ScanSbom(m.uid, m.image));
  }

  lemma ReportedNames(s: State, step: Step)
    requires Inv(s) && Enabled(s, step) && step.ScanDone?
    ensures NamesOk(Apply(s, step))
  {
    hide IsTrue, WellFormed, SlotOk, WritesOk;
    assert ProcOk(s, s.procs[step.pid]);
    var m := s.procs[step.pid].d.message;
    assert m in s.published && m.image in At(s.discovered, m.uid);
    AddedReport(s, Apply(s, step), m);
  }

  lemma AddedReport(s: State, t: State, m: Message)
    requires NamesOk(s) && s.published == t.published && s.discovered == t.discovered
    requires s.closed == t.closed && s.nextUid == t.nextUid
    requires m.ScanSbom? && m.image in At(s.discovered, m.uid)
    requires t.reports == s.reports[m.image := m.uid]
    requires t.reported == s.reported[m.uid := At(s.reported, m.uid) + {m.image}]
    ensures NamesOk(t)
  {
    assert forall u :: At(s.reported, u) <= At(t.reported, u);
  }

  lemma DeletedNames(s: State, step: Step)
    requires Inv(s) && Enabled(s, step) && step.DeleteReport?
    ensures NamesOk(Apply(s, step))
  {
    hide IsTrue, WellFormed, SlotOk, WritesOk, ProcsOk;
  }

  lemma AddedCatalog(s: State, t: State, u: Uid, found: seq<string>)
    requires NamesOk(s) && s.published == t.published && s.reports == t.reports && s.reported == t.reported
    requires u < s.nextUid == t.nextUid && found != [] && t.closed == s.closed[u := found]
    requires t.discovered == s.discovered[u := At(s.discovered, u) + Names(found)]
    ensures NamesOk(t)
  {
    assert forall v :: At(s.discovered, v) <= At(t.discovered, v);
  }

  lemma ClosedNames(s: State, step: Step)
    requires Inv(s) && Enabled(s, step) && step.Persist?
    ensures NamesOk(Apply(s, step))
  {
    var i := PersistShape(s, step);
    hide Enabled, Shared, Local, Apply, IntentOf, IntentGood, ProcOk, NamesOk, ProcsOk, WritesOk;
    var t := Persisted(s, i).(procs := Put(s.procs, step.pid, i.onward));
    if i.writer.CatalogClose? && i.writer.discovered != [] {
      AddedCatalog(s, t, i.read.uid, i.writer.discovered);
    } else {
      SameNames(s, t);
    }
  }

  lemma SlotKept(s: State, step: Step)
    requires Inv(s) && Enabled(s, step)
    ensures SlotOk(Apply(s, step))
  {
    hide Enabled, Shared, Local, Apply, NamesOk, SlotOk, ProcsOk, WritesOk;
    if step.CreateJob? || step.TouchJob? || step.ReconcileSnapshot? {
      SlotTouched(s, step);
    } else if step.Persist? {
      SlotWritten(s, step);
    } else {
      QuietSlot(s, step);
      SameSlot(s, Apply(s, step));
    }
  }

  lemma QuietSlot(s: State, step: Step)
    requires Enabled(s, step)
    requires !step.CreateJob? && !step.TouchJob? && !step.ReconcileSnapshot? && !step.Persist?
    ensures var t := Apply(s, step);
            && (t.slot == s.slot || t.slot == None) && t.discovered == s.discovered && t.closed == s.closed
            && s.nextUid == t.nextUid && s.nextVersion == t.nextVersion
  {
    hide Apply, Local, IntentOf, Persisted;
    ApplyShared(s, step);
  }

  lemma SameSlot(s: State, t: State)
    requires SlotOk(s) && (t.slot == s.slot || t.slot == None)
    requires s.discovered == t.discovered && s.closed == t.closed
    requires s.nextUid <= t.nextUid && s.nextVersion <= t.nextVersion
    ensures SlotOk(t)
  {
  }

  lemma SlotTouched(s: State, step: Step)
    requires Inv(s) && Enabled(s, step) && (step.CreateJob? || step.TouchJob? || step.ReconcileSnapshot?)
    ensures SlotOk(Apply(s, step))
  {
  }

  lemma SubsetSize<T>(a: set<T>, b: set<T>)
    requires a <= b
    ensures |a| <= |b|
    ensures |a| == |b| ==> a == b
  {
    assert b == a + (b - a) && a !! (b - a);
  }

  lemma SlotWritten(s: State, step: Step)
    requires Inv(s) && Enabled(s, step) && step.Persist?
    ensures SlotOk(Apply(s, step))
  {
    var i := PersistShape(s, step);
    if i.writer.CatalogClose? { ClosesWith(s.procs[step.pid], |s.writes|, step.now); }
    hide Enabled, Shared, Local, Apply, IntentOf, ProcOk, SlotOk, NamesOk, ProcsOk, WritesOk, WriteOk, Closed;
    var t := Persisted(s, i).(procs := Put(s.procs, step.pid, i.onward));
    if i.writer.CatalogClose? {
      SlotClosed(s, t, step.now);
    } else {
      SlotCounts(s, t);
    }
  }

  lemma ClosesWith(p: Proc, start: nat, now: int)
    requires IntentOf(p, start, now).Some? && IntentOf(p, start, now).value.writer.CatalogClose?
    ensures var i := IntentOf(p, start, now).value;
            i.next == Closed(i.read.status, i.writer.discovered, now)
  {
    hide Closed;
  }

  /** A write that is not a catalog's closing write: the counts follow from its rule. */
  lemma SlotCounts(s: State, t: State)
    requires SlotOk(s) && s.slot.Some? && |t.writes| == |s.writes| + 1 && WriteOk(t.writes, |s.writes|)
    requires t.discovered == s.discovered && t.closed == s.closed && t.nextUid == s.nextUid
    requires t.nextVersion == s.nextVersion + 1
    requires var w := t.writes[|s.writes|];
             && !w.writer.CatalogClose? && w.before == s.slot.value.status
             && w.discovered == At(t.discovered, s.slot.value.uid)
             && t.slot == Some(s.slot.value.(version := s.nextVersion, status := w.after))
    ensures SlotOk(t)
  {
    hide IsTrue, WellFormed;
    var w := t.writes[|s.writes|];
    if w.writer.ReportCounter? {
      SubsetSize(w.writer.listed, w.discovered);
    }
  }

  lemma SlotClosed(s: State, t: State, now: int)
    requires SlotOk(s) && s.slot.Some? && |t.writes| == |s.writes| + 1 && WriteOk(t.writes, |s.writes|)
    requires t.nextUid == s.nextUid && t.nextVersion == s.nextVersion + 1
    requires var w := t.writes[|s.writes|];
             && w.writer.CatalogClose? && w.after == Closed(s.slot.value.status, w.writer.discovered, now)
             && t.slot == Some(s.slot.value.(version := s.nextVersion, status := w.after))
             && (if w.writer.discovered == [] then t.closed == s.closed && t.discovered == s.discovered
                 else ListAt(t.closed, s.slot.value.uid) == w.writer.discovered)
    ensures SlotOk(t)
  {
    hide IsTrue, WellFormed;
  }

  lemma InitInv()
    ensures Inv(INIT)
  {
  }

  lemma StepKeepsInv(s: State, step: Step)
    requires Inv(s) && Enabled(s, step)
    ensures Inv(Apply(s, step))
  {
    hide SlotOk, NamesOk, ProcsOk, WritesOk, Enabled, Apply;
    SlotKept(s, step);
    NamesKept(s, step);
    ProcsKept(s, step);
    WritesKept(s, step);
  }

  /** The invariant holds in every state of every run. */
  lemma {:induction false} RunInv(steps: seq<Step>)
    requires Execute(steps).Some?
    ensures Inv(Execute(steps).value)
  {
    if steps == [] {
      InitInv();
    } else {
      hide Inv, Apply, Enabled;
      RunInv(steps[..|steps| - 1]);
      StepKeepsInv(Execute(steps[..|steps| - 1]).value, steps[|steps| - 1]);
    }
  }
}
