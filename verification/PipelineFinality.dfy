/** When Failed is final. A job leaves Failed exactly when the failure handler wrote
    between the start and the close of one of its catalog runs; with one delivery of
    the catalog message such a failure is of an earlier job of the same name, since
    the failure handler looks the job up by name alone.
 */
module PipelineFinality {
  import opened Ordering
  import opened ScanJobStatus
  import opened ScanPipeline
  import opened PipelineInvariants
  import opened PipelineHistory

  ghost predicate FailedStays(writes: seq<Write>, uid: Uid) {
    forall i :: 0 <= i < |writes| && writes[i].uid == uid && IsFailed(writes[i].before) ==> IsFailed(writes[i].after)
  }

  predicate Fails(w: Write, uid: Uid) { w.uid == uid && w.writer.FailureHandler? }

  predicate Closes(w: Write, uid: Uid) { w.uid == uid && w.writer.CatalogClose? }

  /** A failure written at `j` while the catalog run that closes at `k` was open. */
  ghost predicate FailedWhileOpen(writes: seq<Write>, uid: Uid, j: int, k: int) {
    0 <= j < k < |writes| && Closes(writes[k], uid) && writes[k].writer.start < j && Fails(writes[j], uid)
  }

  // --- What the chain of writes allows ---------------------------------------------

  ghost predicate WritesChained(writes: seq<Write>) {
    forall i :: 0 <= i < |writes| ==> WriteOk(writes, i) && LinkOk(writes, i)
  }

  lemma RunWrites(steps: seq<Step>)
    requires Execute(steps).Some?
    ensures WritesChained(Execute(steps).value.writes)
  {
    hide Execute, WriteOk, LinkOk;
    RunInv(steps);
    RunChain(steps);
  }

  /** Only a closing write leaves Failed. */
  lemma LeavesFailed(writes: seq<Write>, i: nat)
    requires i < |writes| && WriteOk(writes, i) && IsFailed(writes[i].before)
    ensures Closes(writes[i], writes[i].uid) <==> !IsFailed(writes[i].after)
  {
    hide IsTrue, WellFormed;
  }

  /** Only the failure handler fails a job that has been started. */
  lemma StaysUnfailed(writes: seq<Write>, i: nat)
    requires i < |writes| && WriteOk(writes, i) && !writes[i].writer.FailureHandler?
    requires !IsFailed(writes[i].before) && !IsPending(writes[i].before)
    ensures !IsFailed(writes[i].after) && !IsPending(writes[i].after)
  {
    hide IsTrue, WellFormed;
  }

  lemma StartIsUnfailed(writes: seq<Write>, i: nat)
    requires i < |writes| && WriteOk(writes, i) && writes[i].writer == CatalogStart
    ensures !IsFailed(writes[i].after) && !IsPending(writes[i].after)
  {
    hide IsTrue, WellFormed;
  }

  lemma LastStep(writes: seq<Write>, uid: Uid, m: nat)
    requires m < |writes|
    ensures LastStatus(writes[..m + 1], uid) == if writes[m].uid == uid then writes[m].after
                                                else LastStatus(writes[..m], uid)
  {
    assert writes[..m + 1][..m] == writes[..m];
  }

  /** Without a failure write since the start, the job has not failed. */
  lemma {:induction false} UnfailedSince(writes: seq<Write>, uid: Uid, start: nat, m: nat)
    requires WritesChained(writes) && start < m <= |writes|
    requires writes[start].uid == uid && writes[start].writer == CatalogStart
    requires forall j :: start < j < m ==> !Fails(writes[j], uid)
    ensures !IsFailed(LastStatus(writes[..m], uid)) && !IsPending(LastStatus(writes[..m], uid))
    decreases m
  {
    hide IsTrue, LastStatus, WriteOk;
    assert WriteOk(writes, m - 1) && LinkOk(writes, m - 1);
    LastStep(writes, uid, m - 1);
    if m == start + 1 {
      StartIsUnfailed(writes, start);
    } else {
      UnfailedSince(writes, uid, start, m - 1);
      if writes[m - 1].uid == uid { StaysUnfailed(writes, m - 1); }
    }
  }

  /** While Failed is kept, a failed job is found failed. */
  lemma {:induction false} FailedSince(writes: seq<Write>, uid: Uid, j: nat, m: nat)
    requires WritesChained(writes) && FailedStays(writes, uid) && j < m <= |writes| && Fails(writes[j], uid)
    ensures IsFailed(LastStatus(writes[..m], uid))
    decreases m
  {
    hide IsTrue, LastStatus;
    assert WriteOk(writes, m - 1) && LinkOk(writes, m - 1);
    LastStep(writes, uid, m - 1);
    if m > j + 1 { FailedSince(writes, uid, j, m - 1); }
  }

  /** A job leaves Failed if and only if a failure was written while a catalog run
      that later closed was open. */
  lemma FailedStaysIff(writes: seq<Write>, uid: Uid)
    requires WritesChained(writes)
    ensures FailedStays(writes, uid) <==> forall j, k :: !FailedWhileOpen(writes, uid, j, k)
  {
    hide IsTrue, LastStatus, WriteOk;
    if FailedStays(writes, uid) {
      forall j, k ensures !FailedWhileOpen(writes, uid, j, k) {
        if FailedWhileOpen(writes, uid, j, k) {
          FailedSince(writes, uid, j, k);
          assert WriteOk(writes, k) && LinkOk(writes, k);
          LeavesFailed(writes, k);
          assert false;
        }
      }
    } else {
      var k :| 0 <= k < |writes| && writes[k].uid == uid && IsFailed(writes[k].before) && !IsFailed(writes[k].after);
      assert WriteOk(writes, k) && LinkOk(writes, k);
      LeavesFailed(writes, k);
      CloseStarted(writes, k);
      var start := writes[k].writer.start;
      if forall j :: start < j < k ==> !Fails(writes[j], uid) {
        UnfailedSince(writes, uid, start, k);
        assert false;
      }
      var j :| start < j < k && Fails(writes[j], uid);
      assert FailedWhileOpen(writes, uid, j, k);
    }
  }

  lemma CloseStarted(writes: seq<Write>, k: nat)
    requires k < |writes| && WriteOk(writes, k) && writes[k].writer.CatalogClose?
    ensures var start := writes[k].writer.start;
            start < k && writes[start].uid == writes[k].uid && writes[start].writer == CatalogStart
  {
    hide IsTrue, WellFormed;
  }

  /** In every run, for every job: Failed is final if and only if no failure was
      written between the start and the close of one of its catalog runs. */
  lemma FailedFinal(steps: seq<Step>, uid: Uid)
    requires Execute(steps).Some?
    ensures var writes := Execute(steps).value.writes;
            FailedStays(writes, uid) <==> forall j, k :: !FailedWhileOpen(writes, uid, j, k)
  {
    hide Execute, WritesChained, FailedStays, FailedWhileOpen;
    RunWrites(steps);
    FailedStaysIff(Execute(steps).value.writes, uid);
  }

  // --- A single catalog delivery ----------------------------------------------

  ghost predicate SingleDelivery(s: State, uid: Uid) {
    CountAt(s.delivered, CreateCatalog(uid)) <= 1
  }

  /** A catalog run that has not closed yet. */
  predicate OpenRun(p: Proc, uid: Uid) {
    match p
    case CatalogBegin(d) => d.message == CreateCatalog(uid)
    case CatalogBeginWrite(d, _) => d.message == CreateCatalog(uid)
    case Discovering(d, _) => d.message == CreateCatalog(uid)
    case CatalogEnd(d, _, _) => d.message == CreateCatalog(uid)
    case CatalogEndWrite(d, _, _, _) => d.message == CreateCatalog(uid)
    case _ => false
  }

  predicate PublishesFor(p: Proc, uid: Uid) { p.Publishing? && p.d.message == CreateCatalog(uid) }

  predicate RunsCatalog(p: Proc, uid: Uid) { OpenRun(p, uid) || PublishesFor(p, uid) }

  ghost predicate OneRun(s: State, uid: Uid) {
    forall q, r :: q in s.procs && r in s.procs && RunsCatalog(s.procs[q], uid) && RunsCatalog(s.procs[r], uid) ==>
                     q == r
  }

  /** No image message exists before the catalog closes. */
  ghost predicate NoImagesYet(s: State, uid: Uid) {
    forall m :: m in s.published && m.uid == uid ==> m.CreateCatalog?
  }

  ghost predicate EarlyOk(s: State, uid: Uid) {
    && (CountAt(s.delivered, CreateCatalog(uid)) == 0 ==> NoImagesYet(s, uid))
    && (forall q :: q in s.procs && OpenRun(s.procs[q], uid) ==> NoImagesYet(s, uid))
  }

  /** The failure handler gave up on a message of the job itself. */
  predicate OwnFailure(w: Write, uid: Uid) { Fails(w, uid) && w.writer.cause.message.uid == uid }

  /** An own failure is of an image message, hence after the only close. */
  ghost predicate OwnOk(s: State, uid: Uid) {
    && ((exists j :: 0 <= j < |s.writes| && OwnFailure(s.writes[j], uid)) ==> !NoImagesYet(s, uid))
    && (forall j, k :: 0 <= j < k < |s.writes| && OwnFailure(s.writes[j], uid) ==> !Closes(s.writes[k], uid))
  }

  ghost predicate SingleOk(s: State, uid: Uid) {
    OneRun(s, uid) && EarlyOk(s, uid) && OwnOk(s, uid)
  }

  ghost predicate RunFrom(s: State, pid: Pid, p: Proc, uid: Uid) {
    && (RunsCatalog(p, uid) ==> pid in s.procs && RunsCatalog(s.procs[pid], uid))
    && (OpenRun(p, uid) ==> pid in s.procs && OpenRun(s.procs[pid], uid))
  }

  predicate CatalogStep(step: Step) {
    step.CatalogRead? || step.Discover? || step.CatalogEndRead? || step.PublishSbom? || step.Conflict?
  }

  lemma CatalogLocalRun(s: State, step: Step, uid: Uid)
    requires Enabled(s, step) && CatalogStep(step) && Local(s, step).Some?
    ensures RunFrom(s, step.pid, Local(s, step).value, uid)
  {
    hide IsTrue, Finished, AsFailed, AsInProgress, Counted, Closed;
  }

  lemma OtherLocalRun(s: State, step: Step, uid: Uid)
    requires Enabled(s, step) && !CatalogStep(step) && !step.Deliver? && !step.Persist?
    requires Mover(step).Some? && Local(s, step).Some?
    ensures !RunsCatalog(Local(s, step).value, uid)
  {
    hide Enabled, IntentOf, IsTrue, AsFailed, AsScheduled, Initialized, PatchResponse;
  }

  /** Only a delivery starts a run, and only the accepted start write passes it. */
  lemma LocalRun(s: State, step: Step, uid: Uid)
    requires Enabled(s, step) && !step.Deliver? && !step.Persist?
    requires Mover(step).Some? && Local(s, step).Some?
    ensures RunFrom(s, step.pid, Local(s, step).value, uid)
  {
    hide Enabled, Local;
    if CatalogStep(step) { CatalogLocalRun(s, step, uid); } else { OtherLocalRun(s, step, uid); }
  }

  lemma RunsFrom(s: State, step: Step, uid: Uid, q: Pid)
    requires Enabled(s, step) && !step.Deliver? && !step.Persist?
    requires q in Apply(s, step).procs
    ensures RunFrom(s, q, Apply(s, step).procs[q], uid)
  {
    if Mover(step) == Some(q) {
      assert Apply(s, step).procs == Put(s.procs, q, Local(s, step));
      LocalRun(s, step, uid);
    } else {
      hide Enabled, Shared, Local, Apply, OpenRun;
      OthersUnchanged(s, step, q);
    }
  }

  lemma QuietDelivered(s: State, step: Step)
    requires Enabled(s, step) && !step.Persist? && !step.Deliver?
    ensures var t := Apply(s, step);
            && t.delivered == s.delivered && t.writes == s.writes
            && (forall m :: m in t.published && m !in s.published ==>
                  || (step.ReconcilePublish? && m.CreateCatalog?)
                  || (step.PublishSbom? && m.uid == s.procs[step.pid].d.message.uid)
                  || (step.SbomDone? && m.uid == s.procs[step.pid].d.message.uid))
            && (t.slot.Some? ==>
                  || (s.slot.Some? && t.slot.value.uid == s.slot.value.uid
                      && t.slot.value.status == s.slot.value.status)
                  || t.slot.value.uid == s.nextUid)
  {
    hide Apply, Local, IntentOf, Persisted;
    ApplyShared(s, step);
  }

  /** A published image message comes from the run that publishes, or from a
      generation whose own message was published before; so there is none of a job
      whose catalog is still to be delivered or to close. */
  lemma NewImageMessage(s: State, step: Step, uid: Uid, q: Pid)
    requires Inv(s) && SingleOk(s, uid) && Enabled(s, step)
    requires step.PublishSbom? || step.SbomDone?
    requires CountAt(s.delivered, CreateCatalog(uid)) == 0 || (q in s.procs && OpenRun(s.procs[q], uid))
    ensures s.procs[step.pid].d.message.uid != uid
  {
    hide SlotOk, NamesOk, WritesOk, IsTrue, WellFormed, CopyOk, StartOk, IntentOf;
    assert ProcOk(s, s.procs[step.pid]);
  }

  lemma QuietKeepsSingle(s: State, step: Step, uid: Uid)
    requires Inv(s) && SingleOk(s, uid) && Enabled(s, step) && !step.Persist? && !step.Deliver?
    ensures SingleOk(Apply(s, step), uid)
  {
    hide Enabled, Shared, Local, Apply, OpenRun, IsTrue, IsPending, NoImagesYet, EarlyOk, Inv, OwnFailure, Closes;
    var t := Apply(s, step);
    QuietDelivered(s, step);
    forall q | q in t.procs ensures RunFrom(s, q, t.procs[q], uid) {
      RunsFrom(s, step, uid, q);
    }
    QuietEarly(s, step, uid);
    StepExtends(s, step);
    ImagesStay(s, t, uid);
  }

  lemma ImagesStay(s: State, t: State, uid: Uid)
    requires s.published <= t.published
    ensures NoImagesYet(t, uid) ==> NoImagesYet(s, uid)
  {
  }

  lemma QuietEarly(s: State, step: Step, uid: Uid)
    requires Inv(s) && SingleOk(s, uid) && Enabled(s, step) && !step.Persist? && !step.Deliver?
    ensures EarlyOk(Apply(s, step), uid)
  {
    var t := Apply(s, step);
    QuietDelivered(s, step);
    if CountAt(s.delivered, CreateCatalog(uid)) == 0 {
      QuietMessages(s, step, uid, 0);
    }
    forall q | q in t.procs && OpenRun(t.procs[q], uid) ensures NoImagesYet(t, uid) {
      RunsFrom(s, step, uid, q);
      QuietMessages(s, step, uid, q);
    }
  }

  lemma QuietMessages(s: State, step: Step, uid: Uid, q: Pid)
    requires Inv(s) && SingleOk(s, uid) && Enabled(s, step) && !step.Persist? && !step.Deliver?
    requires CountAt(s.delivered, CreateCatalog(uid)) == 0 || (q in s.procs && OpenRun(s.procs[q], uid))
    ensures NoImagesYet(Apply(s, step), uid)
  {
    hide Shared, Local, Apply, OpenRun, IsTrue, Inv, IntentOf;
    QuietDelivered(s, step);
    if step.PublishSbom? || step.SbomDone? { NewImageMessage(s, step, uid, q); }
  }

  lemma NoRunYet(s: State, uid: Uid, q: Pid)
    requires Inv(s) && q in s.procs && CountAt(s.delivered, CreateCatalog(uid)) == 0
    ensures !RunsCatalog(s.procs[q], uid)
  {
    hide IsTrue, WellFormed, SlotOk, NamesOk, WritesOk, CopyOk, StartOk;
    assert ProcOk(s, s.procs[q]);
  }

  lemma DeliverKeepsSingle(s: State, step: Step, uid: Uid)
    requires Inv(s) && SingleOk(s, uid) && Enabled(s, step) && step.Deliver?
    requires SingleDelivery(Apply(s, step), uid)
    ensures SingleOk(Apply(s, step), uid)
  {
    hide IsTrue, WellFormed, Inv, IntentOf, OwnFailure, Closes;
    if step.message == CreateCatalog(uid) {
      forall q | q in s.procs ensures !RunsCatalog(s.procs[q], uid) { NoRunYet(s, uid, q); }
    }
  }

  /** A message of the job that is given up is not its catalog message. */
  lemma GivenUpImage(s: State, d: Delivery, uid: Uid)
    requires SingleDelivery(s, uid) && DeliveryOk(s, d) && d.number >= MAX_DELIVER && d.message.uid == uid
    ensures !NoImagesYet(s, uid)
  {
  }

  lemma OnwardRun(p: Proc, i: Intent, start: nat, now: int, uid: Uid)
    requires IntentOf(p, start, now) == Some(i)
    ensures i.onward.Some? ==>
              && (RunsCatalog(i.onward.value, uid) ==> RunsCatalog(p, uid))
              && (OpenRun(i.onward.value, uid) ==> OpenRun(p, uid))
    ensures i.writer.CatalogClose? ==> p.CatalogEndWrite? && p.read == i.read
    ensures i.writer.FailureHandler? ==> p.FailWrite? && p.d == i.writer.cause
  {
    hide Finished, IsFailed, Counted, Closed, AsFailed, AsInProgress;
  }

  /** What the written entry may be: an own failure only after images, a close only
      before. */
  lemma WrittenOwn(s: State, p: Proc, i: Intent, uid: Uid, pid: Pid, now: int)
    requires SingleOk(s, uid) && SingleDelivery(s, uid) && ProcOk(s, p) && pid in s.procs && s.procs[pid] == p
    requires IntentOf(p, |s.writes|, now) == Some(i) && i.read.uid == uid
    ensures i.writer.FailureHandler? && i.writer.cause.message.uid == uid ==> !NoImagesYet(s, uid)
    ensures i.writer.CatalogClose? ==> NoImagesYet(s, uid)
  {
    OnwardRun(p, i, |s.writes|, now, uid);
    hide IntentOf, OneRun, OwnOk, NoImagesYet, CopyOk, StartOk, SingleDelivery;
    if p.FailWrite? && p.d.message.uid == uid { GivenUpImage(s, p.d, uid); }
    if p.CatalogEndWrite? && p.read == i.read { assert OpenRun(s.procs[pid], uid); }
  }

  lemma PersistKeepsSingle(s: State, step: Step, uid: Uid)
    requires Inv(s) && SingleOk(s, uid) && Enabled(s, step) && step.Persist? && SingleDelivery(s, uid)
    ensures SingleOk(Apply(s, step), uid)
  {
    hide Shared, Local, Apply, IntentOf, IntentGood, Inv, ProcOk, OpenRun, RunsCatalog, OneRun, EarlyOk, OwnOk,
      Persisted, SingleDelivery;
    var i := PersistShape(s, step);
    var p, t := s.procs[step.pid], Apply(s, step);
    OnwardRun(p, i, |s.writes|, step.now, uid);
    NotedMessages(s, i);
    RunsAfter(s, t, step.pid, i.onward, uid);
    if i.read.uid == uid { WrittenOwn(s, p, i, uid, step.pid, step.now); }
    OwnAppend(s, t, i, uid);
  }

  lemma OwnAppend(s: State, t: State, i: Intent, uid: Uid)
    requires OwnOk(s, uid) && s.slot == Some(i.read)
    requires t.writes == Persisted(s, i).writes && t.published == s.published
    requires i.read.uid == uid && i.writer.FailureHandler? && i.writer.cause.message.uid == uid ==> !NoImagesYet(s, uid)
    requires i.read.uid == uid && i.writer.CatalogClose? ==> NoImagesYet(s, uid)
    ensures OwnOk(t, uid)
  {
    hide Noted, NoImagesYet;
    assert NoImagesYet(t, uid) <==> NoImagesYet(s, uid) by {
      ImagesStay(s, t, uid);
      ImagesStay(t, s, uid);
    }
    var n := |s.writes|;
    assert forall k :: 0 <= k < n ==> t.writes[k] == s.writes[k];
    assert t.writes[n].uid == i.read.uid && t.writes[n].writer == i.writer && |t.writes| == n + 1;
  }

  lemma RunsAfter(s: State, t: State, pid: Pid, onward: Option<Proc>, uid: Uid)
    requires OneRun(s, uid) && EarlyOk(s, uid) && pid in s.procs && t.procs == Put(s.procs, pid, onward)
    requires t.published == s.published && t.delivered == s.delivered
    requires onward.Some? ==>
               && (RunsCatalog(onward.value, uid) ==> RunsCatalog(s.procs[pid], uid))
               && (OpenRun(onward.value, uid) ==> OpenRun(s.procs[pid], uid))
    ensures OneRun(t, uid) && EarlyOk(t, uid)
  {
    hide OpenRun, PublishesFor;
  }

  lemma NotedMessages(s: State, i: Intent)
    requires s.slot.Some?
    ensures Persisted(s, i).published == s.published && Persisted(s, i).delivered == s.delivered
  {
  }

  lemma {:induction false} RunSingle(steps: seq<Step>, uid: Uid)
    requires Execute(steps).Some? && SingleDelivery(Execute(steps).value, uid)
    ensures SingleOk(Execute(steps).value, uid)
  {
    if steps != [] {
      var prefix, step := steps[..|steps| - 1], steps[|steps| - 1];
      var s := Execute(prefix).value;
      RunInv(prefix);
      StepExtends(s, step);
      assert CountAt(s.delivered, CreateCatalog(uid)) <= CountAt(Apply(s, step).delivered, CreateCatalog(uid));
      hide Inv, SingleOk, Apply, Enabled;
      RunSingle(prefix, uid);
      if step.Persist? {
        PersistKeepsSingle(s, step, uid);
      } else if step.Deliver? {
        DeliverKeepsSingle(s, step, uid);
      } else {
        QuietKeepsSingle(s, step, uid);
      }
    }
  }

  /** The failure handler gave up on a message of an earlier job of the same name. */
  predicate ForeignFailure(w: Write) { w.writer.FailureHandler? && w.writer.cause.message.uid != w.uid }

  /** With one delivery of its catalog message, a job once Failed stays Failed if and
      only if no failure of another job was charged to it between the start and the
      close of its catalog run. */
  lemma FailedIsFinal(steps: seq<Step>, uid: Uid)
    requires Execute(steps).Some? && SingleDelivery(Execute(steps).value, uid)
    ensures var writes := Execute(steps).value.writes;
            FailedStays(writes, uid) <==>
            forall j, k :: FailedWhileOpen(writes, uid, j, k) ==> !ForeignFailure(writes[j])
  {
    hide Execute, FailedStays, SingleDelivery;
    FailedFinal(steps, uid);
    RunSingle(steps, uid);
    var writes := Execute(steps).value.writes;
    forall j, k | FailedWhileOpen(writes, uid, j, k) ensures ForeignFailure(writes[j]) {
      assert !OwnFailure(writes[j], uid);
    }
  }
}
