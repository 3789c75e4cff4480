/** The persisted writes of a job form a chain, and what the chain allows. */
module PipelineHistory {
  import opened Ordering
  import opened ScanJobStatus
  import opened ScanPipeline
  import opened PipelineInvariants

  /** The status a job was last left with. */
  function LastStatus(writes: seq<Write>, uid: Uid): Status {
    if writes == [] then EMPTY_STATUS
    else if writes[|writes| - 1].uid == uid then writes[|writes| - 1].after
    else LastStatus(writes[..|writes| - 1], uid)
  }

  /** Every write starts from the status the previous write of the job left. */
  ghost predicate ChainOk(s: State) {
    && (s.slot.Some? ==> s.slot.value.status == LastStatus(s.writes, s.slot.value.uid))
    && (forall i :: 0 <= i < |s.writes| ==> LinkOk(s.writes, i) && s.writes[i].uid < s.nextUid)
  }

  ghost predicate LinkOk(writes: seq<Write>, i: nat)
    requires i < |writes|
  {
    writes[i].before == LastStatus(writes[..i], writes[i].uid)
  }

  lemma {:induction false} UnwrittenStatus(writes: seq<Write>, uid: Uid)
    requires forall i :: 0 <= i < |writes| ==> writes[i].uid != uid
    ensures LastStatus(writes, uid) == EMPTY_STATUS
  {
    if writes != [] { UnwrittenStatus(writes[..|writes| - 1], uid); }
  }

  lemma PersistKeepsChain(s: State, step: Step)
    requires Inv(s) && ChainOk(s) && Enabled(s, step) && step.Persist?
    ensures ChainOk(Apply(s, step))
  {
    var i := PersistShape(s, step);
    hide Enabled, Shared, Local, Apply, IntentOf, IntentGood, ProcOk, NamesOk, ProcsOk, WritesOk, IsTrue, WellFormed,
      Noted;
    var writes := Persisted(s, i).writes;
    assert writes[..|s.writes|] == s.writes;
    assert Apply(s, step).writes == writes;
    forall k | 0 <= k < |writes| ensures LinkOk(writes, k) && writes[k].uid < s.nextUid {
      if k < |s.writes| {
        assert LinkOk(s.writes, k);
        assert writes[..k] == s.writes[..k];
      }
    }
  }

  lemma QuietStatus(s: State, step: Step)
    requires Enabled(s, step) && !step.Persist?
    ensures var t := Apply(s, step);
            && t.writes == s.writes && s.nextUid <= t.nextUid
            && (t.slot.Some? ==>
                  || (s.slot.Some? && t.slot.value.uid == s.slot.value.uid
                      && t.slot.value.status == s.slot.value.status)
                  || (t.slot.value.uid == s.nextUid < t.nextUid && t.slot.value.status == EMPTY_STATUS))
  {
    hide Apply, Local, IntentOf, Persisted;
    ApplyShared(s, step);
  }

  lemma QuietKeepsChain(s: State, step: Step)
    requires ChainOk(s) && Enabled(s, step) && !step.Persist?
    ensures ChainOk(Apply(s, step))
  {
    QuietStatus(s, step);
    hide Enabled, Shared, Local, Apply;
    UnwrittenStatus(s.writes, s.nextUid);
  }

  lemma {:induction false} RunChain(steps: seq<Step>)
    requires Execute(steps).Some?
    ensures ChainOk(Execute(steps).value)
  {
    if steps != [] {
      hide Inv, ChainOk, Apply, Enabled;
      var prefix, step := steps[..|steps| - 1], steps[|steps| - 1];
      RunChain(prefix);
      RunInv(prefix);
      if step.Persist? {
        PersistKeepsChain(Execute(prefix).value, step);
      } else {
        QuietKeepsChain(Execute(prefix).value, step);
      }
    }
  }

  // --- A job that is gone ----------------------------------------------------

  ghost predicate Gone(s: State, uid: Uid) { uid < s.nextUid && !Holds(s, uid) }

  lemma StepGone(s: State, step: Step, uid: Uid)
    requires Inv(s) && Gone(s, uid) && Enabled(s, step)
    ensures var t := Apply(s, step);
            && Gone(t, uid) && s.writes <= t.writes
            && forall i :: |s.writes| <= i < |t.writes| ==> t.writes[i].uid != uid
  {
    if step.Persist? {
      var i := PersistShape(s, step);
      hide Inv, Enabled, Shared, Local, Apply, IntentOf, IntentGood, ProcOk, Noted, IsTrue;
    } else {
      QuietStatus(s, step);
      hide Inv, Enabled, Shared, Local, Apply, IsTrue;
    }
  }

  lemma ExecuteLonger(steps: seq<Step>, more: seq<Step>)
    requires more != [] && Execute(steps + more).Some?
    ensures var front, step := steps + more[..|more| - 1], more[|more| - 1];
            && Execute(front).Some? && Enabled(Execute(front).value, step)
            && Execute(steps + more) == Some(Apply(Execute(front).value, step))
  {
    hide Enabled, Apply;
    assert (steps + more)[..|steps + more| - 1] == steps + more[..|more| - 1];
  }

  /** Once a job is deleted no status is ever written for it again, whatever its
      workers still do and whichever job takes its name. */
  lemma {:induction false} GoneStaysUntouched(steps: seq<Step>, more: seq<Step>, uid: Uid)
    requires Execute(steps).Some? && Execute(steps + more).Some? && Gone(Execute(steps).value, uid)
    ensures var s, t := Execute(steps).value, Execute(steps + more).value;
            && Gone(t, uid) && s.writes <= t.writes
            && forall i :: |s.writes| <= i < |t.writes| ==> t.writes[i].uid != uid
    decreases |more|
  {
    hide Inv, Enabled, Apply, Gone;
    if more == [] {
      assert steps + more == steps;
    } else {
      ExecuteLonger(steps, more);
      hide Execute;
      GoneStaysUntouched(steps, more[..|more| - 1], uid);
      RunInv(steps + more[..|more| - 1]);
      StepGone(Execute(steps + more[..|more| - 1]).value, more[|more| - 1], uid);
    }
  }

  // --- What leaves a finished phase ------------------------------------------

  /** A closing write of a catalog run that had passed its start check while the
      job was unfinished. */
  ghost predicate ByStartedCatalog(writes: seq<Write>, i: nat)
    requires i < |writes|
  {
    var w := writes[i];
    && w.writer.CatalogClose? && w.writer.start < i
    && writes[w.writer.start].writer == CatalogStart && writes[w.writer.start].uid == w.uid
    && !Finished(writes[w.writer.start].before)
  }

  /** Over every interleaving, for every persisted status write of every run. */
  lemma StatusHistory(steps: seq<Step>, i: nat)
    requires Execute(steps).Some? && i < |Execute(steps).value.writes|
    ensures var writes := Execute(steps).value.writes;
            var w := writes[i];
            // one condition per kind, at most one of them True, and nothing changes between two writes
            && Valid(w.before) && Valid(w.after) && w.before == LastStatus(writes[..i], w.uid)
            // Scheduled is entered only from pending, and nothing returns to pending
            && (IsScheduled(w.after) && !IsScheduled(w.before) ==> w.writer.Reconciler? && IsPending(w.before))
            && (IsPending(w.after) ==> IsPending(w.before))
            // what leaves Failed and Complete
            && (IsFailed(w.before) && !IsFailed(w.after) ==> ByStartedCatalog(writes, i))
            && (IsComplete(w.before) && !IsComplete(w.after) ==>
                  ByStartedCatalog(writes, i) || (w.writer.FailureHandler? && IsFailed(w.after)))
            // giving up takes the fifth delivery of one message, and fails the job
            && (w.writer.FailureHandler? ==> w.writer.cause.number >= 5 && IsFailed(w.after))
            // every write leaves a condition of every kind
            && (forall kind :: EntryOf(w.after.conditions, kind).Some?)
            // a catalog starts an unfinished job, and closes with the number of images it found
            && (w.writer == CatalogStart ==> !Finished(w.before) && IsInProgress(w.after))
            && (w.writer.CatalogClose? && w.writer.discovered == [] ==> IsComplete(w.after))
            && (w.writer.CatalogClose? && w.writer.discovered != [] ==>
                  && IsInProgress(w.after) && w.after.imagesCount == |w.writer.discovered|
                  && w.after.scannedImagesCount == 0)
            // a finished job has a completion time, one in progress a start time, which stays
            && (IsComplete(w.after) || IsFailed(w.after) ==> w.after.completionTime.Some?)
            && (IsInProgress(w.after) ==> w.after.startTime.Some?)
            && (w.before.startTime.Some? ==> w.after.startTime == w.before.startTime)
  {
    RunInv(steps);
    RunChain(steps);
    var s := Execute(steps).value;
    assert WriteOk(s.writes, i) && LinkOk(s.writes, i);
    WriteStocks(s.writes, i);
    hide IsTrue, WellFormed, Inv, ChainOk, Execute;
    if s.writes[i].writer.Reconciler? { ReconcilePhases(s.writes[i]); }
  }

  lemma WriteStocks(writes: seq<Write>, i: nat)
    requires i < |writes| && WriteOk(writes, i)
    ensures forall kind :: EntryOf(writes[i].after.conditions, kind).Some?
  {
    hide WellFormed, FindCondition;
    var w := writes[i];
    match w.writer
    case Reconciler =>
    case CatalogStart => PhaseStocked(w.after, InProgress);
    case CatalogClose(_, found) => PhaseStocked(w.after, if found == [] then Complete else InProgress);
    case FailureHandler(_) => PhaseStocked(w.after, Failed);
    case ReportCounter(listed) =>
      if IsFailed(w.before) {
        assert IsTrue(w.after.conditions, Failed);
      } else {
        PhaseStocked(w.after, if |listed| == |w.closed| then Complete else InProgress);
      }
  }

  lemma ReconcilePhases(w: Write)
    requires ReconcileOk(w.before, w.after)
    ensures IsScheduled(w.after) && !IsScheduled(w.before) ==> IsPending(w.before)
    ensures IsPending(w.after) ==> IsPending(w.before)
    ensures IsFailed(w.before) ==> IsFailed(w.after)
    ensures IsComplete(w.before) ==> IsComplete(w.after)
  {
    hide IsTrue, WellFormed;
  }

  /** The stored status is the one its last write left. */
  lemma StoredStatus(steps: seq<Step>)
    requires Execute(steps).Some? && Execute(steps).value.slot.Some?
    ensures var s := Execute(steps).value;
            s.slot.value.status == LastStatus(s.writes, s.slot.value.uid) && Valid(s.slot.value.status)
  {
    RunInv(steps);
    RunChain(steps);
  }

  // --- Completion by the report counter ---------------------------------------

  /** When the report counter completes a job it had listed as many reports of the
      job as its last non-empty catalog listed images, each of them for a
      discovered image; and the count it stores is that of listed reports. */
  lemma CounterCompletes(steps: seq<Step>, i: nat)
    requires Execute(steps).Some? && i < |Execute(steps).value.writes|
    requires Execute(steps).value.writes[i].writer.ReportCounter?
    ensures var w := Execute(steps).value.writes[i];
            && w.writer.listed <= w.reported <= w.discovered && w.after.scannedImagesCount == |w.writer.listed|
            && w.after.imagesCount == |w.closed| && Names(w.closed) <= w.discovered
            && (IsComplete(w.after) <==> !IsFailed(w.before) && |w.writer.listed| == |w.closed|)
            && (|w.closed| >= |w.discovered| ==> w.after.scannedImagesCount <= w.after.imagesCount)
            && (|w.closed| >= |w.discovered| && IsComplete(w.after) ==> w.reported == w.discovered)
            // a completing count has listed every discovered image exactly when the last
            // list is as long as all discoveries together
            && (IsComplete(w.after) ==> (w.writer.listed == w.discovered <==> |w.closed| == |w.discovered|))
  {
    RunInv(steps);
    var w := Execute(steps).value.writes[i];
    assert WriteOk(Execute(steps).value.writes, i);
    hide IsTrue, WellFormed, Inv, Execute;
    SubsetSize(w.writer.listed, w.discovered);
  }

  /** Names listed by the closing writes of a job, and the list of the last
      non-empty one. */
  function ListedNames(writes: seq<Write>, uid: Uid): set<string> {
    if writes == [] then {}
    else ListedNames(writes[..|writes| - 1], uid)
         + if Lists(writes[|writes| - 1], uid) then Names(writes[|writes| - 1].writer.discovered) else {}
  }

  function LastList(writes: seq<Write>, uid: Uid): seq<string> {
    if writes == [] then []
    else if Lists(writes[|writes| - 1], uid) then writes[|writes| - 1].writer.discovered
    else LastList(writes[..|writes| - 1], uid)
  }

  predicate Lists(w: Write, uid: Uid) {
    w.uid == uid && w.writer.CatalogClose? && w.writer.discovered != []
  }

  /** The record each write carries is what the writes up to it listed. */
  ghost predicate RecordOk(s: State) {
    && (forall u :: At(s.discovered, u) == ListedNames(s.writes, u) && ListAt(s.closed, u) == LastList(s.writes, u))
    && (forall i :: 0 <= i < |s.writes| ==> EntryOk(s.writes, i))
  }

  ghost predicate EntryOk(writes: seq<Write>, i: nat)
    requires i < |writes|
  {
    var w := writes[i];
    w.discovered == ListedNames(writes[..i + 1], w.uid) && w.closed == LastList(writes[..i + 1], w.uid)
  }

  lemma QuietDiscovered(s: State, step: Step)
    requires Enabled(s, step) && !step.Persist?
    ensures var t := Apply(s, step);
            t.discovered == s.discovered && t.closed == s.closed && t.writes == s.writes
  {
    hide Apply, Local, IntentOf, Persisted;
    ApplyShared(s, step);
  }

  lemma ListedAppend(writes: seq<Write>, w: Write, uid: Uid)
    ensures ListedNames(writes + [w], uid)
         == ListedNames(writes, uid) + if Lists(w, uid) then Names(w.writer.discovered) else {}
    ensures LastList(writes + [w], uid) == if Lists(w, uid) then w.writer.discovered else LastList(writes, uid)
  {
    assert (writes + [w])[..|writes|] == writes;
  }

  lemma NotedRecord(s: State, w: Write, u: Uid)
    requires At(s.discovered, u) == ListedNames(s.writes, u) && ListAt(s.closed, u) == LastList(s.writes, u)
    ensures var t := Noted(s, w.uid, w.writer);
            && At(t.discovered, u) == ListedNames(s.writes + [w], u)
            && ListAt(t.closed, u) == LastList(s.writes + [w], u)
  {
    ListedAppend(s.writes, w, u);
  }

  lemma PersistKeepsRecord(s: State, step: Step)
    requires Inv(s) && RecordOk(s) && Enabled(s, step) && step.Persist?
    ensures RecordOk(Apply(s, step))
  {
    var i := PersistShape(s, step);
    hide Inv, Enabled, Shared, Local, Apply, IntentOf, IntentGood, ProcOk, Noted, ListedNames, LastList, Names;
    var t := Persisted(s, i);
    var w := t.writes[|s.writes|];
    assert t.writes == s.writes + [w];
    forall u ensures At(t.discovered, u) == ListedNames(t.writes, u) && ListAt(t.closed, u) == LastList(t.writes, u) {
      NotedRecord(s, w, u);
    }
    forall k | 0 <= k < |t.writes| ensures EntryOk(t.writes, k) {
      if k < |s.writes| {
        EntryKept(s.writes, w, k);
      } else {
        assert t.writes[..k + 1] == t.writes;
      }
    }
  }

  lemma EntryKept(writes: seq<Write>, w: Write, k: nat)
    requires k < |writes| && EntryOk(writes, k)
    ensures EntryOk(writes + [w], k)
  {
    assert (writes + [w])[..k + 1] == writes[..k + 1];
  }

  lemma {:induction false} RunRecord(steps: seq<Step>)
    requires Execute(steps).Some?
    ensures RecordOk(Execute(steps).value)
  {
    if steps != [] {
      hide Inv, Apply, Enabled;
      var prefix, step := steps[..|steps| - 1], steps[|steps| - 1];
      RunRecord(prefix);
      RunInv(prefix);
      if step.Persist? {
        PersistKeepsRecord(Execute(prefix).value, step);
      } else {
        QuietDiscovered(Execute(prefix).value, step);
      }
    }
  }

  /** The catalogs of a job agree when each non-empty one listed the same names. */
  ghost predicate SameDiscoveries(writes: seq<Write>, uid: Uid, names: set<string>) {
    forall i :: 0 <= i < |writes| && Lists(writes[i], uid) ==> Names(writes[i].writer.discovered) == names
  }

  lemma {:induction false} AgreedNames(writes: seq<Write>, uid: Uid, names: set<string>)
    requires SameDiscoveries(writes, uid, names)
    ensures ListedNames(writes, uid) == {} || ListedNames(writes, uid) == names
    ensures LastList(writes, uid) != [] ==> Names(LastList(writes, uid)) == names
  {
    if writes != [] {
      assert forall i :: 0 <= i < |writes| - 1 ==> writes[..|writes| - 1][i] == writes[i];
      AgreedNames(writes[..|writes| - 1], uid, names);
    }
  }

  lemma {:induction false} FewerNames(images: seq<string>)
    ensures |Names(images)| <= |images|
    ensures |Names(images)| == |images| <==> (forall i, j :: 0 <= i < j < |images| ==> images[i] != images[j])
  {
    if images != [] {
      var rest, last := images[..|images| - 1], images[|images| - 1];
      FewerNames(rest);
      assert images == rest + [last];
      assert Names(images) == Names(rest) + {last};
      if last in rest {
        assert Names(images) == Names(rest);
        var i :| 0 <= i < |rest| && rest[i] == last;
        assert images[i] == images[|images| - 1];
      }
    }
  }

  /** When all catalogs of a job list the same names, the report counter completes
      it only if every listed image has had a report written for the job, and never
      if a catalog listed a name twice. */
  lemma CompletedJobIsScanned(steps: seq<Step>, i: nat, names: set<string>)
    requires Execute(steps).Some? && i < |Execute(steps).value.writes|
    requires Execute(steps).value.writes[i].writer.ReportCounter?
    requires SameDiscoveries(Execute(steps).value.writes, Execute(steps).value.writes[i].uid, names)
    ensures var w := Execute(steps).value.writes[i];
            && Names(w.closed) == names && w.after.imagesCount == |w.closed|
            && w.after.scannedImagesCount <= w.after.imagesCount
            && (IsComplete(w.after) ==> w.reported == names && |w.closed| == |names|)
  {
    RunInv(steps);
    RunRecord(steps);
    var writes := Execute(steps).value.writes;
    assert WriteOk(writes, i) && EntryOk(writes, i);
    hide Inv, Execute, RecordOk, IsTrue, WellFormed, EntryOk, WriteOk;
    CompletedWrite(writes, i, names);
  }

  lemma CompletedWrite(writes: seq<Write>, i: nat, names: set<string>)
    requires i < |writes| && WriteOk(writes, i) && writes[i].writer.ReportCounter?
    requires EntryOk(writes, i) && SameDiscoveries(writes, writes[i].uid, names)
    ensures var w := writes[i];
            && Names(w.closed) == names && w.after.imagesCount == |w.closed|
            && w.after.scannedImagesCount <= w.after.imagesCount
            && (IsComplete(w.after) ==> w.reported == names && |w.closed| == |names|)
  {
    hide IsTrue, WellFormed, EntryOk;
    var w := writes[i];
    assert w.discovered != {};
    ClosedWithNames(writes, i, names);
    SubsetSize(w.writer.listed, names);
    hide SameDiscoveries;
  }

  lemma ClosedWithNames(writes: seq<Write>, i: nat, names: set<string>)
    requires i < |writes| && EntryOk(writes, i) && SameDiscoveries(writes, writes[i].uid, names)
    requires writes[i].discovered != {} && writes[i].closed != []
    ensures writes[i].discovered == names == Names(writes[i].closed)
    ensures |writes[i].closed| >= |names|
  {
    hide ListedNames, LastList;
    assert forall k :: 0 <= k < i + 1 ==> writes[..i + 1][k] == writes[k];
    AgreedNames(writes[..i + 1], writes[i].uid, names);
    FewerNames(writes[i].closed);
  }
}
