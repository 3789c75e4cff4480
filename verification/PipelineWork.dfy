/** The work a job causes: none of its images is lost on the way to the SBOM workers, and
    once the job has failed or is gone, nothing new is begun for it. */
module PipelineWork {
  import opened Ordering
  import opened ScanJobStatus
  import opened ScanPipeline
  import opened PipelineInvariants
  import opened PipelineHistory

  // --- No image is lost -------------------------------------------------------------------

  /** A step by which an actor ends before its work is done. */
  predicate Stops(step: Step) { step.Abandon? || step.GiveUp? }

  /** A catalog run that has closed and has yet to ask for the SBOM of an image. */
  ghost predicate StillToAsk(s: State, q: Pid, uid: Uid, image: string) {
    q in s.procs && s.procs[q].Publishing? && s.procs[q].d.message.uid == uid && image in s.procs[q].rest
  }

  ghost predicate Carried(s: State, uid: Uid, image: string) {
    GenerateSbom(uid, image) in s.published || exists q :: StillToAsk(s, q, uid, image)
  }

  /** The run that has yet to ask for an image ends with this step. */
  ghost predicate Drops(s: State, step: Step, uid: Uid, image: string) {
    Stops(step) && StillToAsk(s, step.pid, uid, image)
  }

  ghost predicate DroppedAt(steps: seq<Step>, i: int, uid: Uid, image: string) {
    && 0 <= i < |steps| && Execute(steps[..i]).Some?
    && Drops(Execute(steps[..i]).value, steps[i], uid, image)
  }

  lemma AskedNext(s: State, pid: Pid, uid: Uid, image: string)
    requires Enabled(s, PublishSbom(pid)) && Carried(s, uid, image)
    ensures Carried(Apply(s, PublishSbom(pid)), uid, image)
  {
    hide IntentOf;
    var t := Apply(s, PublishSbom(pid));
    if GenerateSbom(uid, image) !in t.published {
      var q :| StillToAsk(s, q, uid, image);
      if q == pid { assert s.procs[pid].rest == [s.procs[pid].rest[0]] + s.procs[pid].rest[1..]; }
      assert StillToAsk(t, q, uid, image);
    }
  }

  lemma OthersCarry(s: State, step: Step, uid: Uid, image: string)
    requires Enabled(s, step) && !step.PublishSbom? && Carried(s, uid, image) && !Drops(s, step, uid, image)
    ensures Carried(Apply(s, step), uid, image)
  {
    hide Apply, Local, Shared;
    StepExtends(s, step);
    if q :| StillToAsk(s, q, uid, image) {
      PublishingStays(s, step, q);
      hide Enabled;
      OthersUnchanged(s, step, q);
      assert StillToAsk(Apply(s, step), q, uid, image);
    }
  }

  lemma PublishingStays(s: State, step: Step, q: Pid)
    requires Enabled(s, step) && !step.PublishSbom? && q in s.procs && s.procs[q].Publishing?
    requires Stops(step) ==> step.pid != q
    ensures Mover(step) != Some(q)
  {
  }

  /** What an accepted write adds to the discovered images it hands to its own actor. */
  lemma ClosedCarried(s: State, step: Step, uid: Uid, image: string)
    requires Inv(s) && Enabled(s, step) && step.Persist?
    requires image in At(Apply(s, step).discovered, uid) && image !in At(s.discovered, uid)
    ensures StillToAsk(Apply(s, step), step.pid, uid, image)
  {
    assert step.pid in s.procs;
    hide Enabled, Apply, Inv, IntentGood, IntentOf, ProcOk, Put;
    var i := PersistShape(s, step);
    var t := Persisted(s, i);
    assert image in At(t.discovered, uid);
    NotedOnly(s, i, uid, image);
    HandsOn(s, s.procs[step.pid], step.now);
    PutHolds(s.procs, step.pid, i.onward.value);
  }

  lemma PutHolds(procs: map<Pid, Proc>, pid: Pid, p: Proc)
    ensures pid in Put(procs, pid, Some(p)) && Put(procs, pid, Some(p))[pid] == p
  {
  }

  /** Only a catalog's closing write adds images, those it found, to its job. */
  lemma NotedOnly(s: State, i: Intent, uid: Uid, image: string)
    requires s.slot.Some? && image in At(Persisted(s, i).discovered, uid) && image !in At(s.discovered, uid)
    ensures i.writer.CatalogClose? && uid == s.slot.value.uid && image in i.writer.discovered
  {
  }

  /** A catalog's closing write hands the images it found to its own actor. */
  lemma HandsOn(s: State, p: Proc, now: int)
    requires ProcOk(s, p) && IntentOf(p, |s.writes|, now).Some?
    ensures var i := IntentOf(p, |s.writes|, now).value;
            i.writer.CatalogClose? && i.writer.discovered != [] ==>
              i.onward.Some? && i.onward.value.Publishing? && i.onward.value.d.message.uid == i.read.uid
              && i.onward.value.rest == i.writer.discovered
  {
    hide Finished, Closed, Started, Counted, GivenUp, IsFailed, CopyOk, DeliveryOk, StartOk;
  }

  lemma StepCarries(s: State, step: Step, uid: Uid, image: string)
    requires Inv(s) && Enabled(s, step) && !Drops(s, step, uid, image)
    requires image in At(s.discovered, uid) ==> Carried(s, uid, image)
    requires image in At(Apply(s, step).discovered, uid)
    ensures Carried(Apply(s, step), uid, image)
  {
    hide Inv, Enabled, Apply, Carried, Drops;
    if image in At(s.discovered, uid) {
      if step.PublishSbom? { AskedNext(s, step.pid, uid, image); } else { OthersCarry(s, step, uid, image); }
    } else if step.Persist? {
      ClosedCarried(s, step, uid, image);
      CarriedBy(Apply(s, step), step.pid, uid, image);
    } else {
      QuietDiscovered(s, step);
      assert false;
    }
  }

  lemma CarriedBy(s: State, q: Pid, uid: Uid, image: string)
    requires StillToAsk(s, q, uid, image)
    ensures Carried(s, uid, image)
  {
  }

  lemma QuietDiscovered(s: State, step: Step)
    requires Enabled(s, step) && !step.Persist?
    ensures Apply(s, step).discovered == s.discovered
  {
    hide Local, IntentOf, Persisted;
    ApplyShared(s, step);
  }

  /** In every run, every image a catalog closed with has been handed to the SBOM workers, or
      is about to be by the run that found it, unless that run stopped before. */
  lemma {:induction false} NoImageLost(steps: seq<Step>, uid: Uid, image: string)
    requires Execute(steps).Some? && image in At(Execute(steps).value.discovered, uid)
    ensures Carried(Execute(steps).value, uid, image) || exists i :: DroppedAt(steps, i, uid, image)
  {
    hide Inv, Enabled, Apply, Carried, Drops;
    if steps != [] {
      var n := |steps| - 1;
      var prefix := steps[..n];
      var s := Execute(prefix).value;
      if image in At(s.discovered, uid) { NoImageLost(prefix, uid, image); }
      if i :| DroppedAt(prefix, i, uid, image) {
        assert prefix[..i] == steps[..i];
        assert DroppedAt(steps, i, uid, image);
      } else if Drops(s, steps[n], uid, image) {
        assert DroppedAt(steps, n, uid, image);
      } else {
        RunInv(prefix);
        StepCarries(s, steps[n], uid, image);
      }
    }
  }

  // --- Nothing new for a job that has failed or is gone ---------------------------------------

  ghost predicate Halted(s: State, uid: Uid) { !Holds(s, uid) || IsFailed(s.slot.value.status) }

  ghost predicate Generates(s: State, q: Pid, uid: Uid, image: string) {
    q in s.procs && s.procs[q].SbomGenerating? && s.procs[q].d.message == GenerateSbom(uid, image)
  }

  ghost predicate Scans(s: State, q: Pid, uid: Uid, image: string) {
    q in s.procs && s.procs[q].ScanRunning? && s.procs[q].d.message == ScanSbom(uid, image)
  }

  /** The work under way for an image in `t` was under way in `s`, and what has been asked
      for and reported since comes from it. */
  ghost predicate NothingNew(s: State, t: State, uid: Uid, image: string) {
    && ((exists q :: Generates(t, q, uid, image)) ==> exists q :: Generates(s, q, uid, image))
    && ((exists q :: Scans(t, q, uid, image)) ==> exists q :: Scans(s, q, uid, image))
    && (ScanSbom(uid, image) in t.published ==>
          ScanSbom(uid, image) in s.published || exists q :: Generates(s, q, uid, image))
    && (image in At(t.reported, uid) ==> image in At(s.reported, uid) || exists q :: Scans(s, q, uid, image))
  }

  lemma GeneratesBefore(s: State, step: Step, q: Pid, uid: Uid, image: string)
    requires Enabled(s, step) && Halted(s, uid) && Generates(Apply(s, step), q, uid, image)
    ensures Generates(s, q, uid, image)
  {
    if Mover(step) != Some(q) {
      hide Enabled, Apply, Mover;
      OthersUnchanged(s, step, q);
    } else {
      hide IsTrue, Finished, Closed, Started, Counted, GivenUp, Shared;
    }
  }

  lemma ScansBefore(s: State, step: Step, q: Pid, uid: Uid, image: string)
    requires Enabled(s, step) && Halted(s, uid) && Scans(Apply(s, step), q, uid, image)
    ensures Scans(s, q, uid, image)
  {
    if Mover(step) != Some(q) {
      hide Enabled, Apply, Mover;
      OthersUnchanged(s, step, q);
    } else {
      hide IsTrue, Finished, Closed, Started, Counted, GivenUp, Shared;
    }
  }

  lemma AskedBefore(s: State, step: Step, uid: Uid, image: string)
    requires Enabled(s, step) && ScanSbom(uid, image) in Apply(s, step).published
    ensures ScanSbom(uid, image) in s.published || exists q :: Generates(s, q, uid, image)
  {
    hide Local, IntentOf, Persisted, IsTrue;
    ApplyShared(s, step);
    if step.Persist? {
      PersistAsks(s, step);
    } else if step.SbomDone? && ScanSbom(uid, image) !in s.published {
      assert Generates(s, step.pid, uid, image);
    }
  }

  lemma PersistAsks(s: State, step: Step)
    requires Enabled(s, step) && step.Persist?
    ensures Apply(s, step).published == s.published && Apply(s, step).reported == s.reported
  {
    hide IntentOf, IsTrue;
  }

  lemma ReportedBefore(s: State, step: Step, uid: Uid, image: string)
    requires Enabled(s, step) && image in At(Apply(s, step).reported, uid)
    ensures image in At(s.reported, uid) || exists q :: Scans(s, q, uid, image)
  {
    hide Local, IntentOf, Persisted, IsTrue;
    ApplyShared(s, step);
    if step.Persist? {
      PersistAsks(s, step);
    } else if step.ScanDone? && image !in At(s.reported, uid) {
      assert Scans(s, step.pid, uid, image);
    }
  }

  lemma HaltedStep(s: State, step: Step, uid: Uid, image: string)
    requires Enabled(s, step) && Halted(s, uid)
    ensures NothingNew(s, Apply(s, step), uid, image)
  {
    hide Enabled, Apply, Halted, Generates, Scans;
    var t := Apply(s, step);
    if q :| Generates(t, q, uid, image) { GeneratesBefore(s, step, q, uid, image); }
    if q :| Scans(t, q, uid, image) { ScansBefore(s, step, q, uid, image); }
    if ScanSbom(uid, image) in t.published { AskedBefore(s, step, uid, image); }
    if image in At(t.reported, uid) { ReportedBefore(s, step, uid, image); }
  }

  /** For as long as a job is failed or gone no SBOM is begun and no scan: only work that was
      under way when it failed still asks for a scan or makes a report. */
  lemma {:induction false} HaltedRun(steps: seq<Step>, more: seq<Step>, uid: Uid, image: string)
    requires Execute(steps).Some? && Execute(steps + more).Some?
    requires forall n :: 0 <= n < |more| ==>
        Execute(steps + more[..n]).Some? && Halted(Execute(steps + more[..n]).value, uid)
    ensures NothingNew(Execute(steps).value, Execute(steps + more).value, uid, image)
  {
    hide Enabled, Apply, Halted, Generates, Scans;
    if more == [] {
      assert steps + more == steps;
    } else {
      var n := |more| - 1;
      var s, t := Execute(steps).value, Execute(steps + more[..n]).value;
      assert (steps + more)[..|steps + more| - 1] == steps + more[..n] && (steps + more)[|steps + more| - 1] == more[n];
      forall k | 0 <= k < n
        ensures Execute(steps + more[..n][..k]).Some? && Halted(Execute(steps + more[..n][..k]).value, uid)
      {
        assert more[..n][..k] == more[..k];
      }
      HaltedRun(steps, more[..n], uid, image);
      HaltedStep(t, more[n], uid, image);
    }
  }
}
