/** The finished-job counter against the history of persisted status writes. */
module PipelineMetric {
  import opened Ordering
  import opened ScanJobStatus
  import opened ScanPipeline
  import opened PipelineInvariants

  function Tally(p: Write -> bool, writes: seq<Write>): nat {
    if writes == [] then 0
    else Tally(p, writes[..|writes| - 1]) + if p(writes[|writes| - 1]) then 1 else 0
  }

  /** Increments that accepted writes still owe. */
  function Owed(procs: map<Pid, Proc>): nat {
    |set q | q in procs && procs[q].Recording?|
  }

  ghost predicate MetricOk(s: State) {
    s.counter + Owed(s.procs) + s.lost == Tally(Completes, s.writes) + Tally(Recounts, s.writes)
  }

  lemma OwedPut(procs: map<Pid, Proc>, pid: Pid, p: Option<Proc>)
    ensures Owed(Put(procs, pid, p))
         == Owed(procs) - (if pid in procs && procs[pid].Recording? then 1 else 0)
            + (if p == Some(Recording) then 1 else 0)
  {
    var others := set q | q in procs && q != pid && procs[q].Recording?;
    OwedSplit(procs, pid, others);
    OwedSplit(Put(procs, pid, p), pid, others);
  }

  lemma OwedSplit(procs: map<Pid, Proc>, pid: Pid, others: set<Pid>)
    requires others == set q | q in procs && q != pid && procs[q].Recording?
    ensures Owed(procs) == |others| + if pid in procs && procs[pid].Recording? then 1 else 0
  {
    var owed := set q | q in procs && procs[q].Recording?;
    assert owed == if pid in procs && procs[pid].Recording? then others + {pid} else others;
  }

  lemma TallyAppend(p: Write -> bool, writes: seq<Write>, w: Write)
    ensures Tally(p, writes + [w]) == Tally(p, writes) + if p(w) then 1 else 0
  {
    assert (writes + [w])[..|writes|] == writes;
  }

  lemma PersistKeepsMetric(s: State, step: Step)
    requires Inv(s) && MetricOk(s) && Enabled(s, step) && step.Persist?
    ensures MetricOk(Apply(s, step))
  {
    hide Inv, Shared, Local, Apply, IntentOf, Owed, WriteOk, ProcOk, Completes, Recounts, Put;
    var i := PersistShape(s, step);
    OwedPut(s.procs, step.pid, i.onward);
    NotRecording(s.procs[step.pid], |s.writes|, step.now);
    var w := Persisted(s, i).writes[|s.writes|];
    TallyAppend(Completes, s.writes, w);
    TallyAppend(Recounts, s.writes, w);
    NotBoth(w);
    assert Persisted(s, i).writes == s.writes + [w];
  }

  lemma NotRecording(p: Proc, start: nat, now: int)
    requires IntentOf(p, start, now).Some?
    ensures !p.Recording?
  {
  }

  lemma NotBoth(w: Write)
    ensures !(Completes(w) && Recounts(w))
  {
  }

  lemma MoveKeepsMetric(s: State, step: Step)
    requires MetricOk(s) && Enabled(s, step) && !step.Persist?
    ensures MetricOk(Apply(s, step))
  {
    hide Owed, Put, Shared, Enabled, Local;
    SharedCounts(s, step);
    if Mover(step).Some? {
      OwedPut(s.procs, step.pid, Local(s, step));
      RecordingMoves(s, step);
    } else {
      SameProcs(s, step);
    }
  }

  lemma SharedCounts(s: State, step: Step)
    requires Enabled(s, step) && !step.Persist?
    ensures var t := Shared(s, step);
            && t.writes == s.writes && t.counter == s.counter + (if step.Record? then 1 else 0)
            && t.lost == s.lost + (if step.Abandon? && s.procs[step.pid].Recording? then 1 else 0)
  {
    hide IntentOf, Persisted;
  }

  lemma SameProcs(s: State, step: Step)
    requires Enabled(s, step) && Mover(step) == None
    ensures Shared(s, step).procs == s.procs
  {
  }

  /** Only an accepted write makes an actor owe an increment; only recording it, or
      a crash, ends that. */
  lemma RecordingMoves(s: State, step: Step)
    requires Enabled(s, step) && !step.Persist? && Mover(step).Some?
    ensures Local(s, step) != Some(Recording)
    ensures step.Record? ==> step.pid in s.procs && s.procs[step.pid].Recording?
    ensures step.Abandon? ==> step.pid in s.procs
    ensures !step.Record? && !step.Abandon? ==> !(step.pid in s.procs && s.procs[step.pid].Recording?)
  {
    hide IsTrue, AsFailed, Published, Initialized, PatchResponse, Finished, IsFailed, IsComplete;
  }

  lemma {:induction false} RunMetric(steps: seq<Step>)
    requires Execute(steps).Some?
    ensures MetricOk(Execute(steps).value)
  {
    if steps != [] {
      hide Inv, MetricOk, Apply, Enabled;
      var prefix, step := steps[..|steps| - 1], steps[|steps| - 1];
      RunMetric(prefix);
      RunInv(prefix);
      if step.Persist? {
        PersistKeepsMetric(Execute(prefix).value, step);
      } else {
        MoveKeepsMetric(Execute(prefix).value, step);
      }
    }
  }
}
