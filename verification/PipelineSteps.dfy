/** Single steps of the pipeline from reachable states, spelled out, to build
    example runs from. */
module PipelineSteps {
  import opened Ordering
  import opened ScanJobStatus
  import opened ScanPipeline

  ghost predicate Reachable(s: State) { exists steps :: Execute(steps) == Some(s) }

  lemma InitReachable()
    ensures Reachable(INIT)
  {
    assert Execute([]) == Some(INIT);
  }

  lemma Next(s: State, step: Step)
    requires Reachable(s) && Enabled(s, step)
    ensures Reachable(Apply(s, step))
  {
    hide Enabled, Apply;
    var steps :| Execute(steps) == Some(s);
    assert (steps + [step])[..|steps|] == steps;
    assert Execute(steps + [step]) == Some(Apply(s, step));
  }

  ghost predicate Goes(s: State, step: Step, t: State) { Enabled(s, step) && t == Apply(s, step) }

  lemma DoCreate(s: State)
    requires Reachable(s) && s.slot == None
    ensures Reachable(s.(slot := Some(Job(s.nextUid, s.nextVersion, false, EMPTY_STATUS)),
                         nextUid := s.nextUid + 1, nextVersion := s.nextVersion + 1))
  {
    hide Reachable;
    Next(s, CreateJob);
  }

  lemma DoDelete(s: State)
    requires Reachable(s) && s.slot.Some?
    ensures Reachable(s.(slot := None))
  {
    hide Reachable;
    Next(s, DeleteJob);
  }

  lemma DoTouch(s: State)
    requires Reachable(s) && s.slot.Some?
    ensures Reachable(s.(slot := Some(s.slot.value.(version := s.nextVersion)), nextVersion := s.nextVersion + 1))
  {
    hide Reachable;
    Next(s, TouchJob);
  }

  lemma DoReconcileRead(s: State, pid: Pid)
    requires Reachable(s) && pid !in s.procs && s.slot.Some? && IsPending(s.slot.value.status)
    requires forall q :: q in s.procs ==> !IsReconcile(s.procs[q])
    ensures Reachable(s.(procs := s.procs[pid := Reconciling(s.slot.value)]))
  {
    hide Reachable, IsPending, IntentOf;
    Next(s, ReconcileRead(pid));
  }

  lemma DoSnapshot(s: State, pid: Pid)
    requires Reachable(s) && pid in s.procs && s.procs[pid].Reconciling? && !s.procs[pid].read.annotated && s.slot.Some?
    ensures var job := Patched(s);
            var next := PatchResponse(Initialized(s.procs[pid].read.status, 0, 0), job.status);
            Reachable(s.(slot := Some(job), nextVersion := s.nextVersion + 1,
                         procs := s.procs[pid := ReconcileWrite(job, next)]))
  {
    hide Reachable, IntentOf, PatchResponse, Initialized;
    Next(s, ReconcileSnapshot(pid, 0));
  }

  lemma DoPublish(s: State, pid: Pid)
    requires Reachable(s) && pid in s.procs && s.procs[pid].Reconciling? && s.procs[pid].read.annotated
    ensures var read := s.procs[pid].read;
            Reachable(s.(published := s.published + {CreateCatalog(read.uid)},
                         procs := s.procs[pid := ReconcileWrite(read, Published(Initialized(read.status, 0, 0), 0))]))
  {
    hide Reachable, IntentOf, Initialized, Published;
    Next(s, ReconcilePublish(pid, 0));
  }

  lemma DoConflict(s: State, pid: Pid)
    requires Reachable(s) && pid in s.procs && s.procs[pid].ReconcileWrite?
    requires s.slot == None || s.slot.value.version != s.procs[pid].read.version
    ensures Reachable(s.(procs := s.procs - {pid}))
  {
    hide Reachable, Finished;
    Next(s, Conflict(pid));
  }

  lemma DoDeliver(s: State, m: Message, pid: Pid)
    requires Reachable(s) && m in s.published && pid !in s.procs
    ensures var n := CountAt(s.delivered, m) + 1;
            Reachable(s.(delivered := s.delivered[m := n], procs := s.procs[pid := Received(Delivery(m, n))]))
  {
    hide Reachable, IntentOf, Received;
    Next(s, Deliver(m, pid));
  }

  lemma DoAbandon(s: State, pid: Pid)
    requires Reachable(s) && pid in s.procs && !s.procs[pid].Recording?
    ensures Reachable(s.(procs := s.procs - {pid}))
  {
    hide Reachable, IntentOf;
    Next(s, Abandon(pid));
  }

  lemma DoGiveUp(s: State, pid: Pid)
    requires Reachable(s) && pid in s.procs && Handling(s.procs[pid]).Some?
    requires Handling(s.procs[pid]).value.number >= MAX_DELIVER
    ensures Reachable(s.(procs := s.procs[pid := Failing(Handling(s.procs[pid]).value)]))
  {
    hide Reachable, IntentOf, Handling;
    Next(s, GiveUp(pid));
  }

  lemma DoFailRead(s: State, pid: Pid)
    requires Reachable(s) && pid in s.procs && s.procs[pid].Failing? && s.slot.Some?
    ensures Reachable(s.(procs := s.procs[pid := FailWrite(s.procs[pid].d, s.slot.value)]))
  {
    hide Reachable, IntentOf;
    Next(s, FailRead(pid));
  }

  lemma DoCatalogRead(s: State, pid: Pid)
    requires Reachable(s) && pid in s.procs && s.procs[pid].CatalogBegin?
    requires Holds(s, s.procs[pid].d.message.uid) && !Finished(s.slot.value.status)
    ensures Reachable(s.(procs := s.procs[pid := CatalogBeginWrite(s.procs[pid].d, s.slot.value)]))
  {
    hide Reachable, IntentOf, Finished;
    Next(s, CatalogRead(pid));
  }

  lemma DoDiscover(s: State, pid: Pid, images: seq<string>)
    requires Reachable(s) && pid in s.procs && s.procs[pid].Discovering?
    ensures Reachable(s.(procs := s.procs[pid := CatalogEnd(s.procs[pid].d, s.procs[pid].start, images)]))
  {
    hide Reachable, IntentOf;
    Next(s, Discover(pid, images));
  }

  lemma DoEndRead(s: State, pid: Pid)
    requires Reachable(s) && pid in s.procs && s.procs[pid].CatalogEnd? && Holds(s, s.procs[pid].d.message.uid)
    ensures var p := s.procs[pid];
            Reachable(s.(procs := s.procs[pid := CatalogEndWrite(p.d, p.start, p.found, s.slot.value)]))
  {
    hide Reachable, IntentOf;
    Next(s, CatalogEndRead(pid));
  }

  lemma DoPublishSbom(s: State, pid: Pid)
    requires Reachable(s) && pid in s.procs && s.procs[pid].Publishing? && s.procs[pid].rest != []
    ensures var p := s.procs[pid];
            Reachable(s.(published := s.published + {GenerateSbom(p.d.message.uid, p.rest[0])},
                         procs := s.procs[pid := Publishing(p.d, p.rest[1..])]))
  {
    hide Reachable, IntentOf;
    Next(s, PublishSbom(pid));
  }

  lemma DoSbom(s: State, pid: Pid)
    requires Reachable(s) && pid in s.procs && s.procs[pid].SbomReceived? && s.procs[pid].d.message.GenerateSbom?
    requires Holds(s, s.procs[pid].d.message.uid) && !IsFailed(s.slot.value.status)
    ensures var m := s.procs[pid].d.message;
            Reachable(s.(published := s.published + {ScanSbom(m.uid, m.image)}, procs := s.procs - {pid}))
  {
    hide Reachable, IntentOf, IsFailed;
    Next(s, SbomCheck(pid));
    var t := s.(procs := s.procs[pid := SbomGenerating(s.procs[pid].d)]);
    assert t == Apply(s, SbomCheck(pid));
    Next(t, SbomDone(pid));
    assert t.procs - {pid} == s.procs - {pid};
  }

  lemma DoScan(s: State, pid: Pid)
    requires Reachable(s) && pid in s.procs && s.procs[pid].ScanReceived? && s.procs[pid].d.message.ScanSbom?
    requires Holds(s, s.procs[pid].d.message.uid) && !IsFailed(s.slot.value.status)
    ensures var m := s.procs[pid].d.message;
            Reachable(s.(reports := s.reports[m.image := m.uid],
                         reported := s.reported[m.uid := At(s.reported, m.uid) + {m.image}], procs := s.procs - {pid}))
  {
    hide Reachable, IntentOf, IsFailed;
    Next(s, ScanCheck(pid));
    var t := s.(procs := s.procs[pid := ScanRunning(s.procs[pid].d)]);
    assert t == Apply(s, ScanCheck(pid));
    Next(t, ScanDone(pid));
    assert t.procs - {pid} == s.procs - {pid};
  }

  lemma DoPersist(s: State, pid: Pid, now: int, i: Intent)
    requires Reachable(s) && pid in s.procs && IntentOf(s.procs[pid], |s.writes|, now) == Some(i)
    requires s.slot.Some? && s.slot.value.version == i.read.version
    ensures Reachable(Persisted(s, i).(procs := Put(s.procs, pid, i.onward)))
  {
    hide Reachable, IntentOf, Persisted;
    Next(s, Persist(pid, now));
  }

  lemma DoRecord(s: State, pid: Pid)
    requires Reachable(s) && pid in s.procs && s.procs[pid].Recording?
    ensures Reachable(s.(counter := s.counter + 1, procs := s.procs - {pid}))
  {
    hide Reachable, IntentOf;
    Next(s, Record(pid));
  }
}
