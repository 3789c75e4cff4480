/** Runs that show which hypotheses of the pipeline theorems are needed, and when
    a count completes the job. */
module PipelineCases {
  import opened Ordering
  import opened ScanJobStatus
  import opened ScanPipeline
  import opened PipelineInvariants
  import opened PipelineMetric
  import opened PipelineFinality
  import opened PipelineHistory
  import opened PipelineSteps

  // --- A new job up to its catalog message -------------------------------------

  ghost predicate Idle(s: State) {
    s.slot == None && 0 !in s.procs && forall q :: q in s.procs ==> !IsReconcile(s.procs[q])
  }

  /** `s` with a new job whose annotation has been written. */
  function Annotated(s: State): State {
    s.(slot := Some(Job(s.nextUid, s.nextVersion + 2, true, EMPTY_STATUS)),
       nextUid := s.nextUid + 1, nextVersion := s.nextVersion + 3)
  }

  lemma NewIsPending()
    ensures IsPending(EMPTY_STATUS) && !Finished(EMPTY_STATUS) && Valid(EMPTY_STATUS)
  {
  }

  lemma ReachesAnnotated(s: State)
    requires Reachable(s) && Idle(s)
    ensures Reachable(Annotated(s))
  {
    hide Reachable, IsTrue, Initialized, PatchResponse;
    NewIsPending();
    DoCreate(s);
    var job := Job(s.nextUid, s.nextVersion, false, EMPTY_STATUS);
    var s1 := s.(slot := Some(job), nextUid := s.nextUid + 1, nextVersion := s.nextVersion + 1);
    DoReconcileRead(s1, 0);
    var s2 := s1.(procs := s.procs[0 := Reconciling(job)]);
    DoSnapshot(s2, 0);
    var next := PatchResponse(Initialized(EMPTY_STATUS, 0, 0), EMPTY_STATUS);
    var patched := job.(version := s.nextVersion + 1, annotated := true);
    var s3 := s2.(slot := Some(patched), nextVersion := s.nextVersion + 2,
                  procs := s2.procs[0 := ReconcileWrite(patched, next)]);
    DoTouch(s3);
    var s4 := s3.(slot := Some(patched.(version := s.nextVersion + 2)), nextVersion := s.nextVersion + 3);
    DoConflict(s4, 0);
    assert s4.procs - {0} == s.procs;
    assert s4.(procs := s.procs) == Annotated(s);
  }

  /** The catalog message is out; the reconcile that published it has still to write. */
  function Announced(s: State): State {
    var job := Job(s.nextUid, s.nextVersion + 2, true, EMPTY_STATUS);
    Annotated(s).(published := s.published + {CreateCatalog(s.nextUid)},
                  procs := s.procs[0 := ReconcileWrite(job, Published(Initialized(EMPTY_STATUS, 0, 0), 0))])
  }

  lemma ReachesAnnounced(s: State)
    requires Reachable(s) && Idle(s)
    ensures Reachable(Announced(s))
  {
    hide Reachable, IsTrue, Initialized, Published;
    NewIsPending();
    ReachesAnnotated(s);
    var s1 := Annotated(s);
    DoReconcileRead(s1, 0);
    var s2 := s1.(procs := s1.procs[0 := Reconciling(s1.slot.value)]);
    DoPublish(s2, 0);
    var write := ReconcileWrite(s1.slot.value, Published(Initialized(EMPTY_STATUS, 0, 0), 0));
    assert s2.procs[0 := write] == s.procs[0 := write];
  }

  // --- A failure charged to a later job of the same name ------------------------

  const CATALOG: Message := CreateCatalog(0)

  /** The job is gone; its catalog message was delivered `n` times. */
  function Orphaned(n: nat): State {
    INIT.(nextUid := 1, nextVersion := 3, published := {CATALOG},
          delivered := if n == 0 then map[] else map[CATALOG := n])
  }

  lemma ReachesOrphaned()
    ensures Reachable(Orphaned(0))
  {
    hide Reachable, IsTrue, Published, Initialized;
    InitReachable();
    ReachesAnnounced(INIT);
    var s := Announced(INIT);
    DoDelete(s);
    DoConflict(s.(slot := None), 0);
    assert s.procs - {0} == map[] && {} + {CATALOG} == {CATALOG};
    assert s.(slot := None, procs := map[]) == Orphaned(0);
  }

  /** A delivery whose handler returns an error is repeated. */
  lemma {:induction false} Redelivered(n: nat)
    ensures Reachable(Orphaned(n))
  {
    hide Reachable;
    if n == 0 {
      ReachesOrphaned();
    } else {
      Redelivered(n - 1);
      var s := Orphaned(n - 1);
      DoDeliver(s, CATALOG, 0);
      var t := s.(delivered := s.delivered[CATALOG := n], procs := map[0 := Received(Delivery(CATALOG, n))]);
      assert s.procs[0 := Received(Delivery(CATALOG, n))] == t.procs;
      DoAbandon(t, 0);
      assert t.procs - {0} == map[] && t.delivered == map[CATALOG := n];
      assert t.(procs := map[]) == Orphaned(n);
    }
  }

  const LAST: Delivery := Delivery(CATALOG, 5)

  function Orphan(): State { Orphaned(5).(procs := map[1 := Failing(LAST)]) }

  /** The job is gone, and the fifth delivery of its catalog message has failed. */
  lemma ReachesOrphan()
    ensures Reachable(Orphan()) && Idle(Orphan())
  {
    hide Reachable;
    Redelivered(4);
    var s := Orphaned(4);
    DoDeliver(s, CATALOG, 1);
    var t := s.(delivered := s.delivered[CATALOG := 5], procs := s.procs[1 := Received(LAST)]);
    DoGiveUp(t, 1);
    assert t.procs[1 := Failing(LAST)] == map[1 := Failing(LAST)] && t.delivered == map[CATALOG := 5];
    assert t.(procs := map[1 := Failing(LAST)]) == Orphan();
  }

  const NEW: Job := Job(1, 3, false, EMPTY_STATUS)

  /** Job 1 as the failure of job 0 leaves it. */
  function Blamed(): Status { GivenUp(EMPTY_STATUS, 0) }

  lemma BlamedFails()
    ensures IsFailed(Blamed()) && Finished(Blamed()) && Blamed().conditions != []
  {
    GivenUpPhase(EMPTY_STATUS, 0);
  }

  function BlamedWrite(): Write { Write(FailureHandler(LAST), 1, EMPTY_STATUS, Blamed(), {}, {}, []) }

  /** Job 1 has failed, and been counted, while a reconcile holds its earlier copy. */
  function Blaming(): State {
    Orphaned(5).(slot := Some(NEW.(version := 4, status := Blamed())), nextUid := 2, nextVersion := 5,
                 procs := map[0 := Reconciling(NEW)], counter := 1, writes := [BlamedWrite()])
  }

  lemma ReachesFailWrite()
    ensures Reachable(Orphan().(slot := Some(NEW), nextUid := 2, nextVersion := 4,
                                procs := map[0 := Reconciling(NEW), 1 := FailWrite(LAST, NEW)]))
  {
    hide Reachable, IsTrue;
    NewIsPending();
    ReachesOrphan();
    var s := Orphan();
    DoCreate(s);
    var s1 := s.(slot := Some(NEW), nextUid := 2, nextVersion := 4);
    DoReconcileRead(s1, 0);
    var s2 := s1.(procs := s.procs[0 := Reconciling(NEW)]);
    DoFailRead(s2, 1);
    assert s2.procs[1 := FailWrite(LAST, NEW)] == map[0 := Reconciling(NEW), 1 := FailWrite(LAST, NEW)];
  }

  lemma ReachesBlaming()
    ensures Reachable(Blaming())
  {
    hide Reachable, IsTrue, GivenUp;
    NewIsPending();
    ReachesFailWrite();
    var s := Orphan().(slot := Some(NEW), nextUid := 2, nextVersion := 4,
                       procs := map[0 := Reconciling(NEW), 1 := FailWrite(LAST, NEW)]);
    var i := Intent(NEW, Blamed(), FailureHandler(LAST), Some(Recording));
    DoPersist(s, 1, 0, i);
    var t := Persisted(s, i).(procs := Put(s.procs, 1, i.onward));
    assert t.writes == [BlamedWrite()];
    DoRecord(t, 1);
    assert t.procs - {1} == map[0 := Reconciling(NEW)];
    assert t.(counter := 1, procs := map[0 := Reconciling(NEW)]) == Blaming();
  }

  /** The reconcile, after its patch, is about to write the failure back. */
  lemma ReachesWriteBack() returns (job: Job)
    ensures job == NEW.(version := 5, annotated := true, status := Blamed())
    ensures Reachable(Blaming().(slot := Some(job), nextVersion := 6, procs := map[0 := ReconcileWrite(job, Blamed())]))
  {
    hide Reachable, GivenUp, Initialized;
    BlamedFails();
    ReachesBlaming();
    var s := Blaming();
    DoSnapshot(s, 0);
    job := NEW.(version := 5, annotated := true, status := Blamed());
    assert s.procs[0 := ReconcileWrite(job, Blamed())] == map[0 := ReconcileWrite(job, Blamed())];
  }

  /** Without a crash, the counter can exceed the number of completions: the
      reconcile writes back, and counts, the failure it got from its patch. */
  lemma CountedTwice() returns (s: State)
    ensures Reachable(s) && s.lost == 0 && Owed(s.procs) == 0
    ensures Tally(Completes, s.writes) == 1 && s.counter == 2
  {
    hide Reachable, IsTrue, GivenUp;
    BlamedFails();
    NewIsPending();
    var job := ReachesWriteBack();
    var t := Blaming().(slot := Some(job), nextVersion := 6, procs := map[0 := ReconcileWrite(job, Blamed())]);
    var i := Intent(job, Blamed(), Reconciler, Some(Recording));
    DoPersist(t, 0, 0, i);
    var u := Persisted(t, i).(procs := Put(t.procs, 0, i.onward));
    DoRecord(u, 0);
    assert u.procs - {0} == map[];
    s := u.(counter := 2, procs := map[]);
    TallyOnce(BlamedWrite(), s.writes[1]);
    assert s.writes == [BlamedWrite(), s.writes[1]];
  }

  lemma TallyOnce(first: Write, second: Write)
    requires Completes(first) && !Completes(second)
    ensures Tally(Completes, [first, second]) == 1
  {
    hide Completes;
    assert [first, second][..1] == [first] && [first][..0] == [];
    assert Tally(Completes, [first]) == 1;
  }

  // --- A failed job reopened after a single catalog delivery ---------------------

  function Opened(): Status { Started(EMPTY_STATUS, 0) }
  function Broken(): Status { GivenUp(Opened(), 0) }
  function Reopened(): Status { Closed(Broken(), ["image"], 0) }

  lemma ReopenedPhases()
    ensures !Finished(Opened()) && IsFailed(Broken()) && !IsFailed(Reopened())
  {
    hide IsTrue, WellFormed, GivenUp, Started, Closed;
    NewIsPending();
    StartedPhase(EMPTY_STATUS, 0);
    GivenUpPhase(Opened(), 0);
    ClosedPhase(Broken(), ["image"], 0);
  }

  const SECOND: Delivery := Delivery(CreateCatalog(1), 1)

  /** Job 1 with its catalog run at `run`, and the failure of job 0 at `fail`. */
  function Reopening(version: nat, status: Status, fail: Option<Proc>, run: Proc, writes: seq<Write>): State {
    var s := Announced(Orphan());
    s.(slot := Some(Job(1, version, true, status)), nextVersion := version + 1,
       delivered := s.delivered[CreateCatalog(1) := 1],
       procs := Put(s.procs, 1, fail)[2 := run], writes := writes)
  }

  lemma SecondDelivered()
    ensures Reachable(Reopening(5, EMPTY_STATUS, Some(Failing(LAST)), CatalogBegin(SECOND), []))
  {
    hide Reachable, Published, Initialized;
    ReachesOrphan();
    ReachesAnnounced(Orphan());
    var s := Announced(Orphan());
    DoDeliver(s, CreateCatalog(1), 2);
    assert Put(s.procs, 1, Some(Failing(LAST))) == s.procs;
  }

  lemma SecondStarts() returns (w: Write)
    ensures Reachable(Reopening(6, Opened(), Some(Failing(LAST)), Discovering(SECOND, 0), [w]))
  {
    hide Reachable, IsTrue, Started, Published, Initialized;
    NewIsPending();
    SecondDelivered();
    var s := Reopening(5, EMPTY_STATUS, Some(Failing(LAST)), CatalogBegin(SECOND), []);
    DoCatalogRead(s, 2);
    var job := Job(1, 5, true, EMPTY_STATUS);
    var t := s.(procs := s.procs[2 := CatalogBeginWrite(SECOND, job)]);
    var i := Intent(job, Opened(), CatalogStart, Some(Discovering(SECOND, 0)));
    DoPersist(t, 2, 0, i);
    w := Persisted(t, i).writes[0];
    assert Persisted(t, i).(procs := Put(t.procs, 2, i.onward))
        == Reopening(6, Opened(), Some(Failing(LAST)), Discovering(SECOND, 0), [w]);
  }

  lemma SecondFails() returns (writes: seq<Write>)
    ensures |writes| == 2 && Reachable(Reopening(7, Broken(), None, Discovering(SECOND, 0), writes)
                                       .(procs := Put(Announced(Orphan()).procs, 1, Some(Recording))
                                           [2 := Discovering(SECOND, 0)]))
  {
    hide Reachable, IsTrue, Started, GivenUp, Published, Initialized;
    ReopenedPhases();
    var w := SecondStarts();
    var s := Reopening(6, Opened(), Some(Failing(LAST)), Discovering(SECOND, 0), [w]);
    DoFailRead(s, 1);
    var job := Job(1, 6, true, Opened());
    var t := s.(procs := s.procs[1 := FailWrite(LAST, job)]);
    var i := Intent(job, Broken(), FailureHandler(LAST), Some(Recording));
    DoPersist(t, 1, 0, i);
    writes := Persisted(t, i).writes;
    assert Put(t.procs, 1, i.onward) == Put(Announced(Orphan()).procs, 1, Some(Recording))[2 := Discovering(SECOND, 0)];
  }

  /** A single delivery of its catalog message does not make Failed final when an
      earlier job's failure is charged to the job while its catalog runs. */
  lemma FailedReopened() returns (s: State)
    ensures Reachable(s) && SingleDelivery(s, 1)
    ensures |s.writes| == 3 && s.writes[2].uid == 1
    ensures IsFailed(s.writes[2].before) && !IsFailed(s.writes[2].after)
  {
    hide Reachable, IsTrue, Started, GivenUp, Closed, Published, Initialized, Noted;
    ReopenedPhases();
    var writes := SecondFails();
    var s0 := Reopening(7, Broken(), None, Discovering(SECOND, 0), writes)
              .(procs := Put(Announced(Orphan()).procs, 1, Some(Recording))[2 := Discovering(SECOND, 0)]);
    DoDiscover(s0, 2, ["image"]);
    var s1 := s0.(procs := s0.procs[2 := CatalogEnd(SECOND, 0, ["image"])]);
    DoEndRead(s1, 2);
    var job := Job(1, 7, true, Broken());
    var s2 := s1.(procs := s1.procs[2 := CatalogEndWrite(SECOND, 0, ["image"], job)]);
    var i := Intent(job, Reopened(), CatalogClose(0, ["image"]), Some(Publishing(SECOND, ["image"])));
    DoPersist(s2, 2, 0, i);
    s := Persisted(s2, i).(procs := Put(s2.procs, 2, i.onward));
    NotedAside(s2, 1, i.writer);
  }

  lemma NotedAside(s: State, uid: Uid, writer: Writer)
    ensures Noted(s, uid, writer).delivered == s.delivered && Noted(s, uid, writer).slot == s.slot
  {
  }

  // --- Two catalogs that disagree ---------------------------------------------------

  /** A catalog run of job 0 that starts, lists one image and closes. */
  lemma CatalogStarts(s: State, d: Delivery, pid: Pid) returns (t: State)
    requires Reachable(s) && pid in s.procs && s.procs[pid] == CatalogBegin(d) && d.message == CATALOG
    requires Holds(s, 0) && !Finished(s.slot.value.status)
    ensures Reachable(t) && t.slot.Some?
    ensures t == s.(slot := Some(s.slot.value.(version := s.nextVersion, status := Started(s.slot.value.status, 0))),
                    nextVersion := s.nextVersion + 1, writes := t.writes,
                    procs := s.procs[pid := Discovering(d, |s.writes|)])
  {
    hide Reachable, Finished, Started;
    var job := s.slot.value;
    DoCatalogRead(s, pid);
    var s1 := s.(procs := s.procs[pid := CatalogBeginWrite(d, job)]);
    var i := Intent(job, Started(job.status, 0), CatalogStart, Some(Discovering(d, |s.writes|)));
    DoPersist(s1, pid, 0, i);
    t := Persisted(s1, i).(procs := Put(s1.procs, pid, i.onward));
    assert Put(s1.procs, pid, i.onward) == s.procs[pid := Discovering(d, |s.writes|)];
  }

  lemma CatalogCloses(s: State, d: Delivery, start: nat, pid: Pid, image: string) returns (t: State)
    requires Reachable(s) && pid in s.procs && s.procs[pid] == Discovering(d, start) && d.message == CATALOG
    requires Holds(s, 0)
    ensures Reachable(t) && t.slot.Some?
    ensures t == Noted(s, 0, CatalogClose(start, [image]))
                 .(slot := Some(s.slot.value.(version := s.nextVersion,
                                              status := Closed(s.slot.value.status, [image], 0))),
                   nextVersion := s.nextVersion + 1, writes := t.writes,
                   procs := s.procs[pid := Publishing(d, [image])])
  {
    hide Reachable, Finished, Closed, Names;
    var job := s.slot.value;
    DoDiscover(s, pid, [image]);
    var s1 := s.(procs := s.procs[pid := CatalogEnd(d, start, [image])]);
    DoEndRead(s1, pid);
    var s2 := s1.(procs := s1.procs[pid := CatalogEndWrite(d, start, [image], job)]);
    var i := Intent(job, Closed(job.status, [image], 0), CatalogClose(start, [image]), Some(Publishing(d, [image])));
    DoPersist(s2, pid, 0, i);
    t := Persisted(s2, i).(procs := Put(s2.procs, pid, i.onward));
    assert Put(s2.procs, pid, i.onward) == s.procs[pid := Publishing(d, [image])];
  }

  lemma RunPhases(status: Status, image: string)
    requires Valid(status)
    ensures var open := Started(status, 0);
            var closed := Closed(open, [image], 0);
            && Valid(closed) && OnlyPhase(closed, InProgress) && closed.imagesCount == 1 && !Finished(closed)
  {
    hide IsTrue, WellFormed, Started;
    StartedPhase(status, 0);
    ClosedPhase(Started(status, 0), [image], 0);
  }

  lemma PutMinus(procs: map<Pid, Proc>, pid: Pid, a: Proc, b: Proc, c: Proc)
    requires pid !in procs
    ensures procs[pid := a][pid := b][pid := c] - {pid} == procs
  {
  }

  lemma OneName(image: string)
    ensures Names([image]) == {image}
  {
  }

  /** A whole catalog run of job 0 from the delivery of its message. */
  lemma CatalogRuns(s: State, pid: Pid, image: string) returns (t: State)
    requires Reachable(s) && pid !in s.procs && CATALOG in s.published && Holds(s, 0)
    requires !Finished(s.slot.value.status) && Valid(s.slot.value.status)
    ensures Reachable(t) && Holds(t, 0) && pid in t.procs && t.procs[pid].Publishing? && t.procs[pid].rest == [image]
    ensures t.procs[pid].d.message == CATALOG && t.procs - {pid} == s.procs
    ensures t.published == s.published && t.reports == s.reports && t.reported == s.reported
    ensures t.closed == s.closed[0 := [image]] && t.discovered == s.discovered[0 := At(s.discovered, 0) + {image}]
    ensures Valid(t.slot.value.status) && OnlyPhase(t.slot.value.status, InProgress)
    ensures t.slot.value.status.imagesCount == 1 && !Finished(t.slot.value.status)
  {
    hide Reachable, Finished, Valid, OnlyPhase, Started, Closed, Names;
    RunPhases(s.slot.value.status, image);
    var n := CountAt(s.delivered, CATALOG) + 1;
    var d := Delivery(CATALOG, n);
    DoDeliver(s, CATALOG, pid);
    var s1 := s.(delivered := s.delivered[CATALOG := n], procs := s.procs[pid := Received(d)]);
    var s2 := CatalogStarts(s1, d, pid);
    t := CatalogCloses(s2, d, |s.writes|, pid, image);
    PutMinus(s.procs, pid, Received(d), Discovering(d, |s.writes|), Publishing(d, [image]));
    OneName(image);
  }

  /** The first catalog lists "a" and sends it on; the second lists "b". */
  lemma Disagreeing() returns (s: State)
    ensures Reachable(s) && Holds(s, 0) && s.slot.value.status.imagesCount == 1
    ensures Valid(s.slot.value.status) && OnlyPhase(s.slot.value.status, InProgress)
    ensures s.closed == map[0 := ["b"]] && s.discovered == map[0 := {"a", "b"}]
    ensures GenerateSbom(0, "a") in s.published && s.reports == map[] && s.reported == map[] && 3 !in s.procs
  {
    hide Reachable, Finished, OnlyPhase, Valid, Published, Initialized;
    NewIsPending();
    InitReachable();
    ReachesAnnounced(INIT);
    s := CatalogRuns(Announced(INIT), 1, "a");
    DoPublishSbom(s, 1);
    assert 2 !in s.procs - {1} && 3 !in s.procs - {1};
    s := s.(published := s.published + {GenerateSbom(0, "a")},
            procs := s.procs[1 := Publishing(s.procs[1].d, s.procs[1].rest[1..])]);
    s := CatalogRuns(s, 2, "b");
    assert 3 !in s.procs - {2};
    assert At(map[0 := {"a"}], 0) + {"b"} == {"a", "b"} && At(map[], 0) + {"a"} == {"a"};
  }

  /** The report of one image, written by its two workers. */
  lemma Reported(s: State) returns (t: State)
    requires Reachable(s) && Holds(s, 0) && !IsFailed(s.slot.value.status)
    requires GenerateSbom(0, "a") in s.published && 3 !in s.procs
    ensures Reachable(t) && 3 !in t.procs && t.slot == s.slot && t.discovered == s.discovered
    ensures t.reports == s.reports["a" := 0] && t.reported == s.reported[0 := At(s.reported, 0) + {"a"}]
  {
    hide Reachable, IsFailed;
    var generate, scan := GenerateSbom(0, "a"), ScanSbom(0, "a");
    DoDeliver(s, generate, 3);
    var n := CountAt(s.delivered, generate) + 1;
    var s1 := s.(delivered := s.delivered[generate := n], procs := s.procs[3 := SbomReceived(Delivery(generate, n))]);
    DoSbom(s1, 3);
    var s2 := s1.(published := s.published + {scan}, procs := s1.procs - {3});
    DoDeliver(s2, scan, 3);
    var k := CountAt(s2.delivered, scan) + 1;
    var s3 := s2.(delivered := s2.delivered[scan := k], procs := s2.procs[3 := ScanReceived(Delivery(scan, k))]);
    DoScan(s3, 3);
    t := s3.(reports := s.reports["a" := 0], reported := s.reported[0 := At(s.reported, 0) + {"a"}],
             procs := s3.procs - {3});
  }

  // --- One undisturbed count ----------------------------------------------------------

  function Labelled(s: State, uid: Uid): set<string> { set n | n in s.reports && s.reports[n] == uid }

  /** An actor can count the reports of the job one of them names; `t` is the state
      when it has done so with no step of another actor in between. */
  ghost predicate Counts(s: State, pid: Pid, report: string, now: int, t: State) {
    exists s1, s2, s3 :: Goes(s, CountStart(pid, report), s1) && Goes(s1, CountRead(pid), s2)
                         && Goes(s2, CountList(pid), s3) && Goes(s3, Persist(pid, now), t)
  }

  ghost predicate CanCount(s: State, pid: Pid, report: string) {
    pid !in s.procs && report in s.reports && Holds(s, s.reports[report]) && !IsComplete(s.slot.value.status)
  }

  /** The actor before its write. */
  function Listing(s: State, pid: Pid, uid: Uid, read: bool, listed: bool): State
    requires s.slot.Some?
  {
    s.(procs := s.procs[pid := Counting(uid, if read then s.slot else None,
                                        if listed then Some(Labelled(s, uid)) else None)])
  }

  lemma CountStep1(s: State, pid: Pid, report: string)
    requires CanCount(s, pid, report)
    ensures Enabled(s, CountStart(pid, report))
    ensures Apply(s, CountStart(pid, report)) == Listing(s, pid, s.reports[report], false, false)
  {
    hide IntentOf, Finished, Labelled;
  }

  lemma CountStep2(s: State, pid: Pid, report: string)
    requires CanCount(s, pid, report)
    ensures var s1 := Listing(s, pid, s.reports[report], false, false);
            Enabled(s1, CountRead(pid)) && Apply(s1, CountRead(pid)) == Listing(s, pid, s.reports[report], true, false)
  {
    hide IntentOf, Labelled;
    var s1, uid := Listing(s, pid, s.reports[report], false, false), s.reports[report];
    assert s1.procs[pid := Counting(uid, s.slot, None)] == s.procs[pid := Counting(uid, s.slot, None)];
  }

  lemma CountStep3(s: State, pid: Pid, report: string)
    requires CanCount(s, pid, report)
    ensures var s2 := Listing(s, pid, s.reports[report], true, false);
            Enabled(s2, CountList(pid)) && Apply(s2, CountList(pid)) == Listing(s, pid, s.reports[report], true, true)
  {
    hide IntentOf, Finished;
    var s2, uid := Listing(s, pid, s.reports[report], true, false), s.reports[report];
    var last := Counting(uid, s.slot, Some(Labelled(s, uid)));
    assert s2.procs[pid := last] == s.procs[pid := last];
  }

  lemma CountStep4(s: State, pid: Pid, report: string, now: int)
    requires CanCount(s, pid, report)
    ensures var uid := s.reports[report];
            var s3 := Listing(s, pid, uid, true, true);
            && Enabled(s3, Persist(pid, now))
            && var t := Apply(s3, Persist(pid, now));
            && Holds(t, uid) && t.reports == s.reports && t.reported == s.reported && t.discovered == s.discovered
            && t.slot.value.status == Counted(s.slot.value.status, |Labelled(s, uid)|, now)
  {
    hide Counted, Finished, Labelled;
  }

  /** The next undisturbed count of a job stores what the report counter makes of its
      labelled reports. */
  lemma CountStores(s: State, pid: Pid, report: string, now: int) returns (t: State)
    requires CanCount(s, pid, report)
    ensures Counts(s, pid, report, now, t) && (Reachable(s) ==> Reachable(t))
    ensures Holds(t, s.reports[report]) && t.reports == s.reports && t.reported == s.reported
    ensures t.discovered == s.discovered
    ensures t.slot.value.status == Counted(s.slot.value.status, |Labelled(s, s.reports[report])|, now)
  {
    hide Enabled, Apply, Reachable, Listing, CanCount, Counted, Labelled;
    CountStep1(s, pid, report);
    CountStep2(s, pid, report);
    CountStep3(s, pid, report);
    CountStep4(s, pid, report, now);
    CanHolds(s, pid, report);
    var uid := s.reports[report];
    var s1, s2 := Listing(s, pid, uid, false, false), Listing(s, pid, uid, true, false);
    var s3 := Listing(s, pid, uid, true, true);
    t := Apply(s3, Persist(pid, now));
    assert Goes(s, CountStart(pid, report), s1) && Goes(s1, CountRead(pid), s2);
    assert Goes(s2, CountList(pid), s3) && Goes(s3, Persist(pid, now), t);
    if Reachable(s) {
      Next(s, CountStart(pid, report));
      Next(s1, CountRead(pid));
      Next(s2, CountList(pid));
      Next(s3, Persist(pid, now));
    }
  }

  lemma CanHolds(s: State, pid: Pid, report: string)
    requires CanCount(s, pid, report)
    ensures report in s.reports && s.slot.Some?
  {
  }

  /** When every image of the agreed catalog carries a report of the job, the next
      undisturbed count completes the job if and only if no name is listed twice;
      otherwise the job stays in progress. */
  lemma CompletesIffDistinct(s: State, pid: Pid, report: string, now: int, t: State)
    requires Inv(s) && CanCount(s, pid, report) && Counts(s, pid, report, now, t) && !Finished(s.slot.value.status)
    requires var uid := s.reports[report];
             At(s.discovered, uid) == Names(ListAt(s.closed, uid)) && Names(ListAt(s.closed, uid)) <= Labelled(s, uid)
    ensures t.slot.Some?
    ensures var status := t.slot.value.status;
            var images := ListAt(s.closed, s.reports[report]);
            && (IsComplete(status) <==> forall i, j :: 0 <= i < j < |images| ==> images[i] != images[j])
            && (!IsComplete(status) ==> IsInProgress(status))
  {
    hide Inv, Counts, Counted, Labelled, Valid, IsTrue, Finished;
    var uid, job := s.reports[report], s.slot.value;
    var images := ListAt(s.closed, uid);
    LabelledDiscovered(s, uid);
    assert Labelled(s, uid) == Names(images);
    FewerNames(images);
    CountIsUnique(s, pid, report, now, t);
    SlotFacts(s);
    CountedPhase(job.status, |Names(images)|, now);
    NotFailed(job.status);
  }

  lemma NotFailed(s: Status)
    requires !Finished(s)
    ensures !IsFailed(s)
  {
  }

  lemma CountIsUnique(s: State, pid: Pid, report: string, now: int, t: State)
    requires CanCount(s, pid, report) && Counts(s, pid, report, now, t)
    ensures Holds(t, s.reports[report])
    ensures t.slot.value.status == Counted(s.slot.value.status, |Labelled(s, s.reports[report])|, now)
  {
    hide Enabled, Apply, Reachable, Labelled, Counted, CanCount, Holds;
    var u := CountStores(s, pid, report, now);
    var s1, s2, s3 :| Goes(s, CountStart(pid, report), s1) && Goes(s1, CountRead(pid), s2)
                      && Goes(s2, CountList(pid), s3) && Goes(s3, Persist(pid, now), u);
    var t1, t2, t3 :| Goes(s, CountStart(pid, report), t1) && Goes(t1, CountRead(pid), t2)
                      && Goes(t2, CountList(pid), t3) && Goes(t3, Persist(pid, now), t);
    assert u == t;
  }

  /** A failed job is still counted, and nothing else about it changes. */
  lemma FailedRecounted(s: State, pid: Pid, report: string, now: int, t: State)
    requires CanCount(s, pid, report) && Counts(s, pid, report, now, t) && IsFailed(s.slot.value.status)
    ensures Holds(t, s.reports[report])
    ensures t.slot.value.status == s.slot.value.status.(scannedImagesCount := |Labelled(s, s.reports[report])|)
  {
    CountIsUnique(s, pid, report, now, t);
    hide Counts, CanCount, Labelled, AsComplete, AsInProgress;
  }

  lemma SlotFacts(s: State)
    requires Inv(s) && s.slot.Some?
    ensures var job := s.slot.value;
            Valid(job.status) && job.status.imagesCount == |ListAt(s.closed, job.uid)|
  {
    hide WellFormed;
  }

  lemma LabelledDiscovered(s: State, uid: Uid)
    requires Inv(s)
    ensures Labelled(s, uid) <= At(s.reported, uid) <= At(s.discovered, uid)
  {
    hide ProcsOk, SlotOk, WritesOk;
  }

  /** When the catalogs of a job disagree, it can be completed while an image it
      discovered has never been reported. */
  lemma CompletedUnscanned() returns (s: State)
    ensures Reachable(s) && Holds(s, 0) && IsComplete(s.slot.value.status)
    ensures "b" in At(s.discovered, 0) && "b" !in At(s.reported, 0)
  {
    hide Reachable, IsTrue, Counted, Valid;
    s := Disagreeing();
    var status := s.slot.value.status;
    s := Reported(s);
    assert Labelled(s, 0) == {"a"};
    CountedPhase(status, 1, 0);
    s := CountStores(s, 3, "a", 0);
  }
}
