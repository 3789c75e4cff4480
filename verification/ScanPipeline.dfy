/** The scan of one ScanJob as a protocol of independent actors: the ScanJob
    reconciler, the catalog, SBOM and scan workers, the failure handler and the
    reconciler that counts vulnerability reports.

    All of them write the status of the object stored under one name, each by
    reading it and updating it only if its version has not moved. The object may
    be deleted and created again under a new UID. A published message can be
    delivered any number of times. An actor can stop at any point.
 */
module ScanPipeline {
  import opened Ordering
  import opened ScanJobStatus

  type Uid = nat
  type Pid = nat

  /** `annotated`: the registry snapshot annotation is present. */
  datatype Job = Job(uid: Uid, version: nat, annotated: bool, status: Status)

  datatype Message =
    | CreateCatalog(uid: Uid)
    | GenerateSbom(uid: Uid, image: string)
    | ScanSbom(uid: Uid, image: string)

  /** `number` is the delivery count the queue reports with the message. */
  datatype Delivery = Delivery(message: Message, number: nat)

  const MAX_DELIVER: nat := 5

  /** Who made a persisted status write. A closing catalog write names the write
      by which the same run passed its start check. */
  datatype Writer =
    | Reconciler
    | CatalogStart
    | CatalogClose(start: nat, discovered: seq<string>)
    | FailureHandler(cause: Delivery)
    | ReportCounter(listed: set<string>)

  /** One persisted status write, with what had been reported and discovered for
      the job, and the list its last non-empty catalog closed with, at that time. */
  datatype Write = Write(
    writer: Writer, uid: Uid, before: Status, after: Status,
    reported: set<string>, discovered: set<string>, closed: seq<string>)

  /** The local state of an actor between two of its steps. */
  datatype Proc =
    | Reconciling(read: Job)
    | ReconcileWrite(read: Job, next: Status)
    | CatalogBegin(d: Delivery)
    | CatalogBeginWrite(d: Delivery, read: Job)
    | Discovering(d: Delivery, start: nat)
    | CatalogEnd(d: Delivery, start: nat, found: seq<string>)
    | CatalogEndWrite(d: Delivery, start: nat, found: seq<string>, read: Job)
    | Publishing(d: Delivery, rest: seq<string>)
    | SbomReceived(d: Delivery)
    | SbomGenerating(d: Delivery)
    | ScanReceived(d: Delivery)
    | ScanRunning(d: Delivery)
    | Failing(d: Delivery)
    | FailWrite(d: Delivery, read: Job)
    | Counting(uid: Uid, job: Option<Job>, listed: Option<set<string>>)
    | Recording

  datatype State = State(
    slot: Option<Job>, nextUid: Uid, nextVersion: nat,
    published: set<Message>, delivered: map<Message, nat>,
    reports: map<string, Uid>,
    procs: map<Pid, Proc>,
    counter: nat, lost: nat,
    writes: seq<Write>,
    reported: map<Uid, set<string>>, discovered: map<Uid, set<string>>, closed: map<Uid, seq<string>>)

  const INIT := State(None, 0, 0, {}, map[], map[], map[], 0, 0, [], map[], map[], map[])

  function At<K, V>(m: map<K, set<V>>, k: K): set<V> { if k in m then m[k] else {} }
  function ListAt<K, V>(m: map<K, seq<V>>, k: K): seq<V> { if k in m then m[k] else [] }
  function CountAt(m: map<Message, nat>, k: Message): nat { if k in m then m[k] else 0 }

  datatype Step =
    | CreateJob | DeleteJob | TouchJob | DeleteReport(report: string)
    | ReconcileRead(pid: Pid)
    | ReconcileFail(pid: Pid, reason: string, text: string, now: int)
    | ReconcileLeave(pid: Pid, now: int)
    | ReconcileSnapshot(pid: Pid, now: int)
    | ReconcilePublish(pid: Pid, now: int)
    | Deliver(message: Message, pid: Pid)
    | CatalogRead(pid: Pid)
    | Discover(pid: Pid, images: seq<string>)
    | CatalogEndRead(pid: Pid)
    | PublishSbom(pid: Pid)
    | SbomCheck(pid: Pid)
    | SbomDone(pid: Pid)
    | ScanCheck(pid: Pid)
    | ScanDone(pid: Pid)
    | GiveUp(pid: Pid)
    | FailRead(pid: Pid)
    | CountStart(pid: Pid, report: string)
    | CountRead(pid: Pid)
    | CountList(pid: Pid)
    | Persist(pid: Pid, now: int)
    | Conflict(pid: Pid)
    | Record(pid: Pid)
    | Abandon(pid: Pid)

  // --- Local decisions of the actors --------------------------------------

  /** What a local copy holds after the unconditional patch of the annotation:
      the client overwrites it with the server's object. A server object without
      conditions leaves the conditions of the copy; a pending job has no counters
      or times to leave. */
  function PatchResponse(local: Status, server: Status): Status {
    if server.conditions == [] then server.(conditions := local.conditions) else server
  }

  /** The reconciler, once the catalog message is out. */
  function Published(s: Status, now: int, generation: int := 0): Status {
    AsScheduled(s, "Scheduled", "ScanJob has been scheduled for processing by the controller", generation, now)
  }

  /** The catalog worker, when it passes its start check. */
  function Started(s: Status, now: int, generation: int := 0): Status {
    AsInProgress(s, "CatalogCreationInProgress", "Catalog creation in progress", generation, now)
  }

  /** The failure handler, when the last delivery has failed. */
  function GivenUp(s: Status, now: int, text: string := "message processing failed", generation: int := 0): Status {
    AsFailed(s, "InternalError", text, generation, now)
  }

  /** The report counter: a failed job only gets its count. */
  function Counted(s: Status, count: nat, now: int, generation: int := 0): Status {
    var t := s.(scannedImagesCount := count);
    if IsFailed(s) then t
    else if count == s.imagesCount then
      AsComplete(t, "AllImagesScanned", "All images scanned successfully", generation, now)
    else AsInProgress(t, "ImageScanInProgress", "Image scan in progress", generation, now)
  }

  /** The closing update of the catalog. */
  function Closed(s: Status, found: seq<string>, now: int, generation: int := 0): Status {
    if found == [] then AsComplete(s, "NoImagesToScan", "No images to process", generation, now)
    else AsInProgress(s, "SBOMGenerationInProgress", "SBOM generation in progress", generation, now)
           .(imagesCount := |found|, scannedImagesCount := 0)
  }

  /** A status write an actor is about to attempt: the version it read, the status
      it writes, and how it goes on when the write is accepted. */
  datatype Intent = Intent(read: Job, next: Status, writer: Writer, onward: Option<Proc>)

  function RecordIf(b: bool): Option<Proc> { if b then Some(Recording) else None }

  function IntentOf(p: Proc, start: nat, now: int): Option<Intent> {
    match p
    case ReconcileWrite(read, next) =>
      Some(Intent(read, next, Reconciler, RecordIf(Finished(next))))
    case CatalogBeginWrite(d, read) =>
      Some(Intent(read, Started(read.status, now), CatalogStart, Some(Discovering(d, start))))
    case CatalogEndWrite(d, first, found, read) =>
      Some(Intent(read, Closed(read.status, found, now), CatalogClose(first, found),
                  if found != [] then Some(Publishing(d, found)) else RecordIf(!Finished(read.status))))
    case FailWrite(d, read) =>
      Some(Intent(read, GivenUp(read.status, now), FailureHandler(d), RecordIf(!Finished(read.status))))
    case Counting(_, Some(read), Some(listed)) =>
      var next := Counted(read.status, |listed|, now);
      Some(Intent(read, next, ReportCounter(listed), RecordIf(!IsFailed(read.status) && Finished(next))))
    case _ => None
  }

  /** Where an actor resumes when the version moved: the workers read again, the
      reconcilers end and are queued anew. */
  function Retried(p: Proc): Option<Proc> {
    match p
    case CatalogBeginWrite(d, _) => Some(CatalogBegin(d))
    case CatalogEndWrite(d, start, found, _) => Some(CatalogEnd(d, start, found))
    case FailWrite(d, _) => Some(Failing(d))
    case _ => None
  }

  /** The delivery an actor is handling, while it is a message handler. */
  function Handling(p: Proc): Option<Delivery> {
    match p
    case CatalogBegin(d) => Some(d)
    case CatalogBeginWrite(d, _) => Some(d)
    case Discovering(d, _) => Some(d)
    case CatalogEnd(d, _, _) => Some(d)
    case CatalogEndWrite(d, _, _, _) => Some(d)
    case Publishing(d, _) => Some(d)
    case SbomReceived(d) => Some(d)
    case SbomGenerating(d) => Some(d)
    case ScanReceived(d) => Some(d)
    case ScanRunning(d) => Some(d)
    case _ => None
  }

  function Received(d: Delivery): Proc {
    match d.message
    case CreateCatalog(_) => CatalogBegin(d)
    case GenerateSbom(_, _) => SbomReceived(d)
    case ScanSbom(_, _) => ScanReceived(d)
  }

  predicate IsReconcile(p: Proc) { p.Reconciling? || p.ReconcileWrite? }

  predicate Holds(s: State, uid: Uid) { s.slot.Some? && s.slot.value.uid == uid }

  function Put(procs: map<Pid, Proc>, pid: Pid, p: Option<Proc>): map<Pid, Proc> {
    if p.Some? then procs[pid := p.value] else procs - {pid}
  }

  // --- Steps ---------------------------------------------------------------

  predicate Enabled(s: State, step: Step) {
    match step
    case CreateJob => s.slot == None
    case DeleteJob => s.slot.Some?
    case TouchJob => s.slot.Some?
    case DeleteReport(report) => report in s.reports
    case ReconcileRead(pid) =>
      // The work queue runs one reconcile of an object at a time.
      && pid !in s.procs && s.slot.Some? && IsPending(s.slot.value.status)
      && forall q :: q in s.procs ==> !IsReconcile(s.procs[q])
    case ReconcileFail(pid, _, _, _) => pid in s.procs && s.procs[pid].Reconciling?
    case ReconcileLeave(pid, _) => pid in s.procs && s.procs[pid].Reconciling?
    case ReconcileSnapshot(pid, _) =>
      pid in s.procs && s.procs[pid].Reconciling? && !s.procs[pid].read.annotated && s.slot.Some?
    case ReconcilePublish(pid, _) =>
      pid in s.procs && s.procs[pid].Reconciling? && s.procs[pid].read.annotated
    case Deliver(message, pid) => message in s.published && pid !in s.procs
    case CatalogRead(pid) => pid in s.procs && s.procs[pid].CatalogBegin?
    case Discover(pid, _) => pid in s.procs && s.procs[pid].Discovering?
    case CatalogEndRead(pid) => pid in s.procs && s.procs[pid].CatalogEnd?
    case PublishSbom(pid) => pid in s.procs && s.procs[pid].Publishing?
    case SbomCheck(pid) => pid in s.procs && s.procs[pid].SbomReceived?
    case SbomDone(pid) => pid in s.procs && s.procs[pid].SbomGenerating? && s.procs[pid].d.message.GenerateSbom?
    case ScanCheck(pid) => pid in s.procs && s.procs[pid].ScanReceived?
    case ScanDone(pid) => pid in s.procs && s.procs[pid].ScanRunning? && s.procs[pid].d.message.ScanSbom?
    case GiveUp(pid) =>
      && pid in s.procs && Handling(s.procs[pid]).Some?
      && Handling(s.procs[pid]).value.number >= MAX_DELIVER
    case FailRead(pid) => pid in s.procs && s.procs[pid].Failing?
    case CountStart(pid, report) => pid !in s.procs && report in s.reports
    case CountRead(pid) => pid in s.procs && s.procs[pid].Counting?
    case CountList(pid) => pid in s.procs && s.procs[pid].Counting?
    case Persist(pid, now) =>
      && pid in s.procs && IntentOf(s.procs[pid], |s.writes|, now).Some?
      && s.slot.Some? && s.slot.value.version == IntentOf(s.procs[pid], |s.writes|, now).value.read.version
    case Conflict(pid) =>
      && pid in s.procs && IntentOf(s.procs[pid], 0, 0).Some?
      && (s.slot == None || s.slot.value.version != IntentOf(s.procs[pid], 0, 0).value.read.version)
    case Record(pid) => pid in s.procs && s.procs[pid].Recording?
    case Abandon(pid) => pid in s.procs
  }

  /** The actor a step moves, if it moves one. */
  function Mover(step: Step): Option<Pid> {
    match step
    case CreateJob => None
    case DeleteJob => None
    case TouchJob => None
    case DeleteReport(_) => None
    case _ => Some(step.pid)
  }

  /** Where the moved actor goes; None when it ends. */
  function Local(s: State, step: Step): Option<Proc>
    requires Enabled(s, step) && Mover(step).Some?
  {
    match step
    case ReconcileRead(pid) => Some(Reconciling(s.slot.value))
    case ReconcileFail(pid, reason, text, now) =>
      var read := s.procs[pid].read;
      Some(ReconcileWrite(read, AsFailed(Initialized(read.status, 0, now), reason, text, 0, now)))
    case ReconcileLeave(pid, now) =>
      var read := s.procs[pid].read;
      Some(ReconcileWrite(read, Initialized(read.status, 0, now)))
    case ReconcileSnapshot(pid, now) =>
      var patched := Patched(s);
      Some(ReconcileWrite(patched, PatchResponse(Initialized(s.procs[pid].read.status, 0, now), patched.status)))
    case ReconcilePublish(pid, now) =>
      var read := s.procs[pid].read;
      Some(ReconcileWrite(read, Published(Initialized(read.status, 0, now), now)))
    case Deliver(message, pid) => Some(Received(Delivery(message, CountAt(s.delivered, message) + 1)))
    case CatalogRead(pid) =>
      var d := s.procs[pid].d;
      if !Holds(s, d.message.uid) || Finished(s.slot.value.status) then None
      else Some(CatalogBeginWrite(d, s.slot.value))
    case Discover(pid, images) => Some(CatalogEnd(s.procs[pid].d, s.procs[pid].start, images))
    case CatalogEndRead(pid) =>
      var p := s.procs[pid];
      if !Holds(s, p.d.message.uid) then None else Some(CatalogEndWrite(p.d, p.start, p.found, s.slot.value))
    case PublishSbom(pid) =>
      var p := s.procs[pid];
      if p.rest == [] then None else Some(Publishing(p.d, p.rest[1..]))
    case SbomCheck(pid) =>
      var d := s.procs[pid].d;
      if !Holds(s, d.message.uid) || IsFailed(s.slot.value.status) then None else Some(SbomGenerating(d))
    case SbomDone(pid) => None
    case ScanCheck(pid) =>
      var d := s.procs[pid].d;
      if !Holds(s, d.message.uid) || IsFailed(s.slot.value.status) then None else Some(ScanRunning(d))
    case ScanDone(pid) => None
    case GiveUp(pid) => Some(Failing(Handling(s.procs[pid]).value))
    case FailRead(pid) => if s.slot == None then None else Some(FailWrite(s.procs[pid].d, s.slot.value))
    case CountStart(pid, report) => Some(Counting(s.reports[report], None, None))
    case CountRead(pid) =>
      var p := s.procs[pid];
      if !Holds(s, p.uid) || IsComplete(s.slot.value.status) then None else Some(p.(job := s.slot))
    case CountList(pid) =>
      var p := s.procs[pid];
      Some(p.(listed := Some(set n | n in s.reports && s.reports[n] == p.uid)))
    case Persist(pid, now) => IntentOf(s.procs[pid], |s.writes|, now).value.onward
    case Conflict(pid) => Retried(s.procs[pid])
    case Record(pid) => None
    case Abandon(pid) => None
  }

  /** The stored object after the annotation patch, which checks no version. */
  function Patched(s: State): Job
    requires s.slot.Some?
  {
    s.slot.value.(version := s.nextVersion, annotated := true)
  }

  function Names(images: seq<string>): set<string> { set x | x in images }

  /** A non-empty catalog's closing write enters the record of what was discovered. */
  function Noted(s: State, uid: Uid, writer: Writer): State {
    if writer.CatalogClose? && writer.discovered != [] then
      s.(closed := s.closed[uid := writer.discovered],
         discovered := s.discovered[uid := At(s.discovered, uid) + Names(writer.discovered)])
    else s
  }

  /** An accepted status write. */
  function Persisted(s: State, i: Intent): State
    requires s.slot.Some?
  {
    var job := s.slot.value;
    var t := Noted(s, job.uid, i.writer);
    t.(slot := Some(job.(version := s.nextVersion, status := i.next)),
       nextVersion := s.nextVersion + 1,
       writes := s.writes + [Write(i.writer, job.uid, job.status, i.next,
                                   At(t.reported, job.uid), At(t.discovered, job.uid), ListAt(t.closed, job.uid))])
  }

  /** What a step changes outside the actors. */
  function Shared(s: State, step: Step): State
    requires Enabled(s, step)
  {
    match step
    case CreateJob =>
      s.(slot := Some(Job(s.nextUid, s.nextVersion, false, EMPTY_STATUS)),
         nextUid := s.nextUid + 1, nextVersion := s.nextVersion + 1)
    case DeleteJob => s.(slot := None)
    case TouchJob => s.(slot := Some(s.slot.value.(version := s.nextVersion)), nextVersion := s.nextVersion + 1)
    case DeleteReport(report) => s.(reports := s.reports - {report})
    case ReconcileSnapshot(pid, _) => s.(slot := Some(Patched(s)), nextVersion := s.nextVersion + 1)
    case ReconcilePublish(pid, _) => s.(published := s.published + {CreateCatalog(s.procs[pid].read.uid)})
    case Deliver(message, _) => s.(delivered := s.delivered[message := CountAt(s.delivered, message) + 1])
    case PublishSbom(pid) =>
      var p := s.procs[pid];
      if p.rest == [] then s else s.(published := s.published + {GenerateSbom(p.d.message.uid, p.rest[0])})
    case SbomDone(pid) =>
      var m := s.procs[pid].d.message;
      s.(published := s.published + {ScanSbom(m.uid, m.image)})
    case ScanDone(pid) =>
      var m := s.procs[pid].d.message;
      s.(reports := s.reports[m.image := m.uid],
         reported := s.reported[m.uid := At(s.reported, m.uid) + {m.image}])
    case Persist(pid, now) => Persisted(s, IntentOf(s.procs[pid], |s.writes|, now).value)
    case Record(_) => s.(counter := s.counter + 1)
    case Abandon(pid) => if s.procs[pid].Recording? then s.(lost := s.lost + 1) else s
    case _ => s
  }

  function Apply(s: State, step: Step): State
    requires Enabled(s, step)
  {
    var t := Shared(s, step);
    match Mover(step)
    case None => t
    case Some(pid) => t.(procs := Put(s.procs, pid, Local(s, step)))
  }

  /** The state after a run; None if some step of it was not enabled. */
  function Execute(steps: seq<Step>): Option<State> {
    if steps == [] then Some(INIT)
    else
      var s := Execute(steps[..|steps| - 1]);
      if s.Some? && Enabled(s.value, steps[|steps| - 1]) then Some(Apply(s.value, steps[|steps| - 1]))
      else None
  }
}
