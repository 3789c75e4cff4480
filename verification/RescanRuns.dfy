/** No rescan request is lost: writers that add requests to a registry, and the
    runner that turns them into ScanJobs and cleans up, as a protocol of
    version-checked updates. An actor can stop at any point, also between creating
    the job and cleaning up. */
module RescanRuns {
  import opened Ordering
  import opened Registries
  import opened RescanTargets

  type Pid = nat
  type Decoder = string -> Option<seq<Target>>

  /** A stored registry, as far as rescan requests are concerned. */
  datatype Stored = Stored(version: nat, annotations: map<string, string>)

  datatype Proc =
    | Writing(read: Stored, key: string, raw: string)
    | Collected(annotations: map<string, string>)
    | Cleaning(keys: set<string>)
    | CleanWrite(keys: set<string>, read: Stored)

  /** An annotation written to the registry, and how many jobs there were by then. */
  datatype Owed = Owed(raw: string, since: nat)

  /** `drawn` holds every annotation key an actor has picked so far, `landed` those
      that were stored; `owed` the annotations written to the registry since it was
      created; `jobs` the targets of the jobs created. */
  datatype State = State(
    registry: Option<Stored>, nextVersion: nat, drawn: set<string>, landed: set<string>, owed: map<string, Owed>,
    jobs: seq<seq<Target>>, procs: map<Pid, Proc>)

  const INIT := State(None, 0, {}, {}, map[], [], map[])

  datatype Step =
    | CreateRegistry(requests: map<string, string>)
    | DeleteRegistry
    | TouchRegistry
    | Read(pid: Pid, key: string, raw: string)
    | Collect(pid: Pid)
    | CreateJob(pid: Pid, targets: seq<Target>)
    | ReadAgain(pid: Pid)
    | Update(pid: Pid)
    | Conflict(pid: Pid)
    | Stop(pid: Pid)

  function RescanKeys(annotations: map<string, string>): set<string> {
    set key | key in annotations && IsRescanKey(key)
  }

  /** The object an update would store. */
  function Next(p: Proc): Option<map<string, string>> {
    match p
    case Writing(read, key, raw) => Some(read.annotations[key := raw])
    case CleanWrite(keys, read) => Some(read.annotations - keys)
    case _ => None
  }

  ghost predicate Enabled(decode: Decoder, s: State, step: Step) {
    match step
    case CreateRegistry(requests) => s.registry == None && requests.Keys !! s.drawn
    case DeleteRegistry => s.registry.Some?
    case TouchRegistry => s.registry.Some?
    case Read(pid, key, raw) => pid !in s.procs && s.registry.Some? && IsRescanKey(key) && key !in s.drawn
    case Collect(pid) => pid !in s.procs && s.registry.Some? && RescanKeys(s.registry.value.annotations) != {}
    case CreateJob(pid, targets) =>
      pid in s.procs && s.procs[pid].Collected? && TargetsOf(decode, s.procs[pid].annotations, targets)
    case ReadAgain(pid) => pid in s.procs && s.procs[pid].Cleaning?
    case Update(pid) =>
      && pid in s.procs && Next(s.procs[pid]).Some?
      && s.registry.Some? && s.registry.value.version == s.procs[pid].read.version
    case Conflict(pid) =>
      && pid in s.procs && Next(s.procs[pid]).Some?
      && (s.registry == None || s.registry.value.version != s.procs[pid].read.version)
    case Stop(pid) => pid in s.procs
  }

  function Store(s: State, annotations: map<string, string>): State {
    s.(registry := Some(Stored(s.nextVersion, annotations)), nextVersion := s.nextVersion + 1)
  }

  function OwedAt(requests: map<string, string>, since: nat): map<string, Owed> {
    map key | key in requests :: Owed(requests[key], since)
  }

  function Apply(decode: Decoder, s: State, step: Step): State
    requires Enabled(decode, s, step)
  {
    match step
    case CreateRegistry(requests) =>
      Store(s, requests).(owed := OwedAt(requests, |s.jobs|), drawn := s.drawn + requests.Keys,
                          landed := s.landed + requests.Keys)
    case DeleteRegistry => s.(registry := None, owed := map[])
    case TouchRegistry => Store(s, s.registry.value.annotations)
    case Read(pid, key, raw) =>
      s.(procs := s.procs[pid := Writing(s.registry.value, key, raw)], drawn := s.drawn + {key})
    case Collect(pid) => s.(procs := s.procs[pid := Collected(s.registry.value.annotations)])
    case CreateJob(pid, targets) =>
      s.(jobs := s.jobs + [targets], procs := s.procs[pid := Cleaning(RescanKeys(s.procs[pid].annotations))])
    case ReadAgain(pid) =>
      var keys := s.procs[pid].keys;
      if s.registry == None || keys !! s.registry.value.annotations.Keys then s.(procs := s.procs - {pid})
      else s.(procs := s.procs[pid := CleanWrite(keys, s.registry.value)])
    case Update(pid) =>
      var p := s.procs[pid];
      var t := Store(s, Next(p).value).(procs := s.procs - {pid});
      if p.Writing? then t.(owed := s.owed[p.key := Owed(p.raw, |s.jobs|)], landed := s.landed + {p.key}) else t
    case Conflict(pid) =>
      // a writer's reconcile ends and is queued anew; the cleanup reads again
      if s.procs[pid].Writing? then s.(procs := s.procs - {pid})
      else s.(procs := s.procs[pid := Cleaning(s.procs[pid].keys)])
    case Stop(pid) => s.(procs := s.procs - {pid})
  }

  ghost function Execute(decode: Decoder, steps: seq<Step>): Option<State> {
    if steps == [] then Some(INIT)
    else
      var s := Execute(decode, steps[..|steps| - 1]);
      if s.Some? && Enabled(decode, s.value, steps[|steps| - 1]) then Some(Apply(decode, s.value, steps[|steps| - 1]))
      else None
  }

  // --- The invariant -------------------------------------------------------------------

  /** Some job scans everything the request asks for. */
  ghost predicate Covered(jobs: seq<seq<Target>>, request: seq<Target>) {
    exists job :: job in jobs && forall r, c :: Wants(request, r, c) ==> Wants(job, r, c)
  }

  /** A key stands for the request last written under it, if it can be decoded. Only
      jobs created after the request was written count. */
  ghost predicate CoveredKey(decode: Decoder, s: State, key: string) {
    key in s.owed && Decoded(s.owed[key].raw, decode).Some? ==>
      s.owed[key].since <= |s.jobs| && Covered(s.jobs[s.owed[key].since..], Decoded(s.owed[key].raw, decode).value)
  }

  ghost predicate Kept(decode: Decoder, s: State, key: string) {
    key in s.owed ==> (s.registry.Some? && key in s.registry.value.annotations) || CoveredKey(decode, s, key)
  }

  /** What an earlier read saw of the annotations still owed. */
  ghost predicate SeenOk(s: State, annotations: map<string, string>) {
    && annotations.Keys <= s.landed
    && forall key :: key in annotations && key in s.owed ==> annotations[key] == s.owed[key].raw
  }

  ghost predicate CopyOk(s: State, read: Stored) {
    && read.version < s.nextVersion
    && (s.registry.Some? && s.registry.value.version == read.version ==> s.registry.value == read)
  }

  ghost predicate KeysCovered(decode: Decoder, s: State, keys: set<string>) {
    keys <= s.landed && forall key :: key in keys ==> CoveredKey(decode, s, key)
  }

  ghost predicate ProcOk(decode: Decoder, s: State, p: Proc) {
    match p
    case Writing(read, key, raw) => CopyOk(s, read) && key in s.drawn && key !in s.landed
    case Collected(annotations) => SeenOk(s, annotations)
    case Cleaning(keys) => KeysCovered(decode, s, keys)
    case CleanWrite(keys, read) => CopyOk(s, read) && KeysCovered(decode, s, keys)
  }

  ghost predicate OneWriter(s: State) {
    forall p, q :: (p in s.procs && q in s.procs && s.procs[p].Writing? && s.procs[q].Writing?
                    && s.procs[p].key == s.procs[q].key) ==> p == q
  }

  ghost predicate StoreOk(decode: Decoder, s: State) {
    && s.owed.Keys <= s.landed <= s.drawn
    && (s.registry.Some? ==> s.registry.value.version < s.nextVersion && SeenOk(s, s.registry.value.annotations))
    && (s.registry == None ==> s.owed == map[])
    && (forall key :: key in s.owed ==> s.owed[key].since <= |s.jobs|)
    && forall key :: Kept(decode, s, key)
  }

  ghost predicate Inv(decode: Decoder, s: State) {
    && StoreOk(decode, s) && OneWriter(s)
    && forall pid :: pid in s.procs ==> ProcOk(decode, s, s.procs[pid])
  }

  // --- Frame -------------------------------------------------------------------------------

  ghost predicate Extends(s: State, t: State) {
    && s.drawn <= t.drawn && s.landed <= t.landed && s.jobs <= t.jobs && s.nextVersion <= t.nextVersion
    && (t.registry == s.registry || t.registry == None
        || (t.registry.Some? && s.nextVersion <= t.registry.value.version))
    && forall key :: key in t.owed && key in s.landed ==> key in s.owed && t.owed[key] == s.owed[key]
  }

  lemma StepExtends(decode: Decoder, s: State, step: Step)
    requires Inv(decode, s) && Enabled(decode, s, step)
    ensures Extends(s, Apply(decode, s, step))
  {
    hide TargetsOf, Kept, SeenOk;
    if step.Update? { assert ProcOk(decode, s, s.procs[step.pid]); }
  }

  lemma CoveredGrows(jobs: seq<seq<Target>>, more: seq<seq<Target>>, since: nat, request: seq<Target>)
    requires jobs <= more && since <= |jobs| && Covered(jobs[since..], request)
    ensures Covered(more[since..], request)
  {
    hide Wants;
    var job :| job in jobs[since..] && forall r, c :: Wants(request, r, c) ==> Wants(job, r, c);
    var i :| since <= i < |jobs| && jobs[i] == job;
    assert more[i] == job && more[i] in more[since..];
  }

  lemma CoveredKeyFrame(decode: Decoder, s: State, t: State, key: string)
    requires Extends(s, t) && CoveredKey(decode, s, key) && key in s.landed
    ensures CoveredKey(decode, t, key)
  {
    hide Covered, Decoded;
    if key in t.owed && Decoded(t.owed[key].raw, decode).Some? {
      CoveredGrows(s.jobs, t.jobs, t.owed[key].since, Decoded(t.owed[key].raw, decode).value);
    }
  }

  lemma ProcFrame(decode: Decoder, s: State, t: State, p: Proc)
    requires Extends(s, t) && ProcOk(decode, s, p) && (p.Writing? ==> p.key !in t.landed)
    ensures ProcOk(decode, t, p)
  {
    hide CoveredKey;
    if p.Cleaning? || p.CleanWrite? {
      forall key | key in p.keys ensures CoveredKey(decode, t, key) { CoveredKeyFrame(decode, s, t, key); }
    }
  }

  /** Only an accepted write, or a new registry, makes a key land. */
  lemma StillFree(decode: Decoder, s: State, step: Step, q: Pid)
    requires Inv(decode, s) && Enabled(decode, s, step) && q in s.procs && s.procs[q].Writing?
    requires step.Update? ==> step.pid != q
    ensures s.procs[q].key !in Apply(decode, s, step).landed
  {
    hide StoreOk, TargetsOf, CoveredKey;
    assert ProcOk(decode, s, s.procs[q]);
  }

  // --- The moved actor ---------------------------------------------------------------------

  lemma JobCovers(decode: Decoder, annotations: map<string, string>, targets: seq<Target>, jobs: seq<seq<Target>>,
                  key: string)
    requires TargetsOf(decode, annotations, targets) && targets in jobs && Parsed(annotations, decode, key)
    ensures Covered(jobs, Decoded(annotations[key], decode).value)
  {
    hide Wants, Decoded, IsRescanKey;
    forall r, c | Wants(Decoded(annotations[key], decode).value, r, c) ensures Wants(targets, r, c) {
      assert ParsedWants(annotations, decode, r, c);
    }
  }

  /** Once the job is there, every request the runner listed is covered. */
  lemma JobCoversKeys(decode: Decoder, s: State, step: Step)
    requires Inv(decode, s) && Enabled(decode, s, step) && step.CreateJob?
    ensures KeysCovered(decode, Apply(decode, s, step), RescanKeys(s.procs[step.pid].annotations))
  {
    hide Covered, TargetsOf, IsRescanKey, Decoded, Kept;
    var annotations := s.procs[step.pid].annotations;
    assert ProcOk(decode, s, s.procs[step.pid]);
    var t := Apply(decode, s, step);
    forall key | key in RescanKeys(annotations) ensures CoveredKey(decode, t, key) {
      if key in t.owed && Decoded(t.owed[key].raw, decode).Some? {
        var since := t.owed[key].since;
        assert t.jobs[|s.jobs|] == step.targets && step.targets in t.jobs[since..];
        JobCovers(decode, annotations, step.targets, t.jobs[since..], key);
      }
    }
  }

  lemma MovedOk(decode: Decoder, s: State, step: Step, pid: Pid)
    requires Inv(decode, s) && Enabled(decode, s, step)
    requires step.Read? || step.Collect? || step.CreateJob? || step.ReadAgain? || step.Conflict?
    requires step.pid == pid && pid in Apply(decode, s, step).procs
    ensures ProcOk(decode, Apply(decode, s, step), Apply(decode, s, step).procs[pid])
  {
    hide Kept, TargetsOf, CoveredKey;
    if pid in s.procs { assert ProcOk(decode, s, s.procs[pid]); }
    if step.CreateJob? {
      JobCoversKeys(decode, s, step);
    } else if step.Conflict? || step.ReadAgain? {
      var t := Apply(decode, s, step);
      assert t.owed == s.owed && t.jobs == s.jobs && t.landed == s.landed;
      forall key | CoveredKey(decode, s, key) && key in s.landed ensures CoveredKey(decode, t, key) {
        StepExtends(decode, s, step);
        CoveredKeyFrame(decode, s, t, key);
      }
    }
  }

  predicate Moves(step: Step, pid: Pid) {
    !step.CreateRegistry? && !step.DeleteRegistry? && !step.TouchRegistry? && step.pid == pid
  }

  lemma ProcsKept(decode: Decoder, s: State, step: Step)
    requires Inv(decode, s) && Enabled(decode, s, step)
    ensures var t := Apply(decode, s, step); forall pid :: pid in t.procs ==> ProcOk(decode, t, t.procs[pid])
  {
    hide StoreOk, TargetsOf, ProcOk, Extends;
    var t := Apply(decode, s, step);
    StepExtends(decode, s, step);
    forall pid | pid in t.procs ensures ProcOk(decode, t, t.procs[pid]) {
      if Moves(step, pid) {
        MovedOk(decode, s, step, pid);
      } else {
        assert pid in s.procs && t.procs[pid] == s.procs[pid];
        if s.procs[pid].Writing? { StillFree(decode, s, step, pid); }
        ProcFrame(decode, s, t, s.procs[pid]);
      }
    }
  }

  lemma OneWriterKept(decode: Decoder, s: State, step: Step)
    requires Inv(decode, s) && Enabled(decode, s, step)
    ensures OneWriter(Apply(decode, s, step))
  {
    hide StoreOk, TargetsOf, KeysCovered, SeenOk, CopyOk;
    if step.Read? {
      forall q | q in s.procs && s.procs[q].Writing? ensures s.procs[q].key != step.key {
        assert ProcOk(decode, s, s.procs[q]);
      }
    }
  }

  // --- The registry --------------------------------------------------------------------------

  lemma KeptByCleaning(decode: Decoder, s: State, step: Step)
    requires Inv(decode, s) && Enabled(decode, s, step) && step.Update?
    ensures StoreOk(decode, Apply(decode, s, step))
  {
    hide Covered, Decoded;
    var p := s.procs[step.pid];
    assert ProcOk(decode, s, p);
    var t := Apply(decode, s, step);
    forall key ensures Kept(decode, t, key) {
      assert Kept(decode, s, key);
    }
  }

  lemma StoreKept(decode: Decoder, s: State, step: Step)
    requires Inv(decode, s) && Enabled(decode, s, step)
    ensures StoreOk(decode, Apply(decode, s, step))
  {
    if step.Update? {
      KeptByCleaning(decode, s, step);
    } else {
      StoreQuiet(decode, s, step);
    }
  }

  lemma StoreQuiet(decode: Decoder, s: State, step: Step)
    requires StoreOk(decode, s) && Enabled(decode, s, step) && !step.Update?
    ensures StoreOk(decode, Apply(decode, s, step))
  {
    hide Covered, Decoded, TargetsOf;
    var t := Apply(decode, s, step);
    forall key ensures Kept(decode, t, key) {
      assert Kept(decode, s, key);
      if key in s.owed && CoveredKey(decode, s, key) && Decoded(s.owed[key].raw, decode).Some? {
        CoveredGrows(s.jobs, t.jobs, s.owed[key].since, Decoded(s.owed[key].raw, decode).value);
      }
    }
  }

  lemma {:induction false} RunInv(decode: Decoder, steps: seq<Step>)
    requires Execute(decode, steps).Some?
    ensures Inv(decode, Execute(decode, steps).value)
  {
    if steps != [] {
      hide StoreOk, OneWriter, ProcOk, Enabled, Apply;
      var prefix, step := steps[..|steps| - 1], steps[|steps| - 1];
      RunInv(decode, prefix);
      var s := Execute(decode, prefix).value;
      StoreKept(decode, s, step);
      OneWriterKept(decode, s, step);
      ProcsKept(decode, s, step);
    } else {
      InitInv(decode);
    }
  }

  lemma InitInv(decode: Decoder)
    ensures Inv(decode, INIT)
  {
  }

  /** At every point of every run, each well-formed request written to the registry
      that is there is still one of its annotations, or everything it asks for is
      in the targets of a job that was created after the request was written. */
  lemma NoRequestLost(decode: Decoder, steps: seq<Step>, key: string)
    requires Execute(decode, steps).Some? && key in Execute(decode, steps).value.owed
    requires Decoded(Execute(decode, steps).value.owed[key].raw, decode).Some?
    ensures var s := Execute(decode, steps).value;
            var owed := s.owed[key];
            && s.registry.Some? && owed.since <= |s.jobs|
            && ((key in s.registry.value.annotations && s.registry.value.annotations[key] == owed.raw)
                || Covered(s.jobs[owed.since..], Decoded(owed.raw, decode).value))
  {
    hide Execute, Covered, Decoded;
    RunInv(decode, steps);
    assert Kept(decode, Execute(decode, steps).value, key);
  }

  /** The count kept with a request is that of the jobs at the moment it was stored. */
  lemma OwedSince(decode: Decoder, steps: seq<Step>, step: Step, key: string)
    requires Execute(decode, steps + [step]).Some? && key in Execute(decode, steps + [step]).value.owed
    ensures Execute(decode, steps).Some?
    ensures var s, t := Execute(decode, steps).value, Execute(decode, steps + [step]).value;
            if key in s.owed then t.owed[key] == s.owed[key]
            else t.owed[key].since == |s.jobs| && t.registry.Some? && key in t.registry.value.annotations
                 && t.registry.value.annotations[key] == t.owed[key].raw
  {
    assert (steps + [step])[..|steps|] == steps;
    RunInv(decode, steps);
    hide TargetsOf, Kept, CoveredKey;
    var s := Execute(decode, steps).value;
    if step.Update? { assert ProcOk(decode, s, s.procs[step.pid]); }
  }

  // --- What a cleanup leaves ------------------------------------------------------------------

  /** The annotations of the registry, none if it is gone. */
  function Annotations(s: State): map<string, string> {
    if s.registry.Some? then s.registry.value.annotations else map[]
  }

  /** The rescan keys a runner listed when it last collected, as far as the steps tell. */
  ghost function Listed(decode: Decoder, steps: seq<Step>, pid: Pid): set<string> {
    if steps == [] then {}
    else
      var prefix, step := steps[..|steps| - 1], steps[|steps| - 1];
      if step == Collect(pid) && Execute(decode, prefix).Some?
      then set key | key in Annotations(Execute(decode, prefix).value) && IsRescanKey(key)
      else Listed(decode, prefix, pid)
  }

  /** A runner between its collection and the end of its cleanup. */
  ghost predicate Runs(s: State, pid: Pid) { pid in s.procs && !s.procs[pid].Writing? }

  ghost predicate ListedOk(s: State, pid: Pid, keys: set<string>) {
    Runs(s, pid) ==>
      match s.procs[pid]
      case Collected(annotations) => RescanKeys(annotations) == keys
      case Cleaning(todo) => todo == keys
      case CleanWrite(todo, _) => todo == keys
      case Writing(_, _, _) => true
  }

  lemma {:induction false} RunListed(decode: Decoder, steps: seq<Step>, pid: Pid)
    requires Execute(decode, steps).Some?
    ensures ListedOk(Execute(decode, steps).value, pid, Listed(decode, steps, pid))
  {
    if steps != [] {
      hide IsRescanKey, TargetsOf;
      RunListed(decode, steps[..|steps| - 1], pid);
    }
  }

  /** The cleanup of a runner ends with this step, and not because the runner stops. */
  ghost predicate Cleaned(decode: Decoder, s: State, step: Step, pid: Pid) {
    && Enabled(decode, s, step) && Runs(s, pid) && pid !in Apply(decode, s, step).procs
    && step != Stop(pid)
  }

  /** An accepted cleaning write removes the listed keys and leaves every other
      annotation as it is stored. */
  lemma CleaningWrite(decode: Decoder, steps: seq<Step>, pid: Pid)
    requires Execute(decode, steps).Some? && Enabled(decode, Execute(decode, steps).value, Update(pid))
    requires Runs(Execute(decode, steps).value, pid)
    ensures var s := Execute(decode, steps).value;
            var before, after := Annotations(s), Annotations(Apply(decode, s, Update(pid)));
            forall key :: if key in Listed(decode, steps, pid) then key !in after
                          else key in after <==> key in before
    ensures var s := Execute(decode, steps).value;
            var before, after := Annotations(s), Annotations(Apply(decode, s, Update(pid)));
            forall key :: key in after ==> key in before && after[key] == before[key]
  {
    hide Execute, Listed, StoreOk, KeysCovered;
    RunInv(decode, steps);
    RunListed(decode, steps, pid);
    assert ProcOk(decode, Execute(decode, steps).value, Execute(decode, steps).value.procs[pid]);
  }

  lemma CleanedGone(decode: Decoder, steps: seq<Step>, step: Step, pid: Pid, key: string)
    requires Execute(decode, steps).Some? && Cleaned(decode, Execute(decode, steps).value, step, pid)
    requires key in Listed(decode, steps, pid)
    ensures var t := Apply(decode, Execute(decode, steps).value, step);
            key in t.landed && key !in Annotations(t)
  {
    hide Execute, Listed, StoreOk, TargetsOf, CoveredKey;
    RunInv(decode, steps);
    RunListed(decode, steps, pid);
    var s := Execute(decode, steps).value;
    assert ProcOk(decode, s, s.procs[pid]);
  }

  /** A key that was stored and is gone does not come back. */
  lemma GoneStays(decode: Decoder, s: State, step: Step, key: string)
    requires Inv(decode, s) && Enabled(decode, s, step) && key in s.landed && key !in Annotations(s)
    ensures var t := Apply(decode, s, step); key in t.landed && key !in Annotations(t)
  {
    hide TargetsOf, Kept, SeenOk, KeysCovered;
    if step.Update? { assert ProcOk(decode, s, s.procs[step.pid]); }
  }

  lemma ExecuteLonger(decode: Decoder, steps: seq<Step>, more: seq<Step>)
    requires more != [] && Execute(decode, steps + more).Some?
    ensures var front, step := steps + more[..|more| - 1], more[|more| - 1];
            && Execute(decode, front).Some? && Enabled(decode, Execute(decode, front).value, step)
            && Execute(decode, steps + more) == Some(Apply(decode, Execute(decode, front).value, step))
  {
    hide Enabled, Apply;
    assert (steps + more)[..|steps + more| - 1] == steps + more[..|more| - 1];
  }

  lemma {:induction false} StaysGone(decode: Decoder, steps: seq<Step>, more: seq<Step>, key: string)
    requires Execute(decode, steps).Some? && Execute(decode, steps + more).Some?
    requires key in Execute(decode, steps).value.landed && key !in Annotations(Execute(decode, steps).value)
    ensures var t := Execute(decode, steps + more).value; key in t.landed && key !in Annotations(t)
    decreases |more|
  {
    hide Enabled, Apply, Inv;
    if more == [] {
      assert steps + more == steps;
    } else {
      ExecuteLonger(decode, steps, more);
      hide Execute;
      var front := steps + more[..|more| - 1];
      StaysGone(decode, steps, more[..|more| - 1], key);
      RunInv(decode, front);
      GoneStays(decode, Execute(decode, front).value, more[|more| - 1], key);
    }
  }

  /** Once a runner has ended its cleanup, other than by stopping, none of the keys it had
      listed is an annotation, in any continuation of the run: no later cycle finds them. */
  lemma HandledStaysGone(decode: Decoder, steps: seq<Step>, step: Step, more: seq<Step>, pid: Pid, key: string)
    requires Execute(decode, steps + [step] + more).Some? && Execute(decode, steps).Some?
    requires Cleaned(decode, Execute(decode, steps).value, step, pid) && key in Listed(decode, steps, pid)
    ensures key !in Annotations(Execute(decode, steps + [step] + more).value)
  {
    CleanedGone(decode, steps, step, pid, key);
    assert (steps + [step])[..|steps|] == steps;
    assert Execute(decode, steps + [step]) == Some(Apply(decode, Execute(decode, steps).value, step));
    hide Execute, Apply, Cleaned, Listed, Annotations;
    StaysGone(decode, steps + [step], more, key);
  }

  predicate ByPid(step: Step, pid: Pid) {
    match step
    case CreateRegistry(_) => false
    case DeleteRegistry => false
    case TouchRegistry => false
    case _ => step.pid == pid
  }

  /** No step of a runner touches an annotation it has not listed. */
  lemma UnlistedUntouched(decode: Decoder, steps: seq<Step>, step: Step, pid: Pid, key: string)
    requires Execute(decode, steps).Some? && Enabled(decode, Execute(decode, steps).value, step)
    requires ByPid(step, pid) && (Runs(Execute(decode, steps).value, pid) || step == Collect(pid))
    requires key !in Listed(decode, steps, pid)
    ensures var s := Execute(decode, steps).value;
            var before, after := Annotations(s), Annotations(Apply(decode, s, step));
            (key in after <==> key in before) && (key in before ==> after[key] == before[key])
  {
    if step.Update? {
      CleaningWrite(decode, steps, pid);
    } else {
      hide Execute, Listed, TargetsOf;
    }
  }
}
