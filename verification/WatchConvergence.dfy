/** When exactly a client's view of a key is what the store holds, whatever events
    were missed: a missed event does no harm when another of the same object is
    received after the last commit, for it brings the stored object along. */
module WatchConvergence {
  import opened Ordering
  import opened WatchFanout
  import opened WatchVersions

  ghost predicate Commits(step: Step, key: Key) {
    (step.Create? || step.Update? || step.Delete?) && step.key == key
  }

  /** The step hands the client an event about the object. */
  ghost predicate Brings(s: State, step: Step, key: Key, uid: nat) {
    && step == Receive(true) && s.channel != [] && !s.channel[0].lost
    && s.channel[0].event.key == key && s.channel[0].event.kind != Deleted && s.channel[0].event.payload.uid == uid
  }

  ghost predicate BringsAt(steps: seq<Step>, n: int, key: Key, uid: nat) {
    0 <= n < |steps| && Execute(steps[..n]).Some? && Brings(Execute(steps[..n]).value, steps[n], key, uid)
  }

  ghost predicate QuietAfter(steps: seq<Step>, n: int, key: Key) {
    forall k :: 0 <= k < |steps| && n < k ==> !Commits(steps[k], key)
  }

  /** An event about the object was received after the last commit of the key. */
  ghost predicate CaughtUp(steps: seq<Step>, key: Key, uid: nat) {
    exists n :: BringsAt(steps, n, key, uid) && QuietAfter(steps, n, key)
  }

  /** The client was told of the key, and last not of its deletion. */
  ghost predicate ToldOf(s: State, key: Key) {
    var told := Trace(s.delivered, key);
    told != [] && told[|told| - 1].kind != Deleted
  }

  // --- One step further ------------------------------------------------------------------

  /** What holds of a point in a run holds of it in a longer one. */
  lemma BringsEarlier(steps: seq<Step>, n: int, key: Key, uid: nat)
    requires steps != [] && n < |steps| - 1
    ensures BringsAt(steps, n, key, uid) <==> BringsAt(steps[..|steps| - 1], n, key, uid)
  {
    if 0 <= n { assert steps[..|steps| - 1][..n] == steps[..n]; }
  }

  lemma QuietStep(steps: seq<Step>, n: int, key: Key)
    requires steps != [] && n < |steps| - 1
    ensures QuietAfter(steps, n, key) <==>
        QuietAfter(steps[..|steps| - 1], n, key) && !Commits(steps[|steps| - 1], key)
  {
    var prefix := steps[..|steps| - 1];
    assert forall k :: 0 <= k < |prefix| ==> prefix[k] == steps[k];
  }

  lemma CaughtUpStep(steps: seq<Step>, key: Key, uid: nat)
    requires steps != [] && Execute(steps).Some?
    ensures Execute(steps[..|steps| - 1]).Some?
    ensures var prefix, step := steps[..|steps| - 1], steps[|steps| - 1];
            CaughtUp(steps, key, uid) <==>
            Brings(Execute(prefix).value, step, key, uid) || (CaughtUp(prefix, key, uid) && !Commits(step, key))
  {
    var last := |steps| - 1;
    var prefix, step := steps[..last], steps[last];
    assert BringsAt(steps, last, key, uid) <==> Brings(Execute(prefix).value, step, key, uid);
    assert QuietAfter(steps, last, key);
    forall n | n < last
      ensures BringsAt(steps, n, key, uid) <==> BringsAt(prefix, n, key, uid)
      ensures QuietAfter(steps, n, key) <==> QuietAfter(prefix, n, key) && !Commits(step, key)
    {
      BringsEarlier(steps, n, key, uid);
      QuietStep(steps, n, key);
    }
    BringsInside(steps, key, uid);
    BringsInside(prefix, key, uid);
    hide Execute, Brings, Commits, BringsAt, QuietAfter;
  }

  lemma BringsInside(steps: seq<Step>, key: Key, uid: nat)
    ensures forall n :: BringsAt(steps, n, key, uid) ==> n < |steps|
  {
  }

  // --- The commits of one object are consecutive ----------------------------------------------

  /** From the first mark of the object on there is no other, and no deletion. */
  ghost predicate Settled(marks: seq<Mark>, uid: nat) {
    forall i, j :: 0 <= i <= j < |marks| && marks[i].uid == uid ==> marks[j].uid == uid && marks[j].kind != Deleted
  }

  ghost predicate MarksOk(s: State, key: Key) {
    && (forall i :: 0 <= i < |Trace(s.commits, key)| ==> Trace(s.commits, key)[i].uid in s.uids)
    && (key in s.db ==> Settled(Trace(s.commits, key), s.db[key].uid) && s.db[key].uid in s.uids)
  }

  lemma CommitMarks(s: State, e: Event, t: State, key: Key)
    requires MarksOk(s, key) && t == Commit(s, e).(uids := t.uids) && s.uids <= t.uids && e.payload.uid in t.uids
    requires e.kind != Deleted ==>
               if e.key in s.db then e.payload.uid == s.db[e.key].uid else e.payload.uid !in s.uids
    ensures MarksOk(t, key)
  {
    hide Trace;
    TraceConcat(s.commits, [e], key);
    TraceOne(e, key);
  }

  lemma StepMarks(s: State, step: Step, key: Key)
    requires MarksOk(s, key) && Enabled(s, step) && forall k :: k in s.db ==> s.db[k].uid in s.uids
    ensures MarksOk(Apply(s, step), key)
  {
    match step
    case Create(k, uid, light, heavy) =>
      CommitMarks(s, Event(Added, k, Object(uid, s.version + 1, light, heavy)), Apply(s, step), key);
    case Update(k, light, heavy) =>
      CommitMarks(s, Event(Modified, k, Object(s.db[k].uid, s.version + 1, light, heavy)), Apply(s, step), key);
    case Delete(k) => CommitMarks(s, Event(Deleted, k, s.db[k]), Apply(s, step), key);
    case Skip =>
    case Publish(_) =>
    case Receive(_) =>
  }

  lemma {:induction false} RunMarks(steps: seq<Step>, key: Key)
    requires Execute(steps).Some?
    ensures MarksOk(Execute(steps).value, key)
  {
    if steps == [] {
      assert Trace([], key) == [];
    } else {
      var prefix, step := steps[..|steps| - 1], steps[|steps| - 1];
      RunMarks(prefix, key);
      RunVersions(prefix);
      var s := Execute(prefix).value;
      forall k | k in s.db ensures s.db[k].uid in s.uids { HeldUid(s, k); }
      StepMarks(s, step, key);
    }
  }

  // --- What has been seen ---------------------------------------------------------------------

  ghost predicate Seen(s: State, key: Key, uid: nat) {
    exists i :: 0 <= i < |Trace(s.seen, key)| && Trace(s.seen, key)[i].uid == uid
  }

  lemma StepSeen(s: State, step: Step, key: Key, uid: nat)
    requires Enabled(s, step) && (Seen(s, key, uid) || Brings(s, step, key, uid))
    ensures Seen(Apply(s, step), key, uid)
  {
    hide Trace, Rehydrated, Observed;
    var t := Apply(s, step);
    if step.Receive? {
      var e := s.channel[0].event;
      TraceConcat(s.seen, [e], key);
      TraceOne(e, key);
      var before, after := Trace(s.seen, key), Trace(t.seen, key);
      if Brings(s, step, key, uid) { assert after[|before|].uid == uid; }
      if i :| 0 <= i < |before| && before[i].uid == uid { assert after[i].uid == uid; }
    } else {
      assert t.seen == s.seen;
    }
  }

  lemma {:induction false} CaughtUpSeen(steps: seq<Step>, key: Key, uid: nat)
    requires Execute(steps).Some? && CaughtUp(steps, key, uid)
    ensures Seen(Execute(steps).value, key, uid)
  {
    if steps != [] {
      var prefix, step := steps[..|steps| - 1], steps[|steps| - 1];
      CaughtUpStep(steps, key, uid);
      hide Apply, Enabled, CaughtUp, Seen, Brings;
      var s := Execute(prefix).value;
      if CaughtUp(prefix, key, uid) { CaughtUpSeen(prefix, key, uid); }
      StepSeen(s, step, key, uid);
    }
  }

  /** Once an event about the stored object was seen, the next one of the key is about
      it as well. */
  lemma NextIsOfObject(s: State, key: Key)
    requires SequenceOk(s, key) && MarksOk(s, key) && key in s.db && Seen(s, key, s.db[key].uid)
    requires s.channel != [] && s.channel[0].event.key == key
    ensures s.channel[0].event.payload.uid == s.db[key].uid && s.channel[0].event.kind != Deleted
  {
    hide Trace, Events;
    var seen, commits := Trace(s.seen, key), Trace(s.commits, key);
    var e := s.channel[0].event;
    PendingHead(s, key);
    TraceOne(e, key);
    assert commits[|seen|] == Mark(e.kind, e.payload.uid);
    var i :| 0 <= i < |seen| && seen[i].uid == s.db[key].uid;
    assert commits[i] == seen[i];
  }

  // --- The view -------------------------------------------------------------------------------

  ghost predicate Exact(steps: seq<Step>, key: Key)
    requires Execute(steps).Some?
  {
    var s := Execute(steps).value;
    key in s.db ==> (Lookup(s.view, key) == Some(s.db[key]) <==> CaughtUp(steps, key, s.db[key].uid))
  }

  /** What the client has is no newer than the last version drawn. */
  lemma ViewVersion(s: State, key: Key)
    requires VersionsOk(s) && key in s.view
    ensures s.view[key].version <= s.version
  {
    assert Known(s, key, s.view[key]);
    var h :| Held(s, key, h) && (s.view[key] == h || s.view[key] == h.(heavy := ""));
    var c :| c in s.commits && c.kind != Deleted && c.key == key && c.payload == h;
  }

  /** A commit leaves the client behind. */
  lemma CommitExact(s: State, step: Step, key: Key)
    requires VersionsOk(s) && Enabled(s, step) && Commits(step, key)
    ensures var t := Apply(s, step); key in t.db ==> Lookup(t.view, key) != Some(t.db[key])
  {
    if key in s.view { ViewVersion(s, key); }
  }

  /** A reception brings the stored object if it is about it. */
  lemma ReceiveExact(s: State, ok: bool, key: Key)
    requires s.channel != [] && key in s.db
    requires Lookup(s.view, key) == Some(s.db[key]) && s.channel[0].event.key == key ==>
               s.channel[0].event.payload.uid == s.db[key].uid && s.channel[0].event.kind != Deleted
    ensures var t := Apply(s, Receive(ok));
            t.db == s.db &&
            (Lookup(t.view, key) == Some(t.db[key]) <==>
             Brings(s, Receive(ok), key, s.db[key].uid) || Lookup(s.view, key) == Some(s.db[key]))
  {
  }

  lemma {:induction false} RunExact(steps: seq<Step>, key: Key)
    requires Execute(steps).Some?
    ensures Exact(steps, key)
  {
    if steps == [] {
    } else {
      var prefix, step := steps[..|steps| - 1], steps[|steps| - 1];
      RunExact(prefix, key);
      StepExact(steps, key);
    }
  }

  lemma StepExact(steps: seq<Step>, key: Key)
    requires steps != [] && Execute(steps).Some? && Exact(steps[..|steps| - 1], key)
    ensures Exact(steps, key)
  {
    hide CaughtUp, VersionsOk, MarksOk, SequenceOk, StoredOk, ViewOk, Seen;
    var prefix, step := steps[..|steps| - 1], steps[|steps| - 1];
    var s, t := Execute(prefix).value, Execute(steps).value;
    assert t == Apply(s, step);
    hide Execute;
    RunVersions(prefix);
    if key in t.db {
      CaughtUpStep(steps, key, t.db[key].uid);
      if Commits(step, key) {
        CommitExact(s, step, key);
      } else if step.Receive? {
        ReceivesExact(prefix, step.ok, key);
      }
    }
  }

  lemma ReceivesExact(prefix: seq<Step>, ok: bool, key: Key)
    requires Execute(prefix).Some? && Exact(prefix, key) && key in Execute(prefix).value.db
    requires Execute(prefix).value.channel != []
    ensures var s := Execute(prefix).value;
            var t := Apply(s, Receive(ok));
            t.db == s.db &&
            (Lookup(t.view, key) == Some(t.db[key]) <==>
             Brings(s, Receive(ok), key, s.db[key].uid) || CaughtUp(prefix, key, s.db[key].uid))
  {
    hide Execute, MarksOk, SequenceOk, StoredOk, ViewOk, Seen, CaughtUp, Apply, Brings;
    var s := Execute(prefix).value;
    if CaughtUp(prefix, key, s.db[key].uid) && s.channel[0].event.key == key {
      CaughtUpSeen(prefix, key, s.db[key].uid);
      RunMarks(prefix, key);
      RunKeepsKey(prefix, key);
      NextIsOfObject(s, key);
    }
    ReceiveExact(s, ok, key);
  }

  lemma ToldStep(s: State, step: Step, key: Key)
    requires Enabled(s, step) && (key in s.view <==> ToldOf(s, key))
    ensures var t := Apply(s, step); key in t.view <==> ToldOf(t, key)
  {
    hide Trace, Rehydrated;
    var t := Apply(s, step);
    if t.delivered != s.delivered {
      var out := t.delivered[|s.delivered|];
      assert t.delivered == s.delivered + [out];
      TraceConcat(s.delivered, [out], key);
      TraceOne(out, key);
    }
  }

  lemma {:induction false} RunTold(steps: seq<Step>, key: Key)
    requires Execute(steps).Some?
    ensures var s := Execute(steps).value; key in s.view <==> ToldOf(s, key)
  {
    if steps != [] {
      var prefix, step := steps[..|steps| - 1], steps[|steps| - 1];
      RunTold(prefix, key);
      hide Apply, Enabled, ToldOf;
      ToldStep(Execute(prefix).value, step, key);
    }
  }

  /** At every point of every run, whatever was missed or is still under way: a stored
      key is viewed as it is stored if and only if an event about its object was
      received after its last commit, and a key that is not stored is not viewed if
      and only if the client was last told of its deletion, or never of it. */
  lemma ViewExactIff(steps: seq<Step>, key: Key)
    requires Execute(steps).Some?
    ensures var s := Execute(steps).value;
            Lookup(s.view, key) == Lookup(s.db, key) <==>
            if key in s.db then CaughtUp(steps, key, s.db[key].uid) else !ToldOf(s, key)
  {
    hide Execute, CaughtUp, ToldOf;
    RunExact(steps, key);
    RunTold(steps, key);
  }

  // --- Missed events ----------------------------------------------------------------------------

  /** The only event of an object is not published. */
  const BEHIND: seq<Step> := [Create(KEY, 1, "", ""), Publish(false), Receive(true)]

  /** An object is created and updated, and only the first event is published. */
  const AHEAD: seq<Step> := [Create(KEY, 1, "", ""), Update(KEY, "", ""), Publish(true), Publish(false),
                             Receive(true), Receive(true)]

  /** With the latest event of the key missed, its object is unknown to the client after
      the first run and viewed as it is stored after the second. */
  lemma LatestMissed()
    ensures Execute(BEHIND).Some? && Execute(AHEAD).Some?
    ensures var s, t := Execute(BEHIND).value, Execute(AHEAD).value;
            && KEY in s.stale && Pending(s) == [] && KEY in s.db && KEY !in s.view
            && KEY in t.stale && Pending(t) == [] && KEY in t.db && Lookup(t.view, KEY) == Some(t.db[KEY])
  {
    MissedBehind();
    MissedAhead();
  }

  lemma MissedBehind()
    ensures Execute(BEHIND).Some?
    ensures var s := Execute(BEHIND).value;
            KEY in s.stale && Pending(s) == [] && KEY in s.db && KEY !in s.view
  {
    assert BEHIND[..0] == [] && BEHIND[..3] == BEHIND;
    Unfold(BEHIND, 1);
    Unfold(BEHIND, 2);
    Unfold(BEHIND, 3);
  }

  lemma AheadCommitted() returns (s: State)
    ensures Execute(AHEAD[..2]) == Some(s) && s.channel == [] && KEY in s.db && s.db[KEY] == Object(1, 2, "", "")
    ensures s.unsent == [Event(Added, KEY, Object(1, 1, "", "")), Event(Modified, KEY, Object(1, 2, "", ""))]
  {
    assert AHEAD[..0] == [];
    Unfold(AHEAD, 1);
    Unfold(AHEAD, 2);
    s := Execute(AHEAD[..2]).value;
  }

  lemma AheadPublished() returns (s: State)
    ensures Execute(AHEAD[..4]) == Some(s) && s.unsent == [] && KEY in s.db && s.db[KEY] == Object(1, 2, "", "")
    ensures s.channel == [Message(Event(Added, KEY, Object(1, 1, "", "")), false),
                          Message(Event(Modified, KEY, Object(1, 2, "", "")), true)]
  {
    hide Execute, Rehydrated, Observed, Commit;
    s := AheadCommitted();
    Unfold(AHEAD, 3);
    Unfold(AHEAD, 4);
    s := Execute(AHEAD[..4]).value;
  }

  lemma MissedAhead()
    ensures Execute(AHEAD).Some?
    ensures var t := Execute(AHEAD).value;
            KEY in t.stale && Pending(t) == [] && KEY in t.db && Lookup(t.view, KEY) == Some(t.db[KEY])
  {
    hide Execute, Commit;
    var s := AheadPublished();
    Unfold(AHEAD, 5);
    Unfold(AHEAD, 6);
    assert AHEAD[..6] == AHEAD;
  }
}
