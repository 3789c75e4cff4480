/** What a client's view is made of, and how its versions move. */
module WatchVersions {
  import opened Ordering
  import opened WatchFanout

  /** An object the store held under a key at some time. */
  ghost predicate Held(s: State, key: Key, o: Object) {
    exists c :: c in s.commits && c.kind != Deleted && c.key == key && c.payload == o
  }

  /** A held object, or what was left of it by the publisher. */
  ghost predicate Known(s: State, key: Key, o: Object) {
    exists h :: Held(s, key, h) && (o == h || o == h.(heavy := ""))
  }

  ghost predicate StoreOk(s: State) {
    && (forall key :: key in s.db ==> Held(s, key, s.db[key]))
    && (forall c :: c in s.commits ==>
          Held(s, c.key, c.payload) && c.payload.uid in s.uids && c.payload.version <= s.version)
    && (forall c :: c in s.commits && c.key in s.db && s.db[c.key].uid == c.payload.uid ==>
                      c.payload.version <= s.db[c.key].version)
  }

  ghost predicate QueuesOk(s: State) {
    && (forall e :: e in s.unsent ==> e in s.commits)
    && (forall m :: m in s.channel ==> Sent(s, m.event))
  }

  /** The stripped event of a commit. */
  ghost predicate Sent(s: State, e: Event) {
    exists c :: c in s.commits && e == c.(payload := Strip(c.payload))
  }

  /** A delivered event carries the object of its commit, as it was then or later. */
  ghost predicate Traced(s: State, d: Event) {
    && Known(s, d.key, d.payload)
    && exists c :: c in s.commits && c.kind == d.kind && c.key == d.key && c.payload.uid == d.payload.uid
                   && c.payload.version <= d.payload.version
  }

  ghost predicate ClientOk(s: State) {
    && (forall d :: d in s.delivered ==> Traced(s, d))
    && (forall key :: key in s.view ==> Known(s, key, s.view[key]))
  }

  ghost predicate VersionsOk(s: State) { StoreOk(s) && QueuesOk(s) && ClientOk(s) }

  // --- Commits ---------------------------------------------------------------------------

  lemma HeldGrows(s: State, t: State, key: Key, o: Object)
    requires s.commits <= t.commits && Held(s, key, o)
    ensures Held(t, key, o)
  {
    var c :| c in s.commits && c.kind != Deleted && c.key == key && c.payload == o;
    assert c in t.commits;
  }

  lemma KnownGrows(s: State, t: State, key: Key, o: Object)
    requires s.commits <= t.commits && Known(s, key, o)
    ensures Known(t, key, o)
  {
    var h :| Held(s, key, h) && (o == h || o == h.(heavy := ""));
    HeldGrows(s, t, key, h);
  }

  lemma TracedGrows(s: State, t: State, d: Event)
    requires s.commits <= t.commits && Traced(s, d)
    ensures Traced(t, d)
  {
    KnownGrows(s, t, d.key, d.payload);
    var c :| c in s.commits && c.kind == d.kind && c.key == d.key && c.payload.uid == d.payload.uid
             && c.payload.version <= d.payload.version;
    assert c in t.commits;
  }

  lemma ClientGrows(s: State, t: State)
    requires s.commits <= t.commits && ClientOk(s) && t.delivered == s.delivered && t.view == s.view
    ensures ClientOk(t)
  {
    hide Traced, Known;
    forall d | d in t.delivered ensures Traced(t, d) { TracedGrows(s, t, d); }
    forall key | key in t.view ensures Known(t, key, t.view[key]) { KnownGrows(s, t, key, t.view[key]); }
  }

  /** A commit of a new or current object, or of the removal of the current one. */
  lemma CommitKeeps(s: State, e: Event, t: State)
    requires VersionsOk(s) && t == Commit(s, e).(uids := t.uids) && s.uids <= t.uids && e.payload.uid in t.uids
    requires e.kind == Deleted ==> e.key in s.db && e.payload == s.db[e.key]
    requires e.kind != Deleted ==> e.payload.version == s.version + 1
    ensures VersionsOk(t)
  {
    CommitStore(s, e, t);
    CommitQueues(s, e, t);
    hide Known, Traced;
    ClientGrows(s, t);
  }

  lemma CommitQueues(s: State, e: Event, t: State)
    requires QueuesOk(s) && t == Commit(s, e).(uids := t.uids)
    ensures QueuesOk(t)
  {
    assert e in t.commits && forall c :: c in s.commits ==> c in t.commits;
    forall m | m in t.channel ensures Sent(t, m.event) {
      assert Sent(s, m.event);
      var c :| c in s.commits && m.event == c.(payload := Strip(c.payload));
      assert c in t.commits;
    }
  }

  lemma CommitStore(s: State, e: Event, t: State)
    requires StoreOk(s) && t == Commit(s, e).(uids := t.uids) && s.uids <= t.uids && e.payload.uid in t.uids
    requires e.kind == Deleted ==> e.key in s.db && e.payload == s.db[e.key]
    requires e.kind != Deleted ==> e.payload.version == s.version + 1
    ensures StoreOk(t)
  {
    assert e in t.commits && forall c :: c in t.commits ==> c in s.commits || c == e;
    assert e.kind != Deleted ==> Held(t, e.key, e.payload);
    forall key | key in t.db ensures Held(t, key, t.db[key]) {
      if key != e.key || e.kind == Deleted { HeldGrows(s, t, key, t.db[key]); }
    }
    forall c | c in t.commits ensures Held(t, c.key, c.payload) {
      if c in s.commits { HeldGrows(s, t, c.key, c.payload); }
      if c == e && e.kind == Deleted { HeldGrows(s, t, e.key, s.db[e.key]); }
    }
  }

  // --- The queues and the client -------------------------------------------------------------

  lemma SameCommits(s: State, t: State, e: Event)
    requires t.commits == s.commits
    ensures Sent(s, e) <==> Sent(t, e)
  {
  }

  lemma PublishKeeps(s: State, ok: bool)
    requires VersionsOk(s) && s.unsent != []
    ensures VersionsOk(Apply(s, Publish(ok)))
  {
    hide Traced, Known;
    var t := Apply(s, Publish(ok));
    ClientGrows(s, t);
    SameStore(s, t);
    var e := s.unsent[0];
    assert e in s.commits;
    assert Sent(t, e.(payload := Strip(e.payload)));
    forall m | m in t.channel ensures Sent(t, m.event) {
      if m in s.channel { SameCommits(s, t, m.event); }
    }
  }

  lemma SameStore(s: State, t: State)
    requires StoreOk(s) && t.db == s.db && t.commits == s.commits && t.uids == s.uids && s.version <= t.version
    ensures StoreOk(t)
  {
    forall key | key in t.db ensures Held(t, key, t.db[key]) { HeldGrows(s, t, key, t.db[key]); }
    forall c | c in t.commits ensures Held(t, c.key, c.payload) { HeldGrows(s, t, c.key, c.payload); }
  }

  lemma SentKnown(s: State, e: Event) returns (c: Event)
    requires StoreOk(s) && Sent(s, e)
    ensures c in s.commits && c.kind == e.kind && c.key == e.key
    ensures c.payload.uid == e.payload.uid && c.payload.version == e.payload.version && Known(s, e.key, e.payload)
  {
    c :| c in s.commits && e == c.(payload := Strip(c.payload));
    assert Held(s, c.key, c.payload);
  }

  /** Rehydration yields the event's own object or a later one of the same UID. */
  lemma RehydratedTraced(s: State, e: Event)
    requires StoreOk(s) && Sent(s, e)
    ensures Traced(s, e.(payload := Rehydrated(s.db, e)))
  {
    var c := SentKnown(s, e);
    var o := Rehydrated(s.db, e);
    if o != e.payload { assert Held(s, e.key, o); }
  }

  lemma ReceiveQueues(s: State, ok: bool)
    requires QueuesOk(s) && s.channel != []
    ensures QueuesOk(Apply(s, Receive(ok))) && Sent(s, s.channel[0].event)
  {
    hide Sent, Rehydrated, Observed;
    assert s.channel[0] in s.channel;
    var t := Apply(s, Receive(ok));
    forall m | m in t.channel ensures Sent(t, m.event) { SameCommits(s, t, m.event); }
  }

  lemma ReceiveClient(s: State, ok: bool)
    requires ClientOk(s) && s.channel != []
    requires var e := s.channel[0].event; Traced(s, e.(payload := Rehydrated(s.db, e)))
    ensures ClientOk(Apply(s, Receive(ok)))
  {
    hide Traced, Known, Rehydrated;
    var t := Apply(s, Receive(ok));
    var e := s.channel[0].event;
    var out := e.(payload := Rehydrated(s.db, e));
    forall d | d in t.delivered ensures Traced(t, d) { TracedGrows(s, t, d); }
    TracedKnown(s, out);
    forall key | key in t.view ensures Known(t, key, t.view[key]) { KnownGrows(s, t, key, t.view[key]); }
  }

  lemma ReceiveKeeps(s: State, ok: bool)
    requires VersionsOk(s) && s.channel != []
    ensures VersionsOk(Apply(s, Receive(ok)))
  {
    hide StoreOk, QueuesOk, ClientOk, Sent, Traced, Rehydrated, Observed;
    ReceiveQueues(s, ok);
    RehydratedTraced(s, s.channel[0].event);
    SameStore(s, Apply(s, Receive(ok)));
    ReceiveClient(s, ok);
  }

  lemma TracedKnown(s: State, d: Event)
    requires Traced(s, d)
    ensures Known(s, d.key, d.payload)
  {
  }

  lemma StepKeeps(s: State, step: Step)
    requires VersionsOk(s) && Enabled(s, step)
    ensures VersionsOk(Apply(s, step))
  {
    match step
    case Create(key, uid, light, heavy) =>
      CommitKeeps(s, Event(Added, key, Object(uid, s.version + 1, light, heavy)), Apply(s, step));
    case Update(key, light, heavy) =>
      HeldUid(s, key);
      CommitKeeps(s, Event(Modified, key, Object(s.db[key].uid, s.version + 1, light, heavy)), Apply(s, step));
    case Delete(key) =>
      HeldUid(s, key);
      CommitKeeps(s, Event(Deleted, key, s.db[key]), Apply(s, step));
    case Skip =>
      var t := Apply(s, step);
      SameStore(s, t);
      ClientGrows(s, t);
      forall m | m in t.channel ensures Sent(t, m.event) { SameCommits(s, t, m.event); }
    case Publish(ok) => PublishKeeps(s, ok);
    case Receive(ok) => ReceiveKeeps(s, ok);
  }

  lemma HeldUid(s: State, key: Key)
    requires StoreOk(s) && key in s.db
    ensures s.db[key].uid in s.uids
  {
    assert Held(s, key, s.db[key]);
  }

  lemma {:induction false} RunVersions(steps: seq<Step>)
    requires Execute(steps).Some?
    ensures VersionsOk(Execute(steps).value)
  {
    if steps != [] {
      hide VersionsOk, Apply, Enabled;
      var prefix, step := steps[..|steps| - 1], steps[|steps| - 1];
      RunVersions(prefix);
      StepKeeps(Execute(prefix).value, step);
    }
  }

  /** In every run, whatever was missed: a delivered event carries an object the store
      held under its key, whole or stripped, with the UID of its own commit and at
      least its version; and the client's view holds nothing else. */
  lemma NothingInvented(steps: seq<Step>, d: Event)
    requires Execute(steps).Some? && d in Execute(steps).value.delivered
    ensures Traced(Execute(steps).value, d)
  {
    hide Traced, Execute;
    RunVersions(steps);
  }

  /** While the store holds the object an event is about, receiving the event gives
      the client the stored object, which is no older than what it had. */
  lemma NotOlderWhileStored(steps: seq<Step>)
    requires Execute(steps).Some?
    requires var s := Execute(steps).value;
             && s.channel != [] && !s.channel[0].lost && s.channel[0].event.kind != Deleted
             && var e := s.channel[0].event; e.key in s.db && s.db[e.key].uid == e.payload.uid
    ensures var s := Execute(steps).value;
            var key, t := s.channel[0].event.key, Apply(s, Receive(true));
            && key in t.view && t.view[key] == s.db[key]
            && (key in s.view && s.view[key].uid == s.db[key].uid ==> s.view[key].version <= t.view[key].version)
  {
    hide Execute;
    RunVersions(steps);
    var s := Execute(steps).value;
    var key := s.channel[0].event.key;
    if key in s.view && s.view[key].uid == s.db[key].uid {
      assert Known(s, key, s.view[key]);
      var h :| Held(s, key, h) && (s.view[key] == h || s.view[key] == h.(heavy := ""));
      var c :| c in s.commits && c.kind != Deleted && c.key == key && c.payload == h;
    }
  }

  /** Receiving an event about an object the client has, as the same object, makes
      the client's view older if and only if the store no longer holds that object
      and the event carries an older version. */
  lemma OlderExactlyWhenGone(steps: seq<Step>)
    requires Execute(steps).Some?
    requires var s := Execute(steps).value;
             && s.channel != [] && !s.channel[0].lost && s.channel[0].event.kind != Deleted
             && var e := s.channel[0].event; e.key in s.view && s.view[e.key].uid == e.payload.uid
    ensures var s := Execute(steps).value;
            var e, t := s.channel[0].event, Apply(s, Receive(true));
            && e.key in t.view && t.view[e.key].uid == e.payload.uid
            && (t.view[e.key].version < s.view[e.key].version <==>
                  && !(e.key in s.db && s.db[e.key].uid == e.payload.uid)
                  && e.payload.version < s.view[e.key].version)
  {
    hide Execute;
    var s := Execute(steps).value;
    var e := s.channel[0].event;
    if e.key in s.db && s.db[e.key].uid == e.payload.uid { NotOlderWhileStored(steps); }
  }

  // --- Stale updates ---------------------------------------------------------------------------

  ghost predicate StoredAt(steps: seq<Step>, key: Key, version: nat) {
    Execute(steps).Some? && key in Execute(steps).value.db && Execute(steps).value.db[key].version == version
  }

  /** A version that was drawn and is not the stored one is never that of the key's
      object again, in any continuation, also if the object is deleted and created
      anew; one older than the stored one stays older. */
  lemma {:induction false} StaleStaysStale(steps: seq<Step>, more: seq<Step>, key: Key, version: nat)
    requires Execute(steps).Some? && Execute(steps + more).Some? && key in Execute(steps).value.db
    requires version <= Execute(steps).value.version && version != Execute(steps).value.db[key].version
    ensures var s, t := Execute(steps).value, Execute(steps + more).value;
            && version <= t.version
            && (key in t.db ==> t.db[key].version != version)
            && (key in t.db && version < s.db[key].version ==> version < t.db[key].version)
    decreases |more|
  {
    if more == [] {
      assert steps + more == steps;
    } else {
      var front := more[..|more| - 1];
      assert (steps + more)[..|steps + more| - 1] == steps + front;
      StaleStaysStale(steps, front, key, version);
      StepVersion(Execute(steps + front).value, more[|more| - 1], key);
      hide Apply, Enabled;
    }
  }

  lemma StepVersion(s: State, step: Step, key: Key)
    requires Enabled(s, step)
    ensures var t := Apply(s, step);
            && s.version <= t.version
            && (key in t.db ==> t.db[key].version == s.version + 1 || (key in s.db && t.db[key] == s.db[key]))
  {
  }

  /** Versions drawn for nothing. */
  lemma SkipDraws(s: State)
    ensures Enabled(s, Skip) && Apply(s, Skip) == s.(version := s.version + 1)
  {
  }

  lemma {:induction false} Skipped(steps: seq<Step>, n: nat)
    requires Execute(steps).Some?
    ensures var s := Execute(steps).value;
            Execute(steps + seq(n, _ => Skip)) == Some(s.(version := s.version + n))
  {
    var more := seq(n, _ => Skip);
    if n == 0 {
      assert steps + more == steps;
    } else {
      Skipped(steps, n - 1);
      var s, less := Execute(steps).value, steps + seq(n - 1, _ => Skip);
      assert (steps + more)[..|steps + more| - 1] == less && (steps + more)[|steps + more| - 1] == Skip;
      SkipDraws(s.(version := s.version + n - 1));
      hide Enabled, Apply;
    }
  }

  lemma FutureVersion(steps: seq<Step>, key: Key, version: nat) returns (more: seq<Step>)
    requires Execute(steps).Some? && key in Execute(steps).value.db && Execute(steps).value.version < version
    ensures StoredAt(steps + more, key, version)
  {
    var n := version - Execute(steps).value.version - 1;
    Skipped(steps, n);
    var skips := steps + seq(n, _ => Skip);
    more := seq(n, _ => Skip) + [Update(key, "", "")];
    assert (steps + more)[..|steps + more| - 1] == skips;
    assert (steps + more)[|steps + more| - 1] == Update(key, "", "");
  }

  /** While there is an object, some continuation stores it at a version if and only
      if it is at that version now or the version has not been drawn yet. */
  lemma VersionReachable(steps: seq<Step>, key: Key, version: nat)
    requires Execute(steps).Some? && key in Execute(steps).value.db
    ensures var s := Execute(steps).value;
            (exists more :: StoredAt(steps + more, key, version)) <==>
            version == s.db[key].version || s.version < version
  {
    var s := Execute(steps).value;
    if version == s.db[key].version {
      assert steps + [] == steps;
      assert StoredAt(steps + [], key, version);
    } else if s.version < version {
      var more := FutureVersion(steps, key, version);
    } else if more :| StoredAt(steps + more, key, version) {
      StaleStaysStale(steps, more, key, version);
      assert false;
    }
  }

  /** The caller's function of an update that names a version: the lock is lost exactly
      when another version is read. */
  ghost predicate AsksFor(tryUpdate: (nat, Object) -> Attempt, version: nat) {
    forall n: nat, o :: tryUpdate(n, o).LockLost? <==> o.version != version
  }

  /** The object an attempt finds does not lose it the lock. */
  ghost predicate Answers(steps: seq<Step>, key: Key, tryUpdate: (nat, Object) -> Attempt, n: nat) {
    && Execute(steps).Some? && key in Execute(steps).value.db
    && !tryUpdate(n, Execute(steps).value.db[key]).LockLost?
  }

  /** An update that asks for a version already drawn is ever answered by an object,
      however often it is tried and whatever is committed in between, if and only if
      that version is the stored one. */
  lemma StaleNeverAnswered(steps: seq<Step>, key: Key, version: nat, tryUpdate: (nat, Object) -> Attempt)
    requires Execute(steps).Some? && key in Execute(steps).value.db && AsksFor(tryUpdate, version)
    requires version <= Execute(steps).value.version
    ensures (exists more, n :: Answers(steps + more, key, tryUpdate, n)) <==>
        version == Execute(steps).value.db[key].version
  {
    hide Execute;
    VersionReachable(steps, key, version);
    if more, n :| Answers(steps + more, key, tryUpdate, n) {
      assert StoredAt(steps + more, key, version);
    }
    if more :| StoredAt(steps + more, key, version) {
      assert Answers(steps + more, key, tryUpdate, 0);
    }
  }

  // --- A view that goes back -------------------------------------------------------------------

  const KEY: Key := "key"

  function Told(kind: Kind, version: nat): Message { Message(Event(kind, KEY, Object(1, version, "", "")), false) }

  /** Three versions of an object are committed and published, and the first event is
      received, when the object is deleted. */
  const STEPS: seq<Step> := [Create(KEY, 1, "", ""), Update(KEY, "", ""), Update(KEY, "", ""),
                             Publish(true), Publish(true), Publish(true), Receive(true), Delete(KEY)]

  lemma Unfold(steps: seq<Step>, n: nat)
    requires 0 < n <= |steps| && Execute(steps[..n - 1]).Some? && Enabled(Execute(steps[..n - 1]).value, steps[n - 1])
    ensures Execute(steps[..n]) == Some(Apply(Execute(steps[..n - 1]).value, steps[n - 1]))
  {
    assert steps[..n][..n - 1] == steps[..n - 1];
  }

  lemma Committed() returns (s: State)
    ensures Execute(STEPS[..3]) == Some(s) && s.channel == [] && s.view == map[]
    ensures s.db == map[KEY := Object(1, 3, "", "")] && |s.unsent| == 3
    ensures s.unsent[0] == Told(Added, 1).event && s.unsent[1] == Told(Modified, 2).event
    ensures s.unsent[2] == Told(Modified, 3).event
  {
    assert STEPS[..0] == [];
    Unfold(STEPS, 1);
    Unfold(STEPS, 2);
    Unfold(STEPS, 3);
    s := Execute(STEPS[..3]).value;
    assert s.db == map[KEY := Object(1, 3, "", "")];
  }

  lemma AllPublished() returns (s: State)
    ensures Execute(STEPS[..6]) == Some(s) && s.view == map[] && s.db == map[KEY := Object(1, 3, "", "")]
    ensures s.channel == [Told(Added, 1), Told(Modified, 2), Told(Modified, 3)]
  {
    hide Execute, Rehydrated, Observed, Commit;
    s := Committed();
    Unfold(STEPS, 4);
    Unfold(STEPS, 5);
    Unfold(STEPS, 6);
    s := Execute(STEPS[..6]).value;
  }

  /** When the object is gone from the store, the client can be handed an older
      version than it has. */
  lemma ViewGoesBack()
    ensures Execute(STEPS).Some?
    ensures var s := Execute(STEPS).value;
            && Enabled(s, Receive(true)) && KEY in s.view && s.view[KEY].version == 3
            && var t := Apply(s, Receive(true)); KEY in t.view && t.view[KEY].version == 2
  {
    hide Execute;
    var s := AllPublished();
    Unfold(STEPS, 7);
    Unfold(STEPS, 8);
    assert STEPS[..8] == STEPS;
  }

  // --- An update that is never answered -------------------------------------------------------

  const OTHER: Key := "other"

  /** An object is updated once, then another is created. */
  const DRAWN: seq<Step> := [Create(KEY, 1, "", ""), Update(KEY, "", ""), Create(OTHER, 2, "", "")]

  /** Of the three versions drawn, only the second can ever be read again under the
      first key: neither the older one nor the later one, drawn for the other key. */
  lemma NeverAnswered(tryUpdate: (nat, Object) -> Attempt, version: nat)
    requires AsksFor(tryUpdate, version) && version <= 3
    ensures Execute(DRAWN).Some? && KEY in Execute(DRAWN).value.db && Execute(DRAWN).value.version == 3
    ensures (exists more, n :: Answers(DRAWN + more, KEY, tryUpdate, n)) <==> version == 2
  {
    assert DRAWN[..0] == [];
    Unfold(DRAWN, 1);
    Unfold(DRAWN, 2);
    Unfold(DRAWN, 3);
    assert DRAWN[..3] == DRAWN && KEY != OTHER;
    StaleNeverAnswered(DRAWN, KEY, version, tryUpdate);
  }
}
