/** Watch events of the storage: an object is committed, its event is stripped and
    published, and every replica rehydrates the event from the store before it hands
    it to its clients. Publication is in commit order and the subject is FIFO. */
module WatchFanout {
  import opened Ordering

  type Key = string

  /** `heavy` stands for the fields the publisher strips. */
  datatype Object = Object(uid: nat, version: nat, light: string, heavy: string)

  datatype Kind = Added | Modified | Deleted

  datatype Event = Event(kind: Kind, key: Key, payload: Object)

  function Strip(o: Object): Object { o.(heavy := "") }

  function Lookup(m: map<Key, Object>, key: Key): Option<Object> { if key in m then Some(m[key]) else None }

  /** An event on its way to a replica. One whose publication failed is carried
      along as lost, so that it is missed in its turn. */
  datatype Message = Message(event: Event, lost: bool)

  /** `commits` is the history of the store; `unsent` the events whose publication
      is still to come; `channel` the subject; `seen` the events taken from it and
      `delivered` those handed to the client. `dropped` holds the keys of which an
      event was missed, `stale` those of which the latest event seen was missed. */
  datatype State = State(
    db: map<Key, Object>, version: nat, uids: set<nat>, commits: seq<Event>,
    unsent: seq<Event>, channel: seq<Message>,
    view: map<Key, Object>, seen: seq<Event>, delivered: seq<Event>, dropped: set<Key>, stale: set<Key>)

  const INIT := State(map[], 0, {}, [], [], [], map[], [], [], {}, {})

  datatype Step =
    | Create(key: Key, uid: nat, light: string, heavy: string)
    | Update(key: Key, light: string, heavy: string)
    | Delete(key: Key)
    | Skip // a version drawn without a commit
    | Publish(ok: bool)
    | Receive(ok: bool)

  predicate Enabled(s: State, step: Step) {
    match step
    case Create(key, uid, _, _) => key !in s.db && uid !in s.uids
    case Update(key, _, _) => key in s.db
    case Delete(key) => key in s.db
    case Skip => true
    case Publish(_) => s.unsent != []
    case Receive(_) => s.channel != []
  }

  /** An object written or removed, and its event queued for publication; a removal
      draws no version. */
  function Commit(s: State, e: Event): State {
    s.(db := if e.kind == Deleted then s.db - {e.key} else s.db[e.key := e.payload],
       version := if e.kind == Deleted then s.version else s.version + 1,
       commits := s.commits + [e], unsent := s.unsent + [e])
  }

  /** What a replica broadcasts for an event: the payload of a deletion, otherwise
      the stored object as long as it is still the same one. */
  function Rehydrated(db: map<Key, Object>, e: Event): Object {
    if e.kind != Deleted && e.key in db && db[e.key].uid == e.payload.uid then db[e.key] else e.payload
  }

  /** A client's view after one event. */
  function Observed(view: map<Key, Object>, e: Event): map<Key, Object> {
    if e.kind == Deleted then view - {e.key} else view[e.key := e.payload]
  }

  function Apply(s: State, step: Step): State
    requires Enabled(s, step)
  {
    match step
    case Create(key, uid, light, heavy) =>
      Commit(s, Event(Added, key, Object(uid, s.version + 1, light, heavy))).(uids := s.uids + {uid})
    case Update(key, light, heavy) =>
      Commit(s, Event(Modified, key, Object(s.db[key].uid, s.version + 1, light, heavy)))
    case Delete(key) => Commit(s, Event(Deleted, key, s.db[key]))
    case Skip => s.(version := s.version + 1)
    case Publish(ok) =>
      var e := s.unsent[0];
      s.(unsent := s.unsent[1..], channel := s.channel + [Message(e.(payload := Strip(e.payload)), !ok)])
    case Receive(ok) =>
      var m := s.channel[0];
      var e := m.event;
      var t := s.(channel := s.channel[1..], seen := s.seen + [e]);
      if m.lost || !ok then t.(dropped := s.dropped + {e.key}, stale := s.stale + {e.key})
      else
        var out := e.(payload := Rehydrated(s.db, e));
        t.(view := Observed(s.view, out), delivered := s.delivered + [out], stale := s.stale - {e.key})
  }

  function Execute(steps: seq<Step>): Option<State> {
    if steps == [] then Some(INIT)
    else
      var s := Execute(steps[..|steps| - 1]);
      if s.Some? && Enabled(s.value, steps[|steps| - 1]) then Some(Apply(s.value, steps[|steps| - 1])) else None
  }

  // --- The events of one key -----------------------------------------------------------

  /** What a client can tell of an event besides the object's contents. */
  datatype Mark = Mark(kind: Kind, uid: nat)

  function Trace(events: seq<Event>, key: Key): seq<Mark> {
    if events == [] then []
    else
      var rest := Trace(events[..|events| - 1], key);
      var e := events[|events| - 1];
      if e.key == key then rest + [Mark(e.kind, e.payload.uid)] else rest
  }

  function Events(messages: seq<Message>): seq<Event> {
    if messages == [] then [] else Events(messages[..|messages| - 1]) + [messages[|messages| - 1].event]
  }

  function Pending(s: State): seq<Event> { Events(s.channel) + s.unsent }

  lemma {:induction false} TraceConcat(a: seq<Event>, b: seq<Event>, key: Key)
    ensures Trace(a + b, key) == Trace(a, key) + Trace(b, key)
  {
    if b == [] {
      assert a + b == a;
    } else {
      var front := b[..|b| - 1];
      TraceConcat(a, front, key);
      assert (a + b)[..|a + b| - 1] == a + front;
    }
  }

  lemma TraceOne(e: Event, key: Key)
    ensures Trace([e], key) == if e.key == key then [Mark(e.kind, e.payload.uid)] else []
  {
    assert [e][..0] == [];
  }

  lemma {:induction false} EventsHead(messages: seq<Message>)
    requires messages != []
    ensures Events(messages) == [messages[0].event] + Events(messages[1..])
  {
    if |messages| > 1 {
      var front := messages[..|messages| - 1];
      EventsHead(front);
      assert messages[1..][..|messages| - 2] == front[1..];
    } else {
      assert messages[..0] == [] && messages[1..] == [];
    }
  }

  lemma EventsAppend(messages: seq<Message>, m: Message)
    ensures Events(messages + [m]) == Events(messages) + [m.event]
  {
    assert (messages + [m])[..|messages|] == messages;
  }

  // --- Invariants -----------------------------------------------------------------------

  /** The last event of a key tells whether the store holds it, and which object. */
  ghost predicate Tells(last: Mark, stored: Option<Object>) {
    if last.kind == Deleted then stored == None else stored.Some? && stored.value.uid == last.uid
  }

  ghost predicate SequenceOk(s: State, key: Key) {
    && Trace(s.seen, key) + Trace(Pending(s), key) == Trace(s.commits, key)
    && (key !in s.dropped ==> Trace(s.delivered, key) == Trace(s.seen, key))
    && (key in s.stale ==> key in s.dropped)
  }

  ghost predicate StoredOk(s: State, key: Key) {
    var commits := Trace(s.commits, key);
    if commits == [] then key !in s.db else Tells(commits[|commits| - 1], Lookup(s.db, key))
  }

  ghost predicate ViewOk(s: State, key: Key) {
    Trace(Pending(s), key) == [] && key !in s.stale ==> Lookup(s.view, key) == Lookup(s.db, key)
  }

  ghost predicate KeyOk(s: State, key: Key) { SequenceOk(s, key) && StoredOk(s, key) && ViewOk(s, key) }

  lemma CommitKeepsKey(s: State, e: Event, key: Key)
    requires KeyOk(s, key)
    ensures KeyOk(Commit(s, e), key)
  {
    hide Trace, Events;
    var t := Commit(s, e);
    TraceConcat(s.commits, [e], key);
    TraceConcat(Pending(s), [e], key);
    TraceOne(e, key);
    assert Pending(t) == Pending(s) + [e];
    assert Trace(s.seen, key) + (Trace(Pending(s), key) + Trace([e], key))
        == (Trace(s.seen, key) + Trace(Pending(s), key)) + Trace([e], key);
  }

  lemma UidsAside(s: State, uids: set<nat>, key: Key)
    requires KeyOk(s, key)
    ensures KeyOk(s.(uids := uids), key)
  {
    assert Pending(s.(uids := uids)) == Pending(s);
  }

  lemma VersionAside(s: State, version: nat, key: Key)
    requires KeyOk(s, key)
    ensures KeyOk(s.(version := version), key)
  {
    assert Pending(s.(version := version)) == Pending(s);
  }

  lemma PublishKeepsKey(s: State, ok: bool, key: Key)
    requires KeyOk(s, key) && s.unsent != []
    ensures KeyOk(Apply(s, Publish(ok)), key)
  {
    hide Trace, Events;
    var t := Apply(s, Publish(ok));
    var e := s.unsent[0];
    var m := t.channel[|s.channel|];
    EventsAppend(s.channel, m);
    assert s.unsent == [e] + s.unsent[1..];
    assert Pending(s) == Events(s.channel) + [e] + s.unsent[1..];
    TraceConcat(Events(s.channel), [e], key);
    TraceConcat(Events(s.channel), [m.event], key);
    TraceConcat(Events(s.channel) + [e], s.unsent[1..], key);
    TraceConcat(Events(s.channel) + [m.event], s.unsent[1..], key);
    TraceOne(e, key);
    TraceOne(m.event, key);
    assert Trace(Pending(t), key) == Trace(Pending(s), key);
  }

  lemma PendingHead(s: State, key: Key)
    requires s.channel != []
    ensures var rest := s.(channel := s.channel[1..]);
            Trace(Pending(s), key) == Trace([s.channel[0].event], key) + Trace(Pending(rest), key)
  {
    EventsHead(s.channel);
    var rest := s.(channel := s.channel[1..]);
    assert Pending(s) == [s.channel[0].event] + Pending(rest);
    TraceConcat([s.channel[0].event], Pending(rest), key);
  }

  lemma ReceiveKeepsSequence(s: State, ok: bool, key: Key)
    requires SequenceOk(s, key) && s.channel != []
    ensures SequenceOk(Apply(s, Receive(ok)), key)
  {
    hide Trace, Events, Rehydrated, Observed;
    var t := Apply(s, Receive(ok));
    var e := s.channel[0].event;
    PendingHead(s, key);
    assert Pending(t) == Pending(s.(channel := s.channel[1..]));
    TraceConcat(s.seen, [e], key);
    TraceOne(e, key);
    if t.delivered != s.delivered {
      var out := t.delivered[|s.delivered|];
      TraceConcat(s.delivered, [out], key);
      TraceOne(out, key);
      RehydratedSame(s.db, e);
    }
    assert Trace(s.seen, key) + (Trace([e], key) + Trace(Pending(t), key))
        == (Trace(s.seen, key) + Trace([e], key)) + Trace(Pending(t), key);
  }

  lemma RehydratedSame(db: map<Key, Object>, e: Event)
    ensures Rehydrated(db, e).uid == e.payload.uid
  {
  }

  /** The last event of a key, once delivered, leaves the view as the store is. */
  lemma LastDelivered(s: State, key: Key)
    requires s.channel != [] && s.channel[0].event.key == key
    requires SequenceOk(s, key) && StoredOk(s, key) && Trace(Pending(s), key) == Trace([s.channel[0].event], key)
    ensures var e := s.channel[0].event;
            Lookup(Observed(s.view, e.(payload := Rehydrated(s.db, e))), key) == Lookup(s.db, key)
  {
    hide Trace, Events;
    var e := s.channel[0].event;
    TraceOne(e, key);
    var commits := Trace(s.commits, key);
    assert commits[|commits| - 1] == Mark(e.kind, e.payload.uid);
  }

  lemma ReceiveKeepsView(s: State, ok: bool, key: Key)
    requires KeyOk(s, key) && s.channel != []
    ensures ViewOk(Apply(s, Receive(ok)), key)
  {
    hide Trace, Events, Rehydrated, SequenceOk, StoredOk, Tells;
    var t := Apply(s, Receive(ok));
    var e := s.channel[0].event;
    PendingHead(s, key);
    assert Pending(t) == Pending(s.(channel := s.channel[1..]));
    TraceOne(e, key);
    if e.key == key && Trace(Pending(t), key) == [] { LastDelivered(s, key); }
  }

  lemma ReceiveKeepsKey(s: State, ok: bool, key: Key)
    requires KeyOk(s, key) && s.channel != []
    ensures KeyOk(Apply(s, Receive(ok)), key)
  {
    hide Trace, Events, SequenceOk, ViewOk, Rehydrated, Observed;
    ReceiveKeepsSequence(s, ok, key);
    ReceiveKeepsView(s, ok, key);
  }

  lemma StepKeepsKey(s: State, step: Step, key: Key)
    requires KeyOk(s, key) && Enabled(s, step)
    ensures KeyOk(Apply(s, step), key)
  {
    hide KeyOk;
    match step
    case Create(k, uid, light, heavy) =>
      var e := Event(Added, k, Object(uid, s.version + 1, light, heavy));
      CommitKeepsKey(s, e, key);
      UidsAside(Commit(s, e), s.uids + {uid}, key);
    case Update(k, light, heavy) =>
      CommitKeepsKey(s, Event(Modified, k, Object(s.db[k].uid, s.version + 1, light, heavy)), key);
    case Delete(k) => CommitKeepsKey(s, Event(Deleted, k, s.db[k]), key);
    case Skip => VersionAside(s, s.version + 1, key);
    case Publish(ok) => PublishKeepsKey(s, ok, key);
    case Receive(ok) => ReceiveKeepsKey(s, ok, key);
  }

  lemma {:induction false} RunKeepsKey(steps: seq<Step>, key: Key)
    requires Execute(steps).Some?
    ensures KeyOk(Execute(steps).value, key)
  {
    if steps != [] {
      var prefix, step := steps[..|steps| - 1], steps[|steps| - 1];
      RunKeepsKey(prefix, key);
      StepKeepsKey(Execute(prefix).value, step, key);
    }
  }

  // --- What a client can rely on ------------------------------------------------------------

  /** A key no event of which is missed: the client has seen a prefix of the key's
      commits, kind by kind and object by object, and the rest is on its way. */
  lemma SameSequence(steps: seq<Step>, key: Key)
    requires Execute(steps).Some? && key !in Execute(steps).value.dropped
    ensures var s := Execute(steps).value;
            Trace(s.delivered, key) + Trace(Pending(s), key) == Trace(s.commits, key)
  {
    RunKeepsKey(steps, key);
  }

  /** A key with nothing on its way is viewed as it is stored, contents included,
      unless its latest event was missed. */
  lemma ViewConverges(steps: seq<Step>, key: Key)
    requires Execute(steps).Some? && Trace(Pending(Execute(steps).value), key) == []
    requires key !in Execute(steps).value.stale
    ensures Lookup(Execute(steps).value.view, key) == Lookup(Execute(steps).value.db, key)
  {
    RunKeepsKey(steps, key);
  }

  // --- What was asked to be stored ----------------------------------------------------------------

  /** Versions a step draws. */
  function Draw(step: Step): nat { if step.Create? || step.Update? || step.Skip? then 1 else 0 }

  function Draws(steps: seq<Step>): nat {
    if steps == [] then 0 else Draws(steps[..|steps| - 1]) + Draw(steps[|steps| - 1])
  }

  /** What a step makes of the object of a key: a creation or update gives it contents
      and version, a deletion takes it away. */
  function Give(step: Step, key: Key, was: Option<Object>, version: nat): Option<Object> {
    match step
    case Create(k, uid, light, heavy) => if k == key then Some(Object(uid, version, light, heavy)) else was
    case Update(k, light, heavy) =>
      if k == key && was.Some? then Some(Object(was.value.uid, version, light, heavy)) else was
    case Delete(k) => if k == key then None else was
    case Skip => was
    case Publish(_) => was
    case Receive(_) => was
  }

  /** The object of a key as its last creation or update gave it, told from the steps
      alone: the UID of the creation, the contents and version of the last of them. */
  function Given(steps: seq<Step>, key: Key): Option<Object> {
    if steps == [] then None
    else Give(steps[|steps| - 1], key, Given(steps[..|steps| - 1], key), Draws(steps))
  }

  lemma StepStores(s: State, step: Step, key: Key)
    requires Enabled(s, step)
    ensures var t := Apply(s, step);
            && t.version == s.version + Draw(step)
            && Lookup(t.db, key) == Give(step, key, Lookup(s.db, key), t.version)
  {
    hide Rehydrated, Observed, Strip;
  }

  /** The store holds under each key what the steps last gave it, and nothing else. */
  lemma {:induction false} StoredAsGiven(steps: seq<Step>, key: Key)
    requires Execute(steps).Some?
    ensures Lookup(Execute(steps).value.db, key) == Given(steps, key)
    ensures Execute(steps).value.version == Draws(steps)
  {
    if steps != [] {
      hide Apply, Enabled, Give, Draw, Lookup;
      var prefix := steps[..|steps| - 1];
      StoredAsGiven(prefix, key);
      StepStores(Execute(prefix).value, steps[|steps| - 1], key);
    }
  }

  /** The event a step makes of a key that holds `was` before. */
  function Happens(step: Step, key: Key, was: Option<Object>): seq<Mark> {
    if step.Create? && step.key == key then [Mark(Added, step.uid)]
    else if step.Update? && step.key == key && was.Some? then [Mark(Modified, was.value.uid)]
    else if step.Delete? && step.key == key && was.Some? then [Mark(Deleted, was.value.uid)]
    else []
  }

  /** The events of a key, told from the steps alone: one for each creation, update and
      deletion of it, with the UID of the creation. */
  function Happened(steps: seq<Step>, key: Key): seq<Mark> {
    if steps == [] then []
    else
      var prefix := steps[..|steps| - 1];
      Happened(prefix, key) + Happens(steps[|steps| - 1], key, Given(prefix, key))
  }

  lemma StepHappens(s: State, step: Step, key: Key)
    requires Enabled(s, step)
    ensures Trace(Apply(s, step).commits, key) == Trace(s.commits, key) + Happens(step, key, Lookup(s.db, key))
  {
    hide Trace, Rehydrated, Observed;
    var t := Apply(s, step);
    if t.commits != s.commits {
      var e := t.commits[|s.commits|];
      assert t.commits == s.commits + [e];
      TraceConcat(s.commits, [e], key);
      TraceOne(e, key);
    }
  }

  lemma {:induction false} CommitsAsHappened(steps: seq<Step>, key: Key)
    requires Execute(steps).Some?
    ensures Trace(Execute(steps).value.commits, key) == Happened(steps, key)
  {
    if steps != [] {
      hide Apply, Enabled, Given, Happens;
      var prefix := steps[..|steps| - 1];
      CommitsAsHappened(prefix, key);
      StoredAsGiven(prefix, key);
      StepHappens(Execute(prefix).value, steps[|steps| - 1], key);
    } else {
      assert Trace([], key) == [];
    }
  }

  /** A key no event of which is missed: what the client was told, and what is on its way,
      is what happened to the key, kind by kind and object by object. */
  lemma ToldAsHappened(steps: seq<Step>, key: Key)
    requires Execute(steps).Some? && key !in Execute(steps).value.dropped
    ensures var s := Execute(steps).value;
            Trace(s.delivered, key) + Trace(Pending(s), key) == Happened(steps, key)
  {
    hide Execute, Trace, Happened;
    SameSequence(steps, key);
    CommitsAsHappened(steps, key);
  }

  /** A client with nothing under way and its latest event not missed has the contents that
      were last given. */
  lemma ViewedAsGiven(steps: seq<Step>, key: Key)
    requires Execute(steps).Some? && Trace(Pending(Execute(steps).value), key) == []
    requires key !in Execute(steps).value.stale
    ensures Lookup(Execute(steps).value.view, key) == Given(steps, key)
  {
    hide Execute, Given;
    ViewConverges(steps, key);
    StoredAsGiven(steps, key);
  }

  // --- The store and a replica's watcher ------------------------------------------------------

  datatype Outcome = Done | KeyExists | KeyNotFound | Rejected | Cancelled

  /** What the caller's function makes of an object. */
  datatype Attempt = LockLost | Refused | Changed(light: string, heavy: string)

  ghost predicate FirstAnswer(tryUpdate: (nat, Object) -> Attempt, o: Object, n: nat) {
    !tryUpdate(n, o).LockLost? && forall i :: 0 <= i < n ==> tryUpdate(i, o).LockLost?
  }

  /** A store with its subject and one replica's watcher. The ghost fields record
      the history the theorems above speak of. */
  class Storage {
    var db: map<Key, Object>
    var version: nat
    var unsent: seq<Event>
    var channel: seq<Message>
    var view: map<Key, Object>
    ghost var uids: set<nat>
    ghost var commits: seq<Event>
    ghost var seen: seq<Event>
    ghost var delivered: seq<Event>
    ghost var dropped: set<Key>
    ghost var stale: set<Key>

    ghost function Value(): State
      reads this
    {
      State(db, version, uids, commits, unsent, channel, view, seen, delivered, dropped, stale)
    }

    constructor ()
      ensures Value() == INIT
    {
      db, version, unsent, channel, view := map[], 0, [], [], map[];
      uids, commits, seen, delivered, dropped, stale := {}, [], [], [], {}, {};
    }

    /** The version is drawn before the insert, and stays drawn when it fails. */
    method Create(key: Key, uid: nat, light: string, heavy: string) returns (outcome: Outcome)
      requires uid !in uids
      modifies this
      ensures outcome == if key in old(db) then KeyExists else Done
      ensures Value() == Apply(old(Value()), if key in old(db) then Skip else Step.Create(key, uid, light, heavy))
      ensures version == old(version) + 1
      ensures outcome == Done ==> db == old(db)[key := Object(uid, version, light, heavy)]
      ensures outcome != Done ==> db == old(db) && unsent == old(unsent)
    {
      version := version + 1;
      if key in db { return KeyExists; }
      var o := Object(uid, version, light, heavy);
      db := db[key := o];
      uids, commits := uids + {uid}, commits + [Event(Added, key, o)];
      unsent := unsent + [Event(Added, key, o)];
      return Done;
    }

    method Delete(key: Key, precondition: Object -> bool, validate: Object -> bool) returns (outcome: Outcome)
      modifies this
      ensures outcome == Done <==> key in old(db) && precondition(old(db)[key]) && validate(old(db)[key])
      ensures outcome == KeyNotFound <==> key !in old(db)
      ensures Value() == if outcome == Done then Apply(old(Value()), Step.Delete(key)) else old(Value())
      ensures version == old(version) && db == if outcome == Done then old(db) - {key} else old(db)
    {
      if key !in db { return KeyNotFound; }
      var o := db[key];
      if !precondition(o) || !validate(o) { return Rejected; }
      db := db - {key};
      commits := commits + [Event(Deleted, key, o)];
      unsent := unsent + [Event(Deleted, key, o)];
      return Done;
    }

    /** Reads the object and tries to change it, again and again while `tryUpdate`
        answers that the caller's version is not the one read. The request's context
        lets it make no more than `attempts`. */
    method GuaranteedUpdate(key: Key, ignoreNotFound: bool, precondition: Object -> bool,
                            tryUpdate: (nat, Object) -> Attempt, attempts: nat)
      returns (outcome: Outcome)
      modifies this
      ensures attempts == 0 ==> outcome == Cancelled && Value() == old(Value())
      ensures attempts > 0 && key !in old(db) ==>
                outcome == (if ignoreNotFound then Done else KeyNotFound) && Value() == old(Value())
      ensures attempts > 0 && key in old(db) && !precondition(old(db)[key]) ==>
                outcome == Rejected && Value() == old(Value())
      // the first attempt that is not a lost lock decides
      ensures key in old(db) && precondition(old(db)[key]) ==>
                forall n: nat :: n < attempts && FirstAnswer(tryUpdate, old(db)[key], n) ==>
                  var a := tryUpdate(n, old(db)[key]);
                  if a.Changed? then
                    && outcome == Done && Value() == Apply(old(Value()), Step.Update(key, a.light, a.heavy))
                    && version == old(version) + 1
                    && db == old(db)[key := Object(old(db)[key].uid, version, a.light, a.heavy)]
                  else outcome == Rejected && Value() == old(Value())
      // and if all attempts are, nothing happens
      ensures key in old(db) && precondition(old(db)[key]) ==>
                (outcome == Cancelled <==> forall n: nat :: n < attempts ==> tryUpdate(n, old(db)[key]).LockLost?)
      ensures outcome == Cancelled ==> Value() == old(Value())
    {
      for n := 0 to attempts
        invariant Value() == old(Value())
        invariant n > 0 ==> key in db && precondition(db[key])
        invariant key in db ==> forall i :: 0 <= i < n ==> tryUpdate(i, db[key]).LockLost?
      {
        if key !in db { return if ignoreNotFound then Done else KeyNotFound; }
        var current := db[key];
        if !precondition(current) { return Rejected; }
        var a := tryUpdate(n, current);
        if a.LockLost? { continue; }
        if a.Refused? { return Rejected; }
        version := version + 1;
        var o := Object(current.uid, version, a.light, a.heavy);
        db := db[key := o];
        commits := commits + [Event(Modified, key, o)];
        unsent := unsent + [Event(Modified, key, o)];
        return Done;
      }
      return Cancelled;
    }

    /** Strips and sends the next event; an error is only logged. */
    method Publish(ok: bool)
      requires unsent != []
      modifies this
      ensures Value() == Apply(old(Value()), Step.Publish(ok))
      ensures unsent == old(unsent)[1..] && |channel| == |old(channel)| + 1
      ensures var sent, e := channel[|old(channel)|], old(unsent)[0];
              sent.lost == !ok && sent.event == e.(payload := e.payload.(heavy := ""))
    {
      var e := unsent[0];
      unsent := unsent[1..];
      channel := channel + [Message(e.(payload := Strip(e.payload)), !ok)];
    }

    /** Takes the next message, rehydrates it unless it is a deletion, and hands it
        to the client; `readable` says whether the store could be read. */
    method ProcessMessage(readable: bool)
      requires channel != []
      modifies this
      ensures Value() == Apply(old(Value()), Receive(readable || old(channel[0].event.kind) == Deleted))
      ensures db == old(db) && channel == old(channel)[1..]
      // a deletion takes the key out of the view, another event brings the stored object or
      // the payload, and one that is missed changes nothing
      ensures var m := old(channel)[0];
              view == if m.lost || (m.event.kind != Deleted && !readable) then old(view)
                      else if m.event.kind == Deleted then old(view) - {m.event.key}
                      else if m.event.key in db && db[m.event.key].uid == m.event.payload.uid
                      then old(view)[m.event.key := db[m.event.key]]
                      else old(view)[m.event.key := m.event.payload]
    {
      var m := channel[0];
      channel := channel[1..];
      seen := seen + [m.event];
      if m.lost || (m.event.kind != Deleted && !readable) {
        dropped, stale := dropped + {m.event.key}, stale + {m.event.key};
        return;
      }
      var o := m.event.payload;
      if m.event.kind != Deleted {
        o := Rehydrate(m.event);
      }
      var out := m.event.(payload := o);
      if out.kind == Deleted {
        view := view - {out.key};
      } else {
        view := view[out.key := out.payload];
      }
      delivered, stale := delivered + [out], stale - {m.event.key};
    }

    /** The stored object when it is the one the event is about, else the payload. */
    method Rehydrate(e: Event) returns (o: Object)
      requires e.kind != Deleted
      ensures o == Rehydrated(db, e)
      ensures o == if e.key in db && db[e.key].uid == e.payload.uid then db[e.key] else e.payload
    {
      if e.key !in db { return e.payload; }
      var fetched := db[e.key];
      if fetched.uid != e.payload.uid { return e.payload; }
      return fetched;
    }
  }
}
