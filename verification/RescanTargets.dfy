/** Rescan requests: merging the requests on a registry into the targets of one
    ScanJob. */
module RescanTargets {
  import opened Ordering
  import opened Registries

  const RESCAN_PREFIX := "sbomscanner.kubewarden.io/rescan-requested-"

  predicate IsRescanKey(key: string) { RESCAN_PREFIX <= key }

  /** What targets ask for: no target means the whole registry, no condition name
      the whole repository. */
  ghost predicate Wants(targets: seq<Target>, repository: string, condition: string) {
    targets == [] || WantsOne(targets, repository, condition)
  }

  ghost predicate WantsOne(targets: seq<Target>, repository: string, condition: string) {
    exists t :: t in targets && t.name == repository && (t.conditions == [] || condition in t.conditions)
  }

  /** The request an annotation value holds; an empty value asks for everything,
      a malformed one for nothing. Decoding is a parameter. */
  function Decoded(raw: string, decode: string -> Option<seq<Target>>): Option<seq<Target>> {
    if raw == "" then Some([]) else decode(raw)
  }

  // --- The sets requests are merged into ----------------------------------------

  /** Repositories wanted as a whole, and the wanted conditions of the others. */
  datatype Merged = Merged(wildcard: set<string>, conditions: map<string, set<string>>)

  ghost predicate MergedOk(m: Merged) {
    && (forall r :: r in m.wildcard ==> r !in m.conditions)
    && (forall r :: r in m.conditions ==> m.conditions[r] != {})
  }

  predicate Tracks(m: Merged, repository: string, condition: string) {
    repository in m.wildcard || (repository in m.conditions && condition in m.conditions[repository])
  }

  /** One target entered into the sets. */
  function Entered(m: Merged, t: Target): Merged {
    if t.name in m.wildcard then m
    else if t.conditions == [] then Merged(m.wildcard + {t.name}, m.conditions - {t.name})
    else
      var known := if t.name in m.conditions then m.conditions[t.name] else {};
      m.(conditions := m.conditions[t.name := known + set c | c in t.conditions])
  }

  lemma EnteredTracks(m: Merged, t: Target)
    requires MergedOk(m)
    ensures MergedOk(Entered(m, t))
    ensures forall r, c :: Tracks(Entered(m, t), r, c) <==>
        Tracks(m, r, c) || (r == t.name && (t.conditions == [] || c in t.conditions))
  {
    var e := Entered(m, t);
    if t.name !in m.wildcard && t.conditions != [] {
      assert t.conditions[0] in e.conditions[t.name];
    }
  }

  lemma WantsAppend(targets: seq<Target>, t: Target)
    ensures forall r, c :: WantsOne(targets + [t], r, c) <==>
        WantsOne(targets, r, c) || (r == t.name && (t.conditions == [] || c in t.conditions))
  {
    forall r, c ensures WantsOne(targets + [t], r, c) <==>
        WantsOne(targets, r, c) || (r == t.name && (t.conditions == [] || c in t.conditions)) {
      if WantsOne(targets, r, c) {
        var u :| u in targets && u.name == r && (u.conditions == [] || c in u.conditions);
        assert u in targets + [t];
      }
      if r == t.name && (t.conditions == [] || c in t.conditions) { assert t in targets + [t]; }
    }
  }

  class Tracker {
    var wildcard: set<string>
    var conditions: map<string, set<string>>

    function State(): Merged
      reads this
    {
      Merged(wildcard, conditions)
    }

    constructor ()
      ensures State() == Merged({}, map[])
    {
      wildcard, conditions := {}, map[];
    }

    /** Merges one request; true when it asks for the whole registry. */
    method MergeRescanRequest(request: seq<Target>) returns (everything: bool)
      requires MergedOk(State())
      modifies this
      ensures MergedOk(State())
      ensures everything <==> request == []
      ensures forall r, c :: Tracks(State(), r, c) <==> old(Tracks(State(), r, c)) || WantsOne(request, r, c)
    {
      hide MergedOk, Tracks, WantsOne, Entered;
      if request == [] {
        NothingWanted();
        return true;
      }
      NothingWanted();
      assert request[..0] == [];
      for i := 0 to |request|
        invariant MergedOk(State())
        invariant forall r, c :: Tracks(State(), r, c) <==> old(Tracks(State(), r, c)) || WantsOne(request[..i], r, c)
      {
        var t := request[i];
        EnteredTracks(State(), t);
        WantsAppend(request[..i], t);
        assert request[..i + 1] == request[..i] + [t];
        Enter(t);
      }
      assert request[..|request|] == request;
      return false;
    }

    /** The body of the loop over the repositories of a request. */
    method Enter(t: Target)
      modifies this
      ensures State() == Entered(old(State()), t)
    {
      if t.name in wildcard { return; }
      if t.conditions == [] {
        wildcard := wildcard + {t.name};
        conditions := conditions - {t.name};
        return;
      }
      if t.name !in conditions { conditions := conditions[t.name := {}]; }
      conditions := conditions[t.name := conditions[t.name] + set c | c in t.conditions];
    }
  }

  lemma NothingWanted()
    ensures forall r, c :: !WantsOne([], r, c)
  {
  }

  // --- The merged targets ----------------------------------------------------------

  /** A sorted list that says what the sets say. */
  ghost predicate Represents(targets: seq<Target>, m: Merged) {
    && SortedTargets(targets)
    && (forall t :: t in targets ==> (t.conditions == [] <==> t.name in m.wildcard))
    && (forall r, c :: WantsOne(targets, r, c) <==> Tracks(m, r, c))
  }

  /** The entry of one repository. */
  ghost predicate EntryFor(t: Target, name: string, m: Merged) {
    && t.name == name && StrictlySorted(Self, t.conditions)
    && forall c :: c in t.conditions <==> name in m.conditions && c in m.conditions[name]
  }

  method BuildEntry(name: string, m: Merged) returns (t: Target)
    ensures EntryFor(t, name, m)
  {
    var conditions := [];
    if name in m.conditions { conditions := SortedList(m.conditions[name]); }
    t := Target(name, conditions);
  }

  method BuildMergedTargets(m: Merged) returns (targets: seq<Target>)
    requires MergedOk(m)
    ensures Represents(targets, m)
    ensures targets == [] <==> m == Merged({}, map[])
  {
    hide Represents, EntryFor, StrictlySorted;
    var names := SortedList(m.wildcard + m.conditions.Keys);
    targets := [];
    for i := 0 to |names|
      invariant |targets| == i
      invariant forall j :: 0 <= j < i ==> EntryFor(targets[j], names[j], m)
    {
      var t := BuildEntry(names[i], m);
      targets := targets + [t];
    }
    RepresentsAll(targets, names, m);
    if targets == [] { assert m.wildcard == {} && m.conditions.Keys == {}; }
  }

  lemma RepresentsAll(targets: seq<Target>, names: seq<string>, m: Merged)
    requires MergedOk(m) && StrictlySorted(Self, names)
    requires forall x :: x in names <==> x in m.wildcard || x in m.conditions
    requires |targets| == |names| && forall j :: 0 <= j < |names| ==> EntryFor(targets[j], names[j], m)
    ensures Represents(targets, m)
  {
    assert forall j :: 0 <= j < |names| ==> targets[j].name == names[j];
    assert StrictlySorted(TargetName, targets);
    forall t | t in targets ensures t.conditions == [] <==> t.name in m.wildcard {
      var j :| 0 <= j < |targets| && targets[j] == t;
      assert names[j] in names && EntryFor(t, names[j], m);
      if t.name in m.conditions {
        var c :| c in m.conditions[t.name];
        assert c in t.conditions;
      }
      if t.conditions != [] { assert t.conditions[0] in t.conditions; }
    }
    forall r, c ensures WantsOne(targets, r, c) <==> Tracks(m, r, c) {
      if WantsOne(targets, r, c) {
        var t :| t in targets && t.name == r && (t.conditions == [] || c in t.conditions);
        var j :| 0 <= j < |targets| && targets[j] == t;
        assert EntryFor(t, names[j], m);
      }
      if Tracks(m, r, c) {
        assert r in names;
        var j :| 0 <= j < |names| && names[j] == r;
        assert targets[j] in targets && EntryFor(targets[j], names[j], m);
      }
    }
  }

  // --- All the requests of a registry ------------------------------------------------

  /** A request among the annotations that can be decoded. */
  ghost predicate Parsed(annotations: map<string, string>, decode: string -> Option<seq<Target>>, key: string) {
    key in annotations && IsRescanKey(key) && Decoded(annotations[key], decode).Some?
  }

  ghost predicate ParsedAmong(annotations: map<string, string>, decode: string -> Option<seq<Target>>,
                              keys: set<string>,
                              key: string) {
    key in keys && Parsed(annotations, decode, key)
  }

  ghost predicate SomeWants(annotations: map<string, string>, decode: string -> Option<seq<Target>>, keys: set<string>,
                            repository: string, condition: string) {
    exists key :: ParsedAmong(annotations, decode, keys, key)
                  && WantsOne(Decoded(annotations[key], decode).value, repository, condition)
  }

  ghost predicate SomeWantsAll(annotations: map<string, string>, decode: string -> Option<seq<Target>>,
                               keys: set<string>) {
    exists key :: ParsedAmong(annotations, decode, keys, key) && Decoded(annotations[key], decode).value == []
  }

  lemma KeyAdded(annotations: map<string, string>, decode: string -> Option<seq<Target>>, keys: set<string>,
                 key: string)
    requires key in annotations && IsRescanKey(key)
    ensures var d := Decoded(annotations[key], decode);
            && (forall r, c :: SomeWants(annotations, decode, keys + {key}, r, c) <==>
                  SomeWants(annotations, decode, keys, r, c) || (d.Some? && WantsOne(d.value, r, c)))
            && (SomeWantsAll(annotations, decode, keys + {key}) <==>
                  SomeWantsAll(annotations, decode, keys) || d == Some([]))
  {
    hide WantsOne, IsRescanKey;
    var d := Decoded(annotations[key], decode);
    forall k ensures ParsedAmong(annotations, decode, keys + {key}, k) <==>
        ParsedAmong(annotations, decode, keys, k) || (k == key && d.Some?) {
    }
    if d.Some? { assert ParsedAmong(annotations, decode, keys + {key}, key); }
    forall r, c ensures SomeWants(annotations, decode, keys + {key}, r, c) <==>
        SomeWants(annotations, decode, keys, r, c) || (d.Some? && WantsOne(d.value, r, c)) {
      if SomeWants(annotations, decode, keys, r, c) {
        var k :| ParsedAmong(annotations, decode, keys, k) && WantsOne(Decoded(annotations[k], decode).value, r, c);
        assert ParsedAmong(annotations, decode, keys + {key}, k);
      }
    }
    if SomeWantsAll(annotations, decode, keys) {
      var k :| ParsedAmong(annotations, decode, keys, k) && Decoded(annotations[k], decode).value == [];
      assert ParsedAmong(annotations, decode, keys + {key}, k);
    }
  }

  /** Some rescan key has no value, or one that decodes to no target. */
  ghost predicate AsksAll(annotations: map<string, string>, decode: string -> Option<seq<Target>>) {
    exists key :: key in annotations && IsRescanKey(key)
                  && (annotations[key] == "" || decode(annotations[key]) == Some([]))
  }

  /** Some rescan key has a value that decodes to targets, one of them for this. */
  ghost predicate AsksFor(annotations: map<string, string>, decode: string -> Option<seq<Target>>,
                          repository: string, condition: string) {
    exists key, t :: key in annotations && IsRescanKey(key) && annotations[key] != ""
                     && decode(annotations[key]).Some? && t in decode(annotations[key]).value
                     && t.name == repository && (t.conditions == [] || condition in t.conditions)
  }

  lemma RequestsRead(annotations: map<string, string>, decode: string -> Option<seq<Target>>, keys: set<string>)
    requires forall key :: key in keys <==> key in annotations && IsRescanKey(key)
    ensures SomeWantsAll(annotations, decode, keys) <==> AsksAll(annotations, decode)
    ensures forall r, c :: SomeWants(annotations, decode, keys, r, c) <==> AsksFor(annotations, decode, r, c)
  {
    hide IsRescanKey;
    assert forall key :: key in keys ==>
                           (ParsedAmong(annotations, decode, keys, key) <==>
                              annotations[key] == "" || decode(annotations[key]).Some?);
    forall r, c ensures SomeWants(annotations, decode, keys, r, c) <==> AsksFor(annotations, decode, r, c) {
      if AsksFor(annotations, decode, r, c) {
        var key, t :| key in annotations && IsRescanKey(key) && annotations[key] != ""
          && decode(annotations[key]).Some? && t in decode(annotations[key]).value
          && t.name == r && (t.conditions == [] || c in t.conditions);
        assert ParsedAmong(annotations, decode, keys, key);
      }
    }
  }

  /** The keys of the requests found, the merged targets, and whether one of them
      asks for everything. Annotations are visited in no particular order. */
  method CollectRescanRequests(annotations: map<string, string>, decode: string -> Option<seq<Target>>)
    returns (keys: set<string>, targets: seq<Target>, everything: bool)
    ensures forall key :: key in keys <==> key in annotations && IsRescanKey(key)
    ensures everything <==> SomeWantsAll(annotations, decode, keys)
    ensures everything ==> targets == []
    ensures !everything ==> SortedTargets(targets)
    ensures !everything ==> forall r, c :: WantsOne(targets, r, c) <==> SomeWants(annotations, decode, keys, r, c)
    ensures everything <==> AsksAll(annotations, decode)
    ensures !everything ==> forall r, c :: WantsOne(targets, r, c) <==> AsksFor(annotations, decode, r, c)
  {
    hide AsksAll, AsksFor;
    hide SomeWants, SomeWantsAll, WantsOne, MergedOk, Tracks, IsRescanKey, SortedTargets, Decoded;
    keys := set key | key in annotations && IsRescanKey(key);
    everything := false;
    var tracker := new Tracker();
    EmptyMerge();
    var todo := keys;
    NoKeys(annotations, decode);
    assert keys - todo == {};
    while todo != {}
      invariant todo <= keys && MergedOk(tracker.State())
      invariant everything <==> SomeWantsAll(annotations, decode, keys - todo)
      invariant forall r, c :: Tracks(tracker.State(), r, c) <==> SomeWants(annotations, decode, keys - todo, r, c)
      decreases todo
    {
      var key :| key in todo;
      ghost var done := keys - todo;
      KeyAdded(annotations, decode, done, key);
      todo := todo - {key};
      assert keys - todo == done + {key};
      var request := Decoded(annotations[key], decode);
      if request.Some? {
        var all := tracker.MergeRescanRequest(request.value);
        if all { everything := true; }
      }
    }
    assert keys - todo == keys;
    targets := [];
    if !everything {
      targets := BuildMergedTargets(tracker.State());
    }
    RequestsRead(annotations, decode, keys);
  }

  lemma EmptyMerge()
    ensures MergedOk(Merged({}, map[])) && forall r, c :: !Tracks(Merged({}, map[]), r, c)
  {
  }

  lemma NoKeys(annotations: map<string, string>, decode: string -> Option<seq<Target>>)
    ensures !SomeWantsAll(annotations, decode, {}) && forall r, c :: !SomeWants(annotations, decode, {}, r, c)
  {
  }

  /** Targets that are there want something. */
  lemma WantsSomething(targets: seq<Target>) returns (repository: string, condition: string)
    requires targets != []
    ensures WantsOne(targets, repository, condition)
  {
    var t := targets[0];
    assert t in targets;
    repository := t.name;
    condition := if t.conditions == [] then "" else t.conditions[0];
  }

  ghost predicate ParsedWants(annotations: map<string, string>, decode: string -> Option<seq<Target>>,
                              repository: string, condition: string) {
    exists key :: Parsed(annotations, decode, key)
                  && Wants(Decoded(annotations[key], decode).value, repository, condition)
  }

  /** Exactly the union of the requests that can be decoded, as soon as there is
      one; the whole registry when all of them are malformed. */
  ghost predicate TargetsOf(decode: string -> Option<seq<Target>>, annotations: map<string, string>,
                            targets: seq<Target>) {
    if exists key :: Parsed(annotations, decode, key)
    then forall r, c :: Wants(targets, r, c) <==> ParsedWants(annotations, decode, r, c)
    else targets == []
  }

  lemma UnionOfParsed(annotations: map<string, string>, decode: string -> Option<seq<Target>>, keys: set<string>,
                      merged: seq<Target>, everything: bool)
    requires forall key :: key in keys <==> key in annotations && IsRescanKey(key)
    requires everything <==> SomeWantsAll(annotations, decode, keys)
    requires everything ==> merged == []
    requires !everything ==> forall r, c :: WantsOne(merged, r, c) <==> SomeWants(annotations, decode, keys, r, c)
    ensures (exists key :: Parsed(annotations, decode, key)) ==>
              forall r, c :: Wants(merged, r, c) <==> ParsedWants(annotations, decode, r, c)
    ensures !(exists key :: Parsed(annotations, decode, key)) ==> merged == []
  {
    hide WantsOne, IsRescanKey, Decoded;
    assert forall key :: ParsedAmong(annotations, decode, keys, key) <==> Parsed(annotations, decode, key);
    if merged != [] {
      var r, c := WantsSomething(merged);
      assert SomeWants(annotations, decode, keys, r, c);
    } else if !everything && exists key :: Parsed(annotations, decode, key) {
      var key :| Parsed(annotations, decode, key);
      assert ParsedAmong(annotations, decode, keys, key);
      var r, c := WantsSomething(Decoded(annotations[key], decode).value);
      assert SomeWants(annotations, decode, keys, r, c);
      NothingWanted();
    }
    if everything {
      var key :| ParsedAmong(annotations, decode, keys, key) && Decoded(annotations[key], decode).value == [];
      assert Parsed(annotations, decode, key);
    }
  }

  /** The targets of the job created for the rescan requests of a registry. */
  method JobTargets(annotations: map<string, string>, decode: string -> Option<seq<Target>>)
    returns (hasRequest: bool, targets: seq<Target>)
    ensures hasRequest <==> exists key :: key in annotations && IsRescanKey(key)
    ensures hasRequest <==> exists key :: key in annotations && "sbomscanner.kubewarden.io/rescan-requested-" <= key
    ensures SortedTargets(targets)
    ensures TargetsOf(decode, annotations, targets)
    // the whole registry when a request has no value or names no repository
    ensures AsksAll(annotations, decode) ==> targets == []
    ensures !AsksAll(annotations, decode) ==>
              forall r, c :: WantsOne(targets, r, c) <==> AsksFor(annotations, decode, r, c)
  {
    assert forall key :: IsRescanKey(key) <==> "sbomscanner.kubewarden.io/rescan-requested-" <= key;
    hide AsksAll, AsksFor;
    hide IsRescanKey, WantsOne, SomeWants, SomeWantsAll, ParsedWants, Wants;
    var keys, merged, everything := CollectRescanRequests(annotations, decode);
    hasRequest := keys != {};
    targets := if hasRequest && !everything then merged else [];
    UnionOfParsed(annotations, decode, keys, merged, everything);
    if !hasRequest {
      assert forall key :: !Parsed(annotations, decode, key);
    }
  }

  // --- The list does not depend on the order of the annotations ---------------------

  lemma SameEntry(a: seq<Target>, b: seq<Target>, t: Target)
    requires SortedTargets(a) && SortedTargets(b) && t in a
    requires forall r, c :: WantsOne(a, r, c) <==> WantsOne(b, r, c)
    ensures t in b
  {
    SortedIsDistinct(TargetName, a);
    SortedIsDistinct(TargetName, b);
    var some := if t.conditions == [] then "" else t.conditions[0];
    assert WantsOne(a, t.name, some);
    var u :| u in b && u.name == t.name && (u.conditions == [] || some in u.conditions);
    forall c ensures t.conditions == [] || c in t.conditions <==> u.conditions == [] || c in u.conditions {
      OneEntry(a, t, c);
      OneEntry(b, u, c);
    }
    var known := set c | c in t.conditions + u.conditions;
    var novel := LongerText(known);
    assert forall c :: c in t.conditions || c in u.conditions ==> c in known;
    assert t.conditions == [] <==> u.conditions == [];
    SortedListUnique(Self, t.conditions, u.conditions);
  }

  lemma OneEntry(a: seq<Target>, t: Target, c: string)
    requires DistinctKeys(TargetName, a) && t in a
    ensures WantsOne(a, t.name, c) <==> t.conditions == [] || c in t.conditions
  {
    if WantsOne(a, t.name, c) {
      var u :| u in a && u.name == t.name && (u.conditions == [] || c in u.conditions);
      DistinctMember(TargetName, a, t, u);
    }
  }

  /** Sorted targets are determined by what they want. */
  lemma WantsUnique(a: seq<Target>, b: seq<Target>)
    requires SortedTargets(a) && SortedTargets(b)
    requires forall r, c :: WantsOne(a, r, c) <==> WantsOne(b, r, c)
    ensures a == b
  {
    forall t ensures t in a <==> t in b {
      if t in a { SameEntry(a, b, t); }
      if t in b { SameEntry(b, a, t); }
    }
    SortedListUnique(TargetName, a, b);
  }
}
