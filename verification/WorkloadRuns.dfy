/** Runs of namespace reconciles: ownership, garbage collection, commutation and
    idempotence. */
module WorkloadRuns {
  import opened Ordering
  import opened Registries
  import opened WorkloadRegistry
  import opened WorkloadFleet

  /** A reconcile that met no error, or one that ended early, having dealt with the
      registries of the URIs in `done` only. */
  datatype Attempt = Whole(visit: Visit) | Cut(visit: Visit, done: set<string>)

  predicate Acts(t: Attempt, a: Address) {
    a.namespace == Home(t.visit.config, t.visit.namespace) && (t.Whole? || a.uri in t.done)
  }

  ghost predicate AttemptedAt(before: Registered, t: Attempt, after: Registered, a: Address) {
    if Acts(t, a) then ReconciledAt(before, t.visit, after, a) else Lookup(after, a) == Lookup(before, a)
  }

  ghost predicate Attempted(before: Registered, t: Attempt, after: Registered) {
    && Inhabited(t.visit.groups)
    && if t.Whole? then Visited(before, t.visit, after) else Progress(before, t.visit, after, t.done)
  }

  lemma AttemptAt(before: Registered, t: Attempt, after: Registered, a: Address)
    requires Attempted(before, t, after)
    ensures AttemptedAt(before, t, after, a)
  {
    hide ReconciledAt, Home, Inhabited;
    assert Lookup(after, a) == Lookup(after, a);
  }

  /** States of a run that starts without managed registries. */
  ghost predicate Run(states: seq<Registered>, visits: seq<Attempt>) {
    && |states| == |visits| + 1 && states[0] == map[]
    && forall i :: 0 <= i < |visits| ==> Attempted(states[i], visits[i], states[i + 1])
  }

  predicate Touches(t: Attempt, namespace: string, a: Address) {
    t.visit.namespace == namespace && Acts(t, a)
  }

  /** What a namespace needed of a registry when a reconcile of it last dealt with
      that registry. */
  function LastNeeds(visits: seq<Attempt>, namespace: string, a: Address): set<Key> {
    if visits == [] then {}
    else
      var v := visits[|visits| - 1];
      if Touches(v, namespace, a) then Needs(TagsAt(v.visit.groups, a.uri))
      else LastNeeds(visits[..|visits| - 1], namespace, a)
  }

  ghost predicate Owned(visits: seq<Attempt>, a: Address, c: Claim) {
    exists namespace :: c.mark == NamespaceLabel(namespace) && c.key in LastNeeds(visits, namespace, a)
  }

  ghost predicate ClaimedAt(registries: Registered, a: Address, c: Claim) {
    a in registries && Claimed(registries[a].repositories, c)
  }

  /** The registry at an address carries exactly the labels its owners put there. */
  ghost predicate OwnedOk(registries: Registered, visits: seq<Attempt>, a: Address) {
    && (forall c :: ClaimedAt(registries, a, c) <==> Owned(visits, a, c))
    && (a in registries ==> Canonical(registries[a].repositories) && registries[a].repositories != [])
  }

  /** Does the attempt decide about this claim? */
  ghost predicate Decides(t: Attempt, a: Address, c: Claim) {
    Acts(t, a) && c.mark == NamespaceLabel(t.visit.namespace)
  }

  lemma OwnedNext(visits: seq<Attempt>, t: Attempt, a: Address, c: Claim)
    ensures Owned(visits + [t], a, c) <==>
        if Decides(t, a, c) then c.key in Needs(TagsAt(t.visit.groups, a.uri)) else Owned(visits, a, c)
  {
    var longer := visits + [t];
    assert longer[..|visits|] == visits;
    var needs := Needs(TagsAt(t.visit.groups, a.uri));
    assert forall n :: LastNeeds(longer, n, a) == if Touches(t, n, a) then needs else LastNeeds(visits, n, a);
    forall n | c.mark == NamespaceLabel(n) && c.mark == NamespaceLabel(t.visit.namespace)
      ensures n == t.visit.namespace
    {
      NamespaceLabelInjective(n, t.visit.namespace);
    }
  }

  lemma NeedsSomething(tags: RepositoryTags) returns (key: Key)
    requires tags != map[] && forall name :: name in tags ==> tags[name] != {}
    ensures key in Needs(tags)
  {
    assert tags.Keys != {};
    var name :| name in tags.Keys;
    var tag :| tag in tags[name];
    key := TagKey(name, tag);
  }

  lemma ClaimsNothing(tags: RepositoryTags)
    requires tags == map[]
    ensures Needs(tags) == {}
  {
  }

  /** The claims at an address after one reconcile, whether or not it got that far. */
  lemma VisitClaims(before: Registered, t: Attempt, after: Registered, a: Address, c: Claim)
    requires AttemptedAt(before, t, after, a) && Inhabited(t.visit.groups)
    ensures ClaimedAt(after, a, c) <==>
        if Decides(t, a, c) then c.key in Needs(TagsAt(t.visit.groups, a.uri)) else ClaimedAt(before, a, c)
  {
    hide NamespaceLabel, Claimed, Canonical, Requested, Needs, Home, Inhabited, Acts;
    var v := t.visit;
    if Acts(t, a) {
      ClaimsNothing(map[]);
      if a in before {
        var next := NextClaim(before[a].repositories, NamespaceLabel(v.namespace), Needs(TagsAt(v.groups, a.uri)), c);
        assert next ==> a in after;
      }
    } else {
      assert Lookup(after, a) == Lookup(before, a);
    }
  }

  lemma ClaimedNonempty(repositories: seq<Repository>, c: Claim)
    requires Claimed(repositories, c)
    ensures repositories != []
  {
  }

  lemma VisitCanonical(before: Registered, t: Attempt, after: Registered, a: Address)
    requires AttemptedAt(before, t, after, a) && Inhabited(t.visit.groups) && a in after
    requires a in before ==> Canonical(before[a].repositories) && before[a].repositories != []
    ensures Canonical(after[a].repositories) && after[a].repositories != []
  {
    hide NamespaceLabel, Claimed, Canonical, Requested, Home;
    var v := t.visit;
    if Acts(t, a) {
      if a in before {
        var c :| NextClaim(before[a].repositories, NamespaceLabel(v.namespace), Needs(TagsAt(v.groups, a.uri)), c);
        ClaimedNonempty(after[a].repositories, c);
      } else {
        var key := NeedsSomething(TagsAt(v.groups, a.uri));
        ClaimedNonempty(after[a].repositories, Claim(key, NamespaceLabel(v.namespace)));
      }
    } else {
      assert Lookup(after, a) == Lookup(before, a);
    }
  }

  lemma {:induction false} RunOwned(states: seq<Registered>, visits: seq<Attempt>, a: Address)
    requires Run(states, visits)
    ensures OwnedOk(states[|visits|], visits, a)
  {
    if visits != [] {
      var n := |visits| - 1;
      var prefix, t := visits[..n], visits[n];
      assert Run(states[..n + 1], prefix);
      RunOwned(states[..n + 1], prefix, a);
      assert visits == prefix + [t];
      AttemptAt(states[n], t, states[n + 1], a);
      assert Inhabited(t.visit.groups);
      hide Owned, ClaimedAt, Canonical, Needs, Attempted, AttemptedAt, Inhabited, Decides;
      forall c ensures ClaimedAt(states[n + 1], a, c) <==> Owned(visits, a, c) {
        VisitClaims(states[n], t, states[n + 1], a, c);
        OwnedNext(prefix, t, a, c);
      }
      if a in states[n + 1] { VisitCanonical(states[n], t, states[n + 1], a); }
    }
  }

  ghost predicate NeededBySome(visits: seq<Attempt>, a: Address, key: Key) {
    exists namespace :: key in LastNeeds(visits, namespace, a)
  }

  /** After any run, failed reconciles included, a registry is there exactly when
      some namespace, when last dealt with there, needed one of its conditions; it
      declares exactly the conditions some namespace needs, and a condition carries
      the label of a namespace exactly when the last needs of that namespace include
      it. */
  lemma LabelsAreLastNeeds(states: seq<Registered>, visits: seq<Attempt>, a: Address)
    requires Run(states, visits)
    ensures var registries := states[|visits|];
            && (a in registries <==> exists key :: NeededBySome(visits, a, key))
            && (a in registries ==> Canonical(registries[a].repositories))
            && (forall namespace, key :: ClaimedAt(registries, a, Claim(key, NamespaceLabel(namespace))) <==>
                                           key in LastNeeds(visits, namespace, a))
            && (forall key :: NeededBySome(visits, a, key) <==>
                                a in registries && Declares(registries[a].repositories, key))
  {
    hide Attempted, NamespaceLabel, Canonical, Claimed, Declares, NeededBySome;
    RunOwned(states, visits, a);
    var registries := states[|visits|];
    forall namespace, key ensures ClaimedAt(registries, a, Claim(key, NamespaceLabel(namespace))) <==>
                                    key in LastNeeds(visits, namespace, a) {
      OwnedBy(visits, a, namespace, key);
    }
    forall key ensures NeededBySome(visits, a, key) <==>
                         a in registries && Declares(registries[a].repositories, key) {
      DeclaredIsNeeded(registries, visits, a, key);
    }
    if a in registries {
      var c := SomeClaim(registries[a].repositories);
      ClaimedIsDeclared(registries[a].repositories, c);
      assert NeededBySome(visits, a, c.key);
    }
  }

  lemma ClaimedIsDeclared(repositories: seq<Repository>, c: Claim)
    requires Claimed(repositories, c)
    ensures Declares(repositories, c.key)
  {
  }

  lemma DeclaredIsNeeded(registries: Registered, visits: seq<Attempt>, a: Address, key: Key)
    requires OwnedOk(registries, visits, a)
    ensures NeededBySome(visits, a, key) <==> a in registries && Declares(registries[a].repositories, key)
  {
    if a in registries && Declares(registries[a].repositories, key) {
      DeclaredIsClaimed(registries[a].repositories, key);
      var mark :| Claimed(registries[a].repositories, Claim(key, mark));
      assert ClaimedAt(registries, a, Claim(key, mark));
      assert Owned(visits, a, Claim(key, mark));
    }
    if NeededBySome(visits, a, key) {
      var n :| key in LastNeeds(visits, n, a);
      OwnedBy(visits, a, n, key);
      assert ClaimedAt(registries, a, Claim(key, NamespaceLabel(n)));
      ClaimedIsDeclared(registries[a].repositories, Claim(key, NamespaceLabel(n)));
    }
  }

  lemma OwnedBy(visits: seq<Attempt>, a: Address, namespace: string, key: Key)
    ensures Owned(visits, a, Claim(key, NamespaceLabel(namespace))) <==> key in LastNeeds(visits, namespace, a)
  {
    forall n | NamespaceLabel(n) == NamespaceLabel(namespace) ensures n == namespace {
      NamespaceLabelInjective(n, namespace);
    }
  }

  /** Every condition of a canonical list has an owner. */
  lemma DeclaredIsClaimed(repositories: seq<Repository>, key: Key)
    requires Canonical(repositories)
    ensures Declares(repositories, key) <==> exists mark :: Claimed(repositories, Claim(key, mark))
  {
    if Declares(repositories, key) {
      var r, m :| r in repositories && m in r.conditions && KeyOf(r.name, m) == key;
      assert ConditionOk(r.name, m);
      var mark := SomeLabel(m);
      assert Claimed(repositories, Claim(key, mark));
    }
  }

  lemma SomeClaim(repositories: seq<Repository>) returns (c: Claim)
    requires Canonical(repositories) && repositories != []
    ensures Claimed(repositories, c)
  {
    var r := repositories[0];
    assert r in repositories && r.conditions[0] in r.conditions;
    assert ConditionOk(r.name, r.conditions[0]);
    var mark := SomeLabel(r.conditions[0]);
    c := Claim(KeyOf(r.name, r.conditions[0]), mark);
  }

  lemma {:induction false} LastNeedsFrom(visits: seq<Attempt>, namespace: string, a: Address, key: Key) returns (i: nat)
    requires key in LastNeeds(visits, namespace, a)
    ensures i < |visits| && key in Needs(TagsAt(visits[i].visit.groups, a.uri))
  {
    var n := |visits| - 1;
    if Touches(visits[n], namespace, a) {
      i := n;
    } else {
      i := LastNeedsFrom(visits[..n], namespace, a, key);
    }
  }

  /** A declared repository is one some reconcile met in an image. */
  lemma NamesAreUsed(states: seq<Registered>, visits: seq<Attempt>, a: Address, r: Repository) returns (i: nat)
    requires Run(states, visits) && a in states[|visits|] && r in states[|visits|][a].repositories
    ensures i < |visits| && a.uri in visits[i].visit.groups && r.name in visits[i].visit.groups[a.uri]
  {
    LabelsAreLastNeeds(states, visits, a);
    var key := KeyOf(r.name, r.conditions[0]);
    assert r.conditions[0] in r.conditions && Declares(states[|visits|][a].repositories, key);
    assert NeededBySome(visits, a, key);
    var namespace :| key in LastNeeds(visits, namespace, a);
    i := LastNeedsFrom(visits, namespace, a, key);
  }

  // --- Where registries live --------------------------------------------------------

  /** A condition of a needed tag, claimed by the namespace. */
  ghost predicate HasReference(registries: Registered, a: Address, namespace: string, ref: Reference) {
    ClaimedAt(registries, a, Claim(TagKey(ref.repository, ref.tag), NamespaceLabel(namespace)))
  }

  /** After a reconcile without an error every reference the namespace uses is claimed in
      the configured artifacts namespace, or, when none is configured, in the workload
      namespace itself. */
  lemma ReferencesClaimed(before: Registered, v: Visit, after: Registered, images: set<string>,
                          parse: string -> Option<Reference>, ref: Reference)
    requires Visited(before, v, after) && Inhabited(v.groups)
    requires forall r :: InGroups(v.groups, r) <==> Used(images, parse, r)
    requires Used(images, parse, ref)
    ensures v.config.artifactsNamespace == "" ==>
              HasReference(after, Address(v.namespace, ref.uri), v.namespace, ref)
    ensures v.config.artifactsNamespace != "" ==>
              HasReference(after, Address(v.config.artifactsNamespace, ref.uri), v.namespace, ref)
  {
    hide Visited, Inhabited, ClaimedAt, Used, NamespaceLabel;
    assert InGroups(v.groups, ref);
    var key := TagKey(ref.repository, ref.tag);
    var a := Address(Home(v.config, v.namespace), ref.uri);
    NeedsGrouped(v.groups, ref);
    AttemptAt(before, Whole(v), after, a);
    VisitClaims(before, Whole(v), after, a, Claim(key, NamespaceLabel(v.namespace)));
  }

  lemma NeedsGrouped(groups: map<string, RepositoryTags>, ref: Reference)
    requires InGroups(groups, ref)
    ensures TagKey(ref.repository, ref.tag) in Needs(TagsAt(groups, ref.uri))
  {
  }

  /** Reconciles of two namespaces, failed ones included, change a registry in common only
      if an artifacts namespace is configured. */
  lemma NamespacesApart(s: Registered, x: Attempt, t: Registered, u: Registered, y: Attempt, w: Registered, a: Address)
    requires Attempted(s, x, t) && Attempted(u, y, w) && x.visit.namespace != y.visit.namespace
    requires x.visit.config.artifactsNamespace == "" && y.visit.config.artifactsNamespace == ""
    ensures Lookup(t, a) == Lookup(s, a) || Lookup(w, a) == Lookup(u, a)
  {
    hide Attempted, ReconciledAt;
    AttemptAt(s, x, t, a);
    AttemptAt(u, y, w, a);
  }

  // --- Order does not matter -----------------------------------------------------

  /** Two runs that agree on what each namespace needed last end with the same
      repository lists, in the same order. */
  lemma OrderIndependent(s: seq<Registered>, v: seq<Attempt>, t: seq<Registered>, w: seq<Attempt>, a: Address)
    requires Run(s, v) && Run(t, w)
    requires forall namespace :: LastNeeds(v, namespace, a) == LastNeeds(w, namespace, a)
    ensures a in s[|v|] <==> a in t[|w|]
    ensures a in s[|v|] ==> s[|v|][a].repositories == t[|w|][a].repositories
  {
    hide Attempted, Canonical, Claimed, NamespaceLabel;
    RunOwned(s, v, a);
    RunOwned(t, w, a);
    assert forall c :: Owned(v, a, c) <==> Owned(w, a, c);
    if a in s[|v|] {
      var c := SomeClaim(s[|v|][a].repositories);
      assert ClaimedAt(t[|w|], a, c);
    }
    if a in t[|w|] {
      var c := SomeClaim(t[|w|][a].repositories);
      assert ClaimedAt(s[|v|], a, c);
    }
    if a in s[|v|] {
      forall c ensures Claimed(s[|v|][a].repositories, c) <==> Claimed(t[|w|][a].repositories, c) {
        assert ClaimedAt(s[|v|], a, c) <==> ClaimedAt(t[|w|], a, c);
      }
      CanonicalUnique(s[|v|][a].repositories, t[|w|][a].repositories);
    }
  }

  lemma LastNeedsSwap(visits: seq<Attempt>, x: Attempt, y: Attempt, namespace: string, a: Address)
    requires x.visit.namespace != y.visit.namespace
    ensures LastNeeds(visits + [x] + [y], namespace, a) == LastNeeds(visits + [y] + [x], namespace, a)
  {
    LastNeedsAppend(visits, x, namespace, a);
    LastNeedsAppend(visits, y, namespace, a);
    LastNeedsAppend(visits + [x], y, namespace, a);
    LastNeedsAppend(visits + [y], x, namespace, a);
  }

  lemma LastNeedsAppend(visits: seq<Attempt>, t: Attempt, namespace: string, a: Address)
    ensures LastNeeds(visits + [t], namespace, a)
         == if Touches(t, namespace, a) then Needs(TagsAt(t.visit.groups, a.uri)) else LastNeeds(visits, namespace, a)
  {
    assert (visits + [t])[..|visits|] == visits;
  }

  /** Reconciles of two different namespaces commute, after any run. */
  lemma VisitsCommute(visits: seq<Attempt>, x: Attempt, y: Attempt, s: seq<Registered>, t: seq<Registered>, a: Address)
    requires x.visit.namespace != y.visit.namespace
    requires Run(s, visits + [x] + [y]) && Run(t, visits + [y] + [x])
    ensures var n := |visits| + 2;
            && (a in s[n] <==> a in t[n])
            && (a in s[n] ==> s[n][a].repositories == t[n][a].repositories)
  {
    hide Run;
    forall namespace { LastNeedsSwap(visits, x, y, namespace, a); }
    OrderIndependent(s, visits + [x] + [y], t, visits + [y] + [x], a);
  }

  /** A reconcile that failed half way and is repeated ends where one that did not
      fail ends. */
  lemma RetryCatchesUp(visits: seq<Attempt>, v: Visit, done: set<string>, w: Visit, s: seq<Registered>,
                       t: seq<Registered>, a: Address)
    requires w == v.(uuid := w.uuid)
    requires Run(s, visits + [Cut(v, done)] + [Whole(w)]) && Run(t, visits + [Whole(v)])
    ensures var m, n := |visits| + 2, |visits| + 1;
            && (a in s[m] <==> a in t[n])
            && (a in s[m] ==> s[m][a].repositories == t[n][a].repositories)
  {
    hide Run;
    var cut := visits + [Cut(v, done)];
    forall namespace ensures LastNeeds(cut + [Whole(w)], namespace, a) == LastNeeds(visits + [Whole(v)], namespace, a) {
      LastNeedsAppend(visits, Cut(v, done), namespace, a);
      LastNeedsAppend(visits, Whole(v), namespace, a);
      LastNeedsAppend(cut, Whole(w), namespace, a);
    }
    OrderIndependent(s, cut + [Whole(w)], t, visits + [Whole(v)], a);
  }

  // --- Repetition changes nothing ---------------------------------------------------

  /** Reconciling a namespace again with the same images and configuration leaves
      every registry as it is and adds no rescan request. */
  lemma VisitTwice(s: Registered, v: Visit, t: Registered, w: Visit, u: Registered, a: Address)
    requires Visited(s, v, t) && Visited(t, w, u) && Inhabited(v.groups)
    requires w == v.(uuid := w.uuid)
    requires a in s ==> Canonical(s[a].repositories) && s[a].repositories != []
    ensures Lookup(u, a) == Lookup(t, a)
  {
    if a.namespace == Home(v.config, v.namespace) {
      hide NamespaceLabel, Home, Needs, Inhabited, Claimed, Canonical, Requested;
      assert ReconciledAt(s, v, t, a) && ReconciledAt(t, w, u, a);
      assert AttemptedAt(s, Whole(v), t, a);
      var mark, tags := NamespaceLabel(v.namespace), TagsAt(v.groups, a.uri);
      if a in t {
        VisitCanonical(s, Whole(v), t, a);
        forall c ensures Claimed(t[a].repositories, c) <==> NextClaim(t[a].repositories, mark, Needs(tags), c) {
          VisitClaims(s, Whole(v), t, a, c);
        }
        StillClaimed(t[a].repositories, mark, Needs(tags));
        SameRegistry(t[a], mark, Needs(tags), v.config, w.uuid(a.uri), u[a]);
        assert t[a].settings == v.config.settings;
      } else {
        NothingNeeded(s, v, t, a);
      }
    } else {
      assert Lookup(t, a) == Lookup(s, a);
      assert Lookup(u, a) == Lookup(t, a);
    }
  }

  lemma StillClaimed(repositories: seq<Repository>, mark: string, needs: set<Key>)
    requires Canonical(repositories) && repositories != []
    requires forall c :: Claimed(repositories, c) <==> NextClaim(repositories, mark, needs, c)
    ensures !Unclaimed(repositories, mark, needs)
  {
    hide Canonical, Claimed;
    var c := SomeClaim(repositories);
  }

  lemma SameRegistry(before: Registry, mark: string, needs: set<Key>, config: Config, uuid: string, after: Registry)
    requires Updated(before, mark, needs, config, uuid, after) && Canonical(before.repositories)
    requires forall c :: Claimed(before.repositories, c) <==> NextClaim(before.repositories, mark, needs, c)
    ensures after.repositories == before.repositories && after.requests == before.requests
  {
    hide Canonical, Claimed, NextClaim, TargetsFor, Declares;
    CanonicalUnique(before.repositories, after.repositories);
    var added :| Requested(before, after, config.scanOnChange, uuid, added);
    assert added == {};
  }

  /** A registry that is gone, or was never made, is not needed. */
  lemma NothingNeeded(s: Registered, v: Visit, t: Registered, a: Address)
    requires Visited(s, v, t) && Inhabited(v.groups) && a !in t && a.namespace == Home(v.config, v.namespace)
    ensures TagsAt(v.groups, a.uri) == map[]
  {
    assert ReconciledAt(s, v, t, a);
    var tags := TagsAt(v.groups, a.uri);
    hide NamespaceLabel, Home, Claimed, Canonical, Updated;
    if tags != map[] {
      var key := NeedsSomething(tags);
      VisitClaims(s, Whole(v), t, a, Claim(key, NamespaceLabel(v.namespace)));
    }
  }

  lemma DeclaredOk(repositories: seq<Repository>, key: Key)
    requires Canonical(repositories) && Declares(repositories, key)
    ensures KeyOk(key)
  {
    var r, m :| r in repositories && m in r.conditions && KeyOf(r.name, m) == key;
    assert ConditionOk(r.name, m);
  }
}
