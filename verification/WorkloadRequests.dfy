/** The rescan requests two namespaces leave on a registry they share, in either order. */
module WorkloadRequests {
  import opened Ordering
  import opened Registries
  import opened WorkloadRegistry
  import opened WorkloadFleet
  import opened WorkloadRuns

  // --- The conditions that are new -----------------------------------------------------

  ghost predicate NewKey(before: seq<Repository>, after: seq<Repository>, key: Key) {
    Declares(after, key) && !Declares(before, key)
  }

  /** A condition only one namespace claims, which it drops while the other takes it up. */
  ghost predicate HandedOver(r: seq<Repository>, from: string, fromNeeds: set<Key>, toNeeds: set<Key>, key: Key) {
    && key in toNeeds && key !in fromNeeds
    && Claimed(r, Claim(key, from)) && forall mark :: Claimed(r, Claim(key, mark)) ==> mark == from
  }

  /** The conditions two updates in a row ask to rescan. */
  lemma AskedInTurn(r: seq<Repository>, a: string, aNeeds: set<Key>, b: string, bNeeds: set<Key>,
                    s: seq<Repository>, t: seq<Repository>, key: Key)
    requires Canonical(r) && a != b && Reclaimed(r, a, aNeeds, s) && Reclaimed(s, b, bNeeds, t)
    ensures NewKey(r, s, key) || NewKey(s, t, key) <==>
        ((key in aNeeds || key in bNeeds) && !Declares(r, key)) || HandedOver(r, a, aNeeds, bNeeds, key)
  {
    hide Canonical, Claimed, Declares;
    DeclaredIsClaimed(r, key);
    DeclaredIsClaimed(s, key);
    DeclaredIsClaimed(t, key);
    if key in aNeeds { assert Claimed(s, Claim(key, a)); }
    if key in bNeeds { assert Claimed(t, Claim(key, b)); }
  }

  lemma NewKeysCommute(r: seq<Repository>, a: string, aNeeds: set<Key>, b: string, bNeeds: set<Key>,
                        ra: seq<Repository>, rab: seq<Repository>, rb: seq<Repository>, rba: seq<Repository>)
    requires Canonical(r) && a != b
    requires Reclaimed(r, a, aNeeds, ra) && Reclaimed(ra, b, bNeeds, rab)
    requires Reclaimed(r, b, bNeeds, rb) && Reclaimed(rb, a, aNeeds, rba)
    ensures (forall key :: NewKey(r, ra, key) || NewKey(ra, rab, key) <==> NewKey(r, rb, key) || NewKey(rb, rba, key))
       <==> (forall key :: !HandedOver(r, a, aNeeds, bNeeds, key) && !HandedOver(r, b, bNeeds, aNeeds, key))
  {
    hide Canonical, Reclaimed, NewKey, HandedOver, Declares;
    forall key ensures NewKey(r, ra, key) || NewKey(ra, rab, key) <==>
        ((key in aNeeds || key in bNeeds) && !Declares(r, key)) || HandedOver(r, a, aNeeds, bNeeds, key) {
      AskedInTurn(r, a, aNeeds, b, bNeeds, ra, rab, key);
    }
    forall key ensures NewKey(r, rb, key) || NewKey(rb, rba, key) <==>
        ((key in aNeeds || key in bNeeds) && !Declares(r, key)) || HandedOver(r, b, bNeeds, aNeeds, key) {
      AskedInTurn(r, b, bNeeds, a, aNeeds, rb, rba, key);
    }
    forall key ensures HandedOver(r, a, aNeeds, bNeeds, key) ==>
        Declares(r, key) && !HandedOver(r, b, bNeeds, aNeeds, key) {
      OneHandOver(r, a, aNeeds, b, bNeeds, key);
    }
    forall key ensures HandedOver(r, b, bNeeds, aNeeds, key) ==>
        Declares(r, key) && !HandedOver(r, a, aNeeds, bNeeds, key) {
      OneHandOver(r, b, bNeeds, a, aNeeds, key);
    }
  }

  lemma OneHandOver(r: seq<Repository>, a: string, aNeeds: set<Key>, b: string, bNeeds: set<Key>, key: Key)
    requires a != b
    ensures HandedOver(r, a, aNeeds, bNeeds, key) ==> Declares(r, key) && !HandedOver(r, b, bNeeds, aNeeds, key)
  {
  }

  // --- The requests --------------------------------------------------------------------------

  /** The declared repositories of a registry that may not be there. */
  function ListOf(r: Option<Registry>): seq<Repository> { if r.Some? then r.value.repositories else [] }

  /** A request asks for a condition it lists, or for the whole registry. */
  ghost predicate Asks(request: seq<Target>, key: Key) {
    request == [] || Listed(request, key.repository, key.name)
  }

  /** A declared condition for which a request was added since `before`. */
  ghost predicate NewlyAsked(before: Option<Registry>, after: Option<Registry>, key: Key) {
    && after.Some? && Declares(after.value.repositories, key)
    && exists uuid :: uuid in after.value.requests && !(before.Some? && uuid in before.value.requests)
                      && Asks(after.value.requests[uuid], key)
  }

  /** What one reconcile does to the claims and the requests of a registry. */
  ghost predicate Turn(before: Option<Registry>, namespace: string, needs: set<Key>, uuid: string,
                       after: Option<Registry>) {
    && Reclaimed(ListOf(before), NamespaceLabel(namespace), needs, ListOf(after))
    && (before.Some? && after.Some? ==> exists added :: Requested(before.value, after.value, true, uuid, added))
    && (before == None && after.Some? ==> after.value.requests == map[uuid := []])
  }

  lemma NoClaims()
    ensures Canonical([]) && forall c :: !Claimed([], c)
  {
  }

  lemma VisitTurns(before: Registered, v: Visit, after: Registered, a: Address)
    requires Visited(before, v, after) && Inhabited(v.groups)
    requires a.namespace == Home(v.config, v.namespace) && v.config.scanOnChange
    ensures Turn(Lookup(before, a), v.namespace, Needs(TagsAt(v.groups, a.uri)), v.uuid(a.uri), Lookup(after, a))
  {
    hide NamespaceLabel, Needs, Home, Claimed, Canonical, Requested;
    assert ReconciledAt(before, v, after, a);
    NoClaims();
    ClaimsNothing(map[]);
  }

  lemma AskedAdded(request: seq<Target>, added: set<Key>, key: Key)
    requires TargetsFor(request, added) && added != {} && KeyOk(key) && forall k :: k in added ==> KeyOk(k)
    ensures Asks(request, key) <==> key in added
  {
    hide SortedTargets, KeyOk;
    var some :| some in added;
    assert Asked(added, some.repository, some.name) && Listed(request, some.repository, some.name);
    if key in added { assert Asked(added, key.repository, key.name); }
    if Listed(request, key.repository, key.name) {
      assert Asked(added, key.repository, key.name);
      var k :| k in added && k.repository == key.repository && k.name == key.name;
      KeyByName(k, key);
    }
  }

  /** The requests after one turn of a registry that stays. */
  lemma TurnAsks(before: Registry, after: Registry, uuid: string, key: Key)
    requires exists added :: Requested(before, after, true, uuid, added)
    requires Canonical(after.repositories) && KeyOk(key) && uuid !in before.requests
    ensures forall u :: u in before.requests ==> u in after.requests && after.requests[u] == before.requests[u]
    ensures forall u :: u in after.requests ==> u in before.requests || u == uuid
    ensures uuid in after.requests && Asks(after.requests[uuid], key) <==>
        NewKey(before.repositories, after.repositories, key)
  {
    hide Canonical, Declares, TargetsFor, KeyOk, Asks;
    var added: set<Key> :| Requested(before, after, true, uuid, added);
    if added != {} {
      forall k | k in added ensures KeyOk(k) { DeclaredOk(after.repositories, k); }
      AskedAdded(after.requests[uuid], added, key);
    }
  }

  /** What is new is still there after another namespace's turn. */
  lemma NewStays(r: seq<Repository>, a: string, aNeeds: set<Key>, s: seq<Repository>, b: string, bNeeds: set<Key>,
                 t: seq<Repository>, key: Key)
    requires Canonical(r) && a != b && Reclaimed(r, a, aNeeds, s) && Reclaimed(s, b, bNeeds, t) && NewKey(r, s, key)
    ensures Declares(t, key)
  {
    hide Canonical, Claimed, Declares;
    DeclaredIsClaimed(r, key);
    DeclaredIsClaimed(s, key);
    DeclaredIsClaimed(t, key);
    var mark :| Claimed(s, Claim(key, mark));
    assert Claimed(t, Claim(key, a));
  }

  lemma NothingDeclared(key: Key)
    ensures !Declares([], key)
  {
  }

  ghost predicate Unused(r: Option<Registry>, uuid: string) { r.Some? ==> uuid !in r.value.requests }

  /** Two turns ask for what is new in either, also when the first deletes the registry
      and the second makes it anew. */
  lemma AskedTwice(r: Option<Registry>, a: string, aNeeds: set<Key>, ua: string, s: Option<Registry>,
                   b: string, bNeeds: set<Key>, ub: string, t: Option<Registry>, key: Key)
    requires Turn(r, a, aNeeds, ua, s) && Turn(s, b, bNeeds, ub, t) && Canonical(ListOf(r))
    requires a != b && ua != ub && Unused(r, ua) && Unused(r, ub)
    ensures NewlyAsked(r, t, key) <==> NewKey(ListOf(r), ListOf(s), key) || NewKey(ListOf(s), ListOf(t), key)
  {
    hide Canonical, Declares, Asks, NamespaceLabel, Requested;
    NamespaceLabelInjective(a, b);
    NothingDeclared(key);
    if NewKey(ListOf(r), ListOf(s), key) {
      NewStays(ListOf(r), NamespaceLabel(a), aNeeds, ListOf(s), NamespaceLabel(b), bNeeds, ListOf(t), key);
    }
    if Declares(ListOf(t), key) {
      DeclaredOk(ListOf(t), key);
      assert t.Some?;
      if r.Some? && s.Some? { TurnAsks(r.value, s.value, ua, key); }
      if s.Some? { TurnAsks(s.value, t.value, ub, key); }
      AskedHere(r, s, ua, t, ub, key);
    }
  }

  lemma WholeAsks(key: Key)
    ensures Asks([], key)
  {
  }

  lemma AskedHere(r: Option<Registry>, s: Option<Registry>, ua: string, t: Option<Registry>, ub: string, key: Key)
    requires t.Some? && Declares(t.value.repositories, key)
    requires ua != ub && Unused(r, ua) && Unused(r, ub) && Unused(s, ub)
    requires s == None ==> t.value.requests == map[ub := []]
    requires r == None && s.Some? ==> s.value.requests == map[ua := []]
    requires r.Some? && s.Some? ==>
               && (forall u :: u in s.value.requests <==> u in r.value.requests || (u == ua && u in s.value.requests))
               && (ua in s.value.requests && Asks(s.value.requests[ua], key) <==> NewKey(ListOf(r), ListOf(s), key))
    requires s.Some? ==>
               && (forall u :: u in s.value.requests ==>
                     u in t.value.requests && t.value.requests[u] == s.value.requests[u])
               && (forall u :: u in t.value.requests ==> u in s.value.requests || u == ub)
               && (ub in t.value.requests && Asks(t.value.requests[ub], key) <==> NewKey(ListOf(s), ListOf(t), key))
    ensures NewlyAsked(r, t, key) <==> NewKey(ListOf(r), ListOf(s), key) || NewKey(ListOf(s), ListOf(t), key)
  {
    hide Declares, Asks;
    NothingDeclared(key);
    WholeAsks(key);
    if s == None {
      assert ub in t.value.requests && t.value.requests[ub] == [];
    } else if r == None {
      assert ua in s.value.requests && t.value.requests[ua] == [];
    } else {
      if NewKey(ListOf(r), ListOf(s), key) { assert ua in t.value.requests && ua !in r.value.requests; }
      if NewKey(ListOf(s), ListOf(t), key) { assert ub in t.value.requests && ub !in r.value.requests; }
    }
  }

  /** Two reconciles of a registry leave requests for the same conditions in either
      order if and only if no condition is handed over from one namespace to the other.
      The registry may be missing before, be deleted by one of them or made anew. */
  lemma RequestsCommute(s: Registered, x: Visit, y: Visit, sx: Registered, sxy: Registered, sy: Registered,
                        syx: Registered, a: Address)
    requires Visited(s, x, sx) && Visited(sx, y, sxy) && Visited(s, y, sy) && Visited(sy, x, syx)
    requires x.namespace != y.namespace && x.config.scanOnChange && y.config.scanOnChange
    requires Home(x.config, x.namespace) == a.namespace == Home(y.config, y.namespace)
    requires Inhabited(x.groups) && Inhabited(y.groups) && Canonical(ListOf(Lookup(s, a)))
    // freshly drawn annotation keys
    requires x.uuid(a.uri) != y.uuid(a.uri)
    requires Unused(Lookup(s, a), x.uuid(a.uri)) && Unused(Lookup(s, a), y.uuid(a.uri))
    ensures var mx, my := NamespaceLabel(x.namespace), NamespaceLabel(y.namespace);
            var nx, ny := Needs(TagsAt(x.groups, a.uri)), Needs(TagsAt(y.groups, a.uri));
            var r := Lookup(s, a);
            (forall key :: NewlyAsked(r, Lookup(sxy, a), key) <==> NewlyAsked(r, Lookup(syx, a), key)) <==>
            (forall key :: !HandedOver(ListOf(r), mx, nx, ny, key) && !HandedOver(ListOf(r), my, ny, nx, key))
  {
    var nx, ny := Needs(TagsAt(x.groups, a.uri)), Needs(TagsAt(y.groups, a.uri));
    var ux, uy := x.uuid(a.uri), y.uuid(a.uri);
    VisitTurns(s, x, sx, a);
    VisitTurns(sx, y, sxy, a);
    VisitTurns(s, y, sy, a);
    VisitTurns(sy, x, syx, a);
    hide Visited, Home, Needs, Turn, Canonical, HandedOver, NewlyAsked, NewKey, Inhabited, Unused, Lookup, ListOf;
    TurnsCommute(Lookup(s, a), x.namespace, nx, ux, Lookup(sx, a), y.namespace, ny, uy, Lookup(sxy, a), Lookup(sy, a),
                 Lookup(syx, a));
  }

  lemma TurnsCommute(r: Option<Registry>, a: string, aNeeds: set<Key>, ua: string, ra: Option<Registry>,
                     b: string, bNeeds: set<Key>, ub: string, rab: Option<Registry>, rb: Option<Registry>,
                     rba: Option<Registry>)
    requires Turn(r, a, aNeeds, ua, ra) && Turn(ra, b, bNeeds, ub, rab)
    requires Turn(r, b, bNeeds, ub, rb) && Turn(rb, a, aNeeds, ua, rba)
    requires a != b && ua != ub && Unused(r, ua) && Unused(r, ub) && Canonical(ListOf(r))
    ensures (forall key :: NewlyAsked(r, rab, key) <==> NewlyAsked(r, rba, key)) <==>
        (forall key :: !HandedOver(ListOf(r), NamespaceLabel(a), aNeeds, bNeeds, key)
                    && !HandedOver(ListOf(r), NamespaceLabel(b), bNeeds, aNeeds, key))
  {
    NamespaceLabelInjective(a, b);
    NewKeysCommute(ListOf(r), NamespaceLabel(a), aNeeds, NamespaceLabel(b), bNeeds,
                   ListOf(ra), ListOf(rab), ListOf(rb), ListOf(rba));
    hide Turn, Canonical, NewKey, NewlyAsked, HandedOver, NamespaceLabel, ListOf, Unused;
    forall key ensures NewlyAsked(r, rab, key) <==>
        NewKey(ListOf(r), ListOf(ra), key) || NewKey(ListOf(ra), ListOf(rab), key) {
      AskedTwice(r, a, aNeeds, ua, ra, b, bNeeds, ub, rab, key);
    }
    forall key ensures NewlyAsked(r, rba, key) <==>
        NewKey(ListOf(r), ListOf(rb), key) || NewKey(ListOf(rb), ListOf(rba), key) {
      AskedTwice(r, b, bNeeds, ub, rb, a, aNeeds, ua, rba, key);
    }
  }
}
