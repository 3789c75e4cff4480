/** From newly added conditions to scanned tags: the request the workload
    reconciler writes, merged, validated, narrowed and filtered. */
module RescanScope {
  import opened Ordering
  import opened Registries
  import opened WorkloadRegistry
  import opened WorkloadFleet
  import opened WorkloadRuns
  import opened RescanTargets
  import opened ScanScope

  // --- Names and aliases --------------------------------------------------------------

  /** On Docker Hub, `q` is declared under the short form of `r`'s name. */
  ghost predicate Aliased(uri: string, q: Repository, r: Repository) {
    uri == DEFAULT_REGISTRY && r.name == LIBRARY + q.name
  }

  lemma LibraryPrefix(a: string, b: string)
    ensures LIBRARY + a == LIBRARY + b ==> a == b
    ensures '/' in LIBRARY + a
    ensures TrimPrefix(LIBRARY + a, LIBRARY) == a
  {
    assert (LIBRARY + a)[|LIBRARY|..] == a && (LIBRARY + b)[|LIBRARY|..] == b;
    assert (LIBRARY + a)[7] == '/';
  }

  lemma MatchesMeans(uri: string, q: Repository, name: string)
    ensures Matches(uri, q, name) <==>
        q.name == name || (uri == "index.docker.io" && name == "library/" + q.name)
  {
    if LIBRARY <= name { assert name == LIBRARY + name[|LIBRARY|..]; }
    LibraryPrefix(q.name, q.name);
  }

  lemma FullNameTwice(uri: string, name: string)
    ensures FullName(uri, FullName(uri, name)) == FullName(uri, name)
  {
    LibraryPrefix(name, name);
  }

  /** A repository is found under its own full name. */
  lemma MatchesOwn(uri: string, r: Repository)
    ensures Matches(uri, r, r.name) && Matches(uri, r, FullName(uri, r.name))
  {
    LibraryPrefix(r.name, r.name);
  }

  /** Two repositories of one full name are the same or one is the other's alias. */
  lemma SameFullName(uri: string, q: Repository, r: Repository)
    requires FullName(uri, q.name) == FullName(uri, r.name)
    ensures q.name == r.name || (Aliased(uri, q, r) && '/' !in q.name) || (Aliased(uri, r, q) && '/' !in r.name)
  {
    LibraryPrefix(q.name, r.name);
  }

  lemma {:induction false} FirstMatch(uri: string, repositories: seq<Repository>, r: Repository, name: string)
    returns (j: nat)
    requires r in repositories && Matches(uri, r, name)
    ensures j < |repositories| && GetRepository(uri, repositories, name) == Some(repositories[j])
    ensures Matches(uri, repositories[j], name)
    ensures forall i :: 0 <= i < |repositories| && Matches(uri, repositories[i], name) ==> j <= i
  {
    hide Matches;
    if Matches(uri, repositories[0], name) {
      j := 0;
    } else {
      var rest := repositories[1..];
      assert r in rest;
      var k := FirstMatch(uri, rest, r, name);
      j := k + 1;
      forall i | 0 <= i < |repositories| && Matches(uri, repositories[i], name) ensures j <= i {
        assert rest[i - 1] == repositories[i];
      }
    }
  }

  /** In sorted order, a declared name finds its own repository or an alias before it. */
  lemma SortedMatch(uri: string, repositories: seq<Repository>, r: Repository) returns (q: Repository)
    requires StrictlySorted(RepositoryName, repositories) && r in repositories
    ensures GetRepository(uri, repositories, r.name) == Some(q) && q in repositories
    ensures q == r || (Aliased(uri, q, r) && Less(q.name, r.name))
    ensures q == r ==> forall p :: p in repositories && Aliased(uri, p, r) ==> !Less(p.name, r.name)
  {
    MatchesOwn(uri, r);
    var j := FirstMatch(uri, repositories, r, r.name);
    q := repositories[j];
    MatchesMeans(uri, q, r.name);
    var i :| 0 <= i < |repositories| && repositories[i] == r;
    hide GetRepository, Matches, FullName;
    assert j == i || Less(RepositoryName(repositories[j]), RepositoryName(repositories[i]));
    if q == r {
      forall p | p in repositories && Aliased(uri, p, r) ensures !Less(p.name, r.name) {
        var k :| 0 <= k < |repositories| && repositories[k] == p;
        MatchesMeans(uri, p, r.name);
        if k != j { assert Less(RepositoryName(repositories[j]), RepositoryName(repositories[k])); }
        LessIsStrict(p.name, r.name);
      }
    } else if q.name == r.name {
      LessIsStrict(q.name, r.name);
    }
  }

  // --- What the narrowed registry scans -----------------------------------------------

  ghost predicate Narrows(uri: string, repositories: seq<Repository>, targets: seq<Target>, narrowed: seq<Repository>) {
    && |narrowed| == |targets|
    && forall i :: 0 <= i < |targets| ==> Some(narrowed[i]) == NarrowOne(uri, repositories, targets[i])
  }

  /** A tag of a repository, by its full name, that is reached through a declared
      repository and let through by the filter looked up under the full name. */
  ghost predicate Scanned(uri: string, repositories: seq<Repository>, evaluate: Evaluator, full: string, tag: string) {
    && (exists r :: r in repositories && FullName(uri, r.name) == full)
    && var r := GetRepository(uri, repositories, full); r.Some? && Admits(evaluate, r.value, tag)
  }

  /** A condition on the tag, under any name of the repository. */
  ghost predicate WantedTag(uri: string, keys: set<Key>, full: string, tag: string) {
    exists name :: TagKey(name, tag) in keys && FullName(uri, name) == full
  }

  /** The targets are accepted and scan exactly the given conditions. */
  ghost predicate ScansExactly(uri: string, repositories: seq<Repository>, evaluate: Evaluator, targets: seq<Target>,
                               keys: set<Key>) {
    && (forall t :: t in targets ==> TargetValid(uri, repositories, t) && NarrowOne(uri, repositories, t).Some?)
    && forall narrowed :: Narrows(uri, repositories, targets, narrowed) ==>
         forall full, tag :: Scanned(uri, narrowed, evaluate, full, tag) <==> WantedTag(uri, keys, full, tag)
  }

  // --- When an alias does no harm ----------------------------------------------------

  /** The same one condition. */
  ghost predicate Twins(q: Repository, r: Repository) {
    |q.conditions| == 1 && |r.conditions| == 1 && q.conditions[0].name == r.conditions[0].name
  }

  /** An official image under both its names must have the one same condition under
      both. A longer name is another repository, and must not precede. */
  ghost predicate Harmless(q: Repository, r: Repository) {
    if '/' in q.name then !Less(q.name, r.name) else Twins(q, r)
  }

  ghost predicate Unambiguous(uri: string, repositories: seq<Repository>) {
    forall q, r :: q in repositories && r in repositories && Aliased(uri, q, r) ==> Harmless(q, r)
  }

  ghost predicate Names(keys: set<Key>, name: string) {
    exists key :: key in keys && key.repository == name
  }

  /** No alias harms a repository the keys name. */
  ghost predicate Clear(uri: string, repositories: seq<Repository>, keys: set<Key>) {
    forall q, r ::
      q in repositories && r in repositories && Aliased(uri, q, r) && Names(keys, r.name) ==> Harmless(q, r)
  }

  ghost predicate Declared(repositories: seq<Repository>, keys: set<Key>) {
    forall key :: key in keys ==> KeyOk(key) && Declares(repositories, key)
  }

  // --- Clear requests are scanned exactly ------------------------------------------------

  /** What is known of the keys, the targets that ask for them and the registry. */
  ghost predicate Setting(uri: string, repositories: seq<Repository>, keys: set<Key>, targets: seq<Target>) {
    && Canonical(repositories) && Declared(repositories, keys) && TargetsFor(targets, keys)
    && Clear(uri, repositories, keys)
  }

  lemma DeclaredIn(repositories: seq<Repository>, keys: set<Key>, targets: seq<Target>, t: Target, c: string)
    returns (r: Repository)
    requires Declared(repositories, keys) && TargetsFor(targets, keys) && t in targets && c in t.conditions
    ensures r in repositories && r.name == t.name && HasCondition(r.conditions, c) && Names(keys, t.name)
  {
    assert Listed(targets, t.name, c);
    assert Asked(keys, t.name, c);
    var key :| key in keys && key.repository == t.name && key.name == c;
    var q, m :| q in repositories && m in q.conditions && KeyOf(q.name, m) == key;
    r := q;
  }

  /** The declared repository a target names, with all the conditions it lists. */
  lemma TargetDeclared(repositories: seq<Repository>, keys: set<Key>, targets: seq<Target>, t: Target)
    returns (r: Repository)
    requires Canonical(repositories) && Declared(repositories, keys) && TargetsFor(targets, keys) && t in targets
    ensures r in repositories && r.name == t.name && Names(keys, t.name) && t.conditions != []
    ensures forall c :: c in t.conditions ==> HasCondition(r.conditions, c)
  {
    hide Canonical, Declared, HasCondition;
    r := DeclaredIn(repositories, keys, targets, t, t.conditions[0]);
    CanonicalIsTidy(repositories);
    forall c | c in t.conditions ensures HasCondition(r.conditions, c) {
      var q := DeclaredIn(repositories, keys, targets, t, c);
      DistinctMember(RepositoryName, repositories, r, q);
    }
  }

  lemma TwinHas(q: Repository, r: Repository, c: string)
    requires Twins(q, r) && HasCondition(r.conditions, c)
    ensures HasCondition(q.conditions, c) && c == q.conditions[0].name
  {
    assert q.conditions[0] in q.conditions;
  }

  /** The repository a target is applied to has the full name of the one it names. */
  lemma TargetResolves(uri: string, repositories: seq<Repository>, keys: set<Key>, targets: seq<Target>, t: Target)
    returns (r: Repository, q: Repository)
    requires Setting(uri, repositories, keys, targets) && t in targets
    ensures r in repositories && r.name == t.name && Names(keys, t.name)
    ensures q in repositories && GetRepository(uri, repositories, t.name) == Some(q)
    ensures q == r || (Aliased(uri, q, r) && '/' !in q.name && Twins(q, r))
    ensures FullName(uri, q.name) == FullName(uri, r.name)
    ensures forall c :: c in t.conditions ==> HasCondition(r.conditions, c) && HasCondition(q.conditions, c)
  {
    r := TargetDeclared(repositories, keys, targets, t);
    q := SortedMatch(uri, repositories, r);
    hide Canonical, Declared, TargetsFor, HasCondition, GetRepository;
    if q != r {
      assert Harmless(q, r);
      LibraryPrefix(q.name, r.name);
      forall c | c in t.conditions ensures HasCondition(q.conditions, c) {
        TwinHas(q, r, c);
      }
    }
  }

  lemma OkOf(repositories: seq<Repository>, r: Repository)
    requires Canonical(repositories) && r in repositories
    ensures RepositoryOk(r)
  {
  }

  lemma TargetAccepted(uri: string, repositories: seq<Repository>, keys: set<Key>, targets: seq<Target>, t: Target)
    requires Setting(uri, repositories, keys, targets) && t in targets
    ensures TargetValid(uri, repositories, t) && NarrowOne(uri, repositories, t).Some?
  {
    hide Canonical, Declared, TargetsFor, Clear, HasCondition, GetRepository, NarrowOne, RepositoryOk;
    var r, q := TargetResolves(uri, repositories, keys, targets, t);
    OkOf(repositories, q);
    OkDistinct(q);
    TargetAgrees(uri, repositories, t);
  }

  lemma OkDistinct(r: Repository)
    requires RepositoryOk(r)
    ensures DistinctKeys(ConditionName, r.conditions)
  {
  }

  lemma NarrowedName(uri: string, repositories: seq<Repository>, t: Target)
    requires NarrowOne(uri, repositories, t).Some?
    ensures GetRepository(uri, repositories, t.name).Some?
    ensures NarrowOne(uri, repositories, t).value.name == GetRepository(uri, repositories, t.name).value.name
  {
  }

  /** What one narrowed entry admits. */
  lemma EntryAdmits(uri: string, repositories: seq<Repository>, evaluate: Evaluator, t: Target, r: Repository,
                    n: Repository, tag: string)
    requires TagSemantics(evaluate) && RepositoryOk(r) && t.conditions != []
    requires GetRepository(uri, repositories, t.name) == Some(r) && NarrowOne(uri, repositories, t) == Some(n)
    requires forall c :: c in t.conditions ==> HasCondition(r.conditions, c)
    ensures Admits(evaluate, n, tag) <==> TagName(tag) in t.conditions
  {
    assert t.conditions[0] in NameSet(t);
    assert n.conditions == Chosen(r.conditions, NameSet(t)) && n.conditions != [];
    if Admits(evaluate, n, tag) {
      var m :| m in n.conditions && evaluate(m.expression, tag) == Some(true);
      assert ConditionOk(r.name, m);
      assert m.expression.tag == tag;
    }
    if TagName(tag) in t.conditions {
      var m :| m in r.conditions && m.name == TagName(tag);
      assert ConditionOk(r.name, m);
      TagNameInjective(m.expression.tag, tag);
      assert TagName(tag) in NameSet(t) && m in n.conditions;
      assert evaluate(m.expression, tag) == Some(true);
    }
  }

  /** The name, and what is admitted, of the entry a target is narrowed to. */
  lemma Entry(uri: string, repositories: seq<Repository>, evaluate: Evaluator, keys: set<Key>, targets: seq<Target>,
              narrowed: seq<Repository>, i: int)
    requires Setting(uri, repositories, keys, targets) && Narrows(uri, repositories, targets, narrowed)
    requires TagSemantics(evaluate) && 0 <= i < |targets|
    ensures FullName(uri, narrowed[i].name) == FullName(uri, targets[i].name)
    ensures '/' in narrowed[i].name ==> narrowed[i].name == targets[i].name
    ensures forall tag :: Admits(evaluate, narrowed[i], tag) <==> TagName(tag) in targets[i].conditions
  {
    var t := targets[i];
    assert t in targets && Some(narrowed[i]) == NarrowOne(uri, repositories, t);
    hide Canonical, Declared, Clear, HasCondition, GetRepository, NarrowOne, RepositoryOk, Admits, TagSemantics;
    var r, q := TargetResolves(uri, repositories, keys, targets, t);
    OkOf(repositories, q);
    NarrowedName(uri, repositories, t);
    forall tag ensures Admits(evaluate, narrowed[i], tag) <==> TagName(tag) in t.conditions {
      EntryAdmits(uri, repositories, evaluate, t, q, narrowed[i], tag);
    }
  }

  /** A longer name and its alias are found in the order of the targets. */
  lemma NoAliasBefore(uri: string, repositories: seq<Repository>, keys: set<Key>, targets: seq<Target>, i: int, j: int)
    requires Setting(uri, repositories, keys, targets)
    requires 0 <= i < |targets| && 0 <= j < |targets|
    requires uri == DEFAULT_REGISTRY && targets[i].name == LIBRARY + targets[j].name && '/' in targets[j].name
    ensures i < j
  {
    assert targets[i] in targets && targets[j] in targets;
    var r := TargetDeclared(repositories, keys, targets, targets[i]);
    var q := TargetDeclared(repositories, keys, targets, targets[j]);
    assert Aliased(uri, q, r);
    assert Harmless(q, r);
    assert SortedTargets(targets);
    hide Canonical, Declared, Clear;
    assert j < i ==> Less(TargetName(targets[j]), TargetName(targets[i]));
    assert |targets[i].name| == |LIBRARY| + |targets[j].name|;
  }

  /** The filter found under an entry's full name is that of an entry of that full name. */
  lemma FilterFound(uri: string, repositories: seq<Repository>, evaluate: Evaluator, keys: set<Key>,
                    targets: seq<Target>,
                    narrowed: seq<Repository>, i: int) returns (j: nat)
    requires Setting(uri, repositories, keys, targets) && Narrows(uri, repositories, targets, narrowed)
    requires TagSemantics(evaluate) && 0 <= i < |targets|
    ensures j < |targets| && GetRepository(uri, narrowed, FullName(uri, targets[i].name)) == Some(narrowed[j])
    ensures FullName(uri, targets[j].name) == FullName(uri, targets[i].name)
  {
    hide Setting, Narrows, TagSemantics, GetRepository, Matches, Admits;
    assert |narrowed| == |targets| by { SameLength(uri, repositories, targets, narrowed); }
    var full := FullName(uri, targets[i].name);
    Entry(uri, repositories, evaluate, keys, targets, narrowed, i);
    MatchesOwn(uri, narrowed[i]);
    assert narrowed[i] in narrowed;
    j := FirstMatch(uri, narrowed, narrowed[i], full);
    Entry(uri, repositories, evaluate, keys, targets, narrowed, j);
    MatchesMeans(uri, narrowed[j], full);
    FullNameTwice(uri, targets[i].name);
    if FullName(uri, narrowed[j].name) != full {
      LibraryPrefix(narrowed[j].name, narrowed[i].name);
      assert targets[i].name == LIBRARY + targets[j].name;
      NoAliasBefore(uri, repositories, keys, targets, i, j);
      assert false;
    }
  }

  lemma SameLength(uri: string, repositories: seq<Repository>, targets: seq<Target>, narrowed: seq<Repository>)
    requires Narrows(uri, repositories, targets, narrowed)
    ensures |narrowed| == |targets|
  {
  }

  /** Targets of one full name list the same conditions. */
  lemma SameTags(uri: string, repositories: seq<Repository>, keys: set<Key>, targets: seq<Target>, i: int, j: int,
                 c: string)
    requires Setting(uri, repositories, keys, targets) && 0 <= i < |targets| && 0 <= j < |targets|
    requires FullName(uri, targets[i].name) == FullName(uri, targets[j].name) && c in targets[i].conditions
    ensures c in targets[j].conditions
  {
    var t, u := targets[i], targets[j];
    assert t in targets && u in targets;
    var r := TargetDeclared(repositories, keys, targets, t);
    var q := TargetDeclared(repositories, keys, targets, u);
    SameFullName(uri, q, r);
    assert SortedTargets(targets) && u.conditions != [];
    if t.name == u.name {
      SortedIsDistinct(TargetName, targets);
      DistinctMember(TargetName, targets, t, u);
    } else {
      assert Twins(q, r);
      hide Canonical, Declared, Clear, SortedTargets, TargetsFor;
      TwinHas(q, r, c);
      assert u.conditions[0] in u.conditions;
      TwinHas(r, q, u.conditions[0]);
    }
  }

  lemma AskedKey(keys: set<Key>, name: string, tag: string)
    requires forall key :: key in keys ==> KeyOk(key)
    ensures Asked(keys, name, TagName(tag)) <==> TagKey(name, tag) in keys
  {
    if Asked(keys, name, TagName(tag)) {
      var key :| key in keys && key.repository == name && key.name == TagName(tag);
      KeyByName(key, TagKey(name, tag));
    }
  }

  /** The wanted tags are the listed ones. */
  lemma WantedListed(uri: string, keys: set<Key>, targets: seq<Target>, full: string, tag: string)
    requires TargetsFor(targets, keys) && forall key :: key in keys ==> KeyOk(key)
    ensures WantedTag(uri, keys, full, tag) <==>
        exists i :: 0 <= i < |targets| && FullName(uri, targets[i].name) == full
                    && TagName(tag) in targets[i].conditions
  {
    hide SortedTargets, KeyOk;
    if WantedTag(uri, keys, full, tag) {
      var name :| TagKey(name, tag) in keys && FullName(uri, name) == full;
      AskedKey(keys, name, tag);
      assert Listed(targets, name, TagName(tag));
      var t :| t in targets && t.name == name && TagName(tag) in t.conditions;
      var i :| 0 <= i < |targets| && targets[i] == t;
    }
    if i :| 0 <= i < |targets| && FullName(uri, targets[i].name) == full && TagName(tag) in targets[i].conditions {
      assert targets[i] in targets && Listed(targets, targets[i].name, TagName(tag));
      AskedKey(keys, targets[i].name, tag);
    }
  }

  lemma KeysOk(uri: string, repositories: seq<Repository>, keys: set<Key>, targets: seq<Target>)
    requires Setting(uri, repositories, keys, targets)
    ensures TargetsFor(targets, keys) && forall key :: key in keys ==> KeyOk(key)
  {
  }

  lemma ScannedKey(uri: string, repositories: seq<Repository>, evaluate: Evaluator, keys: set<Key>,
                   targets: seq<Target>,
                   narrowed: seq<Repository>, full: string, tag: string)
    requires Setting(uri, repositories, keys, targets) && Narrows(uri, repositories, targets, narrowed)
    requires TagSemantics(evaluate)
    ensures Scanned(uri, narrowed, evaluate, full, tag) <==> WantedTag(uri, keys, full, tag)
  {
    hide Setting, Narrows, TagSemantics, TargetsFor, FullName, KeyOk, Admits, GetRepository, WantedTag, TagName;
    KeysOk(uri, repositories, keys, targets);
    SameLength(uri, repositories, targets, narrowed);
    WantedListed(uri, keys, targets, full, tag);
    if Scanned(uri, narrowed, evaluate, full, tag) {
      var n :| n in narrowed && FullName(uri, n.name) == full;
      var i :| 0 <= i < |narrowed| && narrowed[i] == n;
      Entry(uri, repositories, evaluate, keys, targets, narrowed, i);
      var j := FilterFound(uri, repositories, evaluate, keys, targets, narrowed, i);
      Entry(uri, repositories, evaluate, keys, targets, narrowed, j);
    }
    if i :| 0 <= i < |targets| && FullName(uri, targets[i].name) == full && TagName(tag) in targets[i].conditions {
      Entry(uri, repositories, evaluate, keys, targets, narrowed, i);
      var j := FilterFound(uri, repositories, evaluate, keys, targets, narrowed, i);
      SameTags(uri, repositories, keys, targets, i, j, TagName(tag));
      Entry(uri, repositories, evaluate, keys, targets, narrowed, j);
      assert narrowed[i] in narrowed;
    }
  }

  lemma ClearScans(uri: string, repositories: seq<Repository>, evaluate: Evaluator, keys: set<Key>,
                   targets: seq<Target>)
    requires Setting(uri, repositories, keys, targets) && TagSemantics(evaluate)
    ensures ScansExactly(uri, repositories, evaluate, targets, keys)
  {
    hide Setting, TagSemantics, TargetValid, NarrowOne, Narrows, Scanned, WantedTag;
    forall t | t in targets ensures TargetValid(uri, repositories, t) && NarrowOne(uri, repositories, t).Some? {
      TargetAccepted(uri, repositories, keys, targets, t);
    }
    forall narrowed, full, tag | Narrows(uri, repositories, targets, narrowed)
      ensures Scanned(uri, narrowed, evaluate, full, tag) <==> WantedTag(uri, keys, full, tag)
    {
      ScannedKey(uri, repositories, evaluate, keys, targets, narrowed, full, tag);
    }
  }

  // --- When an alias gets in the way ---------------------------------------------------

  /** Another repository of which `name` is the long form, found first. */
  ghost predicate Overshadowed(uri: string, repositories: seq<Repository>, name: string) {
    exists q :: q in repositories && '/' in q.name && uri == DEFAULT_REGISTRY && name == LIBRARY + q.name
                && Less(q.name, name)
  }

  lemma OneTarget(key: Key)
    ensures TargetsFor([Target(key.repository, [key.name])], {key})
  {
    var t := Target(key.repository, [key.name]);
    forall r, c ensures Listed([t], r, c) <==> Asked({key}, r, c) {
      assert t in [t] && key in {key};
    }
  }

  /** An overshadowed name finds a repository of another full name. */
  lemma ShadowFound(uri: string, repositories: seq<Repository>, r: Repository) returns (q: Repository)
    requires StrictlySorted(RepositoryName, repositories) && r in repositories
    requires Overshadowed(uri, repositories, r.name)
    ensures GetRepository(uri, repositories, r.name) == Some(q) && q in repositories
    ensures q.name != r.name && FullName(uri, q.name) == q.name && FullName(uri, r.name) == r.name
  {
    q := SortedMatch(uri, repositories, r);
    var p :| p in repositories && '/' in p.name && uri == DEFAULT_REGISTRY && r.name == LIBRARY + p.name
             && Less(p.name, r.name);
    assert Aliased(uri, p, r);
    LibraryPrefix(p.name, q.name);
    assert |r.name| == |LIBRARY| + |p.name|;
  }

  /** One condition of an overshadowed repository is not scanned. */
  lemma ShadowMisses(uri: string, repositories: seq<Repository>, evaluate: Evaluator, key: Key, q: Repository)
    requires KeyOk(key) && GetRepository(uri, repositories, key.repository) == Some(q)
    requires q.name != key.repository && FullName(uri, q.name) == q.name
    requires FullName(uri, key.repository) == key.repository
    ensures !ScansExactly(uri, repositories, evaluate, [Target(key.repository, [key.name])], {key})
  {
    hide GetRepository, Admits, Matches, TargetValid, FullName;
    var t := Target(key.repository, [key.name]);
    if NarrowOne(uri, repositories, t).Some? {
      var narrowed := [NarrowOne(uri, repositories, t).value];
      assert Narrows(uri, repositories, [t], narrowed);
      assert narrowed[0].name == q.name;
      assert !Scanned(uri, narrowed, evaluate, key.repository, key.expression.tag);
      assert TagKey(key.repository, key.expression.tag) in {key};
      assert WantedTag(uri, {key}, key.repository, key.expression.tag);
    } else {
      assert t in [t];
    }
  }

  /** Two repositories that are not twins have different conditions to offer. */
  lemma Different(q: Repository, r: Repository) returns (a: MatchCondition, b: MatchCondition)
    requires RepositoryOk(q) && RepositoryOk(r) && !Twins(q, r)
    ensures a in q.conditions && b in r.conditions && a.name != b.name
  {
    a, b := q.conditions[0], r.conditions[0];
    if a.name == b.name {
      if |q.conditions| > 1 {
        assert ConditionName(q.conditions[0]) != ConditionName(q.conditions[1]);
        a := q.conditions[1];
      } else {
        assert ConditionName(r.conditions[0]) != ConditionName(r.conditions[1]);
        b := r.conditions[1];
      }
    }
  }

  /** The sorted targets of one condition in each of two repositories. */
  lemma TwoTargets(a: Key, b: Key)
    requires Less(a.repository, b.repository)
    ensures TargetsFor([Target(a.repository, [a.name]), Target(b.repository, [b.name])], {a, b})
  {
    var t, u := Target(a.repository, [a.name]), Target(b.repository, [b.name]);
    forall r, c ensures Listed([t, u], r, c) <==> Asked({a, b}, r, c) {
      assert t in [t, u] && u in [t, u] && a in {a, b} && b in {a, b};
    }
  }

  /** An entry narrowed to one condition does not admit another tag. */
  lemma OneCondition(uri: string, repositories: seq<Repository>, evaluate: Evaluator, a: Key, n: Repository,
                     tag: string)
    requires Canonical(repositories) && TagSemantics(evaluate) && KeyOk(a) && a.expression.tag != tag
    requires NarrowOne(uri, repositories, Target(a.repository, [a.name])) == Some(n)
    ensures !Admits(evaluate, n, tag)
  {
    hide GetRepository;
    var t := Target(a.repository, [a.name]);
    var q := GetRepository(uri, repositories, t.name).value;
    OkOf(repositories, q);
    assert NameSet(t) == {a.name};
    assert n.conditions == Chosen(q.conditions, {a.name}) && |n.conditions| == 1;
    forall m | m in n.conditions ensures evaluate(m.expression, tag) == Some(false) {
      assert ConditionOk(q.name, m);
      TagNameInjective(m.expression.tag, a.expression.tag);
    }
  }

  /** The name of what a target is narrowed to. */
  lemma NarrowedMatches(uri: string, repositories: seq<Repository>, t: Target, n: Repository)
    requires NarrowOne(uri, repositories, t) == Some(n)
    ensures n.name == t.name || (uri == DEFAULT_REGISTRY && t.name == LIBRARY + n.name)
  {
    NarrowedName(uri, repositories, t);
    MatchesMeans(uri, GetRepository(uri, repositories, t.name).value, t.name);
  }

  /** A short name resolves to itself and its long form to either; both have one
      full name. */
  lemma TwinFullName(uri: string, short: string, n: Repository)
    requires uri == DEFAULT_REGISTRY && '/' !in short
    requires n.name in [short, LIBRARY + short] || LIBRARY + n.name in [short, LIBRARY + short]
    ensures FullName(uri, n.name) == LIBRARY + short && Matches(uri, n, LIBRARY + short)
  {
    LibraryPrefix(n.name, short);
    LibraryPrefix(short, short);
  }

  /** Different conditions of an official image under its two names: of the two, only
      that of the first entry is scanned. */
  lemma FirstNameOnly(uri: string, repositories: seq<Repository>, evaluate: Evaluator, short: string, a: Key, b: Key)
    requires Canonical(repositories) && TagSemantics(evaluate) && KeyOk(a) && KeyOk(b) && a.name != b.name
    requires uri == DEFAULT_REGISTRY && '/' !in short
    requires {a.repository, b.repository} == {short, LIBRARY + short}
    ensures var targets := [Target(a.repository, [a.name]), Target(b.repository, [b.name])];
            !ScansExactly(uri, repositories, evaluate, targets, {a, b})
  {
    hide Canonical, TagSemantics, GetRepository, NarrowOne, TargetValid, Admits, FullName, Matches, TagName;
    var t, u := Target(a.repository, [a.name]), Target(b.repository, [b.name]);
    var full, tag := LIBRARY + short, b.expression.tag;
    assert a.repository in {short, full} && b.repository in {short, full};
    if NarrowOne(uri, repositories, t).Some? && NarrowOne(uri, repositories, u).Some? {
      var n, m := NarrowOne(uri, repositories, t).value, NarrowOne(uri, repositories, u).value;
      NarrowedMatches(uri, repositories, t, n);
      NarrowedMatches(uri, repositories, u, m);
      TwinFullName(uri, short, n);
      TwinFullName(uri, short, Repository(b.repository, [], Or));
      assert Narrows(uri, repositories, [t, u], [n, m]);
      FirstIsFound(uri, [n, m], full);
      OneCondition(uri, repositories, evaluate, a, n, tag);
      assert !Scanned(uri, [n, m], evaluate, full, tag);
      assert TagKey(b.repository, tag) in {a, b};
      assert WantedTag(uri, {a, b}, full, tag);
    } else {
      assert t in [t, u] && u in [t, u];
    }
  }

  lemma FirstIsFound(uri: string, repositories: seq<Repository>, name: string)
    requires repositories != [] && Matches(uri, repositories[0], name)
    ensures GetRepository(uri, repositories, name) == Some(repositories[0])
  {
  }

  lemma ShortBeforeOrAfter(short: string)
    ensures Less(short, LIBRARY + short) || Less(LIBRARY + short, short)
  {
    LessIsTotal(short, LIBRARY + short);
    assert |LIBRARY + short| == |LIBRARY| + |short|;
  }

  /** Where an alias is not harmless, some request is not scanned exactly. */
  lemma AliasMisses(uri: string, repositories: seq<Repository>, evaluate: Evaluator)
    returns (keys: set<Key>, targets: seq<Target>)
    requires Canonical(repositories) && TagSemantics(evaluate) && !Unambiguous(uri, repositories)
    ensures keys != {} && Declared(repositories, keys) && TargetsFor(targets, keys)
    ensures !ScansExactly(uri, repositories, evaluate, targets, keys)
  {
    hide TargetsFor, ScansExactly, GetRepository, TagSemantics;
    var q, r :| q in repositories && r in repositories && Aliased(uri, q, r) && !Harmless(q, r);
    if '/' in q.name {
      assert Overshadowed(uri, repositories, r.name);
      var p := ShadowFound(uri, repositories, r);
      var m := r.conditions[0];
      assert ConditionOk(r.name, m);
      var key := KeyOf(r.name, m);
      keys, targets := {key}, [Target(r.name, [m.name])];
      OneTarget(key);
      ShadowMisses(uri, repositories, evaluate, key, p);
    } else {
      var a, b := Different(q, r);
      assert ConditionOk(q.name, a) && ConditionOk(r.name, b);
      var short, long := KeyOf(q.name, a), KeyOf(r.name, b);
      keys := {short, long};
      ShortBeforeOrAfter(q.name);
      if Less(q.name, r.name) {
        targets := [Target(q.name, [a.name]), Target(r.name, [b.name])];
        TwoTargets(short, long);
        FirstNameOnly(uri, repositories, evaluate, q.name, short, long);
      } else {
        targets := [Target(r.name, [b.name]), Target(q.name, [a.name])];
        TwoTargets(long, short);
        assert {short, long} == {long, short};
        FirstNameOnly(uri, repositories, evaluate, q.name, long, short);
      }
    }
  }

  /** An official image declared under both its names, with a tag each: of a request
      for both tags only one is scanned. */
  lemma BothNamesClash() returns (repositories: seq<Repository>)
    ensures Canonical(repositories) && !Unambiguous(DEFAULT_REGISTRY, repositories)
  {
    var labels := map[NamespaceLabel("a") := "true"];
    assert NamespaceLabel("a") in labels;
    var one := MatchCondition(TagName("1"), TagEquals("1"), labels);
    var two := MatchCondition(TagName("2"), TagEquals("2"), labels);
    var long, short := Repository(LIBRARY + "zed", [one], Or), Repository("zed", [two], Or);
    repositories := [long, short];
    assert long.name[0] < short.name[0];
    assert RepositoryOk(long) && RepositoryOk(short);
    assert long in repositories && short in repositories && Aliased(DEFAULT_REGISTRY, short, long);
    TagNameInjective("1", "2");
    assert !Twins(short, long);
  }

  /** On a canonical registry, every set of declared conditions is scanned exactly,
      and nothing else, if and only if every alias is harmless. */
  lemma ScansExactlyDeclared(uri: string, repositories: seq<Repository>, evaluate: Evaluator)
    requires Canonical(repositories) && TagSemantics(evaluate)
    ensures Unambiguous(uri, repositories) <==>
        forall keys, targets :: keys != {} && Declared(repositories, keys) && TargetsFor(targets, keys) ==>
          ScansExactly(uri, repositories, evaluate, targets, keys)
  {
    hide Canonical, TagSemantics, Declared, TargetsFor, ScansExactly, Harmless;
    if Unambiguous(uri, repositories) {
      forall keys, targets | Declared(repositories, keys) && TargetsFor(targets, keys)
        ensures ScansExactly(uri, repositories, evaluate, targets, keys)
      {
        assert Clear(uri, repositories, keys);
        ClearScans(uri, repositories, evaluate, keys, targets);
      }
    } else {
      var keys, targets := AliasMisses(uri, repositories, evaluate);
    }
  }

  // --- Registries whose names come from parsed references ---------------------------------

  /** Names as a parsed reference gives them: never a short name on Docker Hub. */
  ghost predicate ParsedNames(uri: string, repositories: seq<Repository>) {
    forall r :: r in repositories ==> FullName(uri, r.name) == r.name
  }

  lemma {:induction false} LessAfterPrefix(prefix: string, a: string, b: string)
    requires Less(a, b)
    ensures Less(prefix + a, prefix + b)
  {
    if prefix == [] {
      assert prefix + a == a && prefix + b == b;
    } else {
      LessAfterPrefix(prefix[1..], a, b);
      assert (prefix + a)[1..] == prefix[1..] + a && (prefix + b)[1..] == prefix[1..] + b;
    }
  }

  /** The last overshadowed target. */
  lemma {:induction false} LastOvershadowed(uri: string, repositories: seq<Repository>, targets: seq<Target>, t: Target)
    returns (i: nat)
    requires t in targets && Overshadowed(uri, repositories, t.name)
    ensures i < |targets| && Overshadowed(uri, repositories, targets[i].name)
    ensures forall j :: i < j < |targets| ==> !Overshadowed(uri, repositories, targets[j].name)
  {
    hide Overshadowed;
    var n := |targets| - 1;
    if Overshadowed(uri, repositories, targets[n].name) {
      i := n;
    } else {
      i := LastOvershadowed(uri, repositories, targets[..n], t);
      forall j | i < j < |targets| ensures !Overshadowed(uri, repositories, targets[j].name) {
        if j < n { assert targets[..n][j] == targets[j]; }
      }
    }
  }

  /** The long form of an overshadowed name is overshadowed by it. */
  lemma ShadowChain(uri: string, repositories: seq<Repository>, r: Repository, name: string)
    requires r in repositories && Overshadowed(uri, repositories, r.name) && name == LIBRARY + r.name
    ensures Overshadowed(uri, repositories, name) && Less(r.name, name)
  {
    var q :| q in repositories && '/' in q.name && uri == DEFAULT_REGISTRY && r.name == LIBRARY + q.name
             && Less(q.name, r.name);
    LessAfterPrefix(LIBRARY, q.name, r.name);
    LibraryPrefix(q.name, q.name);
  }

  /** No entry is narrowed from a repository that is the last to be overshadowed. */
  lemma NotNarrowed(uri: string, repositories: seq<Repository>, targets: seq<Target>, i: nat, r: Repository,
                    k: nat, n: Repository)
    requires StrictlySorted(RepositoryName, repositories) && SortedTargets(targets)
    requires i < |targets| && k < |targets| && r in repositories && r.name == targets[i].name
    requires Overshadowed(uri, repositories, r.name)
    requires forall j :: i < j < |targets| ==> !Overshadowed(uri, repositories, targets[j].name)
    requires NarrowOne(uri, repositories, targets[k]) == Some(n)
    ensures n.name != r.name
  {
    hide Overshadowed, NarrowOne, GetRepository;
    NarrowedMatches(uri, repositories, targets[k], n);
    NarrowedName(uri, repositories, targets[k]);
    var q := ShadowFound(uri, repositories, r);
    var name := targets[k].name;
    assert k < i ==> Less(TargetName(targets[k]), TargetName(targets[i]));
    LessIsStrict(name, r.name);
    LibraryPrefix(r.name, r.name);
    assert |LIBRARY + r.name| == |LIBRARY| + |r.name|;
    if name == LIBRARY + r.name {
      ShadowChain(uri, repositories, r, name);
      assert false;
    }
  }

  /** A request that names an overshadowed repository is not scanned exactly. */
  lemma OvershadowedMisses(uri: string, repositories: seq<Repository>, evaluate: Evaluator, keys: set<Key>,
                           targets: seq<Target>, key: Key)
    requires Canonical(repositories) && ParsedNames(uri, repositories) && Declared(repositories, keys)
    requires TargetsFor(targets, keys) && key in keys && Overshadowed(uri, repositories, key.repository)
    ensures !ScansExactly(uri, repositories, evaluate, targets, keys)
  {
    assert Asked(keys, key.repository, key.name) && Listed(targets, key.repository, key.name);
    var t0 :| t0 in targets && t0.name == key.repository;
    var i := LastOvershadowed(uri, repositories, targets, t0);
    hide Overshadowed, Listed, Asked;
    assert targets[i] in targets;
    var r := TargetDeclared(repositories, keys, targets, targets[i]);
    var tag := TargetTag(keys, targets, targets[i]);
    LastMisses(uri, repositories, evaluate, keys, targets, i, r, tag);
  }

  lemma LastMisses(uri: string, repositories: seq<Repository>, evaluate: Evaluator, keys: set<Key>,
                   targets: seq<Target>, i: nat, r: Repository, tag: string)
    requires StrictlySorted(RepositoryName, repositories) && ParsedNames(uri, repositories) && SortedTargets(targets)
    requires i < |targets| && r in repositories && r.name == targets[i].name && TagKey(r.name, tag) in keys
    requires Overshadowed(uri, repositories, r.name)
    requires forall j :: i < j < |targets| ==> !Overshadowed(uri, repositories, targets[j].name)
    ensures !ScansExactly(uri, repositories, evaluate, targets, keys)
  {
    hide StrictlySorted, SortedTargets, Overshadowed, TargetValid, GetRepository, Admits, TagKey, FullName, NarrowOne;
    if forall u :: u in targets ==> NarrowOne(uri, repositories, u).Some? {
      var narrowed := seq(|targets|, k requires 0 <= k < |targets| =>
        assert targets[k] in targets; NarrowOne(uri, repositories, targets[k]).value);
      assert Narrows(uri, repositories, targets, narrowed);
      forall n | n in narrowed ensures FullName(uri, n.name) != r.name {
        var k :| 0 <= k < |narrowed| && narrowed[k] == n;
        NotNarrowed(uri, repositories, targets, i, r, k, n);
        NarrowedName(uri, repositories, targets[k]);
        assert FullName(uri, n.name) == n.name;
      }
      assert !Scanned(uri, narrowed, evaluate, r.name, tag);
      assert WantedTag(uri, keys, r.name, tag);
    }
  }

  lemma TargetTag(keys: set<Key>, targets: seq<Target>, t: Target) returns (tag: string)
    requires TargetsFor(targets, keys) && t in targets && forall key :: key in keys ==> KeyOk(key)
    ensures TagKey(t.name, tag) in keys
  {
    var c := t.conditions[0];
    assert Listed(targets, t.name, c);
    assert Asked(keys, t.name, c);
    var key :| key in keys && key.repository == t.name && key.name == c;
    tag := key.expression.tag;
  }

  /** Among parsed names, a request is scanned exactly if and only if it names no
      overshadowed repository. */
  lemma ScansExactlyParsed(uri: string, repositories: seq<Repository>, evaluate: Evaluator, keys: set<Key>,
                           targets: seq<Target>)
    requires Canonical(repositories) && ParsedNames(uri, repositories) && TagSemantics(evaluate)
    requires Declared(repositories, keys) && TargetsFor(targets, keys)
    ensures ScansExactly(uri, repositories, evaluate, targets, keys) <==>
        forall key :: key in keys ==> !Overshadowed(uri, repositories, key.repository)
  {
    hide Canonical, TagSemantics, Declared, TargetsFor, ScansExactly, Less;
    if key :| key in keys && Overshadowed(uri, repositories, key.repository) {
      OvershadowedMisses(uri, repositories, evaluate, keys, targets, key);
    } else {
      forall q, r | q in repositories && r in repositories && Aliased(uri, q, r) && Names(keys, r.name)
        ensures Harmless(q, r)
      {
        LibraryPrefix(q.name, q.name);
        assert |LIBRARY + q.name| == |LIBRARY| + |q.name|;
        assert '/' in q.name;
        var key :| key in keys && key.repository == r.name;
        assert !Overshadowed(uri, repositories, key.repository);
      }
      ClearScans(uri, repositories, evaluate, keys, targets);
    }
  }

  /** A name of two parts, as every repository of Docker Hub has, is not overshadowed. */
  lemma TwoPartsClear(uri: string, repositories: seq<Repository>, name: string)
    requires forall i, j :: 0 <= i < |name| && 0 <= j < |name| && name[i] == '/' && name[j] == '/' ==> i == j
    ensures !Overshadowed(uri, repositories, name)
  {
    forall q: Repository | '/' in q.name ensures name != LIBRARY + q.name {
      var long := LIBRARY + q.name;
      var i :| 0 <= i < |q.name| && q.name[i] == '/';
      assert long[7] == '/' && long[8 + i] == '/';
    }
  }

  /** A registry that reconciles leave declares only names that parsing gives. */
  lemma ReconciledNames(states: seq<Registered>, visits: seq<Attempt>, a: Address)
    requires Run(states, visits) && a in states[|visits|]
    requires forall i, name ::
        0 <= i < |visits| && name in TagsAt(visits[i].visit.groups, a.uri) ==> FullName(a.uri, name) == name
    ensures ParsedNames(a.uri, states[|visits|][a].repositories)
  {
    assert |states| == |visits| + 1;
    hide Run, FullName;
    forall r | r in states[|visits|][a].repositories ensures FullName(a.uri, r.name) == r.name {
      var i := NamesAreUsed(states, visits, a, r);
    }
  }

  // --- From added conditions to scanned tags ---------------------------------------------

  /** An update of a registry and the conditions it added. */
  datatype Change = Change(before: Registry, after: Registry, uuid: string, added: set<Key>)

  /** The request the update wrote. */
  ghost predicate Wrote(change: Change, request: seq<Target>) {
    && Canonical(change.after.repositories) && change.added != {}
    && Requested(change.before, change.after, true, change.uuid, change.added)
    && request == change.after.requests[change.uuid]
  }

  /** Every request that can be decoded was written by an update, and `keys` are the
      conditions those updates added. */
  ghost predicate Pending(annotations: map<string, string>, decode: string -> Option<seq<Target>>,
                          changes: map<string, Change>, keys: set<Key>) {
    && (exists id :: Parsed(annotations, decode, id))
    && (forall id :: Parsed(annotations, decode, id) ==>
          id in changes && Wrote(changes[id], Decoded(annotations[id], decode).value))
    && (forall key :: key in keys <==>
          exists id :: Parsed(annotations, decode, id) && id in changes && key in changes[id].added)
  }

  /** A request for conditions wants exactly those. */
  lemma RequestWants(request: seq<Target>, keys: set<Key>, repository: string, condition: string)
    requires TargetsFor(request, keys) && keys != {}
    ensures Wants(request, repository, condition) <==> Asked(keys, repository, condition)
  {
    var key :| key in keys;
    assert Asked(keys, key.repository, key.name);
    assert Listed(request, key.repository, key.name);
    assert Listed(request, repository, condition) <==> Asked(keys, repository, condition);
  }

  /** The requests together want exactly the added conditions. */
  lemma PendingWants(annotations: map<string, string>, decode: string -> Option<seq<Target>>,
                     changes: map<string, Change>, keys: set<Key>, repository: string, condition: string)
    requires Pending(annotations, decode, changes, keys)
    ensures ParsedWants(annotations, decode, repository, condition) <==> Asked(keys, repository, condition)
  {
    hide Wants, IsRescanKey, Decoded, TargetsFor, Canonical, Declares;
    if ParsedWants(annotations, decode, repository, condition) {
      var id :| Parsed(annotations, decode, id) && Wants(Decoded(annotations[id], decode).value, repository, condition);
      assert id in changes && Wrote(changes[id], Decoded(annotations[id], decode).value);
      RequestWants(Decoded(annotations[id], decode).value, changes[id].added, repository, condition);
      var key :| key in changes[id].added && key.repository == repository && key.name == condition;
      assert key in keys;
    }
    if Asked(keys, repository, condition) {
      var key :| key in keys && key.repository == repository && key.name == condition;
      var id :| Parsed(annotations, decode, id) && id in changes && key in changes[id].added;
      assert Asked(changes[id].added, repository, condition);
      RequestWants(Decoded(annotations[id], decode).value, changes[id].added, repository, condition);
    }
  }

  /** Sorted targets that want exactly a set of conditions name them one by one. */
  lemma WantedIsListed(targets: seq<Target>, keys: set<Key>)
    requires SortedTargets(targets)
    requires forall r, c :: Wants(targets, r, c) <==> Asked(keys, r, c)
    ensures TargetsFor(targets, keys)
  {
    var repository, condition := Unasked(keys);
    hide SortedTargets, Asked;
    assert !Wants(targets, repository, condition);
    forall t | t in targets ensures t.conditions != [] {
      assert !Wants(targets, t.name, condition);
    }
    forall r, c ensures Listed(targets, r, c) <==> Asked(keys, r, c) {
      assert Wants(targets, r, c) <==> Asked(keys, r, c);
    }
  }

  /** Names that a set of conditions does not use. */
  lemma Unasked(keys: set<Key>) returns (repository: string, condition: string)
    ensures forall c :: !Asked(keys, repository, c)
    ensures forall r :: !Asked(keys, r, condition)
  {
    var repositories := set key | key in keys :: key.repository;
    var conditions := set key | key in keys :: key.name;
    repository := LongerText(repositories);
    condition := LongerText(conditions);
    assert forall key :: key in keys ==> key.repository in repositories && key.name in conditions;
  }

  /** The conditions any number of updates added to a registry are, once the requests
      they left are merged into a job and while the conditions are still declared,
      exactly what the job scans, if and only if none is in an overshadowed
      repository. */
  lemma AddedConditionsScanned(annotations: map<string, string>, decode: string -> Option<seq<Target>>,
                               changes: map<string, Change>, keys: set<Key>, targets: seq<Target>,
                               uri: string, now: seq<Repository>, evaluate: Evaluator)
    requires Pending(annotations, decode, changes, keys)
    // the targets of the job the runner creates
    requires SortedTargets(targets) && TargetsOf(decode, annotations, targets)
    requires Canonical(now) && ParsedNames(uri, now) && TagSemantics(evaluate)
    requires forall key :: key in keys ==> Declares(now, key)
    ensures ScansExactly(uri, now, evaluate, targets, keys) <==>
        forall key :: key in keys ==> !Overshadowed(uri, now, key.repository)
  {
    forall r, c ensures Wants(targets, r, c) <==> Asked(keys, r, c) {
      PendingWants(annotations, decode, changes, keys, r, c);
    }
    hide Canonical, ParsedNames, TagSemantics, Wants, ScansExactly, Overshadowed, SortedTargets, TargetsFor;
    WantedIsListed(targets, keys);
    forall key | key in keys ensures KeyOk(key) { DeclaredOk(now, key); }
    ScansExactlyParsed(uri, now, evaluate, keys, targets);
  }
}
