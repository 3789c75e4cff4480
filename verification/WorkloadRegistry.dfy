/** The workload registry reconciler: one Registry shared by many namespaces, each
    match condition kept for as long as some namespace labels it. */
module WorkloadRegistry {
  import opened Ordering
  import opened Registries

  /** The tags of each repository a namespace uses. */
  type RepositoryTags = map<string, set<string>>

  predicate Needed(tags: RepositoryTags, key: Key) {
    KeyOk(key) && key.repository in tags && key.expression.tag in tags[key.repository]
  }

  /** The conditions a namespace needs. */
  function Needs(tags: RepositoryTags): (needs: set<Key>)
    ensures forall key :: key in needs <==> Needed(tags, key)
  {
    set name, tag | name in tags && tag in tags[name] :: TagKey(name, tag)
  }

  method BuildNeededMatchConditions(tags: RepositoryTags) returns (needed: set<Key>)
    ensures needed == Needs(tags)
  {
    needed := {};
    var names := tags.Keys;
    while names != {}
      invariant names <= tags.Keys
      invariant forall key :: key in needed <==> Needed(tags, key) && key.repository !in names
      decreases names
    {
      var name :| name in names;
      names := names - {name};
      var todo := tags[name];
      while todo != {}
        invariant todo <= tags[name]
        invariant forall key :: key in needed <==>
            Needed(tags, key) && key.repository !in names && !(key.repository == name && key.expression.tag in todo)
        decreases todo
      {
        var tag :| tag in todo;
        needed := needed + {TagKey(name, tag)};
        todo := todo - {tag};
      }
    }
  }

  method ExtractMatchConditions(repositories: seq<Repository>) returns (keys: set<Key>)
    ensures forall key :: key in keys <==> Declares(repositories, key)
  {
    keys := {};
    for i := 0 to |repositories|
      invariant forall key :: key in keys <==> Declares(repositories[..i], key)
    {
      var r := repositories[i];
      var before := keys;
      for j := 0 to |r.conditions|
        invariant forall key :: key in keys <==>
            key in before || exists m :: m in r.conditions[..j] && KeyOf(r.name, m) == key
      {
        keys := keys + {KeyOf(r.name, r.conditions[j])};
        assert r.conditions[..j + 1] == r.conditions[..j] + [r.conditions[j]];
      }
      assert r.conditions[..|r.conditions|] == r.conditions;
      assert repositories[..i + 1] == repositories[..i] + [r];
    }
    assert repositories[..|repositories|] == repositories;
  }

  // --- Conditions already there ------------------------------------------------

  /** A condition after its namespace label is set or removed. */
  function Relabelled(repository: string, m: MatchCondition, mark: string, needed: set<Key>): MatchCondition {
    m.(labels := if KeyOf(repository, m) in needed then m.labels[mark := "true"] else m.labels - {mark})
  }

  /** What one repository keeps: the conditions that still carry a label. */
  function Kept(repository: string, conditions: seq<MatchCondition>, mark: string, needed: set<Key>)
    : seq<MatchCondition>
  {
    if conditions == [] then []
    else
      var rest := Kept(repository, conditions[..|conditions| - 1], mark, needed);
      var m := Relabelled(repository, conditions[|conditions| - 1], mark, needed);
      if m.labels != map[] then rest + [m] else rest
  }

  method ProcessRepositoryMatchConditions(r: Repository, namespace: string, needed: set<Key>)
    returns (kept: seq<MatchCondition>, matched: set<Key>)
    ensures kept == Kept(r.name, r.conditions, NamespaceLabel(namespace), needed)
    ensures forall key :: key in matched <==> key in needed && Declares([r], key)
  {
    kept, matched := [], {};
    var mark := NamespaceLabel(namespace);
    for i := 0 to |r.conditions|
      invariant kept == Kept(r.name, r.conditions[..i], mark, needed)
      invariant forall key :: key in matched <==>
          key in needed && exists m :: m in r.conditions[..i] && KeyOf(r.name, m) == key
    {
      var m := r.conditions[i];
      var key := KeyOf(r.name, m);
      if key in needed {
        m := m.(labels := m.labels[mark := "true"]);
        matched := matched + {key};
      } else {
        m := m.(labels := m.labels - {mark});
      }
      if m.labels != map[] { kept := kept + [m]; }
      assert r.conditions[..i + 1] == r.conditions[..i] + [r.conditions[i]];
    }
    assert r.conditions[..|r.conditions|] == r.conditions;
    assert forall key :: Declares([r], key) <==> exists m :: m in r.conditions && KeyOf(r.name, m) == key;
  }

  /** What a registry keeps: the repositories that still have a condition. */
  function Processed(repositories: seq<Repository>, mark: string, needed: set<Key>): seq<Repository> {
    if repositories == [] then []
    else
      var rest := Processed(repositories[..|repositories| - 1], mark, needed);
      var r := repositories[|repositories| - 1];
      var kept := Kept(r.name, r.conditions, mark, needed);
      if kept != [] then rest + [Repository(r.name, kept, Or)] else rest
  }

  method ProcessExistingRepositories(repositories: seq<Repository>, namespace: string, needed: set<Key>)
    returns (processed: seq<Repository>, matched: set<Key>)
    ensures processed == Processed(repositories, NamespaceLabel(namespace), needed)
    ensures forall key :: key in matched <==> key in needed && Declares(repositories, key)
  {
    processed, matched := [], {};
    for i := 0 to |repositories|
      invariant processed == Processed(repositories[..i], NamespaceLabel(namespace), needed)
      invariant forall key :: key in matched <==> key in needed && Declares(repositories[..i], key)
    {
      var r := repositories[i];
      var kept, found := ProcessRepositoryMatchConditions(r, namespace, needed);
      matched := matched + found;
      if kept != [] { processed := processed + [Repository(r.name, kept, Or)]; }
      assert repositories[..i + 1] == repositories[..i] + [r];
      DeclaresAppend(repositories[..i], r);
    }
    assert repositories[..|repositories|] == repositories;
  }

  lemma DeclaresAppend(repositories: seq<Repository>, r: Repository)
    ensures forall key :: Declares(repositories + [r], key) <==> Declares(repositories, key) || Declares([r], key)
  {
    forall key ensures Declares(repositories + [r], key) <==> Declares(repositories, key) || Declares([r], key) {
      if Declares(repositories, key) {
        var q, m :| q in repositories && m in q.conditions && KeyOf(q.name, m) == key;
        assert q in repositories + [r];
      }
      if Declares([r], key) {
        var q, m :| q in [r] && m in q.conditions && KeyOf(q.name, m) == key;
        assert q in repositories + [r];
      }
    }
  }

  lemma {:induction false} KeptMembers(repository: string, conditions: seq<MatchCondition>, mark: string,
                                       needed: set<Key>)
    ensures forall n :: n in Kept(repository, conditions, mark, needed) <==>
        n.labels != map[] && exists m :: m in conditions && n == Relabelled(repository, m, mark, needed)
  {
    if conditions != [] {
      var front, last := conditions[..|conditions| - 1], conditions[|conditions| - 1];
      KeptMembers(repository, front, mark, needed);
      assert conditions == front + [last];
    }
  }

  lemma {:induction false} ProcessedMembers(repositories: seq<Repository>, mark: string, needed: set<Key>)
    ensures forall q :: q in Processed(repositories, mark, needed) <==>
        exists r :: r in repositories && Kept(r.name, r.conditions, mark, needed) != []
                    && q == Repository(r.name, Kept(r.name, r.conditions, mark, needed), Or)
  {
    if repositories != [] {
      var front, last := repositories[..|repositories| - 1], repositories[|repositories| - 1];
      ProcessedMembers(front, mark, needed);
      assert repositories == front + [last];
    }
  }

  /** Relabelling changes the claims of one label on the declared conditions. */
  lemma ProcessedClaims(repositories: seq<Repository>, mark: string, needed: set<Key>, c: Claim)
    ensures Claimed(Processed(repositories, mark, needed), c) <==>
        if c.mark == mark then c.key in needed && Declares(repositories, c.key) else Claimed(repositories, c)
  {
    ProcessedMembers(repositories, mark, needed);
    var processed := Processed(repositories, mark, needed);
    if Claimed(processed, c) {
      var q, n :| q in processed && n in q.conditions && KeyOf(q.name, n) == c.key && c.mark in n.labels;
      var r :| r in repositories && q == Repository(r.name, Kept(r.name, r.conditions, mark, needed), Or);
      KeptMembers(r.name, r.conditions, mark, needed);
      var m :| m in r.conditions && n == Relabelled(r.name, m, mark, needed);
      assert KeyOf(r.name, m) == c.key;
    }
    if c.mark == mark && c.key in needed && Declares(repositories, c.key) {
      var r, m :| r in repositories && m in r.conditions && KeyOf(r.name, m) == c.key;
      RelabelledKept(repositories, r, m, mark, needed, c);
    }
    if c.mark != mark && Claimed(repositories, c) {
      var r, m :| r in repositories && m in r.conditions && KeyOf(r.name, m) == c.key && c.mark in m.labels;
      RelabelledKept(repositories, r, m, mark, needed, c);
    }
  }

  lemma RelabelledKept(repositories: seq<Repository>, r: Repository, m: MatchCondition, mark: string,
                       needed: set<Key>, c: Claim)
    requires r in repositories && m in r.conditions && KeyOf(r.name, m) == c.key
    requires c.mark in Relabelled(r.name, m, mark, needed).labels
    ensures Claimed(Processed(repositories, mark, needed), c)
  {
    ProcessedMembers(repositories, mark, needed);
    KeptMembers(r.name, r.conditions, mark, needed);
    var n := Relabelled(r.name, m, mark, needed);
    assert n in Kept(r.name, r.conditions, mark, needed);
    assert Repository(r.name, Kept(r.name, r.conditions, mark, needed), Or) in Processed(repositories, mark, needed);
  }

  lemma {:induction false} KeptDistinct(repository: string, conditions: seq<MatchCondition>, mark: string,
                                        needed: set<Key>)
    requires DistinctKeys(ConditionName, conditions)
    ensures DistinctKeys(ConditionName, Kept(repository, conditions, mark, needed))
  {
    if conditions != [] {
      var front := conditions[..|conditions| - 1];
      KeptDistinct(repository, front, mark, needed);
      KeptMembers(repository, front, mark, needed);
      var kept := Kept(repository, front, mark, needed);
      forall i | 0 <= i < |kept| ensures kept[i].name != conditions[|conditions| - 1].name {
        assert kept[i] in kept;
        var m :| m in front && kept[i] == Relabelled(repository, m, mark, needed);
        var j :| 0 <= j < |front| && front[j] == m;
      }
    }
  }

  lemma {:induction false} ProcessedDistinct(repositories: seq<Repository>, mark: string, needed: set<Key>)
    requires DistinctKeys(RepositoryName, repositories)
    ensures DistinctKeys(RepositoryName, Processed(repositories, mark, needed))
  {
    if repositories != [] {
      var front := repositories[..|repositories| - 1];
      ProcessedDistinct(front, mark, needed);
      ProcessedMembers(front, mark, needed);
      var processed := Processed(front, mark, needed);
      forall i | 0 <= i < |processed| ensures processed[i].name != repositories[|repositories| - 1].name {
        assert processed[i] in processed;
        var r :| r in front && processed[i] == Repository(r.name, Kept(r.name, r.conditions, mark, needed), Or);
        var j :| 0 <= j < |front| && front[j] == r;
      }
    }
  }

  lemma ProcessedTidy(repositories: seq<Repository>, mark: string, needed: set<Key>)
    requires Tidy(repositories)
    ensures Tidy(Processed(repositories, mark, needed))
  {
    ProcessedDistinct(repositories, mark, needed);
    ProcessedMembers(repositories, mark, needed);
    forall q | q in Processed(repositories, mark, needed) ensures RepositoryOk(q) {
      var r :| r in repositories && Kept(r.name, r.conditions, mark, needed) != []
               && q == Repository(r.name, Kept(r.name, r.conditions, mark, needed), Or);
      KeptDistinct(r.name, r.conditions, mark, needed);
      KeptMembers(r.name, r.conditions, mark, needed);
      assert forall m :: m in r.conditions ==> ConditionOk(r.name, m);
    }
  }

  // --- Conditions to add --------------------------------------------------------

  /** Index of the first repository of a name; the length when there is none. */
  function Find(repositories: seq<Repository>, name: string): (i: nat)
    ensures i <= |repositories|
    ensures i < |repositories| ==> repositories[i].name == name
    ensures forall j :: 0 <= j < i ==> repositories[j].name != name
  {
    if repositories == [] || repositories[0].name == name then 0 else 1 + Find(repositories[1..], name)
  }

  /** The index stands for the pointer the caller changes the repository through. */
  method FindOrAppendRepository(repositories: seq<Repository>, name: string)
    returns (result: seq<Repository>, at: nat)
    ensures at == Find(repositories, name) < |result|
    ensures result == if at < |repositories| then repositories else repositories + [Repository(name, [], Or)]
  {
    at := 0;
    while at < |repositories| && repositories[at].name != name
      invariant at <= |repositories| && forall j :: 0 <= j < at ==> repositories[j].name != name
    {
      at := at + 1;
    }
    assert at == Find(repositories, name);
    result := repositories;
    if at == |repositories| { result := repositories + [Repository(name, [], Or)]; }
  }

  /** One condition added with one label. */
  function Added(repositories: seq<Repository>, key: Key, mark: string): seq<Repository> {
    var m := MatchCondition(key.name, key.expression, map[mark := "true"]);
    var i := Find(repositories, key.repository);
    if i < |repositories| then repositories[i := repositories[i].(conditions := repositories[i].conditions + [m])]
    else repositories + [Repository(key.repository, [m], Or)]
  }

  ghost predicate Has(repositories: seq<Repository>, name: string, m: MatchCondition) {
    exists r :: r in repositories && r.name == name && m in r.conditions
  }

  lemma AddedHas(repositories: seq<Repository>, key: Key, mark: string, name: string, n: MatchCondition)
    ensures var m := MatchCondition(key.name, key.expression, map[mark := "true"]);
            Has(Added(repositories, key, mark), name, n) <==>
              Has(repositories, name, n) || (name == key.repository && n == m)
  {
    var added := Added(repositories, key, mark);
    var i := Find(repositories, key.repository);
    var m := MatchCondition(key.name, key.expression, map[mark := "true"]);
    assert added[i] in added && m in added[i].conditions;
    if Has(repositories, name, n) {
      var r :| r in repositories && r.name == name && n in r.conditions;
      var j :| 0 <= j < |repositories| && repositories[j] == r;
      assert added[j] in added && n in added[j].conditions;
    }
    if Has(added, name, n) {
      var r :| r in added && r.name == name && n in r.conditions;
      var j :| 0 <= j < |added| && added[j] == r;
      assert j == i || r == repositories[j];
      assert j == i && i < |repositories| ==> r.conditions == repositories[i].conditions + [m];
    }
  }

  lemma AddedDeclares(repositories: seq<Repository>, key: Key, mark: string, k: Key)
    ensures Declares(Added(repositories, key, mark), k) <==> Declares(repositories, k) || k == key
  {
    var added := Added(repositories, key, mark);
    var m := MatchCondition(key.name, key.expression, map[mark := "true"]);
    hide Added;
    AddedHas(repositories, key, mark, key.repository, m);
    if Declares(repositories, k) {
      var r, n :| r in repositories && n in r.conditions && KeyOf(r.name, n) == k;
      AddedHas(repositories, key, mark, r.name, n);
      assert Has(repositories, r.name, n);
    }
    if Declares(added, k) {
      var r, n :| r in added && n in r.conditions && KeyOf(r.name, n) == k;
      AddedHas(repositories, key, mark, r.name, n);
      assert Has(added, r.name, n);
    }
  }

  lemma AddedClaims(repositories: seq<Repository>, key: Key, mark: string, c: Claim)
    ensures Claimed(Added(repositories, key, mark), c) <==> Claimed(repositories, c) || c == Claim(key, mark)
  {
    var added := Added(repositories, key, mark);
    var m := MatchCondition(key.name, key.expression, map[mark := "true"]);
    hide Added;
    AddedHas(repositories, key, mark, key.repository, m);
    if Claimed(repositories, c) {
      var r, n :| r in repositories && n in r.conditions && KeyOf(r.name, n) == c.key && c.mark in n.labels;
      AddedHas(repositories, key, mark, r.name, n);
      assert Has(repositories, r.name, n);
    }
    if Claimed(added, c) {
      var r, n :| r in added && n in r.conditions && KeyOf(r.name, n) == c.key && c.mark in n.labels;
      AddedHas(repositories, key, mark, r.name, n);
      assert Has(added, r.name, n);
    }
  }

  lemma AddedTidy(repositories: seq<Repository>, key: Key, mark: string)
    requires Tidy(repositories) && KeyOk(key) && !Declares(repositories, key)
    ensures Tidy(Added(repositories, key, mark))
  {
    var added := Added(repositories, key, mark);
    var i := Find(repositories, key.repository);
    var m := MatchCondition(key.name, key.expression, map[mark := "true"]);
    assert mark in m.labels;
    if i < |repositories| {
      var r := repositories[i];
      assert r in repositories;
      forall n | n in r.conditions ensures n.name != m.name {
        assert ConditionOk(r.name, n);
        if n.name == m.name { KeyByName(KeyOf(r.name, n), key); }
      }
      assert RepositoryOk(added[i]);
    }
    forall q | q in added ensures RepositoryOk(q) {
      var j :| 0 <= j < |added| && added[j] == q;
      assert j != i ==> q == repositories[j];
    }
  }

  /** The body of the loop over the new keys. */
  method AddMatchCondition(repositories: seq<Repository>, key: Key, namespace: string)
    returns (result: seq<Repository>)
    ensures result == Added(repositories, key, NamespaceLabel(namespace))
  {
    var found, at := FindOrAppendRepository(repositories, key.repository);
    var m := MatchCondition(key.name, key.expression, map[NamespaceLabel(namespace) := "true"]);
    result := found[at := found[at].(conditions := found[at].conditions + [m])];
    assert [] + [m] == [m];
  }

  lemma AddedAll(repositories: seq<Repository>, key: Key, mark: string)
    ensures forall c ::
        Claimed(Added(repositories, key, mark), c) <==> Claimed(repositories, c) || c == Claim(key, mark)
    ensures forall k :: Declares(Added(repositories, key, mark), k) <==> Declares(repositories, k) || k == key
    ensures Tidy(repositories) && KeyOk(key) && !Declares(repositories, key) ==> Tidy(Added(repositories, key, mark))
    ensures Added(repositories, key, mark) != []
  {
    hide Claimed, Declares, Tidy;
    forall c { AddedClaims(repositories, key, mark, c); }
    forall k { AddedDeclares(repositories, key, mark, k); }
    if Tidy(repositories) && KeyOk(key) && !Declares(repositories, key) { AddedTidy(repositories, key, mark); }
  }

  /** The set is visited in no particular order. */
  method AddNewMatchConditions(repositories: seq<Repository>, keys: set<Key>, namespace: string)
    returns (result: seq<Repository>)
    ensures forall c :: Claimed(result, c) <==>
        Claimed(repositories, c) || (c.key in keys && c.mark == NamespaceLabel(namespace))
    ensures Tidy(repositories) && (forall k :: k in keys ==> KeyOk(k) && !Declares(repositories, k)) ==> Tidy(result)
    ensures result == [] <==> repositories == [] && keys == {}
  {
    hide Claimed, Declares, Tidy, Added, KeyOk, NamespaceLabel;
    result := repositories;
    var todo := keys;
    while todo != {}
      invariant todo <= keys
      invariant forall c :: Claimed(result, c) <==>
          Claimed(repositories, c) || (c.key in keys - todo && c.mark == NamespaceLabel(namespace))
      invariant forall k :: Declares(result, k) <==> Declares(repositories, k) || k in keys - todo
      invariant Tidy(repositories) && (forall k :: k in keys ==> KeyOk(k) && !Declares(repositories, k)) ==>
                  Tidy(result)
      invariant result == [] <==> repositories == [] && keys == todo
      decreases todo
    {
      var key :| key in todo;
      AddedAll(result, key, NamespaceLabel(namespace));
      result := AddMatchCondition(result, key, namespace);
      todo := todo - {key};
    }
  }

  // --- Sorting ------------------------------------------------------------------

  function SortedConditions(r: Repository): Repository { r.(conditions := SortBy(ConditionName, r.conditions)) }

  method SortRepositories(repositories: seq<Repository>) returns (sorted: seq<Repository>)
    ensures forall q :: q in sorted <==> exists r :: r in repositories && q == SortedConditions(r)
    ensures |sorted| == |repositories|
    ensures Tidy(repositories) ==> Canonical(sorted)
  {
    var byName := SortBy(RepositoryName, repositories);
    SameElements(byName, repositories);
    sorted := byName;
    for i := 0 to |sorted|
      invariant |sorted| == |byName|
      invariant forall j :: 0 <= j < |sorted| ==> sorted[j] == if j < i then SortedConditions(byName[j]) else byName[j]
    {
      sorted := sorted[i := sorted[i].(conditions := SortBy(ConditionName, sorted[i].conditions))];
    }
    if Tidy(repositories) { SortedCanonical(repositories, byName, sorted); }
  }

  lemma SortedOk(r: Repository)
    requires RepositoryOk(r)
    ensures RepositoryOk(SortedConditions(r)) && StrictlySorted(ConditionName, SortedConditions(r).conditions)
  {
    SortBySorts(ConditionName, r.conditions);
    SortedIsDistinct(ConditionName, SortedConditions(r).conditions);
  }

  lemma SortedCanonical(repositories: seq<Repository>, byName: seq<Repository>, sorted: seq<Repository>)
    requires Tidy(repositories) && byName == SortBy(RepositoryName, repositories)
    requires |sorted| == |byName| && forall j :: 0 <= j < |sorted| ==> sorted[j] == SortedConditions(byName[j])
    ensures Canonical(sorted)
  {
    SortBySorts(RepositoryName, repositories);
    assert StrictlySorted(RepositoryName, sorted);
    forall q | q in sorted ensures RepositoryOk(q) && StrictlySorted(ConditionName, q.conditions) {
      var j :| 0 <= j < |sorted| && sorted[j] == q;
      assert byName[j] in repositories;
      SortedOk(byName[j]);
    }
  }

  lemma SortedClaims(repositories: seq<Repository>, sorted: seq<Repository>, c: Claim)
    requires forall q :: q in sorted <==> exists r :: r in repositories && q == SortedConditions(r)
    ensures Claimed(sorted, c) <==> Claimed(repositories, c)
  {
    if Claimed(repositories, c) {
      var r, m :| r in repositories && m in r.conditions && KeyOf(r.name, m) == c.key && c.mark in m.labels;
      SameElements(SortedConditions(r).conditions, r.conditions);
      assert SortedConditions(r) in sorted && m in SortedConditions(r).conditions;
    }
    if Claimed(sorted, c) {
      var q, m :| q in sorted && m in q.conditions && KeyOf(q.name, m) == c.key && c.mark in m.labels;
      var r :| r in repositories && q == SortedConditions(r);
      SameElements(q.conditions, r.conditions);
      assert m in r.conditions;
    }
  }

  // --- Rescan requests ------------------------------------------------------------

  ghost predicate Asked(keys: set<Key>, repository: string, condition: string) {
    exists key :: key in keys && key.repository == repository && key.name == condition
  }

  /** The sorted targets that list exactly the given conditions. */
  ghost predicate TargetsFor(targets: seq<Target>, keys: set<Key>) {
    && SortedTargets(targets) && (forall t :: t in targets ==> t.conditions != [])
    && forall r, c :: Listed(targets, r, c) <==> Asked(keys, r, c)
  }

  ghost predicate Grouped(byName: map<string, set<string>>, keys: set<Key>) {
    && (forall r :: r in byName ==> byName[r] != {})
    && forall r, c :: (r in byName && c in byName[r]) <==> Asked(keys, r, c)
  }

  lemma AskedAdd(keys: set<Key>, key: Key)
    ensures forall r, c :: Asked(keys + {key}, r, c) <==> Asked(keys, r, c) || (r == key.repository && c == key.name)
  {
    forall r, c ensures Asked(keys + {key}, r, c) <==> Asked(keys, r, c) || (r == key.repository && c == key.name) {
      if Asked(keys, r, c) {
        var k :| k in keys && k.repository == r && k.name == c;
        assert k in keys + {key};
      }
      if r == key.repository && c == key.name { assert key in keys + {key}; }
    }
  }

  method GroupByRepository(keys: set<Key>) returns (byName: map<string, set<string>>)
    ensures Grouped(byName, keys)
  {
    hide Asked;
    byName := map[];
    NothingAsked();
    var todo := keys;
    assert keys - todo == {};
    while todo != {}
      invariant todo <= keys && Grouped(byName, keys - todo)
      decreases todo
    {
      var key :| key in todo;
      AskedAdd(keys - todo, key);
      assert keys - (todo - {key}) == (keys - todo) + {key};
      if key.repository !in byName { byName := byName[key.repository := {}]; }
      byName := byName[key.repository := byName[key.repository] + {key.name}];
      todo := todo - {key};
    }
    assert keys - todo == keys;
  }

  lemma NothingAsked()
    ensures forall r, c :: !Asked({}, r, c)
  {
  }

  method BuildRescanRequest(keys: set<Key>) returns (targets: seq<Target>)
    ensures TargetsFor(targets, keys)
  {
    hide Grouped, TargetsFor;
    var byName := GroupByRepository(keys);
    var names := SortedList(byName.Keys);
    targets := [];
    for i := 0 to |names|
      invariant |targets| == i
      invariant forall j :: 0 <= j < i ==> targets[j].name == names[j]
      invariant forall j :: 0 <= j < i ==> StrictlySorted(Self, targets[j].conditions)
      invariant forall j, c :: 0 <= j < i ==> (c in targets[j].conditions <==> c in byName[names[j]])
    {
      assert names[i] in byName;
      var conditions := SortedList(byName[names[i]]);
      targets := targets + [Target(names[i], conditions)];
    }
    TargetsComplete(targets, names, byName, keys);
  }

  lemma TargetsComplete(targets: seq<Target>, names: seq<string>, byName: map<string, set<string>>, keys: set<Key>)
    requires Grouped(byName, keys) && StrictlySorted(Self, names) && forall x :: x in names <==> x in byName
    requires |targets| == |names| && forall j :: 0 <= j < |names| ==> targets[j].name == names[j]
    requires forall j :: 0 <= j < |names| ==> StrictlySorted(Self, targets[j].conditions)
    requires forall j, c :: 0 <= j < |names| ==> (c in targets[j].conditions <==> c in byName[names[j]])
    ensures TargetsFor(targets, keys)
  {
    hide Asked;
    forall t | t in targets ensures t.conditions != [] {
      var j :| 0 <= j < |targets| && targets[j] == t;
      assert names[j] in byName;
      var c :| c in byName[names[j]];
    }
    forall r, c ensures Listed(targets, r, c) <==> (r in byName && c in byName[r]) {
      if r in byName && c in byName[r] {
        var j :| 0 <= j < |names| && names[j] == r;
        assert targets[j] in targets;
      }
      if Listed(targets, r, c) {
        var t :| t in targets && t.name == r && c in t.conditions;
        var j :| 0 <= j < |targets| && targets[j] == t;
        assert names[j] in byName;
      }
    }
  }

  /** A set of conditions has one request, whatever order it was built in. */
  lemma RequestUnique(a: seq<Target>, b: seq<Target>, keys: set<Key>)
    requires TargetsFor(a, keys) && TargetsFor(b, keys)
    ensures a == b
  {
    TargetsUnique(a, b);
  }

  // --- The registry object --------------------------------------------------------

  datatype Settings = Settings(
    authSecret: string, caBundle: string, caBundleRef: Option<string>, insecure: bool,
    scanInterval: Option<int>, platforms: seq<string>)

  datatype Config = Config(settings: Settings, scanOnChange: bool, artifactsNamespace: string)

  /** A stored registry. `requests` holds its rescan annotations; an empty list of
      targets asks for the whole registry. */
  datatype Registry = Registry(repositories: seq<Repository>, settings: Settings, requests: map<string, seq<Target>>)

  /** The claims once a namespace has been reconciled: its own label follows its
      needs, every other label stays. */
  ghost predicate NextClaim(before: seq<Repository>, mark: string, needs: set<Key>, c: Claim) {
    if c.mark == mark then c.key in needs else Claimed(before, c)
  }

  ghost predicate Reclaimed(before: seq<Repository>, mark: string, needs: set<Key>, after: seq<Repository>) {
    && (forall c :: Claimed(after, c) <==> NextClaim(before, mark, needs, c))
    && (Canonical(before) ==> Canonical(after))
  }

  ghost predicate Unclaimed(before: seq<Repository>, mark: string, needs: set<Key>) {
    forall c :: !NextClaim(before, mark, needs, c)
  }

  /** The request records the conditions that were not declared before. */
  ghost predicate Requested(before: Registry, after: Registry, scanOnChange: bool, uuid: string, added: set<Key>) {
    && (forall key :: key in added <==> Declares(after.repositories, key) && !Declares(before.repositories, key))
    && if scanOnChange && added != {} then
         && uuid in after.requests && TargetsFor(after.requests[uuid], added)
         && after.requests == before.requests[uuid := after.requests[uuid]]
       else after.requests == before.requests
  }

  ghost predicate Updated(before: Registry, mark: string, needs: set<Key>, config: Config, uuid: string,
                          after: Registry) {
    && Reclaimed(before.repositories, mark, needs, after.repositories)
    && after.settings == config.settings
    && exists added :: Requested(before, after, config.scanOnChange, uuid, added)
  }

  /** Every repository left by the first pass carries a claim. */
  lemma ProcessedClaimed(repositories: seq<Repository>, mark: string, needed: set<Key>)
    requires Processed(repositories, mark, needed) != []
    ensures exists c :: Claimed(Processed(repositories, mark, needed), c)
  {
    ProcessedMembers(repositories, mark, needed);
    var q := Processed(repositories, mark, needed)[0];
    assert q in Processed(repositories, mark, needed);
    var r :| r in repositories && Kept(r.name, r.conditions, mark, needed) != []
             && q == Repository(r.name, Kept(r.name, r.conditions, mark, needed), Or);
    KeptMembers(r.name, r.conditions, mark, needed);
    assert q.conditions[0] in q.conditions;
    var l := SomeLabel(q.conditions[0]);
    assert Claimed(Processed(repositories, mark, needed), Claim(KeyOf(q.name, q.conditions[0]), l));
  }

  lemma NoneClaimed()
    ensures forall c :: !Claimed([], c)
  {
  }

  /** The two passes together: relabel what is declared, add what is not. */
  method Contribute(repositories: seq<Repository>, namespace: string, needed: set<Key>)
    returns (updated: seq<Repository>)
    requires forall key :: key in needed ==> KeyOk(key)
    ensures forall c :: Claimed(updated, c) <==> NextClaim(repositories, NamespaceLabel(namespace), needed, c)
    ensures Tidy(repositories) ==> Tidy(updated)
    ensures updated == [] <==> Unclaimed(repositories, NamespaceLabel(namespace), needed)
  {
    hide Claimed, Declares, Tidy, KeyOk, Processed, NamespaceLabel;
    var processed, matched := ProcessExistingRepositories(repositories, namespace, needed);
    updated := AddNewMatchConditions(processed, needed - matched, namespace);
    ghost var mark := NamespaceLabel(namespace);
    forall c ensures Claimed(updated, c) <==> NextClaim(repositories, mark, needed, c) {
      ProcessedClaims(repositories, mark, needed, c);
    }
    if Tidy(repositories) {
      ProcessedTidy(repositories, mark, needed);
      forall k | Declares(processed, k) && k in needed ensures Declares(repositories, k) {
        ProcessedDeclares(repositories, mark, needed, k);
      }
    }
    NoneClaimed();
    if processed != [] {
      ProcessedClaimed(repositories, mark, needed);
      ghost var c :| Claimed(processed, c);
      assert Claimed(updated, c);
    } else if needed - matched != {} {
      ghost var k :| k in needed - matched;
      assert Claimed(updated, Claim(k, mark));
    }
  }

  lemma ProcessedDeclares(repositories: seq<Repository>, mark: string, needed: set<Key>, k: Key)
    requires Declares(Processed(repositories, mark, needed), k)
    ensures Declares(repositories, k)
  {
    ProcessedMembers(repositories, mark, needed);
    var q, n :| q in Processed(repositories, mark, needed) && n in q.conditions && KeyOf(q.name, n) == k;
    var r :| r in repositories && q == Repository(r.name, Kept(r.name, r.conditions, mark, needed), Or);
    KeptMembers(r.name, r.conditions, mark, needed);
    var m :| m in r.conditions && n == Relabelled(r.name, m, mark, needed);
    assert KeyOf(r.name, m) == k;
  }

  class RegistryObject {
    var repositories: seq<Repository>
    var settings: Settings
    var requests: map<string, seq<Target>>

    function Value(): Registry
      reads this
    {
      Registry(repositories, settings, requests)
    }

    constructor (r: Registry)
      ensures Value() == r
    {
      repositories, settings, requests := r.repositories, r.settings, r.requests;
    }

    /** Brings the object in line with what a namespace needs, or reports that
        nothing is left of it. `uuid` is the fresh annotation key. */
    method Update(namespace: string, tags: RepositoryTags, config: Config, uuid: string) returns (shouldDelete: bool)
      modifies this
      ensures shouldDelete <==> Unclaimed(old(repositories), NamespaceLabel(namespace), Needs(tags))
      ensures shouldDelete ==> Value() == old(Value())
      ensures !shouldDelete ==> Updated(old(Value()), NamespaceLabel(namespace), Needs(tags), config, uuid, Value())
      ensures !config.scanOnChange ==> requests == old(requests)
    {
      hide Claimed, Declares, Tidy, Canonical, NextClaim, Unclaimed, NamespaceLabel, TargetsFor, SortedConditions;
      var needed := BuildNeededMatchConditions(tags);
      var oldKeys := ExtractMatchConditions(repositories);
      var updated := Contribute(repositories, namespace, needed);
      if updated == [] { return true; }
      var sorted := SortRepositories(updated);
      forall c { SortedClaims(updated, sorted, c); }
      if Canonical(repositories) { CanonicalIsTidy(repositories); }
      repositories := sorted;
      settings := config.settings;
      var keys := ExtractMatchConditions(repositories);
      var added := keys - oldKeys;
      if config.scanOnChange && added != {} {
        var request := BuildRescanRequest(added);
        requests := requests[uuid := request];
      }
      assert Requested(old(Value()), Value(), config.scanOnChange, uuid, added);
      return false;
    }
  }

  // --- A new registry ---------------------------------------------------------------

  /** A repository of one namespace's tags, in any order. */
  ghost predicate Fills(conditions: seq<MatchCondition>, tags: set<string>, mark: string) {
    && DistinctKeys(ConditionName, conditions)
    && forall m :: m in conditions <==>
         exists tag :: tag in tags && m == MatchCondition(TagName(tag), TagEquals(tag), map[mark := "true"])
  }

  method TagConditions(tags: set<string>, namespace: string) returns (conditions: seq<MatchCondition>)
    ensures Fills(conditions, tags, NamespaceLabel(namespace)) && |conditions| == |tags|
    ensures forall tag :: tag in tags ==>
        MatchCondition("tag-" + tag, TagEquals(tag), map["namespace/" + namespace := "true"]) in conditions
  {
    assert NamespaceLabel(namespace) == "namespace/" + namespace;
    hide NamespaceLabel;
    conditions := [];
    var todo := tags;
    while todo != {}
      invariant todo <= tags && Fills(conditions, tags - todo, NamespaceLabel(namespace))
      invariant |conditions| == |tags| - |todo|
      decreases todo
    {
      var tag :| tag in todo;
      assert tags - (todo - {tag}) == (tags - todo) + {tag};
      FillsAppend(conditions, tags - todo, tag, NamespaceLabel(namespace));
      var labels := map[NamespaceLabel(namespace) := "true"];
      conditions := conditions + [MatchCondition(TagName(tag), TagEquals(tag), labels)];
      todo := todo - {tag};
    }
    assert tags - todo == tags;
  }

  lemma FillsAppend(conditions: seq<MatchCondition>, tags: set<string>, tag: string, mark: string)
    requires Fills(conditions, tags, mark) && tag !in tags
    ensures Fills(conditions + [MatchCondition(TagName(tag), TagEquals(tag), map[mark := "true"])], tags + {tag}, mark)
  {
    var m := MatchCondition(TagName(tag), TagEquals(tag), map[mark := "true"]);
    var longer := conditions + [m];
    forall i | 0 <= i < |conditions| ensures conditions[i].name != m.name {
      assert conditions[i] in conditions;
      var t :| t in tags && conditions[i] == MatchCondition(TagName(t), TagEquals(t), map[mark := "true"]);
      TagNameInjective(t, tag);
    }
    forall n ensures n in longer <==>
        exists t :: t in tags + {tag} && n == MatchCondition(TagName(t), TagEquals(t), map[mark := "true"]) {
      if n in longer && n !in conditions { assert tag in tags + {tag} && n == m; }
      if n in conditions {
        var t :| t in tags && n == MatchCondition(TagName(t), TagEquals(t), map[mark := "true"]);
        assert t in tags + {tag};
      }
    }
  }

  /** Repositories of one namespace's tags, in any order. */
  ghost predicate FillsAll(repositories: seq<Repository>, tags: RepositoryTags, names: set<string>, mark: string)
    requires names <= tags.Keys
  {
    && DistinctKeys(RepositoryName, repositories)
    && (forall r :: r in repositories ==>
          r.name in names && r.operator == Or && Fills(r.conditions, tags[r.name], mark))
    && forall name :: name in names ==> exists r :: r in repositories && r.name == name
  }

  method NewRepositories(tags: RepositoryTags, namespace: string) returns (repositories: seq<Repository>)
    ensures FillsAll(repositories, tags, tags.Keys, NamespaceLabel(namespace))
  {
    hide Fills, NamespaceLabel;
    repositories := [];
    var todo := tags.Keys;
    while todo != {}
      invariant todo <= tags.Keys && FillsAll(repositories, tags, tags.Keys - todo, NamespaceLabel(namespace))
      decreases todo
    {
      var name :| name in todo;
      var conditions := TagConditions(tags[name], namespace);
      ghost var r := Repository(name, conditions, Or);
      ghost var before, done := repositories, tags.Keys - todo;
      repositories := repositories + [Repository(name, conditions, Or)];
      todo := todo - {name};
      forall n | n in tags.Keys - todo ensures exists q :: q in repositories && q.name == n {
        if n == name {
          assert r in repositories;
        } else {
          assert n in done;
          var q :| q in before && q.name == n;
          assert q in repositories;
        }
      }
    }
    assert tags.Keys - todo == tags.Keys;
  }

  lemma FilledClaims(repositories: seq<Repository>, tags: RepositoryTags, mark: string, c: Claim)
    requires FillsAll(repositories, tags, tags.Keys, mark)
    ensures Claimed(repositories, c) <==> c.mark == mark && c.key in Needs(tags)
  {
    if c.mark == mark && c.key in Needs(tags) {
      var r :| r in repositories && r.name == c.key.repository;
      var m := MatchCondition(c.key.name, c.key.expression, map[mark := "true"]);
      assert m in r.conditions && KeyOf(r.name, m) == c.key && mark in m.labels;
    }
    if Claimed(repositories, c) {
      var r, m :| r in repositories && m in r.conditions && KeyOf(r.name, m) == c.key && c.mark in m.labels;
      var tag :| tag in tags[r.name] && m == MatchCondition(TagName(tag), TagEquals(tag), map[mark := "true"]);
      assert c.key == TagKey(r.name, tag);
    }
  }

  lemma FilledTidy(repositories: seq<Repository>, tags: RepositoryTags, mark: string)
    requires FillsAll(repositories, tags, tags.Keys, mark)
    requires forall name :: name in tags ==> tags[name] != {}
    ensures Tidy(repositories)
  {
    forall r | r in repositories ensures RepositoryOk(r) {
      var tag :| tag in tags[r.name];
      assert MatchCondition(TagName(tag), TagEquals(tag), map[mark := "true"]) in r.conditions;
      forall m | m in r.conditions ensures ConditionOk(r.name, m) {
        var t :| t in tags[r.name] && m == MatchCondition(TagName(t), TagEquals(t), map[mark := "true"]);
        assert mark in m.labels;
      }
    }
  }

  /** The registry a namespace creates, with a request for all of it. */
  ghost predicate Created(mark: string, tags: RepositoryTags, config: Config, uuid: string, r: Registry) {
    && (forall c :: Claimed(r.repositories, c) <==> c.mark == mark && c.key in Needs(tags))
    && ((forall name :: name in tags ==> tags[name] != {}) ==> Canonical(r.repositories))
    && r.settings == config.settings
    && r.requests == if config.scanOnChange then map[uuid := []] else map[]
  }

  method CreateRegistry(namespace: string, tags: RepositoryTags, config: Config, uuid: string) returns (r: Registry)
    ensures Created(NamespaceLabel(namespace), tags, config, uuid, r)
  {
    hide Claimed, Tidy, Canonical, Needs, NamespaceLabel, FillsAll, SortedConditions;
    var repositories := NewRepositories(tags, namespace);
    var sorted := SortRepositories(repositories);
    forall c ensures Claimed(sorted, c) <==> c.mark == NamespaceLabel(namespace) && c.key in Needs(tags) {
      SortedClaims(repositories, sorted, c);
      FilledClaims(repositories, tags, NamespaceLabel(namespace), c);
    }
    if forall name :: name in tags ==> tags[name] != {} {
      FilledTidy(repositories, tags, NamespaceLabel(namespace));
    }
    r := Registry(sorted, config.settings, if config.scanOnChange then map[uuid := []] else map[]);
  }

  // --- Images to registries -------------------------------------------------------

  /** A parsed image reference. */
  datatype Reference = Reference(uri: string, repository: string, tag: string)

  ghost predicate Used(images: set<string>, parse: string -> Option<Reference>, ref: Reference) {
    exists image :: image in images && image != "" && parse(image) == Some(ref)
  }

  predicate InGroups(groups: map<string, RepositoryTags>, ref: Reference) {
    ref.uri in groups && ref.repository in groups[ref.uri] && ref.tag in groups[ref.uri][ref.repository]
  }

  /** No registry without a repository, no repository without a tag. */
  ghost predicate Inhabited(groups: map<string, RepositoryTags>) {
    forall uri :: uri in groups ==>
      groups[uri] != map[] && forall name :: name in groups[uri] ==> groups[uri][name] != {}
  }

  function Inserted(groups: map<string, RepositoryTags>, ref: Reference): map<string, RepositoryTags> {
    var tags := if ref.uri in groups then groups[ref.uri] else map[];
    var known := if ref.repository in tags then tags[ref.repository] else {};
    groups[ref.uri := tags[ref.repository := known + {ref.tag}]]
  }

  lemma InsertedGroups(groups: map<string, RepositoryTags>, ref: Reference, other: Reference)
    ensures InGroups(Inserted(groups, ref), other) <==> InGroups(groups, other) || other == ref
    ensures Inhabited(groups) ==> Inhabited(Inserted(groups, ref))
  {
    assert ref.repository in Inserted(groups, ref)[ref.uri];
    assert ref.tag in Inserted(groups, ref)[ref.uri][ref.repository];
  }

  method GroupImagesByRegistry(images: set<string>, parse: string -> Option<Reference>)
    returns (groups: map<string, RepositoryTags>)
    ensures forall ref :: InGroups(groups, ref) <==> Used(images, parse, ref)
    ensures Inhabited(groups)
  {
    hide InGroups, Inhabited, Inserted;
    groups := map[];
    NoGroups();
    var todo := images;
    while todo != {}
      invariant todo <= images && Inhabited(groups)
      invariant forall ref :: InGroups(groups, ref) <==> Used(images - todo, parse, ref)
      decreases todo
    {
      var image :| image in todo;
      ghost var done, before := images - todo, groups;
      todo := todo - {image};
      assert images - todo == done + {image};
      if image != "" && parse(image).Some? {
        groups := Inserted(groups, parse(image).value);
      }
      forall ref ensures InGroups(groups, ref) <==> Used(images - todo, parse, ref) {
        UsedAdd(done, image, parse, ref);
        if image != "" && parse(image).Some? { InsertedGroups(before, parse(image).value, ref); }
      }
      if image != "" && parse(image).Some? { InsertedGroups(before, parse(image).value, parse(image).value); }
    }
    assert images - todo == images;
  }

  lemma NoGroups()
    ensures Inhabited(map[]) && forall ref :: !InGroups(map[], ref)
  {
  }

  lemma UsedAdd(images: set<string>, image: string, parse: string -> Option<Reference>, ref: Reference)
    ensures Used(images + {image}, parse, ref) <==>
        Used(images, parse, ref) || (image != "" && parse(image) == Some(ref))
  {
    if Used(images, parse, ref) {
      var i :| i in images && i != "" && parse(i) == Some(ref);
      assert i in images + {image};
    }
    if image != "" && parse(image) == Some(ref) { assert image in images + {image}; }
  }
}
