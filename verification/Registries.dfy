/** The Registry resource: repositories with match conditions, the labels by which
    namespaces claim a condition, and the canonical form of a repository list. */
module Registries {
  import opened Ordering

  /** The expression of a workload condition is an equality with one tag. */
  datatype Expression = TagEquals(tag: string) | Cel(text: string)

  datatype Operator = Unset | And | Or | Other(text: string)

  datatype MatchCondition = MatchCondition(name: string, expression: Expression, labels: map<string, string>)

  datatype Repository = Repository(name: string, conditions: seq<MatchCondition>, operator: Operator)

  /** A match condition within a registry. */
  datatype Key = Key(repository: string, name: string, expression: Expression)

  /** One label on one condition. */
  datatype Claim = Claim(key: Key, mark: string)

  /** What a rescan asks for: repositories, each with the names of the conditions
      to apply. */
  datatype Target = Target(name: string, conditions: seq<string>)

  function RepositoryName(r: Repository): string { r.name }
  function ConditionName(m: MatchCondition): string { m.name }
  function TargetName(t: Target): string { t.name }

  function TagName(tag: string): string { "tag-" + tag }
  function NamespaceLabel(namespace: string): string { "namespace/" + namespace }

  function TagKey(repository: string, tag: string): Key { Key(repository, TagName(tag), TagEquals(tag)) }
  function KeyOf(repository: string, m: MatchCondition): Key { Key(repository, m.name, m.expression) }

  predicate KeyOk(k: Key) { k.expression.TagEquals? && k.name == TagName(k.expression.tag) }

  lemma TagNameInjective(a: string, b: string)
    ensures TagName(a) == TagName(b) ==> a == b
  {
    assert TagName(a)[4..] == a && TagName(b)[4..] == b;
  }

  lemma NamespaceLabelInjective(a: string, b: string)
    ensures NamespaceLabel(a) == NamespaceLabel(b) ==> a == b
  {
    assert NamespaceLabel(a)[10..] == a && NamespaceLabel(b)[10..] == b;
  }

  /** Two workload conditions of one repository with the same name are the same. */
  lemma KeyByName(a: Key, b: Key)
    requires KeyOk(a) && KeyOk(b) && a.repository == b.repository && a.name == b.name
    ensures a == b
  {
    TagNameInjective(a.expression.tag, b.expression.tag);
  }

  // --- What a repository list says -----------------------------------------

  ghost predicate Declares(repositories: seq<Repository>, key: Key) {
    exists r, m :: r in repositories && m in r.conditions && KeyOf(r.name, m) == key
  }

  ghost predicate Claimed(repositories: seq<Repository>, c: Claim) {
    exists r, m :: r in repositories && m in r.conditions && KeyOf(r.name, m) == c.key && c.mark in m.labels
  }

  ghost predicate ConditionOk(repository: string, m: MatchCondition) {
    KeyOk(KeyOf(repository, m)) && m.labels != map[] && forall l :: l in m.labels ==> m.labels[l] == "true"
  }

  ghost predicate RepositoryOk(r: Repository) {
    && r.operator == Or && r.conditions != [] && DistinctKeys(ConditionName, r.conditions)
    && forall m :: m in r.conditions ==> ConditionOk(r.name, m)
  }

  /** Distinct repositories of distinct, claimed workload conditions. */
  ghost predicate Tidy(repositories: seq<Repository>) {
    DistinctKeys(RepositoryName, repositories) && forall r :: r in repositories ==> RepositoryOk(r)
  }

  /** A tidy list in sorted order, at both levels. */
  ghost predicate Canonical(repositories: seq<Repository>) {
    && StrictlySorted(RepositoryName, repositories)
    && forall r :: r in repositories ==> RepositoryOk(r) && StrictlySorted(ConditionName, r.conditions)
  }

  lemma CanonicalIsTidy(repositories: seq<Repository>)
    requires Canonical(repositories)
    ensures Tidy(repositories)
  {
    SortedIsDistinct(RepositoryName, repositories);
  }

  // --- A canonical list is determined by its claims --------------------------

  lemma DistinctMember<T(!new)>(key: T -> string, s: seq<T>, x: T, y: T)
    requires DistinctKeys(key, s) && x in s && y in s && key(x) == key(y)
    ensures x == y
  {
    var i :| 0 <= i < |s| && s[i] == x;
    var j :| 0 <= j < |s| && s[j] == y;
    assert !(i < j) && !(j < i);
  }

  /** In a tidy list, a claim is a label on the one condition of its name. */
  lemma ClaimedAt(a: seq<Repository>, r: Repository, m: MatchCondition, mark: string)
    requires Tidy(a) && r in a && m in r.conditions
    ensures Claimed(a, Claim(KeyOf(r.name, m), mark)) <==> mark in m.labels
  {
    var c := Claim(KeyOf(r.name, m), mark);
    if Claimed(a, c) {
      var r2, m2 :| r2 in a && m2 in r2.conditions && KeyOf(r2.name, m2) == c.key && c.mark in m2.labels;
      DistinctMember(RepositoryName, a, r, r2);
      DistinctMember(ConditionName, r.conditions, m, m2);
    }
  }

  ghost predicate SameClaims(a: seq<Repository>, b: seq<Repository>) {
    forall c :: Claimed(a, c) <==> Claimed(b, c)
  }

  lemma SomeLabel(m: MatchCondition) returns (mark: string)
    requires m.labels != map[]
    ensures mark in m.labels
  {
    assert m.labels.Keys != {};
    mark :| mark in m.labels.Keys;
  }

  /** Every condition of one list is in the repository of that name of the other. */
  lemma ConditionElsewhere(a: seq<Repository>, b: seq<Repository>, r: Repository, s: Repository, m: MatchCondition)
    requires Tidy(a) && Tidy(b) && SameClaims(a, b)
    requires r in a && s in b && r.name == s.name && m in r.conditions
    ensures m in s.conditions
  {
    var mark := SomeLabel(m);
    var key := KeyOf(r.name, m);
    assert Claimed(a, Claim(key, mark));
    var s2, n :| s2 in b && n in s2.conditions && KeyOf(s2.name, n) == key && mark in n.labels;
    DistinctMember(RepositoryName, b, s, s2);
    forall l ensures l in m.labels <==> l in n.labels {
      ClaimedAt(a, r, m, l);
      ClaimedAt(b, s, n, l);
    }
    assert ConditionOk(r.name, m) && ConditionOk(s.name, n);
    assert m.labels == n.labels;
    assert m == n;
  }

  lemma RepositoryElsewhere(a: seq<Repository>, b: seq<Repository>, r: Repository)
    requires Canonical(a) && Canonical(b) && SameClaims(a, b) && r in a
    ensures r in b
  {
    CanonicalIsTidy(a);
    CanonicalIsTidy(b);
    var m := r.conditions[0];
    assert ConditionOk(r.name, m);
    var mark := SomeLabel(m);
    assert Claimed(a, Claim(KeyOf(r.name, m), mark));
    var s, n :| s in b && n in s.conditions && KeyOf(s.name, n) == KeyOf(r.name, m) && mark in n.labels;
    forall x ensures x in r.conditions <==> x in s.conditions {
      if x in r.conditions { ConditionElsewhere(a, b, r, s, x); }
      if x in s.conditions { ConditionElsewhere(b, a, s, r, x); }
    }
    SortedListUnique(ConditionName, r.conditions, s.conditions);
    assert r == s;
  }

  /** Two canonical lists that carry the same labels are the same list. */
  lemma CanonicalUnique(a: seq<Repository>, b: seq<Repository>)
    requires Canonical(a) && Canonical(b) && SameClaims(a, b)
    ensures a == b
  {
    forall r ensures r in a <==> r in b {
      if r in a { RepositoryElsewhere(a, b, r); }
      if r in b { RepositoryElsewhere(b, a, r); }
    }
    SortedListUnique(RepositoryName, a, b);
  }

  // --- Requests ----------------------------------------------------------------

  ghost predicate Listed(targets: seq<Target>, repository: string, condition: string) {
    exists t :: t in targets && t.name == repository && condition in t.conditions
  }

  /** Strictly sorted targets of strictly sorted condition names. */
  ghost predicate SortedTargets(targets: seq<Target>) {
    && StrictlySorted(TargetName, targets)
    && forall t :: t in targets ==> StrictlySorted(Self, t.conditions)
  }

  lemma TargetElsewhere(a: seq<Target>, b: seq<Target>, t: Target)
    requires SortedTargets(a) && SortedTargets(b) && t in a && t.conditions != []
    requires forall r, c :: Listed(a, r, c) <==> Listed(b, r, c)
    ensures t in b
  {
    SortedIsDistinct(TargetName, a);
    SortedIsDistinct(TargetName, b);
    assert Listed(a, t.name, t.conditions[0]);
    var u :| u in b && u.name == t.name && t.conditions[0] in u.conditions;
    forall c ensures c in t.conditions <==> c in u.conditions {
      if c in t.conditions {
        assert Listed(a, t.name, c);
        var v :| v in b && v.name == t.name && c in v.conditions;
        DistinctMember(TargetName, b, u, v);
      }
      if c in u.conditions {
        assert Listed(b, u.name, c);
        var v :| v in a && v.name == u.name && c in v.conditions;
        DistinctMember(TargetName, a, t, v);
      }
    }
    SortedListUnique(Self, t.conditions, u.conditions);
    assert t == u;
  }

  /** Sorted targets that name conditions are determined by what they list. */
  lemma TargetsUnique(a: seq<Target>, b: seq<Target>)
    requires SortedTargets(a) && SortedTargets(b)
    requires forall t :: t in a || t in b ==> t.conditions != []
    requires forall r, c :: Listed(a, r, c) <==> Listed(b, r, c)
    ensures a == b
  {
    forall t ensures t in a <==> t in b {
      if t in a { TargetElsewhere(a, b, t); }
      if t in b { TargetElsewhere(b, a, t); }
    }
    SortedListUnique(TargetName, a, b);
  }
}
