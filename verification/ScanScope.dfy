/** What a ScanJob scans: its targets are validated by the controller, applied to
    the registry by the catalog worker, and evaluated as a tag filter. */
module ScanScope {
  import opened Ordering
  import opened Registries

  const DEFAULT_REGISTRY := "index.docker.io"
  const LIBRARY := "library/"

  function TrimPrefix(s: string, prefix: string): string {
    if prefix <= s then s[|prefix|..] else s
  }

  /** The name an official Docker Hub image may be declared under. */
  function Alias(uri: string, name: string): string {
    if uri == DEFAULT_REGISTRY then TrimPrefix(name, LIBRARY) else name
  }

  /** The repository a worker reads in a parsed reference: on Docker Hub a name of
      one part is that of an official image. */
  function FullName(uri: string, name: string): string {
    if uri == DEFAULT_REGISTRY && '/' !in name then LIBRARY + name else name
  }

  predicate Matches(uri: string, r: Repository, name: string) { r.name == name || r.name == Alias(uri, name) }

  /** The first repository declared under a name or its alias. */
  function GetRepository(uri: string, repositories: seq<Repository>, name: string): (r: Option<Repository>)
    ensures r.Some? ==> r.value in repositories && Matches(uri, r.value, name)
    ensures r == None ==> forall q :: q in repositories ==> !Matches(uri, q, name)
  {
    if repositories == [] then None
    else if Matches(uri, repositories[0], name) then Some(repositories[0])
    else GetRepository(uri, repositories[1..], name)
  }

  /** Of several repositories that match, the first is taken. */
  lemma {:induction false} GetsFirst(uri: string, repositories: seq<Repository>, name: string, i: nat)
    requires i < |repositories| && Matches(uri, repositories[i], name)
    requires forall j :: 0 <= j < i ==> !Matches(uri, repositories[j], name)
    ensures GetRepository(uri, repositories, name) == Some(repositories[i])
  {
    hide Matches;
    if i > 0 { GetsFirst(uri, repositories[1..], name, i - 1); }
  }

  predicate HasCondition(conditions: seq<MatchCondition>, name: string) {
    exists m :: m in conditions && m.name == name
  }

  datatype Verdict = Accepted | RepositoryNotFound | MatchConditionNotFound

  ghost predicate TargetValid(uri: string, repositories: seq<Repository>, t: Target) {
    var r := GetRepository(uri, repositories, t.name);
    r.Some? && forall c :: c in t.conditions ==> HasCondition(r.value.conditions, c)
  }

  /** The target at `i` is the first that fails, and `v` says why. */
  ghost predicate FirstInvalid(uri: string, repositories: seq<Repository>, targets: seq<Target>, i: int, v: Verdict) {
    && 0 <= i < |targets| && !TargetValid(uri, repositories, targets[i])
    && (forall j :: 0 <= j < i ==> TargetValid(uri, repositories, targets[j]))
    && v == if GetRepository(uri, repositories, targets[i].name) == None then RepositoryNotFound
            else MatchConditionNotFound
  }

  /** The controller's check, with the reason of the first target that fails. */
  method ValidateScanJobTargets(uri: string, repositories: seq<Repository>, targets: seq<Target>) returns (v: Verdict)
    ensures v == Accepted <==> forall t :: t in targets ==> TargetValid(uri, repositories, t)
    ensures v != Accepted ==> exists i :: FirstInvalid(uri, repositories, targets, i, v)
  {
    for i := 0 to |targets|
      invariant forall j :: 0 <= j < i ==> TargetValid(uri, repositories, targets[j])
    {
      var r := GetRepository(uri, repositories, targets[i].name);
      assert targets[i] in targets;
      if r == None {
        assert FirstInvalid(uri, repositories, targets, i, RepositoryNotFound);
        return RepositoryNotFound;
      }
      var names := targets[i].conditions;
      for k := 0 to |names|
        invariant forall j :: 0 <= j < k ==> HasCondition(r.value.conditions, names[j])
      {
        if !HasCondition(r.value.conditions, names[k]) {
          assert names[k] in targets[i].conditions;
          assert FirstInvalid(uri, repositories, targets, i, MatchConditionNotFound);
          return MatchConditionNotFound;
        }
      }
    }
    return Accepted;
  }

  // --- Narrowing ------------------------------------------------------------------

  /** The conditions whose names are wanted, in their original order. */
  function Chosen(conditions: seq<MatchCondition>, names: set<string>): (r: seq<MatchCondition>)
    ensures forall m :: m in r <==> m in conditions && m.name in names
  {
    if conditions == [] then []
    else
      var rest := Chosen(conditions[..|conditions| - 1], names);
      var last := conditions[|conditions| - 1];
      assert conditions == conditions[..|conditions| - 1] + [last];
      if last.name in names then rest + [last] else rest
  }

  /** Increasing positions of all the conditions whose names are wanted, and the
      conditions at these positions. */
  ghost predicate Picked(conditions: seq<MatchCondition>, names: set<string>, at: seq<nat>,
                         chosen: seq<MatchCondition>) {
    && (forall k, l :: 0 <= k < l < |at| ==> at[k] < at[l])
    && (forall j :: j in at <==> 0 <= j < |conditions| && conditions[j].name in names)
    && |chosen| == |at|
    && forall k :: 0 <= k < |at| ==> at[k] < |conditions| && chosen[k] == conditions[at[k]]
  }

  lemma PickedAppend(conditions: seq<MatchCondition>, names: set<string>, at: seq<nat>, chosen: seq<MatchCondition>,
                     last: MatchCondition)
    requires Picked(conditions, names, at, chosen)
    ensures last.name in names ==> Picked(conditions + [last], names, at + [|conditions|], chosen + [last])
    ensures last.name !in names ==> Picked(conditions + [last], names, at, chosen)
  {
    forall j ensures j in at + [|conditions|] <==> j in at || j == |conditions| {
    }
  }

  /** Each wanted condition is chosen as often as it is declared, in that order. */
  lemma {:induction false} ChosenInOrder(conditions: seq<MatchCondition>, names: set<string>) returns (at: seq<nat>)
    ensures Picked(conditions, names, at, Chosen(conditions, names))
  {
    if conditions == [] {
      at := [];
    } else {
      var front, last := conditions[..|conditions| - 1], conditions[|conditions| - 1];
      var before := ChosenInOrder(front, names);
      PickedAppend(front, names, before, Chosen(front, names), last);
      hide Picked;
      assert conditions == front + [last];
      at := if last.name in names then before + [|front|] else before;
    }
  }

  function NameSet(t: Target): set<string> { set c | c in t.conditions }

  /** One target applied; None when a named condition is not declared. */
  function NarrowOne(uri: string, repositories: seq<Repository>, t: Target): Option<Repository> {
    var r := GetRepository(uri, repositories, t.name);
    if r == None then None
    else if t.conditions == [] then r
    else
      var chosen := Chosen(r.value.conditions, NameSet(t));
      if |chosen| != |NameSet(t)| then None else Some(r.value.(conditions := chosen))
  }

  /** The declared repository of a target, with its operator, and of its conditions
      all, or those the target names, every name of the target among them. */
  ghost predicate NarrowedTo(uri: string, repositories: seq<Repository>, t: Target, narrow: Repository) {
    exists r :: GetRepository(uri, repositories, t.name) == Some(r)
                && narrow.name == r.name && narrow.operator == r.operator
                && if t.conditions == [] then narrow.conditions == r.conditions
                   else forall m :: m in narrow.conditions <==> m in r.conditions && m.name in t.conditions
  }

  /** The worker's restriction of a registry to the targets of its job. */
  method ApplyTargetsToRegistry(uri: string, repositories: seq<Repository>, targets: seq<Target>)
    returns (narrowed: Option<seq<Repository>>)
    ensures targets == [] ==> narrowed == Some(repositories)
    ensures targets != [] ==>
              (narrowed.Some? <==> forall t :: t in targets ==> NarrowOne(uri, repositories, t).Some?)
    ensures targets != [] && narrowed.Some? ==>
              && |narrowed.value| == |targets|
              && forall i :: 0 <= i < |targets| ==> Some(narrowed.value[i]) == NarrowOne(uri, repositories, targets[i])
    ensures targets != [] && narrowed.Some? ==>
              forall i :: 0 <= i < |targets| ==> NarrowedTo(uri, repositories, targets[i], narrowed.value[i])
  {
    if targets == [] { return Some(repositories); }
    var result := [];
    for i := 0 to |targets|
      invariant |result| == i
      invariant forall j :: 0 <= j < i ==> Some(result[j]) == NarrowOne(uri, repositories, targets[j])
    {
      var t := targets[i];
      assert t in targets;
      var r := GetRepository(uri, repositories, t.name);
      if r == None { return None; }
      var repository := r.value;
      if t.conditions != [] {
        var names := set c | c in t.conditions;
        assert names == NameSet(t);
        var chosen := DeleteOthers(repository.conditions, names);
        if |chosen| != |names| { return None; }
        repository := repository.(conditions := chosen);
      }
      result := result + [repository];
    }
    return Some(result);
  }

  method DeleteOthers(conditions: seq<MatchCondition>, names: set<string>) returns (chosen: seq<MatchCondition>)
    ensures chosen == Chosen(conditions, names)
  {
    chosen := [];
    for i := 0 to |conditions|
      invariant chosen == Chosen(conditions[..i], names)
    {
      assert conditions[..i + 1][..i] == conditions[..i];
      if conditions[i].name in names { chosen := chosen + [conditions[i]]; }
    }
    assert conditions[..|conditions|] == conditions;
  }

  function ConditionNames(conditions: seq<MatchCondition>): (names: set<string>)
    ensures forall c :: c in names <==> HasCondition(conditions, c)
  {
    set m | m in conditions :: m.name
  }

  lemma NamesAppend(front: seq<MatchCondition>, last: MatchCondition)
    ensures ConditionNames(front + [last]) == ConditionNames(front) + {last.name}
  {
    forall c ensures HasCondition(front + [last], c) <==> HasCondition(front, c) || c == last.name {
      if HasCondition(front, c) {
        var m :| m in front && m.name == c;
        assert m in front + [last];
      }
      assert last in front + [last];
    }
  }

  /** With distinct names, as many conditions are chosen as wanted names exist. */
  lemma {:induction false} ChosenSize(conditions: seq<MatchCondition>, names: set<string>)
    requires DistinctKeys(ConditionName, conditions)
    ensures |Chosen(conditions, names)| == |ConditionNames(conditions) * names|
  {
    hide ConditionNames, HasCondition;
    if conditions != [] {
      var front, last := conditions[..|conditions| - 1], conditions[|conditions| - 1];
      ChosenSize(front, names);
      assert conditions == front + [last];
      NamesAppend(front, last);
      NotBefore(front, last);
      OneMore(ConditionNames(front), last.name, names);
    } else {
      NoNames();
      assert ConditionNames(conditions) * names == {};
    }
  }

  lemma NoNames()
    ensures ConditionNames([]) == {}
  {
  }

  lemma OneMore(known: set<string>, name: string, names: set<string>)
    requires name !in known
    ensures |(known + {name}) * names| == |known * names| + if name in names then 1 else 0
  {
    assert (known + {name}) * names == if name in names then known * names + {name} else known * names;
  }

  lemma NotBefore(front: seq<MatchCondition>, last: MatchCondition)
    requires DistinctKeys(ConditionName, front + [last])
    ensures last.name !in ConditionNames(front)
  {
    forall m | m in front ensures m.name != last.name {
      var i :| 0 <= i < |front| && front[i] == m;
      assert (front + [last])[i] == m && (front + [last])[|front|] == last;
    }
  }

  lemma FullIntersection(a: set<string>, b: set<string>)
    ensures |a * b| == |b| <==> b <= a
  {
    assert b == (a * b) + (b - a);
    assert |b| == |a * b| + |b - a|;
    if b <= a { assert a * b == b; }
  }

  /** On a repository with distinct condition names the two checks agree. */
  lemma TargetAgrees(uri: string, repositories: seq<Repository>, t: Target)
    requires var r := GetRepository(uri, repositories, t.name);
             r.Some? ==> DistinctKeys(ConditionName, r.value.conditions)
    ensures TargetValid(uri, repositories, t) <==> NarrowOne(uri, repositories, t).Some?
  {
    var r := GetRepository(uri, repositories, t.name);
    if r.Some? && t.conditions != [] {
      ChosenSize(r.value.conditions, NameSet(t));
      FullIntersection(ConditionNames(r.value.conditions), NameSet(t));
      NamesWithin(r.value.conditions, t);
    }
  }

  lemma NamesWithin(conditions: seq<MatchCondition>, t: Target)
    ensures NameSet(t) <= ConditionNames(conditions) <==> forall c :: c in t.conditions ==> HasCondition(conditions, c)
  {
    hide ConditionNames;
  }

  /** A repository that declares a name twice is accepted and then not narrowed. */
  lemma {:induction false} TwiceChosen(conditions: seq<MatchCondition>, i: nat, j: nat)
    requires i < j < |conditions| && conditions[i].name == conditions[j].name
    ensures |Chosen(conditions, {conditions[i].name})| >= 2
  {
    var front, last := conditions[..|conditions| - 1], conditions[|conditions| - 1];
    if j < |conditions| - 1 {
      TwiceChosen(front, i, j);
    } else {
      assert front[i] in Chosen(front, {conditions[i].name});
    }
  }

  ghost predicate DistinctAt(uri: string, repositories: seq<Repository>, name: string) {
    var r := GetRepository(uri, repositories, name);
    r.Some? ==> DistinctKeys(ConditionName, r.value.conditions)
  }

  lemma DuplicateSeparates(uri: string, repositories: seq<Repository>, name: string) returns (t: Target)
    requires !DistinctAt(uri, repositories, name)
    ensures TargetValid(uri, repositories, t) && NarrowOne(uri, repositories, t) == None
  {
    var conditions := GetRepository(uri, repositories, name).value.conditions;
    var i, j :| 0 <= i < j < |conditions| && ConditionName(conditions[i]) == ConditionName(conditions[j]);
    t := Target(name, [conditions[i].name]);
    TwiceChosen(conditions, i, j);
    assert NameSet(t) == {conditions[i].name};
    assert conditions[i] in conditions;
  }

  /** Validation and narrowing agree on every target if and only if no repository a
      target can reach declares a condition name twice. */
  lemma ChecksAgree(uri: string, repositories: seq<Repository>)
    ensures (forall t :: TargetValid(uri, repositories, t) <==> NarrowOne(uri, repositories, t).Some?)
       <==> (forall name :: DistinctAt(uri, repositories, name))
  {
    hide TargetValid, NarrowOne;
    if forall name :: DistinctAt(uri, repositories, name) {
      forall t ensures TargetValid(uri, repositories, t) <==> NarrowOne(uri, repositories, t).Some? {
        assert DistinctAt(uri, repositories, t.name);
        TargetAgrees(uri, repositories, t);
      }
    } else {
      var name :| !DistinctAt(uri, repositories, name);
      var t := DuplicateSeparates(uri, repositories, name);
    }
  }

  // --- The tag filter ----------------------------------------------------------------

  /** Evaluation of an expression on a tag; None when it fails. */
  type Evaluator = (Expression, string) -> Option<bool>

  function Effective(op: Operator): Operator { if op == Unset then And else op }

  predicate Allows(evaluate: Evaluator, op: Operator, conditions: seq<MatchCondition>, tag: string) {
    match op
    case And => forall m :: m in conditions ==> evaluate(m.expression, tag) == Some(true)
    case Or => exists m :: m in conditions && evaluate(m.expression, tag) == Some(true)
    case _ => false
  }

  /** A value that leaves the verdict open: true for a conjunction, which an unset
      operator is, false for a disjunction, any for an operator that is neither. */
  predicate Continues(op: Operator, v: Option<bool>) {
    match op
    case Unset => v == Some(true)
    case And => v == Some(true)
    case Or => v == Some(false)
    case Other(_) => v.Some?
  }

  method FilterByTag(evaluate: Evaluator, repository: Option<Repository>, tag: string) returns (allowed: Option<bool>)
    ensures repository == None || repository.value.conditions == [] ==> allowed == Some(true)
    ensures repository.Some? && repository.value.conditions != [] ==>
              var r := repository.value;
              // no failing evaluation: all conditions, one of them, or nothing for an unknown operator
              (forall m :: m in r.conditions ==> evaluate(m.expression, tag).Some?) ==>
                && allowed == Some(Allows(evaluate, Effective(r.operator), r.conditions, tag))
                && (r.operator in {Unset, And} ==>
                      (allowed == Some(true) <==>
                         forall m :: m in r.conditions ==> evaluate(m.expression, tag) == Some(true)))
                && (r.operator == Or ==>
                      (allowed == Some(true) <==>
                         exists m :: m in r.conditions && evaluate(m.expression, tag) == Some(true)))
                && (r.operator.Other? ==> allowed == Some(false))
    // an error exactly when an evaluation fails before the verdict is settled
    ensures repository.Some? ==>
              var r := repository.value;
              allowed == None <==>
                exists i :: 0 <= i < |r.conditions| && evaluate(r.conditions[i].expression, tag) == None
                  && forall j :: 0 <= j < i ==> Continues(r.operator, evaluate(r.conditions[j].expression, tag))
  {
    if repository == None || repository.value.conditions == [] { return Some(true); }
    var conditions := repository.value.conditions;
    var op := repository.value.operator;
    if op == Unset { op := And; }
    for i := 0 to |conditions|
      invariant forall j :: 0 <= j < i ==> Continues(op, evaluate(conditions[j].expression, tag))
    {
      var v := evaluate(conditions[i].expression, tag);
      if v == None { return None; }
      if op == And && !v.value {
        assert conditions[i] in conditions;
        return Some(false);
      }
      if op == Or && v.value {
        assert conditions[i] in conditions;
        return Some(true);
      }
    }
    forall m | m in conditions
      ensures op == And ==> evaluate(m.expression, tag) == Some(true)
      ensures op == Or ==> evaluate(m.expression, tag) != Some(true)
    {
      var j :| 0 <= j < |conditions| && conditions[j] == m;
      var v := evaluate(conditions[j].expression, tag);
      assert Continues(op, v);
      assert v == Some(v.value) && v == if v.value then Some(true) else Some(false);
    }
    assert Allows(evaluate, op, conditions, tag) <==> op == And;
    return Some(op == And);
  }

  // --- References a workload registry names itself --------------------------------------

  /** A tag expression holds of its own tag only. */
  ghost predicate TagSemantics(evaluate: Evaluator) {
    forall t, tag :: evaluate(TagEquals(t), tag) == Some(t == tag)
  }

  ghost predicate Admits(evaluate: Evaluator, r: Repository, tag: string) {
    r.conditions == [] || Allows(evaluate, Effective(r.operator), r.conditions, tag)
  }

  const DIGEST := "sha256:"

  /** What is scanned in a repository: whatever the registry lists, or exactly the
      identifiers the conditions name. */
  datatype References = Listing | Invalid | Exact(identifiers: set<string>)

  /** Conditions that name their references, at least one of them by digest. */
  ghost predicate NamesReferences(r: Repository, valid: string -> bool) {
    && r.operator == Or
    && (forall m :: m in r.conditions ==> KeyOk(KeyOf(r.name, m)) && valid(m.expression.tag))
    && exists m :: m in r.conditions && "sha256:" <= m.expression.tag
  }

  /** The references of a repository of a registry the workload scan manages. What is
      returned exactly is what the tag filter admits, so that nothing is lost by not
      listing the repository and digests, which no listing holds, are found. */
  method WorkloadReferences(managed: bool, uri: string, repositories: seq<Repository>, full: string,
                            valid: string -> bool, ghost evaluate: Evaluator) returns (references: References)
    requires TagSemantics(evaluate)
    ensures var r := GetRepository(uri, repositories, full);
            references.Exact? <==> managed && r.Some? && NamesReferences(r.value, valid)
    ensures references.Exact? ==>
              forall tag :: tag in references.identifiers <==>
                Admits(evaluate, GetRepository(uri, repositories, full).value, tag)
    ensures references.Invalid? ==>
              var r := GetRepository(uri, repositories, full);
              r.Some?
              && exists m :: m in r.value.conditions && KeyOk(KeyOf(r.value.name, m)) && !valid(m.expression.tag)
  {
    var r := GetRepository(uri, repositories, full);
    if !managed || r == None || r.value.operator != Or || r.value.conditions == [] { return Listing; }
    var conditions := r.value.conditions;
    var found, hasDigest := {}, false;
    for i := 0 to |conditions|
      invariant forall j :: 0 <= j < i ==>
                              KeyOk(KeyOf(r.value.name, conditions[j])) && valid(conditions[j].expression.tag)
      invariant hasDigest <==> exists j :: 0 <= j < i && DIGEST <= conditions[j].expression.tag
      invariant forall tag :: tag in found <==> exists j :: 0 <= j < i && conditions[j].expression.tag == tag
    {
      var m := conditions[i];
      assert m in conditions;
      if !KeyOk(KeyOf(r.value.name, m)) { return Listing; }
      var identifier := m.expression.tag;
      if !valid(identifier) { return Invalid; }
      hasDigest := hasDigest || DIGEST <= identifier;
      found := found + {identifier};
    }
    if !hasDigest { return Listing; }
    forall tag ensures tag in found <==> Admits(evaluate, r.value, tag) {
      if tag in found {
        var j :| 0 <= j < |conditions| && conditions[j].expression.tag == tag;
        assert conditions[j] in conditions && evaluate(conditions[j].expression, tag) == Some(true);
      }
      if Admits(evaluate, r.value, tag) {
        var m :| m in conditions && evaluate(m.expression, tag) == Some(true);
        assert m.expression == TagEquals(m.expression.tag);
      }
    }
    return Exact(found);
  }
}
