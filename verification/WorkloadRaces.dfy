/** Reconciles of several namespaces that overlap on one registry. Each lists, and
    later updates with a version check, creates, or deletes. The deletion carries no
    version: it removes whatever is stored by then. */
module WorkloadRaces {
  import opened Ordering
  import opened Registries
  import opened WorkloadRegistry
  import opened WorkloadFleet
  import opened WorkloadRequests

  datatype Stored = Stored(version: nat, registry: Registry)

  /** A reconcile between its list and its write. */
  datatype Proc = Proc(read: Option<Stored>, tags: RepositoryTags, config: Config, uuid: string)

  /** `last` holds what each namespace needed at its last write, `since` only the writes
      after the last deletion. A namespace has one reconcile at a time. */
  datatype State = State(
    stored: Option<Stored>, next: nat, procs: map<string, Proc>, last: map<string, set<Key>>,
    since: map<string, set<Key>>)

  const INIT := State(None, 0, map[], map[], map[])

  datatype Step =
    | List(namespace: string, tags: RepositoryTags, config: Config, uuid: string)
    | Update(namespace: string, after: Registry)
    | Create(namespace: string, after: Registry)
    | Delete(namespace: string)
    | Nothing(namespace: string) // neither a registry nor a need
    | Fail(namespace: string) // a conflict, another error, or a crash
    | Annotate(requests: map<string, seq<Target>>)

  function At(m: map<string, set<Key>>, namespace: string): set<Key> { if namespace in m then m[namespace] else {} }

  function Content(s: State): Option<Registry> { if s.stored.Some? then Some(s.stored.value.registry) else None }

  ghost predicate Enabled(s: State, step: Step) {
    match step
    case List(namespace, tags, _, _) => namespace !in s.procs && forall name :: name in tags ==> tags[name] != {}
    case Update(namespace, after) =>
      && namespace in s.procs && s.procs[namespace].read.Some?
      && var p := s.procs[namespace];
         var mark, needs, read := NamespaceLabel(namespace), Needs(p.tags), p.read.value;
         && !Unclaimed(read.registry.repositories, mark, needs)
         && Updated(read.registry, mark, needs, p.config, p.uuid, after)
         && s.stored.Some? && s.stored.value.version == read.version
    case Create(namespace, after) =>
      && namespace in s.procs && s.procs[namespace].read == None && s.stored == None
      && var p := s.procs[namespace];
         p.tags != map[] && Created(NamespaceLabel(namespace), p.tags, p.config, p.uuid, after)
    case Delete(namespace) =>
      && namespace in s.procs && s.procs[namespace].read.Some?
      && var p := s.procs[namespace];
         Unclaimed(p.read.value.registry.repositories, NamespaceLabel(namespace), Needs(p.tags))
    case Nothing(namespace) =>
      namespace in s.procs && s.procs[namespace].read == None && s.procs[namespace].tags == map[]
    case Fail(namespace) => namespace in s.procs
    case Annotate(_) => s.stored.Some?
  }

  /** A write that was accepted, and what its namespace needed. */
  function Wrote(s: State, namespace: string, stored: Option<Stored>): State
    requires namespace in s.procs
  {
    var needs := Needs(s.procs[namespace].tags);
    s.(stored := stored, next := s.next + 1, procs := s.procs - {namespace}, last := s.last[namespace := needs],
       since := if stored == None then map[] else s.since[namespace := needs])
  }

  function Apply(s: State, step: Step): State
    requires Enabled(s, step)
  {
    match step
    case List(namespace, tags, config, uuid) => s.(procs := s.procs[namespace := Proc(s.stored, tags, config, uuid)])
    case Update(namespace, after) => Wrote(s, namespace, Some(Stored(s.next, after)))
    case Create(namespace, after) => Wrote(s, namespace, Some(Stored(s.next, after)))
    case Delete(namespace) => Wrote(s, namespace, None)
    case Nothing(namespace) =>
      s.(procs := s.procs - {namespace}, last := s.last[namespace := {}], since := s.since[namespace := {}])
    case Fail(namespace) => s.(procs := s.procs - {namespace})
    case Annotate(requests) =>
      s.(stored := Some(Stored(s.next, s.stored.value.registry.(requests := requests))), next := s.next + 1)
  }

  ghost function Execute(steps: seq<Step>): Option<State> {
    if steps == [] then Some(INIT)
    else
      var s := Execute(steps[..|steps| - 1]);
      if s.Some? && Enabled(s.value, steps[|steps| - 1]) then Some(Apply(s.value, steps[|steps| - 1])) else None
  }

  // --- What is stored -----------------------------------------------------------------------

  /** The labels of a list are exactly those of a record of needs. */
  ghost predicate Labels(repositories: seq<Repository>, needs: map<string, set<Key>>) {
    && (forall namespace, key ::
          Claimed(repositories, Claim(key, NamespaceLabel(namespace))) <==> key in At(needs, namespace))
    && (forall c :: Claimed(repositories, c) ==> exists namespace :: c.mark == NamespaceLabel(namespace))
  }

  ghost predicate CopyOk(s: State, read: Option<Stored>) {
    read.Some? ==>
      && read.value.version < s.next
      && (s.stored.Some? && s.stored.value.version == read.value.version ==> s.stored == read)
  }

  /** A reconcile that listed nothing has no label of its namespace to take care of. */
  ghost predicate ProcOk(s: State, namespace: string) {
    namespace in s.procs ==>
      CopyOk(s, s.procs[namespace].read) && (s.procs[namespace].read == None ==> At(s.since, namespace) == {})
  }

  ghost predicate Inv(s: State) {
    && Labels(ListOf(Content(s)), s.since)
    && (s.stored.Some? ==> s.stored.value.version < s.next)
    && forall namespace :: ProcOk(s, namespace)
  }

  lemma NoLabels(needs: map<string, set<Key>>)
    ensures Labels([], needs) <==> forall namespace :: At(needs, namespace) == {}
  {
    hide NamespaceLabel;
    if Labels([], needs) {
      forall namespace ensures At(needs, namespace) == {} {
        forall key ensures key !in At(needs, namespace) {
          assert !Claimed([], Claim(key, NamespaceLabel(namespace)));
        }
      }
    }
  }

  /** One label follows the needs of its namespace. */
  lemma Relabelled(before: seq<Repository>, needs: map<string, set<Key>>, namespace: string, wanted: set<Key>,
                   after: seq<Repository>)
    requires Labels(before, needs)
    requires forall c :: Claimed(after, c) <==> NextClaim(before, NamespaceLabel(namespace), wanted, c)
    ensures Labels(after, needs[namespace := wanted])
  {
    hide Claimed, NamespaceLabel;
    var next := needs[namespace := wanted];
    forall n, key ensures Claimed(after, Claim(key, NamespaceLabel(n))) <==> key in At(next, n) {
      NamespaceLabelInjective(n, namespace);
      assert Claimed(after, Claim(key, NamespaceLabel(n))) <==>
          NextClaim(before, NamespaceLabel(namespace), wanted, Claim(key, NamespaceLabel(n)));
    }
  }

  lemma UpdateKeeps(s: State, step: Step)
    requires Inv(s) && Enabled(s, step) && step.Update?
    ensures Labels(ListOf(Content(Apply(s, step))), Apply(s, step).since)
  {
    hide NamespaceLabel, Labels, Claimed, Canonical, Requested, Needs;
    var p := s.procs[step.namespace];
    assert ProcOk(s, step.namespace);
    Relabelled(ListOf(Content(s)), s.since, step.namespace, Needs(p.tags), step.after.repositories);
  }

  lemma CreateKeeps(s: State, step: Step)
    requires Inv(s) && Enabled(s, step) && step.Create?
    ensures Labels(ListOf(Content(Apply(s, step))), Apply(s, step).since)
  {
    hide NamespaceLabel, Labels, Claimed, Canonical, Needs;
    var p := s.procs[step.namespace];
    NoClaims();
    Relabelled([], s.since, step.namespace, Needs(p.tags), step.after.repositories);
  }

  lemma LabelsKept(s: State, step: Step)
    requires Inv(s) && Enabled(s, step)
    ensures Labels(ListOf(Content(Apply(s, step))), Apply(s, step).since)
  {
    hide Updated, Created, Unclaimed, NamespaceLabel, Labels, Needs;
    match step
    case Update(_, _) => UpdateKeeps(s, step);
    case Create(_, _) => CreateKeeps(s, step);
    case Delete(_) => NoLabels(map[]);
    case Nothing(namespace) =>
      assert ProcOk(s, namespace);
      SameNeeds(ListOf(Content(s)), s.since, namespace);
    case List(_, _, _, _) =>
    case Fail(_) =>
    case Annotate(_) =>
  }

  lemma SameNeeds(repositories: seq<Repository>, needs: map<string, set<Key>>, namespace: string)
    requires Labels(repositories, needs) && At(needs, namespace) == {}
    ensures Labels(repositories, needs[namespace := {}])
  {
    hide Claimed, NamespaceLabel;
    assert forall n :: At(needs[namespace := {}], n) == At(needs, n);
  }

  lemma ProcsKept(s: State, step: Step)
    requires Inv(s) && Enabled(s, step)
    ensures forall namespace :: ProcOk(Apply(s, step), namespace)
  {
    hide Updated, Created, Unclaimed, NamespaceLabel, Needs;
    if s.stored == None { NoLabels(s.since); }
    hide Labels;
    forall namespace ensures ProcOk(Apply(s, step), namespace) {
      assert ProcOk(s, namespace);
    }
  }

  lemma {:induction false} RunInv(steps: seq<Step>)
    requires Execute(steps).Some?
    ensures Inv(Execute(steps).value)
  {
    if steps == [] {
      NoLabels(map[]);
    } else {
      hide Enabled, Labels, ProcOk;
      var prefix, step := steps[..|steps| - 1], steps[|steps| - 1];
      RunInv(prefix);
      var s := Execute(prefix).value;
      LabelsKept(s, step);
      ProcsKept(s, step);
      VersionsGrow(s, step);
      hide Apply;
    }
  }

  lemma VersionsGrow(s: State, step: Step)
    requires Enabled(s, step) && (s.stored.Some? ==> s.stored.value.version < s.next)
    ensures var t := Apply(s, step); t.stored.Some? ==> t.stored.value.version < t.next
  {
  }

  /** Whatever overlaps: the labels are what each namespace needed at its last write
      after the last deletion. */
  lemma LabelsSinceDeletion(steps: seq<Step>)
    requires Execute(steps).Some?
    ensures Labels(ListOf(Content(Execute(steps).value)), Execute(steps).value.since)
  {
    hide Execute, Labels;
    RunInv(steps);
  }

  // --- When they are the last needs -------------------------------------------------------------

  /** At this point of the run the labels are what each namespace last needed. */
  ghost predicate ExactAt(steps: seq<Step>, n: int) {
    0 <= n <= |steps| && Execute(steps[..n]).Some?
    && Labels(ListOf(Content(Execute(steps[..n]).value)), Execute(steps[..n]).value.last)
  }

  /** The step deletes a registry that carries a label of another namespace. */
  ghost predicate Loses(s: State, step: Step) {
    step.Delete? && exists c :: Claimed(ListOf(Content(s)), c) && c.mark != NamespaceLabel(step.namespace)
  }

  ghost predicate LosesAt(steps: seq<Step>, n: int) {
    0 <= n < |steps| && Execute(steps[..n]).Some? && Loses(Execute(steps[..n]).value, steps[n])
  }

  lemma {:induction false} Prefix(steps: seq<Step>, n: nat)
    requires Execute(steps).Some? && n <= |steps|
    ensures Execute(steps[..n]).Some?
    ensures n < |steps| ==>
              && Enabled(Execute(steps[..n]).value, steps[n])
              && Execute(steps[..n + 1]) == Some(Apply(Execute(steps[..n]).value, steps[n]))
    decreases |steps| - n
  {
    hide Enabled, Apply;
    if n == |steps| {
      assert steps[..n] == steps;
    } else {
      Prefix(steps, n + 1);
      assert steps[..n + 1][..n] == steps[..n];
    }
  }

  /** Needs that are recorded alike. */
  ghost predicate SameRecord(a: map<string, set<Key>>, b: map<string, set<Key>>) {
    forall namespace :: At(a, namespace) == At(b, namespace)
  }

  lemma SameLabels(repositories: seq<Repository>, a: map<string, set<Key>>, b: map<string, set<Key>>)
    requires Labels(repositories, a)
    ensures Labels(repositories, b) <==> SameRecord(a, b)
  {
    hide Claimed, NamespaceLabel;
    if Labels(repositories, b) {
      forall namespace ensures At(a, namespace) == At(b, namespace) {
        forall key ensures key in At(a, namespace) <==> key in At(b, namespace) {
          assert Claimed(repositories, Claim(key, NamespaceLabel(namespace))) <==> key in At(a, namespace);
        }
      }
    }
  }

  /** What the deleting namespace needs is nothing. */
  lemma DeleterNeedsNothing(repositories: seq<Repository>, mark: string, needs: set<Key>)
    requires Unclaimed(repositories, mark, needs)
    ensures needs == {}
  {
    if key :| key in needs {
      assert NextClaim(repositories, mark, needs, Claim(key, mark));
      assert false;
    }
  }

  /** A deletion keeps the records alike if and only if it loses no label. */
  lemma DeleteRecord(s: State, step: Step)
    requires Inv(s) && Enabled(s, step) && step.Delete? && SameRecord(s.since, s.last)
    ensures var t := Apply(s, step); SameRecord(t.since, t.last) <==> !Loses(s, step)
  {
    var t, p := Apply(s, step), s.procs[step.namespace];
    DeleterNeedsNothing(p.read.value.registry.repositories, NamespaceLabel(step.namespace), Needs(p.tags));
    hide Enabled, Apply, Unclaimed, NamespaceLabel, Needs;
    assert t.since == map[] && t.last == s.last[step.namespace := {}];
    if Loses(s, step) {
      var c :| Claimed(ListOf(Content(s)), c) && c.mark != NamespaceLabel(step.namespace);
      var n :| c.mark == NamespaceLabel(n);
      assert c == Claim(c.key, NamespaceLabel(n));
      assert c.key in At(s.since, n) && At(t.last, n) == At(s.last, n) && At(t.since, n) == {};
    } else {
      forall n ensures At(t.last, n) == {} {
        if n != step.namespace {
          NamespaceLabelInjective(n, step.namespace);
          forall key ensures key !in At(s.since, n) {
            assert Claimed(ListOf(Content(s)), Claim(key, NamespaceLabel(n))) <==> key in At(s.since, n);
          }
          assert At(s.since, n) == {} && At(s.last, n) == At(s.since, n);
        }
      }
    }
  }

  lemma OtherRecord(s: State, step: Step)
    requires Enabled(s, step) && !step.Delete? && SameRecord(s.since, s.last)
    ensures var t := Apply(s, step); SameRecord(t.since, t.last)
  {
    hide Enabled, Needs;
    var t := Apply(s, step);
    forall n ensures At(t.since, n) == At(t.last, n) { assert At(s.since, n) == At(s.last, n); }
  }

  lemma StepRecord(s: State, step: Step)
    requires Inv(s) && Enabled(s, step) && SameRecord(s.since, s.last)
    ensures var t := Apply(s, step); SameRecord(t.since, t.last) <==> !Loses(s, step)
  {
    hide Inv, SameRecord, Apply;
    if step.Delete? { DeleteRecord(s, step); } else { OtherRecord(s, step); }
  }

  lemma ExactIsSame(steps: seq<Step>, n: nat)
    requires Execute(steps).Some? && n <= |steps|
    ensures Execute(steps[..n]).Some?
    ensures ExactAt(steps, n) <==> SameRecord(Execute(steps[..n]).value.since, Execute(steps[..n]).value.last)
  {
    Prefix(steps, n);
    hide Execute, Labels, SameRecord;
    LabelsSinceDeletion(steps[..n]);
    var s := Execute(steps[..n]).value;
    SameLabels(ListOf(Content(s)), s.since, s.last);
  }

  lemma {:induction false} ExactUpTo(steps: seq<Step>, n: nat)
    requires Execute(steps).Some? && n <= |steps|
    ensures (forall k :: 0 <= k <= n ==> ExactAt(steps, k)) <==> (forall k :: 0 <= k < n ==> !LosesAt(steps, k))
  {
    hide Enabled, Apply, Labels, Loses, Inv, SameRecord;
    ExactIsSame(steps, n);
    if n == 0 {
      assert steps[..0] == [];
      StartsAlike();
    } else {
      ExactUpTo(steps, n - 1);
      if forall k :: 0 <= k <= n - 1 ==> ExactAt(steps, k) {
        assert ExactAt(steps, n - 1);
        ExactIsSame(steps, n - 1);
        Prefix(steps, n - 1);
        hide Execute;
        RunInv(steps[..n - 1]);
        StepRecord(Execute(steps[..n - 1]).value, steps[n - 1]);
        assert LosesAt(steps, n - 1) <==> Loses(Execute(steps[..n - 1]).value, steps[n - 1]);
      }
    }
  }

  lemma StartsAlike()
    ensures SameRecord(INIT.since, INIT.last)
  {
  }

  /** Throughout a run the labels are what each namespace last needed if and only if no
      deletion finds a label of another namespace on the stored registry. */
  lemma LabelsExactIff(steps: seq<Step>)
    requires Execute(steps).Some?
    ensures (forall n :: 0 <= n <= |steps| ==> ExactAt(steps, n)) <==>
        forall n :: 0 <= n < |steps| ==> !LosesAt(steps, n)
  {
    hide ExactAt, LosesAt, Execute;
    ExactUpTo(steps, |steps|);
  }

  /** A deletion that finds the version it has read loses nothing. */
  lemma VersionedDeletion(steps: seq<Step>, namespace: string)
    requires Execute(steps).Some? && Enabled(Execute(steps).value, Delete(namespace))
    requires var s := Execute(steps).value;
             s.stored.Some? && s.stored.value.version == s.procs[namespace].read.value.version
    ensures !Loses(Execute(steps).value, Delete(namespace))
  {
    RunInv(steps);
    var s := Execute(steps).value;
    hide Execute, Labels, NamespaceLabel, Needs, Claimed;
    assert ProcOk(s, namespace);
    var p := s.procs[namespace];
    var list, mark := p.read.value.registry.repositories, NamespaceLabel(namespace);
    forall c | Claimed(list, c) ensures c.mark == mark {
      assert !NextClaim(list, mark, Needs(p.tags), c);
    }
  }
}
