/** Runs of reconciles that end where the exact conditions of the registry theorems
    fail. */
module WorkloadCases {
  import opened Ordering
  import opened Registries
  import opened WorkloadRegistry
  import opened WorkloadFleet
  import opened WorkloadRuns
  import opened WorkloadRequests
  import opened ScanScope
  import opened RescanScope
  import Race = WorkloadRaces

  /** A reconcile of images of one registry, when there is no other. */
  lemma OneAddress(before: Registered, v: Visit, a: Address, r: Registry)
    requires before.Keys <= {a} && v.groups.Keys == {a.uri} && a.namespace == Home(v.config, v.namespace)
    requires Reconciled(Lookup(before, a), NamespaceLabel(v.namespace), v.groups[a.uri], v.config, v.uuid(a.uri),
                        Some(r))
    ensures Visited(before, v, before[a := r])
  {
    hide Updated, Created, Unclaimed, NamespaceLabel, Home;
    var after := before[a := r];
    forall b: Address | b.namespace == Home(v.config, v.namespace) ensures ReconciledAt(before, v, after, b) {
      if b != a {
        assert b.uri != a.uri && b.uri !in v.groups;
        assert Lookup(before, b) == None == Lookup(after, b);
      }
    }
    forall b: Address | b.namespace != Home(v.config, v.namespace) ensures Lookup(after, b) == Lookup(before, b) {
      assert b != a;
    }
  }

  function Labelled(tag: string, namespace: string): MatchCondition {
    MatchCondition(TagName(tag), TagEquals(tag), map[NamespaceLabel(namespace) := "true"])
  }

  lemma LabelledOk(repository: string, tag: string, namespace: string)
    ensures ConditionOk(repository, Labelled(tag, namespace))
    ensures RepositoryOk(Repository(repository, [Labelled(tag, namespace)], Or))
    ensures Fills([Labelled(tag, namespace)], {tag}, NamespaceLabel(namespace))
  {
    var m := Labelled(tag, namespace);
    assert NamespaceLabel(namespace) in m.labels;
    assert m in [m] && tag in {tag};
  }

  // --- A parsed name that is overshadowed -------------------------------------------------

  const SHORT := "app/web"
  const LONG := LIBRARY + SHORT

  function BothNames(): RepositoryTags { map[SHORT := {"1"}, LONG := {"1"}] }

  function BothDeclared(): seq<Repository> {
    [Repository(SHORT, [Labelled("1", "a")], Or), Repository(LONG, [Labelled("1", "a")], Or)]
  }

  lemma NamesDiffer()
    ensures SHORT != LONG && Less(SHORT, LONG) && '/' in SHORT
    ensures FullName(DEFAULT_REGISTRY, SHORT) == SHORT && FullName(DEFAULT_REGISTRY, LONG) == LONG
  {
    assert SHORT[0] < LONG[0] && SHORT[3] == '/';
    LibraryPrefix(SHORT, SHORT);
  }

  lemma BothFilled()
    ensures FillsAll(BothDeclared(), BothNames(), BothNames().Keys, NamespaceLabel("a")) && Canonical(BothDeclared())
  {
    hide NamespaceLabel, Fills, RepositoryOk, Labelled, Less;
    NamesDiffer();
    LabelledOk(SHORT, "1", "a");
    LabelledOk(LONG, "1", "a");
    var d := BothDeclared();
    assert d[0] in d && d[1] in d;
  }

  function VisitOf(namespace: string, uri: string, tags: RepositoryTags, settings: Settings, uuid: string): Visit {
    Visit(namespace, map[uri := tags], Config(settings, true, "home"), _ => uuid)
  }

  lemma BothCreated(settings: Settings)
    ensures Created(NamespaceLabel("a"), BothNames(), Config(settings, true, "home"), "u",
                    Registry(BothDeclared(), settings, map["u" := []]))
  {
    hide NamespaceLabel, Canonical, FillsAll, Needs, BothNames, BothDeclared;
    BothFilled();
    forall c ensures Claimed(BothDeclared(), c) <==> c.mark == NamespaceLabel("a") && c.key in Needs(BothNames()) {
      FilledClaims(BothDeclared(), BothNames(), NamespaceLabel("a"), c);
    }
  }

  const HUB := Address("home", DEFAULT_REGISTRY)

  function Both(settings: Settings): Registry { Registry(BothDeclared(), settings, map["u" := []]) }

  lemma BothVisit(settings: Settings)
    ensures Visited(map[], VisitOf("a", HUB.uri, BothNames(), settings, "u"), map[HUB := Both(settings)])
    ensures Inhabited(map[HUB.uri := BothNames()])
  {
    BothCreated(settings);
    assert SHORT in BothNames() && "1" in BothNames()[SHORT];
    hide Created, NamespaceLabel, BothDeclared, Visited;
    OneAddress(map[], VisitOf("a", HUB.uri, BothNames(), settings, "u"), HUB, Both(settings));
    assert map[][HUB := Both(settings)] == map[HUB := Both(settings)];
  }

  /** One reconcile of a namespace that runs `app/web` and `library/app/web`, both of
      them names that parsing gives, leaves a registry with an overshadowed
      repository. */
  lemma OvershadowedHappens(settings: Settings)
    returns (states: seq<Registered>, visits: seq<Attempt>, a: Address, key: Key)
    ensures Run(states, visits) && |visits| == 1 && a in states[1] && a.uri == DEFAULT_REGISTRY
    ensures var r := states[1][a].repositories;
            && Canonical(r) && ParsedNames(a.uri, r) && Declared(r, {key}) && Overshadowed(a.uri, r, key.repository)
  {
    hide Visited, Canonical, Declared, ParsedNames, Overshadowed, BothDeclared, BothNames, Inhabited, FillsAll,
      NamespaceLabel;
    a, key := HUB, TagKey(LONG, "1");
    BothVisit(settings);
    BothFilled();
    BothOvershadow();
    states, visits := [map[], map[a := Both(settings)]], [Whole(VisitOf("a", a.uri, BothNames(), settings, "u"))];
  }

  lemma BothOvershadow()
    ensures var r := BothDeclared();
            && ParsedNames(DEFAULT_REGISTRY, r) && Declared(r, {TagKey(LONG, "1")})
            && Overshadowed(DEFAULT_REGISTRY, r, LONG)
  {
    hide Less;
    NamesDiffer();
    var r := BothDeclared();
    assert r[0] in r && r[1] in r && Labelled("1", "a") in r[1].conditions;
    assert KeyOf(LONG, Labelled("1", "a")) == TagKey(LONG, "1");
  }

  // --- A condition that can be handed over ---------------------------------------------------

  const APP := "app"

  function OneTag(tag: string): RepositoryTags { map[APP := {tag}] }

  function First(): seq<Repository> { [Repository(APP, [Labelled("1", "a")], Or)] }

  function Second(): seq<Repository> { [Repository(APP, [Labelled("1", "a"), Labelled("2", "c")], Or)] }

  lemma FirstFilled()
    ensures FillsAll(First(), OneTag("1"), OneTag("1").Keys, NamespaceLabel("a")) && Canonical(First())
  {
    hide NamespaceLabel, Fills, RepositoryOk, Labelled;
    LabelledOk(APP, "1", "a");
    assert First()[0] in First();
  }

  lemma FirstClaims(c: Claim)
    ensures Claimed(First(), c) <==> c == Claim(TagKey(APP, "1"), NamespaceLabel("a"))
  {
    hide NamespaceLabel;
    var r, m := First()[0], Labelled("1", "a");
    assert r in First() && m in r.conditions;
  }

  lemma SecondClaims(c: Claim)
    ensures Claimed(Second(), c) <==>
        c == Claim(TagKey(APP, "1"), NamespaceLabel("a")) || c == Claim(TagKey(APP, "2"), NamespaceLabel("c"))
  {
    hide NamespaceLabel;
    var r := Second()[0];
    assert r in Second() && Labelled("1", "a") in r.conditions && Labelled("2", "c") in r.conditions;
  }

  lemma TagOrder()
    ensures Less(TagName("1"), TagName("2")) && TagName("1") != TagName("2")
  {
    assert Less("1", "2");
    LessAfterPrefix("tag-", "1", "2");
    TagNameInjective("1", "2");
  }

  lemma SecondCanonical()
    ensures Canonical(Second())
  {
    hide NamespaceLabel;
    TagOrder();
    LabelledOk(APP, "1", "a");
    LabelledOk(APP, "2", "c");
    var r := Second()[0];
    hide Less;
    assert RepositoryOk(r);
  }

  lemma OneNeed(tag: string)
    ensures Needs(OneTag(tag)) == {TagKey(APP, tag)}
  {
  }

  lemma FirstCreated(settings: Settings)
    ensures Created(NamespaceLabel("a"), OneTag("1"), Config(settings, true, "home"), "u",
                    Registry(First(), settings, map["u" := []]))
  {
    hide NamespaceLabel, Canonical, FillsAll, Needs, OneTag, First;
    FirstFilled();
    forall c ensures Claimed(First(), c) <==> c.mark == NamespaceLabel("a") && c.key in Needs(OneTag("1")) {
      FilledClaims(First(), OneTag("1"), NamespaceLabel("a"), c);
    }
  }

  /** The registry after the second namespace has added its tag. */
  function Shared(settings: Settings): Registry {
    Registry(Second(), settings, map["u" := [], "w" := [Target(APP, [TagName("2")])]])
  }

  lemma SecondUpdated(settings: Settings)
    ensures Updated(Registry(First(), settings, map["u" := []]), NamespaceLabel("c"), {TagKey(APP, "2")},
                    Config(settings, true, "home"), "w", Shared(settings))
    ensures !Unclaimed(First(), NamespaceLabel("c"), {TagKey(APP, "2")})
  {
    hide NamespaceLabel, Canonical, Claimed, First, Second, TargetsFor, TagKey, TagName;
    NamespaceLabelInjective("a", "c");
    FirstFilled();
    SecondCanonical();
    var added := TagKey(APP, "2");
    forall c ensures Claimed(Second(), c) <==> NextClaim(First(), NamespaceLabel("c"), {added}, c) {
      FirstClaims(c);
      SecondClaims(c);
    }
    assert NextClaim(First(), NamespaceLabel("c"), {added}, Claim(added, NamespaceLabel("c")));
    SecondRequest(settings);
  }

  lemma NewInSecond(key: Key)
    ensures Declares(Second(), key) && !Declares(First(), key) <==> key == TagKey(APP, "2")
  {
    hide NamespaceLabel, Claimed, Declares, First, Second, TagKey, Canonical;
    TagsDiffer();
    FirstFilled();
    SecondCanonical();
    DeclaredIsClaimed(First(), key);
    DeclaredIsClaimed(Second(), key);
    FirstClaims(Claim(TagKey(APP, "1"), NamespaceLabel("a")));
    SecondClaims(Claim(TagKey(APP, "2"), NamespaceLabel("c")));
    if mark :| Claimed(First(), Claim(key, mark)) { FirstClaims(Claim(key, mark)); }
    if mark :| Claimed(Second(), Claim(key, mark)) { SecondClaims(Claim(key, mark)); }
  }

  lemma SecondRequest(settings: Settings)
    ensures exists added :: Requested(Registry(First(), settings, map["u" := []]), Shared(settings), true, "w", added)
  {
    hide Declares, First, Second, TargetsFor;
    var added := {TagKey(APP, "2")};
    forall key { NewInSecond(key); }
    OneTarget(TagKey(APP, "2"));
    var before, after := map["u" := []], Shared(settings).requests;
    assert after == before["w" := after["w"]];
    assert Requested(Registry(First(), settings, before), Shared(settings), true, "w", added);
  }

  const PLACE := Address("home", "registry")

  function Before(settings: Settings): Registry { Registry(First(), settings, map["u" := []]) }

  lemma FirstVisit(settings: Settings)
    ensures Visited(map[], VisitOf("a", PLACE.uri, OneTag("1"), settings, "u"), map[PLACE := Before(settings)])
  {
    FirstCreated(settings);
    assert APP in OneTag("1");
    hide Created, NamespaceLabel, First, OneTag, Visited;
    OneAddress(map[], VisitOf("a", PLACE.uri, OneTag("1"), settings, "u"), PLACE, Before(settings));
    assert map[][PLACE := Before(settings)] == map[PLACE := Before(settings)];
  }

  lemma SecondVisit(settings: Settings)
    ensures Visited(map[PLACE := Before(settings)], VisitOf("c", PLACE.uri, OneTag("2"), settings, "w"),
                    map[PLACE := Shared(settings)])
  {
    SecondUpdated(settings);
    OneNeed("2");
    hide Updated, Unclaimed, NamespaceLabel, First, Second, OneTag, Visited, Shared, Needs, TagKey;
    OneAddress(map[PLACE := Before(settings)], VisitOf("c", PLACE.uri, OneTag("2"), settings, "w"), PLACE,
               Shared(settings));
    assert map[PLACE := Before(settings)][PLACE := Shared(settings)] == map[PLACE := Shared(settings)];
  }

  lemma TagsInhabited(uri: string, tag: string)
    ensures Inhabited(map[uri := OneTag(tag)])
  {
    assert APP in OneTag(tag) && tag in OneTag(tag)[APP];
  }

  /** Two reconciles of two namespaces leave a registry in which the first can hand its
      condition over to a third, while the second keeps the registry alive. */
  lemma HandOverHappens(settings: Settings)
    returns (states: seq<Registered>, visits: seq<Attempt>, a: Address, key: Key)
    ensures Run(states, visits) && |visits| == 2 && a in states[2]
    ensures var r := states[2][a].repositories;
            && Canonical(r) && HandedOver(r, NamespaceLabel("a"), {}, {key}, key)
            && !Unclaimed(r, NamespaceLabel("a"), {})
  {
    hide Visited, Canonical, NamespaceLabel, HandedOver, Unclaimed, Second, TagKey, OneTag, Inhabited, Before;
    a, key := PLACE, TagKey(APP, "1");
    FirstVisit(settings);
    SecondVisit(settings);
    TagsInhabited(PLACE.uri, "1");
    TagsInhabited(PLACE.uri, "2");
    SecondCanonical();
    SecondHandsOver();
    states := [map[], map[a := Before(settings)], map[a := Shared(settings)]];
    visits := [Whole(VisitOf("a", a.uri, OneTag("1"), settings, "u")),
               Whole(VisitOf("c", a.uri, OneTag("2"), settings, "w"))];
  }

  lemma SecondHandsOver()
    ensures HandedOver(Second(), NamespaceLabel("a"), {}, {TagKey(APP, "1")}, TagKey(APP, "1"))
    ensures !Unclaimed(Second(), NamespaceLabel("a"), {})
  {
    hide NamespaceLabel, Claimed, Second, TagKey;
    NamespaceLabelInjective("a", "c");
    TagsDiffer();
    forall c ensures Claimed(Second(), c) <==>
        c == Claim(TagKey(APP, "1"), NamespaceLabel("a")) || c == Claim(TagKey(APP, "2"), NamespaceLabel("c")) {
      SecondClaims(c);
    }
    assert NextClaim(Second(), NamespaceLabel("a"), {}, Claim(TagKey(APP, "2"), NamespaceLabel("c")));
  }

  lemma TagsDiffer()
    ensures TagKey(APP, "1") != TagKey(APP, "2")
  {
  }

  // --- A deletion that loses a label -----------------------------------------------------------

  function Options(settings: Settings): Config { Config(settings, true, "home") }

  lemma Extend(steps: seq<Race.Step>, s: Race.State, step: Race.Step)
    requires Race.Execute(steps) == Some(s) && Race.Enabled(s, step)
    ensures Race.Execute(steps + [step]) == Some(Race.Apply(s, step))
  {
    hide Race.Enabled, Race.Apply;
    assert (steps + [step])[..|steps|] == steps;
  }

  function Told(s: Race.State, namespace: string, tags: RepositoryTags, settings: Settings, uuid: string): Race.State {
    s.(procs := s.procs[namespace := Race.Proc(s.stored, tags, Options(settings), uuid)])
  }

  /** The first namespace has made its registry. */
  function Made(settings: Settings): Race.State {
    var needs := map["a" := Needs(OneTag("1"))];
    Race.State(Some(Race.Stored(0, Before(settings))), 1, map[], needs, needs)
  }

  lemma ReachesMade(settings: Settings) returns (steps: seq<Race.Step>)
    ensures |steps| == 2 && Race.Execute(steps) == Some(Made(settings))
  {
    var list := Race.List("a", OneTag("1"), Options(settings), "u");
    assert "1" in OneTag("1")[APP];
    Extend([], Race.INIT, list);
    var s := Told(Race.INIT, "a", OneTag("1"), settings, "u");
    FirstCreated(settings);
    assert APP in OneTag("1");
    hide Created, First, NamespaceLabel, Needs;
    var create := Race.Create("a", Before(settings));
    assert Race.Enabled(s, create);
    Extend([] + [list], s, create);
    steps := [] + [list] + [create];
    assert s.procs - {"a"} == map[];
    assert Race.Apply(s, create) == Made(settings);
  }

  lemma NothingLeft()
    ensures Unclaimed(First(), NamespaceLabel("a"), Needs(map[]))
  {
    hide First, NamespaceLabel, Claimed;
    ClaimsNothing(map[]);
    forall c { FirstClaims(c); }
  }

  /** The first namespace has read its registry and will delete it; then the second adds
      its tag. */
  lemma ReachesShared(settings: Settings) returns (steps: seq<Race.Step>, s: Race.State)
    ensures |steps| == 5 && Race.Execute(steps) == Some(s)
    ensures s.stored == Some(Race.Stored(1, Shared(settings)))
    ensures s.last == Made(settings).last["c" := {TagKey(APP, "2")}]
    ensures "a" in s.procs && s.procs["a"] == Race.Proc(Made(settings).stored, map[], Options(settings), "v")
  {
    SecondUpdated(settings);
    OneNeed("2");
    assert "2" in OneTag("2")[APP];
    hide First, Second, Updated, Unclaimed, NamespaceLabel, Shared, TagKey, Needs;
    var front := ReachesMade(settings);
    var t := Made(settings);
    var listA := Race.List("a", map[], Options(settings), "v");
    var listC := Race.List("c", OneTag("2"), Options(settings), "w");
    Extend(front, t, listA);
    var u := Told(t, "a", map[], settings, "v");
    Extend(front + [listA], u, listC);
    var w := Told(u, "c", OneTag("2"), settings, "w");
    hide OneTag;
    var update := Race.Update("c", Shared(settings));
    assert Race.Enabled(w, update);
    Extend(front + [listA] + [listC], w, update);
    steps := front + [listA] + [listC] + [update];
    s := Race.Apply(w, update);
  }

  /** A namespace that needs nothing any more reads a registry of its own only, another
      namespace adds a condition to it, and the deletion takes both. */
  lemma DeletionRaces(settings: Settings) returns (steps: seq<Race.Step>)
    ensures Race.Execute(steps).Some? && Race.LosesAt(steps, |steps| - 1)
    ensures var s := Race.Execute(steps).value;
            s.stored == None && Race.At(s.last, "c") == {TagKey(APP, "2")}
  {
    var front, s := ReachesShared(settings);
    NothingLeft();
    var delete := Race.Delete("a");
    SecondClaims(Claim(TagKey(APP, "2"), NamespaceLabel("c")));
    NamespaceLabelInjective("a", "c");
    hide First, Second, Unclaimed, NamespaceLabel, TagKey, Needs, Claimed;
    assert Race.Enabled(s, delete);
    Extend(front, s, delete);
    steps := front + [delete];
    assert steps[..|steps| - 1] == front;
    ClaimsNothing(map[]);
    assert Race.Loses(s, delete);
  }
}
