/** The reconcile of all registries of one namespace: those that are there are updated
    or deleted and the missing ones created, some of them when a call fails. */
module WorkloadFleet {
  import opened Ordering
  import opened Registries
  import opened WorkloadRegistry

  /** A managed registry is found by the namespace it lives in and its URI. */
  datatype Address = Address(namespace: string, uri: string)

  type Registered = map<Address, Registry>

  function Lookup(registries: Registered, a: Address): Option<Registry> {
    if a in registries then Some(registries[a]) else None
  }

  function TagsAt(groups: map<string, RepositoryTags>, uri: string): RepositoryTags {
    if uri in groups then groups[uri] else map[]
  }

  /** Where the registries of a workload namespace live. */
  function Home(config: Config, namespace: string): string {
    if config.artifactsNamespace != "" then config.artifactsNamespace else namespace
  }

  /** One registry before and after a namespace is reconciled. */
  ghost predicate Reconciled(before: Option<Registry>, mark: string, tags: RepositoryTags, config: Config, uuid: string,
                             after: Option<Registry>)
  {
    match before
    case Some(r) =>
      if Unclaimed(r.repositories, mark, Needs(tags)) then after == None
      else after.Some? && Updated(r, mark, Needs(tags), config, uuid, after.value)
    case None =>
      if tags == map[] then after == None
      else after.Some? && Created(mark, tags, config, uuid, after.value)
  }

  /** One reconcile of one namespace, with the fresh annotation keys it draws. */
  datatype Visit = Visit(namespace: string, groups: map<string, RepositoryTags>, config: Config, uuid: string -> string)

  ghost predicate ReconciledAt(before: Registered, v: Visit, after: Registered, a: Address) {
    && a.namespace == Home(v.config, v.namespace)
    && Reconciled(Lookup(before, a), NamespaceLabel(v.namespace), TagsAt(v.groups, a.uri), v.config, v.uuid(a.uri),
                  Lookup(after, a))
  }

  /** A reconcile that met no error. */
  ghost predicate Visited(before: Registered, v: Visit, after: Registered) {
    forall a: Address ::
      if a.namespace == Home(v.config, v.namespace) then ReconciledAt(before, v, after, a)
      else Lookup(after, a) == Lookup(before, a)
  }

  /** The reconcile has dealt with the URIs in `done` and touched nothing else. */
  ghost predicate Progress(before: Registered, v: Visit, after: Registered, done: set<string>) {
    forall a: Address ::
      if a.namespace == Home(v.config, v.namespace) && a.uri in done then ReconciledAt(before, v, after, a)
      else Lookup(after, a) == Lookup(before, a)
  }

  /** Registries outside a namespace are as they were. */
  ghost predicate OnlyIn(namespace: string, before: Registered, after: Registered) {
    forall a: Address :: a.namespace != namespace ==> Lookup(after, a) == Lookup(before, a)
  }

  lemma ProgressStep(before: Registered, v: Visit, after: Registered, done: set<string>, uri: string, next: Registered)
    requires Progress(before, v, after, done) && uri !in done
    requires var at := Address(Home(v.config, v.namespace), uri);
             && ReconciledAt(after, v, next, at)
             && forall a :: a != at ==> Lookup(next, a) == Lookup(after, a)
    ensures Progress(before, v, next, done + {uri})
  {
    hide Reconciled, NamespaceLabel, Home;
  }

  lemma ProgressDone(before: Registered, v: Visit, after: Registered, existing: set<string>)
    requires Progress(before, v, after, existing + v.groups.Keys)
    requires forall a :: a in before && a.namespace == Home(v.config, v.namespace) ==> a.uri in existing
    ensures Visited(before, v, after)
  {
    hide Updated, Created, NamespaceLabel, Home, Unclaimed;
  }

  class Cluster {
    var registries: Registered

    constructor ()
      ensures registries == map[]
    {
      registries := map[];
    }

    /** Updates each listed registry, deleting those nobody claims any more. */
    method UpdateExisting(v: Visit, faulty: set<string>, existing: set<string>) returns (ok: bool)
      requires forall uri :: uri in existing ==> Address(Home(v.config, v.namespace), uri) in registries
      modifies this
      ensures ok <==> faulty !! existing
      ensures ok ==> Progress(old(registries), v, registries, existing)
      ensures exists done :: Progress(old(registries), v, registries, done)
    {
      hide Progress, Home, Unclaimed, Updated;
      var home := Home(v.config, v.namespace);
      var todo := existing;
      NoProgress(registries, v);
      assert existing - todo == {};
      while todo != {}
        invariant todo <= existing && faulty !! existing - todo
        invariant Progress(old(registries), v, registries, existing - todo)
        invariant forall uri :: uri in todo ==> Address(home, uri) in registries
        decreases todo
      {
        var uri :| uri in todo;
        var at := Address(home, uri);
        if uri in faulty { return false; }
        var fetched := new RegistryObject(registries[at]);
        var shouldDelete := fetched.Update(v.namespace, TagsAt(v.groups, uri), v.config, v.uuid(uri));
        ghost var before := registries;
        if shouldDelete {
          registries := registries - {at};
        } else {
          registries := registries[at := fetched.Value()];
        }
        ProgressStep(old(registries), v, before, existing - todo, uri, registries);
        assert existing - todo + {uri} == existing - (todo - {uri});
        todo := todo - {uri};
      }
      assert existing - todo == existing;
      return true;
    }

    /** Creates a registry for each group that has none. */
    method CreateMissing(v: Visit, faulty: set<string>, existing: set<string>, ghost start: Registered)
      returns (ok: bool)
      requires Progress(start, v, registries, existing)
      requires forall uri :: Address(Home(v.config, v.namespace), uri) in start ==> uri in existing
      requires Inhabited(v.groups)
      modifies this
      ensures ok <==> faulty !! v.groups.Keys - existing
      ensures ok ==> Progress(start, v, registries, existing + v.groups.Keys)
      ensures exists done :: Progress(start, v, registries, done)
    {
      hide Progress, Home, Created;
      var home := Home(v.config, v.namespace);
      var missing := v.groups.Keys - existing;
      var todo := missing;
      assert existing + (missing - todo) == existing;
      while todo != {}
        invariant todo <= missing && faulty !! missing - todo
        invariant Progress(start, v, registries, existing + (missing - todo))
        decreases todo
      {
        var uri :| uri in todo;
        var at := Address(home, uri);
        if uri in faulty { return false; }
        var created := CreateRegistry(v.namespace, v.groups[uri], v.config, v.uuid(uri));
        ghost var before, done := registries, existing + (missing - todo);
        Untouched(start, v, registries, done, uri);
        registries := registries[at := created];
        ProgressStep(start, v, before, done, uri, registries);
        assert done + {uri} == existing + (missing - (todo - {uri}));
        todo := todo - {uri};
      }
      assert existing + (missing - todo) == existing + v.groups.Keys;
      return true;
    }

    /** Updates or deletes the registries that are there, then creates the missing
        ones, both in no particular order. A call about a registry in `faulty`
        fails and ends the reconcile. */
    method ReconcileRegistries(namespace: string, images: set<string>, parse: string -> Option<Reference>,
                               config: Config, uuid: string -> string, faulty: set<string>)
      returns (ok: bool, ghost v: Visit)
      modifies this
      ensures v.namespace == namespace && v.config == config && v.uuid == uuid && Inhabited(v.groups)
      ensures forall ref :: InGroups(v.groups, ref) <==> Used(images, parse, ref)
      ensures ok ==> Visited(old(registries), v, registries)
      ensures ok <==> forall uri :: uri in faulty ==>
          uri !in v.groups && Address(Home(config, namespace), uri) !in old(registries)
      // only registries in the artifacts namespace change, or, when none is configured, in
      // the workload namespace
      ensures config.artifactsNamespace != "" ==> OnlyIn(config.artifactsNamespace, old(registries), registries)
      ensures config.artifactsNamespace == "" ==> OnlyIn(namespace, old(registries), registries)
      // whatever happens, each registry is as it was or as the reconcile wants it: those
      // of some URIs have been dealt with and no other is touched
      ensures exists done :: Progress(old(registries), v, registries, done)
    {
      hide InGroups, Inhabited, Progress, Visited, Home, Used;
      var groups := GroupImagesByRegistry(images, parse);
      var visit := Visit(namespace, groups, config, uuid);
      v := visit;
      var home := Home(config, namespace);
      var existing := set a | a in registries && a.namespace == home :: a.uri;
      assert forall uri :: Address(home, uri) in registries ==> uri in existing;
      ok := UpdateExisting(visit, faulty, existing);
      if ok {
        ok := CreateMissing(visit, faulty, existing, old(registries));
        if ok { ProgressDone(old(registries), v, registries, existing); }
      }
      ElsewhereKept(old(registries), v, registries);
    }
  }

  lemma ElsewhereKept(before: Registered, v: Visit, after: Registered)
    requires exists done :: Progress(before, v, after, done)
    ensures v.config.artifactsNamespace != "" ==> OnlyIn(v.config.artifactsNamespace, before, after)
    ensures v.config.artifactsNamespace == "" ==> OnlyIn(v.namespace, before, after)
  {
    hide ReconciledAt;
    var done :| Progress(before, v, after, done);
  }

  lemma NoProgress(registries: Registered, v: Visit)
    ensures Progress(registries, v, registries, {})
  {
  }

  lemma Untouched(start: Registered, v: Visit, now: Registered, done: set<string>, uri: string)
    requires Progress(start, v, now, done) && uri !in done && uri in v.groups && Inhabited(v.groups)
    requires Address(Home(v.config, v.namespace), uri) !in start
    ensures Lookup(now, Address(Home(v.config, v.namespace), uri)) == None && v.groups[uri] != map[]
  {
    hide ReconciledAt, Home;
  }
}
