/** Composite index keys, and the two controllers' paths between workload reports and
    images: reconciling an image lists the reports that reference it, and a changed
    report requeues the images it references. */
module ImageIndex {
  import opened Ordering
  import opened ReportJoin

  datatype Image = Image(name: string, namespace: string, registry: string, repository: string, tag: string)

  function MetadataKey(registry: string, repository: string, tag: string): string {
    registry + "/" + repository + ":" + tag
  }

  function RefKey(ref: ImageRef): string {
    ref.namespace + "/" + ref.registry + "/" + ref.repository + ":" + ref.tag
  }

  function RefOf(image: Image): ImageRef { ImageRef(image.registry, image.namespace, image.repository, image.tag) }

  /** Namespace and registry names hold no '/' and repositories no ':'. */
  ghost predicate WellNamed(ref: ImageRef) {
    '/' !in ref.namespace && '/' !in ref.registry && ':' !in ref.repository
  }

  lemma MetadataKeyInjective(a: ImageRef, b: ImageRef)
    requires WellNamed(a) && WellNamed(b)
    requires MetadataKey(a.registry, a.repository, a.tag) == MetadataKey(b.registry, b.repository, b.tag)
    ensures a.registry == b.registry && a.repository == b.repository && a.tag == b.tag
  {
    var x, y := a.repository + ":" + a.tag, b.repository + ":" + b.tag;
    assert MetadataKey(a.registry, a.repository, a.tag) == a.registry + ['/'] + x;
    assert MetadataKey(b.registry, b.repository, b.tag) == b.registry + ['/'] + y;
    SplitUnique('/', a.registry, x, b.registry, y);
    assert x == a.repository + [':'] + a.tag && y == b.repository + [':'] + b.tag;
    SplitUnique(':', a.repository, a.tag, b.repository, b.tag);
  }

  /** Equal keys are keys of equal references. */
  lemma RefKeyInjective(a: ImageRef, b: ImageRef)
    requires WellNamed(a) && WellNamed(b) && RefKey(a) == RefKey(b)
    ensures a == b
  {
    var x, y := MetadataKey(a.registry, a.repository, a.tag), MetadataKey(b.registry, b.repository, b.tag);
    assert RefKey(a) == a.namespace + ['/'] + x && RefKey(b) == b.namespace + ['/'] + y;
    SplitUnique('/', a.namespace, x, b.namespace, y);
    MetadataKeyInjective(a, b);
  }

  // --- The index of a report -----------------------------------------------------------

  /** Each key once, in the order of the containers. */
  method IndexWorkloadByImageRef(containers: seq<ContainerRef>) returns (keys: seq<string>)
    ensures forall key :: key in keys <==> exists k :: k in containers && RefKey(k.ref) == key
    ensures forall i, j :: 0 <= i < j < |keys| ==> keys[i] != keys[j]
  {
    hide RefKey;
    keys := [];
    var seen: set<string> := {};
    for i := 0 to |containers|
      invariant forall key :: key in seen <==> key in keys
      invariant forall key :: key in keys <==> exists k :: k in containers[..i] && RefKey(k.ref) == key
      invariant forall i, j :: 0 <= i < j < |keys| ==> keys[i] != keys[j]
    {
      var key := RefKey(containers[i].ref);
      assert containers[..i + 1] == containers[..i] + [containers[i]];
      if key !in seen {
        seen := seen + {key};
        keys := keys + [key];
      }
    }
    assert containers[..|containers|] == containers;
  }

  /** Reconciling an image lists a report: the image's key is in the report's index. */
  ghost predicate Lists(image: Image, containers: seq<ContainerRef>) {
    exists k :: k in containers && RefKey(k.ref) == RefKey(RefOf(image))
  }

  // --- The requests of a changed report ---------------------------------------------------

  /** A list in a namespace, or in all of them when it is empty, by metadata key. */
  predicate Found(image: Image, ref: ImageRef) {
    && (ref.namespace == "" || image.namespace == ref.namespace)
    && MetadataKey(image.registry, image.repository, image.tag) == MetadataKey(ref.registry, ref.repository, ref.tag)
  }

  ghost predicate Requeues(containers: seq<ContainerRef>, image: Image) {
    exists k :: k in containers && Found(image, k.ref)
  }

  datatype Request = Request(namespace: string, name: string)

  function RequestFor(image: Image): Request { Request(image.namespace, image.name) }

  /** One lookup per distinct reference; a lookup that fails is skipped. */
  method MapReportToImages(containers: seq<ContainerRef>, images: seq<Image>, failing: set<ImageRef>)
    returns (requests: seq<Request>)
    ensures forall q :: q in requests <==>
        exists k, image :: k in containers && k.ref !in failing && image in images && Found(image, k.ref)
                           && q.namespace == image.namespace && q.name == image.name
  {
    hide Found;
    requests := [];
    var seen: set<ImageRef> := {};
    for i := 0 to |containers|
      invariant forall ref :: ref in seen <==> exists k :: k in containers[..i] && k.ref == ref
      invariant forall q :: q in requests <==> AskedFor(seen, images, failing, q)
    {
      var ref := containers[i].ref;
      assert containers[..i + 1] == containers[..i] + [containers[i]];
      if ref !in seen {
        AskedAdd(seen, images, failing, ref);
        seen := seen + {ref};
        if ref !in failing {
          requests := AppendFound(requests, images, ref);
        }
      }
    }
    assert containers[..|containers|] == containers;
  }

  ghost predicate AskedFor(refs: set<ImageRef>, images: seq<Image>, failing: set<ImageRef>, q: Request) {
    exists ref, image :: ref in refs && ref !in failing && image in images && Found(image, ref)
                         && q == RequestFor(image)
  }

  lemma AskedAdd(refs: set<ImageRef>, images: seq<Image>, failing: set<ImageRef>, ref: ImageRef)
    ensures forall q :: AskedFor(refs + {ref}, images, failing, q) <==>
        AskedFor(refs, images, failing, q)
        || (ref !in failing && exists image :: image in images && Found(image, ref) && q == RequestFor(image))
  {
    hide Found, RequestFor;
    forall q ensures AskedFor(refs + {ref}, images, failing, q) <==>
        AskedFor(refs, images, failing, q)
        || (ref !in failing && exists image :: image in images && Found(image, ref) && q == RequestFor(image)) {
      if AskedFor(refs, images, failing, q) {
        var r, image :| r in refs && r !in failing && image in images && Found(image, r) && q == RequestFor(image);
        assert r in refs + {ref};
      }
      if ref !in failing && exists image :: image in images && Found(image, ref) && q == RequestFor(image) {
        assert ref in refs + {ref};
      }
    }
  }

  method AppendFound(before: seq<Request>, images: seq<Image>, ref: ImageRef) returns (requests: seq<Request>)
    ensures forall q :: q in requests <==>
        q in before || exists image :: image in images && Found(image, ref) && q == RequestFor(image)
  {
    hide Found, RequestFor;
    requests := before;
    for i := 0 to |images|
      invariant forall q :: q in requests <==>
          q in before || exists image :: image in images[..i] && Found(image, ref) && q == RequestFor(image)
    {
      assert images[..i + 1] == images[..i] + [images[i]];
      if Found(images[i], ref) { requests := requests + [RequestFor(images[i])]; }
    }
    assert images[..|images|] == images;
  }

  // --- The two paths agree --------------------------------------------------------------------

  ghost predicate AllNamed(containers: seq<ContainerRef>) { forall k :: k in containers ==> WellNamed(k.ref) }

  lemma FoundIsSame(image: Image, ref: ImageRef)
    requires WellNamed(RefOf(image)) && WellNamed(ref)
    ensures RefKey(ref) == RefKey(RefOf(image)) <==> ref == RefOf(image)
    ensures ref.namespace != "" ==> (Found(image, ref) <==> ref == RefOf(image))
  {
    if RefKey(ref) == RefKey(RefOf(image)) { RefKeyInjective(ref, RefOf(image)); }
    if Found(image, ref) { MetadataKeyInjective(RefOf(image), ref); }
  }

  /** A name that occurs in no reference of a report. */
  lemma {:induction false} NewNamespace(containers: seq<ContainerRef>) returns (namespace: string)
    requires AllNamed(containers)
    ensures '/' !in namespace && namespace != "" && forall k :: k in containers ==> |k.ref.namespace| < |namespace|
  {
    if containers == [] {
      namespace := "x";
    } else {
      var last := containers[|containers| - 1];
      var shorter := NewNamespace(containers[..|containers| - 1]);
      namespace := shorter + last.ref.namespace;
      assert containers == containers[..|containers| - 1] + [last];
      assert last in containers && '/' !in last.ref.namespace;
    }
  }

  /** A report's change requeues exactly the images whose reconcile lists the report,
      if and only if all its references name a namespace. */
  lemma PathsAgree(containers: seq<ContainerRef>)
    requires AllNamed(containers)
    ensures (forall image: Image :: WellNamed(RefOf(image)) && image.namespace != "" ==>
                                      (Requeues(containers, image) <==> Lists(image, containers)))
       <==> (forall k :: k in containers ==> k.ref.namespace != "")
  {
    hide RefKey, MetadataKey;
    if forall k :: k in containers ==> k.ref.namespace != "" {
      forall image: Image | WellNamed(RefOf(image)) && image.namespace != ""
        ensures Requeues(containers, image) <==> Lists(image, containers)
      {
        forall k | k in containers ensures Found(image, k.ref) <==> RefKey(k.ref) == RefKey(RefOf(image)) {
          FoundIsSame(image, k.ref);
        }
      }
    } else {
      var k :| k in containers && k.ref.namespace == "";
      var namespace := NewNamespace(containers);
      var image := Image("image", namespace, k.ref.registry, k.ref.repository, k.ref.tag);
      assert WellNamed(k.ref) && WellNamed(RefOf(image));
      assert Found(image, k.ref);
      forall q | q in containers ensures RefKey(q.ref) != RefKey(RefOf(image)) { FoundIsSame(image, q.ref); }
      assert Requeues(containers, image) && !Lists(image, containers);
    }
  }

  // --- The status of an image --------------------------------------------------------------------

  /** A stored report: where it is, and the references of its containers. */
  datatype Stored = Stored(at: Request, containers: seq<ContainerRef>)

  /** First by namespace, then by name. */
  predicate Before(a: Request, b: Request) {
    Less(a.namespace, b.namespace) || (a.namespace == b.namespace && Less(a.name, b.name))
  }

  const NUL: char := 0 as char

  /** A text whose order is that of `Before`. */
  function OrderKey(q: Request): string { q.namespace + [NUL] + q.name }

  lemma {:induction false} OrderKeyOrders(m: string, a: string, n: string, b: string)
    requires NUL !in m && NUL !in n
    ensures Less(m + [NUL] + a, n + [NUL] + b) <==> Less(m, n) || (m == n && Less(a, b))
  {
    var x, y := m + [NUL] + a, n + [NUL] + b;
    assert m == [] ==> x[1..] == a;
    assert n == [] ==> y[1..] == b;
    if m != [] && n != [] {
      OrderKeyOrders(m[1..], a, n[1..], b);
      assert x[1..] == m[1..] + [NUL] + a && y[1..] == n[1..] + [NUL] + b;
      assert m == [m[0]] + m[1..] && n == [n[0]] + n[1..];
    } else if n != [] {
      assert x[0] == NUL && y[0] == n[0] && n[0] in n;
    } else if m != [] {
      assert x[0] == m[0] && y[0] == NUL && m[0] in m;
    } else {
      assert x[0] == y[0] == NUL;
    }
  }

  ghost predicate References(reports: seq<Stored>, image: Image, q: Request) {
    exists r :: r in reports && r.at == q && Lists(image, r.containers)
  }

  /** The sorted list of the reports that reference an image. */
  ghost predicate StatusOk(image: Image, reports: seq<Stored>, status: seq<Request>) {
    && (forall q :: q in status <==> References(reports, image, q))
    && (forall i, j :: 0 <= i < j < |status| ==> Before(status[i], status[j]))
  }

  ghost predicate DistinctReports(reports: seq<Stored>) {
    && (forall i, j :: 0 <= i < j < |reports| ==> reports[i].at != reports[j].at)
    && (forall r :: r in reports ==> NUL !in r.at.namespace && NUL !in r.at.name)
  }

  lemma OrderKeyDistinct(a: Request, b: Request)
    requires NUL !in a.namespace && NUL !in b.namespace && OrderKey(a) == OrderKey(b)
    ensures a == b
  {
    SplitUnique(NUL, a.namespace, a.name, b.namespace, b.name);
  }

  method ListReports(image: Image, reports: seq<Stored>) returns (found: seq<Request>)
    requires DistinctReports(reports)
    ensures forall q :: q in found <==> References(reports, image, q)
    ensures DistinctKeys(OrderKey, found) && forall q :: q in found ==> NUL !in q.namespace
  {
    hide OrderKey, RefKey;
    found := [];
    for i := 0 to |reports|
      invariant forall q :: q in found <==> References(reports[..i], image, q)
      invariant DistinctKeys(OrderKey, found) && forall q :: q in found ==> NUL !in q.namespace
    {
      var r := reports[i];
      assert r in reports && reports[..i + 1] == reports[..i] + [r];
      var keys := IndexWorkloadByImageRef(r.containers);
      if RefKey(RefOf(image)) in keys {
        forall j | 0 <= j < |found| ensures OrderKey(found[j]) != OrderKey(r.at) {
          assert found[j] in found;
          var q :| q in reports[..i] && q.at == found[j];
          if OrderKey(found[j]) == OrderKey(r.at) { OrderKeyDistinct(found[j], r.at); }
        }
        found := found + [r.at];
      }
    }
    assert reports[..|reports|] == reports;
  }

  lemma SortedBefore(status: seq<Request>)
    requires StrictlySorted(OrderKey, status) && forall q :: q in status ==> NUL !in q.namespace
    ensures forall i, j :: 0 <= i < j < |status| ==> Before(status[i], status[j])
  {
    forall i, j | 0 <= i < j < |status| ensures Before(status[i], status[j]) {
      assert status[i] in status && status[j] in status;
      OrderKeyOrders(status[i].namespace, status[i].name, status[j].namespace, status[j].name);
    }
  }

  lemma BeforeSorted(status: seq<Request>)
    requires forall i, j :: 0 <= i < j < |status| ==> Before(status[i], status[j])
    requires forall q :: q in status ==> NUL !in q.namespace
    ensures StrictlySorted(OrderKey, status)
  {
    forall i, j | 0 <= i < j < |status| ensures Less(OrderKey(status[i]), OrderKey(status[j])) {
      assert status[i] in status && status[j] in status;
      OrderKeyOrders(status[i].namespace, status[i].name, status[j].namespace, status[j].name);
    }
  }

  /** Brings the status of an image in line with the reports; patches only a change. */
  method ReconcileImage(image: Image, status: seq<Request>, reports: seq<Stored>)
    returns (next: seq<Request>, patched: bool)
    requires DistinctReports(reports)
    ensures StatusOk(image, reports, next)
    ensures patched <==> !StatusOk(image, reports, status)
    ensures !patched ==> next == status
  {
    hide Lists, OrderKey, RefKey, Before, References, DistinctReports, StrictlySorted, DistinctKeys;
    var found := ListReports(image, reports);
    SortBySorts(OrderKey, found);
    next := SortBy(OrderKey, found);
    SortedBefore(next);
    patched := next != status;
    if StatusOk(image, reports, status) {
      BeforeSorted(status);
      SortedListUnique(OrderKey, next, status);
    }
  }
}
