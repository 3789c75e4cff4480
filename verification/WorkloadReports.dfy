/** Reports of a namespace's workloads: one per workload owner, each container
    reference backed by a managed registry. */
module WorkloadReports {
  import opened Ordering
  import R = Registries
  import opened WorkloadRegistry
  import opened WorkloadFleet
  import opened WorkloadRuns
  import opened ReportJoin

  datatype Container = Container(name: string, image: string)

  datatype Owner = Owner(kind: string, uid: string)

  datatype Pod = Pod(name: string, initContainers: seq<Container>, containers: seq<Container>)

  /** The owner at the top of a pod's owner chain, looked up in the cluster; None
      when a lookup fails. */
  type Resolver = Pod -> Option<Owner>

  type Parser = string -> Option<Reference>

  function Lower(c: char): char { if 'A' <= c <= 'Z' then (c as int + 32) as char else c }

  function ToLower(s: string): string {
    if s == [] then [] else ToLower(s[..|s| - 1]) + [Lower(s[|s| - 1])]
  }

  function ReportName(owner: Owner): string { ToLower(owner.kind) + "-" + owner.uid }

  /** Each capital letter becomes the small one; everything else stays. */
  lemma {:induction false} LowerAt(s: string, i: nat)
    requires i < |s|
    ensures |ToLower(s)| == |s|
    ensures ToLower(s)[i] as int == s[i] as int + if 'A' <= s[i] <= 'Z' then 'a' as int - 'A' as int else 0
  {
    if |s| > 1 { LowerAt(s[..|s| - 1], if i < |s| - 1 then i else 0); }
  }

  lemma {:induction false} LowerKeepsDash(s: string)
    ensures '-' in ToLower(s) <==> '-' in s
  {
    if s != [] {
      LowerKeepsDash(s[..|s| - 1]);
      assert s == s[..|s| - 1] + [s[|s| - 1]];
    }
  }

  /** Reports of different owners have different names, as kinds hold no dash. */
  lemma ReportNameInjective(a: Owner, b: Owner)
    requires '-' !in a.kind && '-' !in b.kind && ReportName(a) == ReportName(b)
    ensures a.uid == b.uid && ToLower(a.kind) == ToLower(b.kind)
  {
    LowerKeepsDash(a.kind);
    LowerKeepsDash(b.kind);
    SplitUnique('-', ToLower(a.kind), a.uid, ToLower(b.kind), b.uid);
  }

  // --- Container references ------------------------------------------------------------

  /** The hash a registry is named by. */
  type Namer = string -> string

  function ParseImage(parse: Parser, nameOf: Namer, namespace: string, image: string): Option<ImageRef> {
    if image == "" then None
    else
      match parse(image)
      case None => None
      case Some(r) => Some(ImageRef(nameOf(r.uri), namespace, r.repository, r.tag))
  }

  function RefName(k: ContainerRef): string { k.name }

  ghost predicate RefFrom(parse: Parser, nameOf: Namer, namespace: string, containers: seq<Container>,
                          k: ContainerRef) {
    exists c :: c in containers && c.name == k.name && ParseImage(parse, nameOf, namespace, c.image) == Some(k.ref)
  }

  /** Appends the references of a list of containers, in order. */
  method AppendRefs(before: seq<ContainerRef>, parse: Parser, nameOf: Namer, namespace: string,
                    containers: seq<Container>)
    returns (refs: seq<ContainerRef>)
    ensures refs == before + RefsOf(parse, nameOf, namespace, containers)
    ensures forall k :: k in refs <==> k in before || RefFrom(parse, nameOf, namespace, containers, k)
  {
    hide ParseImage, RefFrom;
    refs := before;
    for i := 0 to |containers|
      invariant refs == before + RefsOf(parse, nameOf, namespace, containers[..i])
    {
      var c := containers[i];
      assert containers[..i + 1][..i] == containers[..i];
      var ref := ParseImage(parse, nameOf, namespace, c.image);
      if ref.Some? { refs := refs + [ContainerRef(c.name, ref.value)]; }
    }
    assert containers[..|containers|] == containers;
    forall k { RefsOfMembers(parse, nameOf, namespace, containers, k); }
  }

  /** The references of the containers whose image can be parsed. */
  function RefsOf(parse: Parser, nameOf: Namer, namespace: string, containers: seq<Container>): seq<ContainerRef> {
    if containers == [] then []
    else
      var front := RefsOf(parse, nameOf, namespace, containers[..|containers| - 1]);
      var last := containers[|containers| - 1];
      match ParseImage(parse, nameOf, namespace, last.image)
      case None => front
      case Some(ref) => front + [ContainerRef(last.name, ref)]
  }

  lemma {:induction false} RefsOfMembers(parse: Parser, nameOf: Namer, namespace: string, containers: seq<Container>,
                                         k: ContainerRef)
    ensures k in RefsOf(parse, nameOf, namespace, containers) <==> RefFrom(parse, nameOf, namespace, containers, k)
  {
    hide ParseImage;
    if containers != [] {
      RefsOfMembers(parse, nameOf, namespace, containers[..|containers| - 1], k);
      assert containers == containers[..|containers| - 1] + [containers[|containers| - 1]];
    }
  }

  lemma {:induction false} RefsOfConcat(parse: Parser, nameOf: Namer, namespace: string, a: seq<Container>,
                                        b: seq<Container>)
    ensures RefsOf(parse, nameOf, namespace, a + b)
         == RefsOf(parse, nameOf, namespace, a) + RefsOf(parse, nameOf, namespace, b)
  {
    hide ParseImage;
    if b == [] {
      assert a + b == a;
    } else {
      RefsOfConcat(parse, nameOf, namespace, a, b[..|b| - 1]);
      assert (a + b)[..|a + b| - 1] == a + b[..|b| - 1];
    }
  }

  lemma {:induction false} RefsOfDistinct(parse: Parser, nameOf: Namer, namespace: string, containers: seq<Container>)
    requires DistinctKeys(ContainerName, containers)
    ensures DistinctKeys(RefName, RefsOf(parse, nameOf, namespace, containers))
  {
    hide ParseImage;
    if containers != [] {
      var front, last := containers[..|containers| - 1], containers[|containers| - 1];
      RefsOfDistinct(parse, nameOf, namespace, front);
      var refs := RefsOf(parse, nameOf, namespace, front);
      forall i | 0 <= i < |refs| ensures refs[i].name != last.name {
        RefsOfMembers(parse, nameOf, namespace, front, refs[i]);
        assert refs[i] in refs;
        var c :| c in front && c.name == refs[i].name;
        var j :| 0 <= j < |front| && front[j] == c;
        assert ContainerName(containers[j]) != ContainerName(last);
      }
    }
  }

  function ContainerName(c: Container): string { c.name }

  /** The parsed images of all containers of a pod, init containers included,
      sorted by container name, which are distinct in a pod. */
  method BuildContainerRefs(parse: Parser, nameOf: Namer, namespace: string, pod: Pod) returns (refs: seq<ContainerRef>)
    ensures forall k :: k in refs <==> PodRef(parse, nameOf, namespace, pod, k)
    ensures forall c :: c in pod.initContainers || c in pod.containers ==>
        c.image != "" && parse(c.image).Some? ==>
          var r := parse(c.image).value;
          ContainerRef(c.name, ImageRef(nameOf(r.uri), namespace, r.repository, r.tag)) in refs
    ensures DistinctKeys(ContainerName, pod.initContainers + pod.containers) ==> StrictlySorted(RefName, refs)
  {
    hide RefFrom, RefsOf, StrictlySorted, DistinctKeys;
    var unsorted := AppendRefs([], parse, nameOf, namespace, pod.initContainers);
    unsorted := AppendRefs(unsorted, parse, nameOf, namespace, pod.containers);
    refs := SortBy(RefName, unsorted);
    SameElements(refs, unsorted);
    forall c: Container, k: ContainerRef |
      && (c in pod.initContainers || c in pod.containers)
      && k.name == c.name && ParseImage(parse, nameOf, namespace, c.image) == Some(k.ref)
      ensures k in refs
    {
      ParsedIsRef(parse, nameOf, namespace, pod, c, k);
    }
    if DistinctKeys(ContainerName, pod.initContainers + pod.containers) {
      RefsOfConcat(parse, nameOf, namespace, pod.initContainers, pod.containers);
      RefsOfDistinct(parse, nameOf, namespace, pod.initContainers + pod.containers);
      assert unsorted == RefsOf(parse, nameOf, namespace, pod.initContainers + pod.containers);
      SortBySorts(RefName, unsorted);
    }
  }

  lemma ParsedIsRef(parse: Parser, nameOf: Namer, namespace: string, pod: Pod, c: Container, k: ContainerRef)
    requires c in pod.initContainers || c in pod.containers
    requires k.name == c.name && ParseImage(parse, nameOf, namespace, c.image) == Some(k.ref)
    ensures PodRef(parse, nameOf, namespace, pod, k)
  {
  }

  ghost predicate PodRef(parse: Parser, nameOf: Namer, namespace: string, pod: Pod, k: ContainerRef) {
    RefFrom(parse, nameOf, namespace, pod.initContainers, k) || RefFrom(parse, nameOf, namespace, pod.containers, k)
  }

  // --- The reports of a namespace ---------------------------------------------------------

  datatype Managed = Managed(owner: Owner, containers: seq<ContainerRef>)

  ghost predicate Owns(pods: seq<Pod>, resolve: Resolver, name: string, i: int) {
    0 <= i < |pods| && resolve(pods[i]).Some? && ReportName(resolve(pods[i]).value) == name
  }

  /** The first pod of a report. */
  ghost predicate First(pods: seq<Pod>, resolve: Resolver, name: string, pod: Pod) {
    exists i :: Owns(pods, resolve, name, i) && pods[i] == pod
                && forall j :: 0 <= j < i ==> !Owns(pods, resolve, name, j)
  }

  /** One entry per report name, for its first pod; None when an owner cannot be resolved. */
  method BuildPodsByReport(pods: seq<Pod>, resolve: Resolver) returns (byReport: Option<map<string, Pod>>)
    ensures byReport.Some? <==> forall p :: p in pods ==> resolve(p).Some?
    ensures byReport.Some? ==> forall name ::
        (name in byReport.value <==> exists i :: Owns(pods, resolve, name, i))
        && (name in byReport.value ==> First(pods, resolve, name, byReport.value[name]))
  {
    hide ReportName;
    var result: map<string, Pod> := map[];
    for i := 0 to |pods|
      invariant forall j :: 0 <= j < i ==> resolve(pods[j]).Some?
      invariant forall name :: name in result <==> exists j :: 0 <= j < i && Owns(pods, resolve, name, j)
      invariant forall name :: name in result ==> First(pods, resolve, name, result[name])
    {
      var owner := resolve(pods[i]);
      if owner == None {
        assert pods[i] in pods;
        return None;
      }
      var name := ReportName(owner.value);
      assert Owns(pods, resolve, name, i);
      if name !in result {
        result := result[name := pods[i]];
        assert First(pods, resolve, name, pods[i]);
      }
    }
    forall p | p in pods ensures resolve(p).Some? {
      var j :| 0 <= j < |pods| && pods[j] == p;
    }
    return Some(result);
  }

  /** The report of a pod's workload. */
  ghost predicate ReportOf(m: Managed, pod: Pod, resolve: Resolver, parse: Parser, nameOf: Namer, home: string) {
    && resolve(pod) == Some(m.owner)
    && forall k :: k in m.containers <==> PodRef(parse, nameOf, home, pod, k)
  }

  ghost predicate ReportsOk(reports: map<string, Managed>, pods: seq<Pod>, resolve: Resolver, parse: Parser,
                            nameOf: Namer, home: string) {
    forall name ::
      && (name in reports <==> exists i :: Owns(pods, resolve, name, i))
      && (name in reports ==> exists pod :: First(pods, resolve, name, pod)
                                            && ReportOf(reports[name], pod, resolve, parse, nameOf, home))
  }

  class NamespaceReports {
    var reports: map<string, Managed>

    constructor (reports: map<string, Managed>)
      ensures this.reports == reports
    {
      this.reports := reports;
    }

    /** Deletes the reports of vanished workloads, then creates or patches one for
        each workload, in no particular order. */
    method ReconcileWorkloadScanReports(namespace: string, pods: seq<Pod>, config: Config, resolve: Resolver,
                                        parse: Parser, nameOf: Namer)
      returns (ok: bool)
      modifies this
      ensures ok <==> forall p :: p in pods ==> resolve(p).Some?
      ensures ok ==> ReportsOk(reports, pods, resolve, parse, nameOf, Home(config, namespace))
      ensures !ok ==> reports == old(reports)
    {
      hide Owns, PodRef, Home;
      var found := BuildPodsByReport(pods, resolve);
      if found == None { return false; }
      var byReport := found.value;
      reports := map name | name in reports && name in byReport :: reports[name];
      var todo := byReport.Keys;
      while todo != {}
        invariant todo <= byReport.Keys && reports.Keys <= byReport.Keys
        invariant forall name :: name in byReport && name !in todo ==> name in reports
        invariant forall name :: name in byReport && name !in todo ==>
            ReportOf(reports[name], byReport[name], resolve, parse, nameOf, Home(config, namespace))
        decreases todo
      {
        var name :| name in todo;
        var pod := byReport[name];
        FirstIsPod(pods, resolve, name, pod);
        var owner := resolve(pod);
        var refs := BuildContainerRefs(parse, nameOf, Home(config, namespace), pod);
        reports := reports[name := Managed(owner.value, refs)];
        todo := todo - {name};
      }
      return true;
    }
  }

  lemma FirstIsPod(pods: seq<Pod>, resolve: Resolver, name: string, pod: Pod)
    requires First(pods, resolve, name, pod)
    ensures pod in pods && resolve(pod).Some? && ReportName(resolve(pod).value) == name
  {
  }

  ghost predicate SameOwner(a: Owner, b: Owner) { a.uid == b.uid && ToLower(a.kind) == ToLower(b.kind) }

  /** Exactly one report per resolved owner: every pod has the report of its owner,
      every report has a pod, and two pods share one only if they share the owner. */
  lemma OneReportPerOwner(reports: map<string, Managed>, pods: seq<Pod>, resolve: Resolver, parse: Parser,
                          nameOf: Namer,
                          home: string)
    requires ReportsOk(reports, pods, resolve, parse, nameOf, home)
    requires forall p :: p in pods ==> resolve(p).Some? && '-' !in resolve(p).value.kind
    ensures forall p :: p in pods ==> ReportName(resolve(p).value) in reports
    ensures forall name :: name in reports ==> ReportName(reports[name].owner) == name
    ensures forall name :: name in reports ==> exists p :: p in pods && resolve(p) == Some(reports[name].owner)
    ensures forall p, q :: p in pods && q in pods ==>
        (ReportName(resolve(p).value) == ReportName(resolve(q).value) <==>
         SameOwner(resolve(p).value, resolve(q).value))
  {
    hide PodRef, ToLower;
    forall p | p in pods ensures ReportName(resolve(p).value) in reports {
      var i :| 0 <= i < |pods| && pods[i] == p;
      assert Owns(pods, resolve, ReportName(resolve(p).value), i);
    }
    forall name | name in reports
      ensures ReportName(reports[name].owner) == name
      ensures exists p :: p in pods && resolve(p) == Some(reports[name].owner)
    {
      var pod :| First(pods, resolve, name, pod) && ReportOf(reports[name], pod, resolve, parse, nameOf, home);
      FirstIsPod(pods, resolve, name, pod);
    }
    forall p, q | p in pods && q in pods && ReportName(resolve(p).value) == ReportName(resolve(q).value)
      ensures SameOwner(resolve(p).value, resolve(q).value)
    {
      ReportNameInjective(resolve(p).value, resolve(q).value);
    }
  }

  // --- Every reference is backed ----------------------------------------------------------------

  function PodImages(pod: Pod): seq<string> {
    Images(pod.initContainers) + Images(pod.containers)
  }

  function Images(containers: seq<Container>): (images: seq<string>)
    ensures forall x :: x in images <==> exists c :: c in containers && c.image == x
  {
    if containers == [] then []
    else
      assert containers == containers[..|containers| - 1] + [containers[|containers| - 1]];
      Images(containers[..|containers| - 1]) + [containers[|containers| - 1].image]
  }

  /** All images of the pods, which the registries are reconciled with. */
  ghost predicate ImagesOf(images: set<string>, pods: seq<Pod>) {
    forall p, x :: p in pods && x in PodImages(p) ==> x in images
  }

  /** A managed registry of the referenced name, in the referenced namespace, with the
      referenced repository and tag claimed by the workload namespace. */
  ghost predicate Backed(registries: Registered, nameOf: Namer, namespace: string, ref: ImageRef) {
    exists uri :: nameOf(uri) == ref.registry
      && ClaimedAt(registries, Address(ref.namespace, uri),
                   R.Claim(R.TagKey(ref.repository, ref.tag), R.NamespaceLabel(namespace)))
  }

  lemma RefUsed(parse: Parser, nameOf: Namer, home: string, pod: Pod, pods: seq<Pod>, images: set<string>,
                k: ContainerRef)
    returns (ref: Reference)
    requires pod in pods && ImagesOf(images, pods) && PodRef(parse, nameOf, home, pod, k)
    ensures Used(images, parse, ref) && k.ref == ImageRef(nameOf(ref.uri), home, ref.repository, ref.tag)
  {
    var containers :=
      if RefFrom(parse, nameOf, home, pod.initContainers, k) then pod.initContainers else pod.containers;
    var c :| c in containers && c.name == k.name && ParseImage(parse, nameOf, home, c.image) == Some(k.ref);
    assert c.image in Images(containers);
    assert c.image in PodImages(pod);
    ref := parse(c.image).value;
  }

  /** After a namespace's registries and then its reports have been reconciled with
      the same pods, every reference of every report is backed. */
  lemma EveryReferenceBacked(before: Registered, v: Visit, after: Registered, pods: seq<Pod>, images: set<string>,
                             parse: Parser, nameOf: Namer, resolve: Resolver, reports: map<string, Managed>,
                             name: string, k: ContainerRef)
    requires Visited(before, v, after) && Inhabited(v.groups)
    requires ImagesOf(images, pods) && forall ref :: InGroups(v.groups, ref) <==> Used(images, parse, ref)
    requires ReportsOk(reports, pods, resolve, parse, nameOf, Home(v.config, v.namespace))
    requires name in reports && k in reports[name].containers
    ensures Backed(after, nameOf, v.namespace, k.ref)
    ensures v.config.artifactsNamespace == "" ==> k.ref.namespace == v.namespace
    ensures v.config.artifactsNamespace != "" ==> k.ref.namespace == v.config.artifactsNamespace
  {
    hide Visited, Inhabited, ImagesOf, Used, Owns, First, PodRef, ClaimedAt;
    var home := Home(v.config, v.namespace);
    var pod :| First(pods, resolve, name, pod) && ReportOf(reports[name], pod, resolve, parse, nameOf, home);
    FirstIsPod(pods, resolve, name, pod);
    var ref := RefUsed(parse, nameOf, home, pod, pods, images, k);
    assert InGroups(v.groups, ref);
    var key := R.TagKey(ref.repository, ref.tag);
    NeedsGrouped(v.groups, ref);
    AttemptAt(before, Whole(v), after, Address(home, ref.uri));
    VisitClaims(before, Whole(v), after, Address(home, ref.uri), R.Claim(key, R.NamespaceLabel(v.namespace)));
  }
}
