/** Joining workload reports with images and vulnerability reports: one deduplicated
    query for a whole list of reports must give each report what a query of its own
    would. */
module ReportJoin {
  import opened Ordering
  import opened VulnerabilitySummary
  import Order = ReportOrder

  datatype ImageRef = ImageRef(registry: string, namespace: string, repository: string, tag: string)

  datatype ContainerRef = ContainerRef(name: string, ref: ImageRef)

  /** The columns a lookup compares; a field missing from the object is NULL. */
  datatype Columns = Columns(
    namespace: string, registry: Option<string>, repository: Option<string>, tag: Option<string>)

  datatype ReportRow = ReportRow(name: string, columns: Columns, report: Report)

  function ColumnsOf(row: ReportRow): Columns { row.columns }
  function Itself(c: Columns): Columns { c }

  function Matches(c: Columns, ref: ImageRef): bool {
    c == Columns(ref.namespace, Some(ref.registry), Some(ref.repository), Some(ref.tag))
  }

  /** The reference a decoded object carries: a missing field reads as empty. */
  function DecodedRef(c: Columns): ImageRef {
    var text := (o: Option<string>) => if o.Some? then o.value else "";
    ImageRef(text(c.registry), c.namespace, text(c.repository), text(c.tag))
  }

  // --- The lookup condition ----------------------------------------------------------

  /** Four query parameters; `unnest` makes one row of the entries at each position. */
  datatype Arrays = Arrays(namespaces: seq<string>, registries: seq<string>, repositories: seq<string>,
                           tags: seq<string>)

  ghost predicate Parallel(a: Arrays) {
    |a.namespaces| == |a.registries| == |a.repositories| == |a.tags|
  }

  predicate Selected(c: Columns, a: Arrays)
    requires Parallel(a)
  {
    exists i :: 0 <= i < |a.namespaces|
      && c == Columns(a.namespaces[i], Some(a.registries[i]), Some(a.repositories[i]), Some(a.tags[i]))
  }

  ghost predicate ArraysOf(a: Arrays, containers: seq<ContainerRef>) {
    && Parallel(a) && |a.namespaces| == |containers|
    && forall i :: 0 <= i < |containers| ==>
         ImageRef(a.registries[i], a.namespaces[i], a.repositories[i], a.tags[i]) == containers[i].ref
  }

  method BuildImageRefConditions(containers: seq<ContainerRef>) returns (a: Arrays)
    ensures ArraysOf(a, containers)
  {
    var namespaces, registries, repositories, tags := [], [], [], [];
    for i := 0 to |containers|
      invariant ArraysOf(Arrays(namespaces, registries, repositories, tags), containers[..i])
    {
      var ref := containers[i].ref;
      namespaces := namespaces + [ref.namespace];
      registries := registries + [ref.registry];
      repositories := repositories + [ref.repository];
      tags := tags + [ref.tag];
    }
    assert containers[..|containers|] == containers;
    a := Arrays(namespaces, registries, repositories, tags);
  }

  ghost predicate Requested(containers: seq<ContainerRef>, ref: ImageRef) {
    exists k :: k in containers && k.ref == ref
  }

  /** Exactly the requested references are selected, and no combination of parts of
      different ones. */
  lemma SelectsRequested(a: Arrays, containers: seq<ContainerRef>, c: Columns)
    requires ArraysOf(a, containers)
    ensures Selected(c, a) <==> exists ref :: Requested(containers, ref) && Matches(c, ref)
  {
    if Selected(c, a) {
      var i :| 0 <= i < |a.namespaces|
          && c == Columns(a.namespaces[i], Some(a.registries[i]), Some(a.repositories[i]), Some(a.tags[i]));
      assert containers[i] in containers;
      assert Requested(containers, containers[i].ref) && Matches(c, containers[i].ref);
    }
    if exists ref :: Requested(containers, ref) && Matches(c, ref) {
      var ref :| Requested(containers, ref) && Matches(c, ref);
      var k :| k in containers && k.ref == ref;
      var i :| 0 <= i < |containers| && containers[i] == k;
    }
  }

  /** A query: the selected rows of a table, in table order. */
  function Query<T>(table: seq<T>, columns: T -> Columns, a: Arrays): seq<T>
    requires Parallel(a)
  {
    if table == [] then []
    else
      var front := Query(table[..|table| - 1], columns, a);
      if Selected(columns(table[|table| - 1]), a) then front + [table[|table| - 1]] else front
  }

  /** The rows of one reference, in table order. */
  function RowsOf<T>(table: seq<T>, columns: T -> Columns, ref: ImageRef): seq<T> {
    if table == [] then []
    else
      var front := RowsOf(table[..|table| - 1], columns, ref);
      if Matches(columns(table[|table| - 1]), ref) then front + [table[|table| - 1]] else front
  }

  /** The batch query holds all rows of each reference it was made for. */
  lemma {:induction false} QueryHoldsRows<T>(table: seq<T>, columns: T -> Columns, a: Arrays,
                                             containers: seq<ContainerRef>, ref: ImageRef)
    requires ArraysOf(a, containers) && Requested(containers, ref)
    ensures RowsOf(Query(table, columns, a), columns, ref) == RowsOf(table, columns, ref)
  {
    if table != [] {
      var front, last := table[..|table| - 1], table[|table| - 1];
      QueryHoldsRows(front, columns, a, containers, ref);
      SelectsRequested(a, containers, columns(last));
      var q := Query(front, columns, a);
      assert (q + [last])[..|q|] == q;
    }
  }

  lemma MatchedDecodes(c: Columns, ref: ImageRef)
    requires Matches(c, ref)
    ensures DecodedRef(c) == ref
  {
  }

  lemma {:induction false} QuerySelected<T>(table: seq<T>, columns: T -> Columns, a: Arrays)
    requires Parallel(a)
    ensures forall i :: 0 <= i < |Query(table, columns, a)| ==> Selected(columns(Query(table, columns, a)[i]), a)
  {
    if table != [] { QuerySelected(table[..|table| - 1], columns, a); }
  }

  // --- Fetching ------------------------------------------------------------------------

  function At<T>(m: map<ImageRef, seq<T>>, ref: ImageRef): seq<T> { if ref in m then m[ref] else [] }
  function CountAt(m: map<ImageRef, nat>, ref: ImageRef): nat { if ref in m then m[ref] else 0 }

  /** In a batch query, the decoded reference of a row is the one it matches. */
  lemma DecodedMatches(a: Arrays, containers: seq<ContainerRef>, c: Columns, ref: ImageRef)
    requires ArraysOf(a, containers) && Selected(c, a)
    ensures DecodedRef(c) == ref <==> Matches(c, ref)
  {
    SelectsRequested(a, containers, c);
    var r :| Requested(containers, r) && Matches(c, r);
    MatchedDecodes(c, r);
  }

  method FetchVulnerabilityReports(table: seq<ReportRow>, containers: seq<ContainerRef>)
    returns (byRef: map<ImageRef, seq<ReportRow>>)
    ensures forall ref :: Requested(containers, ref) ==> At(byRef, ref) == RowsOf(table, ColumnsOf, ref)
  {
    hide Requested, Matches, DecodedRef, Selected;
    var a := BuildImageRefConditions(containers);
    var rows := Query(table, ColumnsOf, a);
    QuerySelected(table, ColumnsOf, a);
    byRef := map[];
    for i := 0 to |rows|
      invariant forall ref :: At(byRef, ref) == RowsOf(rows[..i], ColumnsOf, ref)
    {
      var key := DecodedRef(rows[i].columns);
      byRef := byRef[key := At(byRef, key) + [rows[i]]];
      assert rows[..i + 1][..i] == rows[..i];
      forall ref { DecodedMatches(a, containers, rows[i].columns, ref); }
    }
    assert rows[..|rows|] == rows;
    forall ref | Requested(containers, ref) { QueryHoldsRows(table, ColumnsOf, a, containers, ref); }
  }

  /** The grouped count of the image rows. */
  method FetchImageCounts(images: seq<Columns>, containers: seq<ContainerRef>) returns (counts: map<ImageRef, nat>)
    ensures forall ref :: Requested(containers, ref) ==> CountAt(counts, ref) == |RowsOf(images, Itself, ref)|
  {
    hide Requested, Matches, DecodedRef, Selected;
    var a := BuildImageRefConditions(containers);
    var rows := Query(images, Itself, a);
    QuerySelected(images, Itself, a);
    counts := map[];
    for i := 0 to |rows|
      invariant forall ref :: CountAt(counts, ref) == |RowsOf(rows[..i], Itself, ref)|
    {
      var key := DecodedRef(rows[i]);
      counts := counts[key := CountAt(counts, key) + 1];
      assert rows[..i + 1][..i] == rows[..i];
      forall ref { DecodedMatches(a, containers, rows[i], ref); }
    }
    assert rows[..|rows|] == rows;
    forall ref | Requested(containers, ref) { QueryHoldsRows(images, Itself, a, containers, ref); }
  }

  // --- Populating ---------------------------------------------------------------------------

  datatype ScanStatus = WaitingForScan | ScanInProgress | ScanComplete
  datatype ContainerStatus = ContainerStatus(name: string, status: ScanStatus)
  datatype ContainerResult = ContainerResult(name: string, reports: seq<ReportRow>)
  datatype Results = Results(statuses: seq<ContainerStatus>, containers: seq<ContainerResult>, summary: Summary)

  function ComputeScanStatus(images: nat, reports: nat): ScanStatus {
    if images == 0 then WaitingForScan else if reports < images then ScanInProgress else ScanComplete
  }

  function StatusOf(images: seq<Columns>, table: seq<ReportRow>, k: ContainerRef): ContainerStatus {
    ContainerStatus(k.name, ComputeScanStatus(|RowsOf(images, Itself, k.ref)|, |RowsOf(table, ColumnsOf, k.ref)|))
  }

  lemma {:induction false} RowsConcat<T>(table: seq<T>, more: seq<T>, columns: T -> Columns, ref: ImageRef)
    ensures RowsOf(table + more, columns, ref) == RowsOf(table, columns, ref) + RowsOf(more, columns, ref)
  {
    hide Matches;
    if more == [] {
      assert table + more == table;
    } else {
      RowsConcat(table, more[..|more| - 1], columns, ref);
      assert (table + more)[..|table + more| - 1] == table + more[..|more| - 1];
    }
  }

  function Rank(status: ScanStatus): nat {
    match status case WaitingForScan => 0 case ScanInProgress => 1 case ScanComplete => 2
  }

  /** As reports arrive the status of a container only moves forward. Reports of other
      references do not count; a container waits exactly while no image is known and
      is complete exactly when its own reports, old and new, are as many as its images. */
  lemma ReportsAdvance(images: seq<Columns>, table: seq<ReportRow>, more: seq<ReportRow>, k: ContainerRef)
    ensures var own := |RowsOf(images, Itself, k.ref)|;
            var was, now := StatusOf(images, table, k), StatusOf(images, table + more, k);
            && Rank(was.status) <= Rank(now.status)
            && (RowsOf(more, ColumnsOf, k.ref) == [] ==> now == was)
            && (now.status == WaitingForScan <==> own == 0)
            && (now.status == ScanComplete <==>
                  0 < own <= |RowsOf(table, ColumnsOf, k.ref)| + |RowsOf(more, ColumnsOf, k.ref)|)
  {
    RowsConcat(table, more, ColumnsOf, k.ref);
  }

  /** New images can only hold a container back, and do so exactly when there are then
      more of its images than reports. */
  lemma ImagesHoldBack(images: seq<Columns>, more: seq<Columns>, table: seq<ReportRow>, k: ContainerRef)
    requires StatusOf(images, table, k).status == ScanComplete
    ensures var own := |RowsOf(images, Itself, k.ref)| + |RowsOf(more, Itself, k.ref)|;
            var reports := |RowsOf(table, ColumnsOf, k.ref)|;
            StatusOf(images + more, table, k).status == if reports < own then ScanInProgress else ScanComplete
  {
    RowsConcat(images, more, Itself, k.ref);
  }

  function ResultOf(table: seq<ReportRow>, k: ContainerRef): ContainerResult {
    ContainerResult(k.name, RowsOf(table, ColumnsOf, k.ref))
  }

  function Reports(rows: seq<ReportRow>): seq<Report> {
    if rows == [] then [] else Reports(rows[..|rows| - 1]) + [rows[|rows| - 1].report]
  }

  function AllReports(containers: seq<ContainerResult>): seq<seq<Report>> {
    if containers == [] then []
    else AllReports(containers[..|containers| - 1]) + [Reports(containers[|containers| - 1].reports)]
  }

  /** What a report with these containers shows, looked up container by container. */
  ghost predicate Shows(r: Results, images: seq<Columns>, table: seq<ReportRow>, containers: seq<ContainerRef>) {
    && |r.statuses| == |r.containers| == |containers|
    && (forall i :: 0 <= i < |containers| ==> r.statuses[i] == StatusOf(images, table, containers[i]))
    && (forall i :: 0 <= i < |containers| ==> r.containers[i] == ResultOf(table, containers[i]))
    && r.summary == SummaryOf(AllReports(r.containers))
  }

  /** The results of a report that is looked up on its own. */
  function Alone(images: seq<Columns>, table: seq<ReportRow>, containers: seq<ContainerRef>): Results {
    var results := seq(|containers|, i requires 0 <= i < |containers| => ResultOf(table, containers[i]));
    Results(seq(|containers|, i requires 0 <= i < |containers| => StatusOf(images, table, containers[i])),
            results, SummaryOf(AllReports(results)))
  }

  lemma ShowsAlone(r: Results, images: seq<Columns>, table: seq<ReportRow>, containers: seq<ContainerRef>)
    requires Shows(r, images, table, containers)
    ensures r == Alone(images, table, containers)
  {
    hide SummaryOf, AllReports;
    assert r.statuses == Alone(images, table, containers).statuses;
    assert r.containers == Alone(images, table, containers).containers;
  }

  /** At the position of each container: its name, the rows of its reference, and a status
      that tells how the reports compare with the images. */
  ghost predicate ShowsEach(r: Results, images: seq<Columns>, table: seq<ReportRow>, containers: seq<ContainerRef>) {
    && |r.statuses| == |r.containers| == |containers|
    && forall i :: 0 <= i < |containers| ==>
         var k, status, result := containers[i], r.statuses[i], r.containers[i];
         var own, rows := |RowsOf(images, Itself, k.ref)|, RowsOf(table, ColumnsOf, k.ref);
         && status.name == k.name && result == ContainerResult(k.name, rows)
         && (status.status == WaitingForScan <==> own == 0)
         && (status.status == ScanInProgress <==> |rows| < own)
  }

  lemma AloneShows(images: seq<Columns>, table: seq<ReportRow>, containers: seq<ContainerRef>)
    ensures ShowsEach(Alone(images, table, containers), images, table, containers)
  {
    hide RowsOf, SummaryOf, AllReports;
  }

  /** The rows of a reference are the matching rows of the table. */
  lemma {:induction false} RowsMember<T>(table: seq<T>, columns: T -> Columns, ref: ImageRef, row: T)
    ensures row in RowsOf(table, columns, ref) <==>
        row in table && columns(row) == Columns(ref.namespace, Some(ref.registry), Some(ref.repository), Some(ref.tag))
  {
    if table != [] {
      var front, last := table[..|table| - 1], table[|table| - 1];
      RowsMember(front, columns, ref, row);
      assert table == front + [last];
    }
  }

  // --- What the counters count ---------------------------------------------------------------

  /** The same CVE in the same version of the same package, both suppressed or neither. */
  predicate HasKey(v: Vulnerability, k: Key) {
    && v.cve == k.cve && v.suppressed == k.suppressed
    && v.packageName == k.packageName && v.installedVersion == k.installedVersion
  }

  /** A vulnerability of a table row of the reference. */
  ghost predicate HoldsKey(table: seq<ReportRow>, ref: ImageRef, k: Key) {
    exists row, list, v :: InRow(table, ref, row, list, v) && HasKey(v, k)
  }

  lemma KeyOfHas(v: Vulnerability, k: Key)
    ensures HasKey(v, k) <==> KeyOf(v) == k
  {
  }

  ghost predicate InRow(table: seq<ReportRow>, ref: ImageRef, row: ReportRow, list: seq<Vulnerability>,
                        v: Vulnerability) {
    row in table && Matches(row.columns, ref) && list in row.report && v in list
  }

  /** The vulnerabilities of the table rows of a reference, in the order they are read. */
  function FoundAt(table: seq<ReportRow>, ref: ImageRef): seq<Vulnerability> {
    if table == [] then []
    else
      var front, last := FoundAt(table[..|table| - 1], ref), table[|table| - 1];
      if Matches(last.columns, ref) then front + Flat(last.report) else front
  }

  /** The distinct keys of a list, and those first met with a vulnerability that belongs
      to the counter. */
  function KeysAt(table: seq<ReportRow>, ref: ImageRef): set<Key> { Keys(FoundAt(table, ref)) }

  ghost predicate MetFirst(vulnerabilities: seq<Vulnerability>, i: int, k: Key, c: Counter) {
    && 0 <= i < |vulnerabilities| && KeyOf(vulnerabilities[i]) == k && CounterOf(vulnerabilities[i]) == c
    && forall j :: 0 <= j < i ==> KeyOf(vulnerabilities[j]) != k
  }

  ghost function FirstMet(vulnerabilities: seq<Vulnerability>, c: Counter): set<Key> {
    set k | k in Keys(vulnerabilities) && exists i :: MetFirst(vulnerabilities, i, k, c)
  }

  function KeysOfAll(table: seq<ReportRow>, containers: seq<ContainerRef>): nat {
    if containers == [] then 0
    else KeysOfAll(table, containers[..|containers| - 1]) + |KeysAt(table, containers[|containers| - 1].ref)|
  }

  function SuppressedOfAll(table: seq<ReportRow>, containers: seq<ContainerRef>): nat {
    if containers == [] then 0
    else
      SuppressedOfAll(table, containers[..|containers| - 1])
      + |set k | k in KeysAt(table, containers[|containers| - 1].ref) && k.suppressed|
  }

  ghost function FirstMetOfAll(table: seq<ReportRow>, containers: seq<ContainerRef>, c: Counter): nat {
    if containers == [] then 0
    else
      FirstMetOfAll(table, containers[..|containers| - 1], c)
      + |FirstMet(FoundAt(table, containers[|containers| - 1].ref), c)|
  }

  /** The counters of a report with these containers: each container contributes, to each
      counter, its distinct keys first met with that counter, and nothing else. */
  ghost predicate CountsAll(summary: Summary, table: seq<ReportRow>, containers: seq<ContainerRef>) {
    && Total(summary) == KeysOfAll(table, containers)
    && summary.suppressed == SuppressedOfAll(table, containers)
    && forall c :: Read(summary, c) == FirstMetOfAll(table, containers, c)
  }

  lemma {:induction false} FlatMember<T>(lists: seq<seq<T>>, x: T)
    ensures x in Flat(lists) <==> exists list :: list in lists && x in list
  {
    if lists != [] {
      var front, last := lists[..|lists| - 1], lists[|lists| - 1];
      FlatMember(front, x);
      assert lists == front + [last];
    }
  }

  /** The keys of a container are those of the vulnerabilities in the rows of its
      reference. */
  lemma {:induction false} KeysAtRows(table: seq<ReportRow>, ref: ImageRef, k: Key)
    ensures k in KeysAt(table, ref) <==> HoldsKey(table, ref, k)
  {
    hide Matches, KeyOf, HasKey, Flat;
    forall v { KeyOfHas(v, k); }
    if table != [] {
      var front, last := table[..|table| - 1], table[|table| - 1];
      KeysAtRows(front, ref, k);
      assert table == front + [last];
      forall v ensures v in Flat(last.report) <==> exists list :: list in last.report && v in list {
        FlatMember(last.report, v);
      }
      if k in KeysAt(table, ref) {
        var v :| v in FoundAt(table, ref) && KeyOf(v) == k;
        if v in FoundAt(front, ref) {
          assert k in KeysAt(front, ref);
          var row, list, w :| InRow(front, ref, row, list, w) && HasKey(w, k);
          assert InRow(table, ref, row, list, w);
        } else {
          var list :| list in last.report && v in list;
          assert InRow(table, ref, last, list, v);
        }
      }
      if row, list, v :| InRow(table, ref, row, list, v) && HasKey(v, k) {
        if row in front {
          assert InRow(front, ref, row, list, v);
          var w :| w in FoundAt(front, ref) && KeyOf(w) == k;
          assert w in FoundAt(table, ref);
        } else {
          assert v in FoundAt(table, ref);
        }
      }
    }
  }

  lemma {:induction false} FirstMetIff(vulnerabilities: seq<Vulnerability>, c: Counter, k: Key)
    ensures (exists i :: MetFirst(vulnerabilities, i, k, c)) <==> Order.First(vulnerabilities, k) == Some(c)
  {
    hide CounterOf, KeyOf, Keys, MetFirst, Order.First;
    if vulnerabilities == [] {
      NothingMet(c, k);
    } else {
      var n := |vulnerabilities| - 1;
      var front, last := vulnerabilities[..n], vulnerabilities[n];
      assert vulnerabilities == front + [last];
      FirstMetIff(front, c, k);
      Order.FirstAppend(front, last, k);
      if k in Keys(front) { MetEarlier(front, last, c, k); } else { MetLast(front, last, c, k); }
    }
  }

  lemma NothingMet(c: Counter, k: Key)
    ensures Order.First([], k) == None && forall i :: !MetFirst([], i, k, c)
  {
  }

  lemma MetEarlier(front: seq<Vulnerability>, last: Vulnerability, c: Counter, k: Key)
    requires k in Keys(front)
    ensures (exists i :: MetFirst(front + [last], i, k, c)) <==> exists i :: MetFirst(front, i, k, c)
  {
    hide CounterOf, KeyOf;
    var all := front + [last];
    var v :| v in front && KeyOf(v) == k;
    var p :| 0 <= p < |front| && front[p] == v;
    assert KeyOf(all[p]) == k;
    forall i ensures MetFirst(all, i, k, c) <==> MetFirst(front, i, k, c) {
      assert forall j :: 0 <= j < |front| ==> all[j] == front[j];
    }
  }

  lemma MetLast(front: seq<Vulnerability>, last: Vulnerability, c: Counter, k: Key)
    requires k !in Keys(front)
    ensures (exists i :: MetFirst(front + [last], i, k, c)) <==> KeyOf(last) == k && CounterOf(last) == c
  {
    hide CounterOf, KeyOf;
    var all, n := front + [last], |front|;
    forall j | 0 <= j < n ensures KeyOf(all[j]) != k { assert front[j] in front; }
    assert all[n] == last;
    if KeyOf(last) == k && CounterOf(last) == c { assert MetFirst(all, n, k, c); }
  }

  lemma FirstMetNew(vulnerabilities: seq<Vulnerability>, c: Counter)
    ensures FirstMet(vulnerabilities, c) == Order.NewAs(vulnerabilities, {}, c)
  {
    hide Keys, MetFirst;
    forall k ensures k in FirstMet(vulnerabilities, c) <==> k in Order.NewAs(vulnerabilities, {}, c) {
      FirstMetIff(vulnerabilities, c, k);
    }
  }

  /** The reports of a container's rows hold the vulnerabilities found for its reference. */
  lemma {:induction false} RowsFound(table: seq<ReportRow>, ref: ImageRef)
    ensures Found(Reports(RowsOf(table, ColumnsOf, ref))) == FoundAt(table, ref)
  {
    hide Matches, Found, Flat;
    if table == [] {
      NothingFound();
    } else {
      var front, last := table[..|table| - 1], table[|table| - 1];
      RowsFound(front, ref);
      var rows := RowsOf(front, ColumnsOf, ref);
      if Matches(last.columns, ref) {
        assert (rows + [last])[..|rows|] == rows;
        Order.FoundConcat(Reports(rows), [last.report]);
        Order.FoundOne(last.report);
      }
    }
  }

  lemma NothingFound()
    ensures Found([]) == []
  {
  }

  ghost predicate ResultsOf(results: seq<ContainerResult>, table: seq<ReportRow>, containers: seq<ContainerRef>) {
    |results| == |containers| && forall i :: 0 <= i < |containers| ==> results[i] == ResultOf(table, containers[i])
  }

  /** The summary of the results counts every container. */
  lemma {:induction false} SummaryCountsAll(results: seq<ContainerResult>, table: seq<ReportRow>,
                                            containers: seq<ContainerRef>)
    requires ResultsOf(results, table, containers)
    ensures CountsAll(SummaryOf(AllReports(results)), table, containers)
  {
    hide Read, Total, FoundAt, FirstMet, Keys, Found, Reports, RowsOf;
    if containers == [] {
      EmptyCounts(table);
    } else {
      var n := |containers| - 1;
      SummaryCountsAll(results[..n], table, containers[..n]);
      var all, found := AllReports(results), FoundAt(table, containers[n].ref);
      RowsFound(table, containers[n].ref);
      assert all[..|all| - 1] == AllReports(results[..n]) && Found(all[|all| - 1]) == found;
      OneMore(SummaryOf(AllReports(results[..n])), found);
      forall c { OneMoreCounter(SummaryOf(AllReports(results[..n])), found, c); }
    }
  }

  lemma EmptyCounts(table: seq<ReportRow>)
    ensures SummaryOf(AllReports([])) == NO_VULNERABILITIES && CountsAll(NO_VULNERABILITIES, table, [])
  {
    NothingRead();
  }

  lemma OneMore(s: Summary, found: seq<Vulnerability>)
    ensures var r := Absorb(Tally({}, s), found).summary;
            && Total(r) == Total(s) + |Keys(found)|
            && r.suppressed == s.suppressed + |set k | k in Keys(found) && k.suppressed|
  {
    hide Absorb, Keys, Total;
    AbsorbCounts(Tally({}, s), found);
    assert {} + Keys(found) == Keys(found) && Suppression({}) == {};
  }

  lemma OneMoreCounter(s: Summary, found: seq<Vulnerability>, c: Counter)
    ensures Read(Absorb(Tally({}, s), found).summary, c) == Read(s, c) + |FirstMet(found, c)|
  {
    hide Absorb, Keys, Read, FirstMet;
    Order.AbsorbFirst(Tally({}, s), found, c);
    FirstMetNew(found, c);
  }

  lemma AloneCounts(images: seq<Columns>, table: seq<ReportRow>, containers: seq<ContainerRef>)
    ensures CountsAll(Alone(images, table, containers).summary, table, containers)
  {
    hide CountsAll, SummaryOf, AllReports;
    SummaryCountsAll(Alone(images, table, containers).containers, table, containers);
  }

  class WorkloadReport {
    const containers: seq<ContainerRef>
    var statuses: seq<ContainerStatus>
    var results: seq<ContainerResult>
    var summary: Summary

    function Value(): Results
      reads this
    {
      Results(statuses, results, summary)
    }

    constructor (containers: seq<ContainerRef>, r: Results)
      ensures this.containers == containers && Value() == r
    {
      this.containers := containers;
      statuses, results, summary := r.statuses, r.containers, r.summary;
    }

    /** Fills the report from what was fetched for a list of references. */
    method Fill(counts: map<ImageRef, nat>, byRef: map<ImageRef, seq<ReportRow>>,
                ghost images: seq<Columns>, ghost table: seq<ReportRow>)
      requires forall k :: k in containers ==> CountAt(counts, k.ref) == |RowsOf(images, Itself, k.ref)|
      requires forall k :: k in containers ==> At(byRef, k.ref) == RowsOf(table, ColumnsOf, k.ref)
      modifies this
      ensures Value() == Alone(images, table, containers)
    {
      statuses, results := [], [];
      for i := 0 to |containers|
        invariant |statuses| == |results| == i
        invariant forall j :: 0 <= j < i ==> statuses[j] == StatusOf(images, table, containers[j])
        invariant forall j :: 0 <= j < i ==> results[j] == ResultOf(table, containers[j])
      {
        var k := containers[i];
        assert k in containers;
        var found := At(byRef, k.ref);
        statuses := statuses + [ContainerStatus(k.name, ComputeScanStatus(CountAt(counts, k.ref), |found|))];
        results := results + [ContainerResult(k.name, found)];
      }
      summary := CalculateSummary(AllReports(results));
      ShowsAlone(Value(), images, table, containers);
    }
  }

  ghost predicate DistinctRefs(containers: seq<ContainerRef>) {
    forall i, j :: 0 <= i < j < |containers| ==> containers[i].ref != containers[j].ref
  }

  ghost predicate UsedBy(reports: seq<WorkloadReport>, ref: ImageRef) {
    exists r :: r in reports && Requested(r.containers, ref)
  }

  lemma RequestedAppend(containers: seq<ContainerRef>, k: ContainerRef)
    ensures forall ref :: Requested(containers + [k], ref) <==> Requested(containers, ref) || ref == k.ref
  {
    forall ref ensures Requested(containers + [k], ref) <==> Requested(containers, ref) || ref == k.ref {
      if Requested(containers, ref) {
        var q :| q in containers && q.ref == ref;
        assert q in containers + [k];
      }
      assert k in containers + [k];
    }
  }

  /** The loop over the containers of one report. */
  method AddUnseen(before: seq<ContainerRef>, seenBefore: set<ImageRef>, from: seq<ContainerRef>)
    returns (containers: seq<ContainerRef>, seen: set<ImageRef>)
    requires DistinctRefs(before) && forall ref :: ref in seenBefore <==> Requested(before, ref)
    ensures DistinctRefs(containers) && forall ref :: ref in seen <==> Requested(containers, ref)
    ensures forall ref :: Requested(containers, ref) <==> Requested(before, ref) || Requested(from, ref)
  {
    hide Requested;
    containers, seen := before, seenBefore;
    NoneRequested();
    assert from[..0] == [];
    for j := 0 to |from|
      invariant DistinctRefs(containers) && forall ref :: ref in seen <==> Requested(containers, ref)
      invariant forall ref :: Requested(containers, ref) <==> Requested(before, ref) || Requested(from[..j], ref)
    {
      var k := from[j];
      RequestedAppend(from[..j], k);
      assert from[..j + 1] == from[..j] + [k];
      if k.ref !in seen {
        RequestedAppend(containers, k);
        forall i | 0 <= i < |containers| ensures containers[i].ref != k.ref { RequestedAt(containers, i); }
        seen := seen + {k.ref};
        containers := containers + [k];
      }
    }
    assert from[..|from|] == from;
  }

  lemma NoneRequested()
    ensures forall ref :: !Requested([], ref)
  {
  }

  lemma RequestedAt(containers: seq<ContainerRef>, i: nat)
    requires i < |containers|
    ensures Requested(containers, containers[i].ref)
  {
  }

  /** The references of all reports, each once. */
  method CollectContainers(reports: seq<WorkloadReport>) returns (containers: seq<ContainerRef>)
    ensures DistinctRefs(containers) && forall ref :: Requested(containers, ref) <==> UsedBy(reports, ref)
  {
    hide Requested;
    containers := [];
    var seen: set<ImageRef> := {};
    NoneRequested();
    for i := 0 to |reports|
      invariant DistinctRefs(containers) && forall ref :: ref in seen <==> Requested(containers, ref)
      invariant forall ref :: Requested(containers, ref) <==> UsedBy(reports[..i], ref)
    {
      containers, seen := AddUnseen(containers, seen, reports[i].containers);
      assert reports[..i + 1] == reports[..i] + [reports[i]];
    }
    assert reports[..|reports|] == reports;
  }

  lemma RequestedMember(containers: seq<ContainerRef>, k: ContainerRef)
    requires k in containers
    ensures Requested(containers, k.ref)
  {
  }

  lemma NothingUsed(reports: seq<WorkloadReport>)
    requires forall ref :: Requested([], ref) <==> UsedBy(reports, ref)
    ensures forall r :: r in reports ==> r.containers == []
  {
    hide Requested;
    NoneRequested();
    forall r | r in reports && r.containers != [] ensures UsedBy(reports, r.containers[0].ref) {
      RequestedAt(r.containers, 0);
    }
  }

  /** Populates a list of reports with one query per table. A report with containers
      ends up showing what it would show on its own, whatever the other reports ask
      for; a report without containers is left alone. */
  method PopulateContainerResults(reports: seq<WorkloadReport>, images: seq<Columns>, table: seq<ReportRow>)
    modifies reports
    ensures forall r :: r in reports && r.containers != [] ==> r.Value() == Alone(images, table, r.containers)
    ensures forall r :: r in reports && r.containers == [] ==> r.Value() == old(r.Value())
    // the counters count every container of the report
    ensures forall r :: r in reports && r.containers != [] ==> CountsAll(r.summary, table, r.containers)
    // statuses and results are those of the containers, one by one
    ensures forall r :: r in reports && r.containers != [] ==> ShowsEach(r.Value(), images, table, r.containers)
  {
    hide RowsOf, Requested, CountsAll, ShowsEach, Alone;
    forall r | r in reports
      ensures CountsAll(Alone(images, table, r.containers).summary, table, r.containers)
      ensures ShowsEach(Alone(images, table, r.containers), images, table, r.containers)
    {
      AloneCounts(images, table, r.containers);
      AloneShows(images, table, r.containers);
    }
    var containers := CollectContainers(reports);
    forall r, k | r in reports && k in r.containers ensures Requested(containers, k.ref) {
      RequestedMember(r.containers, k);
      assert UsedBy(reports, k.ref);
    }
    if containers == [] {
      NothingUsed(reports);
      return;
    }
    var counts := FetchImageCounts(images, containers);
    var byRef := FetchVulnerabilityReports(table, containers);
    for i := 0 to |reports|
      invariant forall r :: r in reports[..i] && r.containers != [] ==> r.Value() == Alone(images, table, r.containers)
      invariant forall r :: r in reports && r.containers == [] ==> r.Value() == old(r.Value())
    {
      var report := reports[i];
      assert report in reports;
      if report.containers != [] {
        report.Fill(counts, byRef, images, table);
      }
      assert reports[..i + 1] == reports[..i] + [report];
    }
    assert reports[..|reports|] == reports;
  }
}
