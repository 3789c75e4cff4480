/** Vulnerability counters: per container, each (CVE, suppressed, package, version)
    is counted once, under the severity it is first met with. */
module VulnerabilitySummary {
  import opened Ordering

  datatype Vulnerability = Vulnerability(
    cve: string, suppressed: bool, packageName: string, installedVersion: string, severity: string)

  datatype Key = Key(cve: string, suppressed: bool, packageName: string, installedVersion: string)

  function KeyOf(v: Vulnerability): Key { Key(v.cve, v.suppressed, v.packageName, v.installedVersion) }

  datatype Summary = Summary(critical: nat, high: nat, medium: nat, low: nat, unknown: nat, suppressed: nat)

  const NO_VULNERABILITIES := Summary(0, 0, 0, 0, 0, 0)

  function Total(s: Summary): nat { s.critical + s.high + s.medium + s.low + s.unknown + s.suppressed }

  /** The counter a vulnerability belongs to. */
  datatype Counter = Critical | High | Medium | Low | Unknown | Suppressed

  function CounterOf(v: Vulnerability): Counter {
    if v.suppressed then Suppressed
    else if v.severity == "CRITICAL" then Critical
    else if v.severity == "HIGH" then High
    else if v.severity == "MEDIUM" then Medium
    else if v.severity == "LOW" then Low
    else Unknown
  }

  function Read(s: Summary, c: Counter): nat {
    match c
    case Critical => s.critical
    case High => s.high
    case Medium => s.medium
    case Low => s.low
    case Unknown => s.unknown
    case Suppressed => s.suppressed
  }

  function Plus(s: Summary, c: Counter): (r: Summary)
    ensures Total(r) == Total(s) + 1
    ensures forall d :: Read(r, d) == Read(s, d) + if d == c then 1 else 0
  {
    match c
    case Critical => s.(critical := s.critical + 1)
    case High => s.(high := s.high + 1)
    case Medium => s.(medium := s.medium + 1)
    case Low => s.(low := s.low + 1)
    case Unknown => s.(unknown := s.unknown + 1)
    case Suppressed => s.(suppressed := s.suppressed + 1)
  }

  lemma SummaryByCounters(s: Summary, t: Summary)
    requires forall c :: Read(s, c) == Read(t, c)
    ensures s == t
  {
    assert Read(s, Critical) == Read(t, Critical) && Read(s, High) == Read(t, High);
    assert Read(s, Medium) == Read(t, Medium) && Read(s, Low) == Read(t, Low);
    assert Read(s, Unknown) == Read(t, Unknown) && Read(s, Suppressed) == Read(t, Suppressed);
  }

  // --- Counting without repetition --------------------------------------------------

  /** What has been met in a container so far, and the counters. */
  datatype Tally = Tally(seen: set<Key>, summary: Summary)

  function Meet(t: Tally, v: Vulnerability): Tally {
    if KeyOf(v) in t.seen then t else Tally(t.seen + {KeyOf(v)}, Plus(t.summary, CounterOf(v)))
  }

  function Absorb(t: Tally, vulnerabilities: seq<Vulnerability>): Tally {
    if vulnerabilities == [] then t
    else Meet(Absorb(t, vulnerabilities[..|vulnerabilities| - 1]), vulnerabilities[|vulnerabilities| - 1])
  }

  lemma {:induction false} AbsorbConcat(t: Tally, a: seq<Vulnerability>, b: seq<Vulnerability>)
    ensures Absorb(t, a + b) == Absorb(Absorb(t, a), b)
  {
    if b == [] {
      assert a + b == a;
    } else {
      var front := b[..|b| - 1];
      AbsorbConcat(t, a, front);
      assert (a + b)[..|a + b| - 1] == a + front;
    }
  }

  function Keys(vulnerabilities: seq<Vulnerability>): set<Key> { set v | v in vulnerabilities :: KeyOf(v) }

  function SuppressedKeys(vulnerabilities: seq<Vulnerability>): set<Key> {
    set v | v in vulnerabilities && v.suppressed :: KeyOf(v)
  }

  function Suppression(keys: set<Key>): set<Key> { set k | k in keys && k.suppressed }

  lemma KeysAppend(front: seq<Vulnerability>, v: Vulnerability)
    ensures Keys(front + [v]) == Keys(front) + {KeyOf(v)}
    ensures SuppressedKeys(front + [v]) == SuppressedKeys(front) + if v.suppressed then {KeyOf(v)} else {}
  {
    assert v in front + [v];
    forall k | k in Keys(front) + {KeyOf(v)} ensures k in Keys(front + [v]) {
      if k in Keys(front) {
        var w :| w in front && KeyOf(w) == k;
        assert w in front + [v];
      }
    }
    forall k | k in SuppressedKeys(front) ensures k in SuppressedKeys(front + [v]) {
      var w :| w in front && w.suppressed && KeyOf(w) == k;
      assert w in front + [v];
    }
  }

  lemma SuppressionGrows(keys: set<Key>, k: Key)
    ensures Suppression(keys + {k}) == Suppression(keys) + if k.suppressed then {k} else {}
    ensures k !in keys ==> |Suppression(keys + {k})| == |Suppression(keys)| + if k.suppressed then 1 else 0
  {
  }

  lemma MeetCounts(t: Tally, v: Vulnerability)
    ensures var r := Meet(t, v);
            && r.seen == t.seen + {KeyOf(v)}
            && Total(r.summary) + |t.seen| == Total(t.summary) + |r.seen|
            && r.summary.suppressed + |Suppression(t.seen)| == t.summary.suppressed + |Suppression(r.seen)|
  {
    SuppressionGrows(t.seen, KeyOf(v));
    if KeyOf(v) !in t.seen {
      var r := Plus(t.summary, CounterOf(v));
      assert Read(r, Suppressed) == Read(t.summary, Suppressed) + if CounterOf(v) == Suppressed then 1 else 0;
      assert CounterOf(v) == Suppressed <==> v.suppressed;
      hide Plus, Suppression;
    } else {
      assert t.seen + {KeyOf(v)} == t.seen;
    }
  }

  /** The counters grow by one for each new key, the suppressed one by the new
      suppressed keys. */
  lemma {:induction false} AbsorbCounts(t: Tally, vulnerabilities: seq<Vulnerability>)
    ensures var r := Absorb(t, vulnerabilities);
            && r.seen == t.seen + Keys(vulnerabilities)
            && Total(r.summary) + |t.seen| == Total(t.summary) + |r.seen|
            && r.summary.suppressed + |Suppression(t.seen)| == t.summary.suppressed + |Suppression(r.seen)|
  {
    hide Meet, Total, Suppression, KeyOf;
    if vulnerabilities == [] {
      assert Keys(vulnerabilities) == {};
    } else {
      var front, last := vulnerabilities[..|vulnerabilities| - 1], vulnerabilities[|vulnerabilities| - 1];
      AbsorbCounts(t, front);
      assert vulnerabilities == front + [last];
      KeysAppend(front, last);
      MeetCounts(Absorb(t, front), last);
    }
  }

  // --- Containers ------------------------------------------------------------------

  /** Results of one vulnerability report, each a list of vulnerabilities. */
  type Report = seq<seq<Vulnerability>>

  function Flat<T>(lists: seq<seq<T>>): seq<T> {
    if lists == [] then [] else Flat(lists[..|lists| - 1]) + lists[|lists| - 1]
  }

  /** All vulnerabilities of a container, in the order they are visited. */
  function Found(container: seq<Report>): seq<Vulnerability> { Flat(Flat(container)) }

  function SummaryOf(containers: seq<seq<Report>>): Summary {
    if containers == [] then NO_VULNERABILITIES
    else
      Absorb(Tally({}, SummaryOf(containers[..|containers| - 1])), Found(containers[|containers| - 1])).summary
  }

  function KeyCount(containers: seq<seq<Report>>): nat {
    if containers == [] then 0
    else KeyCount(containers[..|containers| - 1]) + |Keys(Found(containers[|containers| - 1]))|
  }

  function SuppressedCount(containers: seq<seq<Report>>): nat {
    if containers == [] then 0
    else SuppressedCount(containers[..|containers| - 1]) + |SuppressedKeys(Found(containers[|containers| - 1]))|
  }

  lemma SuppressedOfKeys(vulnerabilities: seq<Vulnerability>)
    ensures Suppression(Keys(vulnerabilities)) == SuppressedKeys(vulnerabilities)
  {
    forall k | k in SuppressedKeys(vulnerabilities) ensures k in Keys(vulnerabilities) {
      var v :| v in vulnerabilities && v.suppressed && KeyOf(v) == k;
    }
    forall k | k in Suppression(Keys(vulnerabilities)) ensures k in SuppressedKeys(vulnerabilities) {
      var v :| v in vulnerabilities && KeyOf(v) == k;
    }
  }

  /** The six counters add up to the distinct keys, container by container, and the
      suppressed counter to the suppressed ones; both depend on which
      vulnerabilities are there and not on their order. */
  lemma {:induction false} SummaryCountsKeys(containers: seq<seq<Report>>)
    ensures Total(SummaryOf(containers)) == KeyCount(containers)
    ensures SummaryOf(containers).suppressed == SuppressedCount(containers)
  {
    if containers != [] {
      var front, last := containers[..|containers| - 1], Found(containers[|containers| - 1]);
      SummaryCountsKeys(front);
      AbsorbCounts(Tally({}, SummaryOf(front)), last);
      SuppressedOfKeys(last);
      assert {} + Keys(last) == Keys(last);
      assert Suppression({}) == {};
    }
  }

  // --- The counters in place -----------------------------------------------------------

  class SummaryObject {
    var critical: nat
    var high: nat
    var medium: nat
    var low: nat
    var unknown: nat
    var suppressed: nat

    function Value(): Summary
      reads this
    {
      Summary(critical, high, medium, low, unknown, suppressed)
    }

    constructor ()
      ensures Value() == NO_VULNERABILITIES
    {
      critical, high, medium, low, unknown, suppressed := 0, 0, 0, 0, 0, 0;
    }

    method Add(v: Vulnerability)
      modifies this
      ensures Value() == Plus(old(Value()), CounterOf(v))
      ensures suppressed == old(suppressed) + if v.suppressed then 1 else 0
      ensures critical == old(critical) + if !v.suppressed && v.severity == "CRITICAL" then 1 else 0
      ensures high == old(high) + if !v.suppressed && v.severity == "HIGH" then 1 else 0
      ensures medium == old(medium) + if !v.suppressed && v.severity == "MEDIUM" then 1 else 0
      ensures low == old(low) + if !v.suppressed && v.severity == "LOW" then 1 else 0
      // any other severity counts as unknown
      ensures unknown == old(unknown)
                         + if !v.suppressed && v.severity !in {"CRITICAL", "HIGH", "MEDIUM", "LOW"} then 1 else 0
    {
      if v.suppressed {
        suppressed := suppressed + 1;
        return;
      }
      if v.severity == "CRITICAL" {
        critical := critical + 1;
      } else if v.severity == "HIGH" {
        high := high + 1;
      } else if v.severity == "MEDIUM" {
        medium := medium + 1;
      } else if v.severity == "LOW" {
        low := low + 1;
      } else {
        unknown := unknown + 1;
      }
    }
  }

  /** One list of vulnerabilities entered into the counters of a container. */
  method Enter(vulnerabilities: seq<Vulnerability>, seen: set<Key>, summary: SummaryObject) returns (met: set<Key>)
    modifies summary
    ensures Tally(met, summary.Value()) == Absorb(Tally(seen, old(summary.Value())), vulnerabilities)
  {
    met := seen;
    for i := 0 to |vulnerabilities|
      invariant Tally(met, summary.Value()) == Absorb(Tally(seen, old(summary.Value())), vulnerabilities[..i])
    {
      var v := vulnerabilities[i];
      assert vulnerabilities[..i + 1][..i] == vulnerabilities[..i];
      if KeyOf(v) !in met {
        met := met + {KeyOf(v)};
        summary.Add(v);
      }
    }
    assert vulnerabilities[..|vulnerabilities|] == vulnerabilities;
  }

  lemma FlatAppend<T>(lists: seq<seq<T>>, i: nat)
    requires i < |lists|
    ensures Flat(lists[..i + 1]) == Flat(lists[..i]) + lists[i]
  {
    assert lists[..i + 1][..i] == lists[..i];
  }

  lemma {:induction false} FlatConcat<T>(a: seq<seq<T>>, b: seq<seq<T>>)
    ensures Flat(a + b) == Flat(a) + Flat(b)
  {
    if b == [] {
      assert a + b == a;
    } else {
      var front := b[..|b| - 1];
      FlatConcat(a, front);
      assert (a + b)[..|a + b| - 1] == a + front;
    }
  }

  method EnterReport(report: Report, seen: set<Key>, summary: SummaryObject) returns (met: set<Key>)
    modifies summary
    ensures Tally(met, summary.Value()) == Absorb(Tally(seen, old(summary.Value())), Flat(report))
  {
    met := seen;
    ghost var start := Tally(seen, summary.Value());
    for i := 0 to |report|
      invariant Tally(met, summary.Value()) == Absorb(start, Flat(report[..i]))
    {
      met := Enter(report[i], met, summary);
      AbsorbConcat(start, Flat(report[..i]), report[i]);
      FlatAppend(report, i);
    }
    assert report[..|report|] == report;
  }

  method EnterContainer(container: seq<Report>, summary: SummaryObject)
    modifies summary
    ensures summary.Value() == Absorb(Tally({}, old(summary.Value())), Found(container)).summary
  {
    var seen := {};
    ghost var start := Tally({}, summary.Value());
    for i := 0 to |container|
      invariant Tally(seen, summary.Value()) == Absorb(start, Found(container[..i]))
    {
      seen := EnterReport(container[i], seen, summary);
      AbsorbConcat(start, Found(container[..i]), Flat(container[i]));
      FlatAppend(container, i);
      FlatConcat(Flat(container[..i]), container[i]);
    }
    assert container[..|container|] == container;
  }

  method CalculateSummary(containers: seq<seq<Report>>) returns (summary: Summary)
    ensures summary == SummaryOf(containers)
  {
    var counters := new SummaryObject();
    for i := 0 to |containers|
      invariant counters.Value() == SummaryOf(containers[..i])
    {
      assert containers[..i + 1][..i] == containers[..i];
      EnterContainer(containers[i], counters);
    }
    assert containers[..|containers|] == containers;
    summary := counters.Value();
  }

  // --- The counters of a single report --------------------------------------------------------

  function CountOf(vulnerabilities: seq<Vulnerability>, c: Counter): nat {
    if vulnerabilities == [] then 0
    else
      CountOf(vulnerabilities[..|vulnerabilities| - 1], c)
      + if CounterOf(vulnerabilities[|vulnerabilities| - 1]) == c then 1 else 0
  }

  lemma {:induction false} CountOfConcat(a: seq<Vulnerability>, b: seq<Vulnerability>, c: Counter)
    ensures CountOf(a + b, c) == CountOf(a, c) + CountOf(b, c)
  {
    hide CounterOf;
    if b == [] {
      assert a + b == a;
    } else {
      CountOfConcat(a, b[..|b| - 1], c);
      assert (a + b)[..|a + b| - 1] == a + b[..|b| - 1];
    }
  }

  /** Repeated vulnerabilities of a single report are counted each time. */
  method NewSummaryFromResults(results: Report) returns (summary: Summary)
    ensures forall c :: Read(summary, c) == CountOf(Flat(results), c)
  {
    hide CounterOf, Plus, Read;
    var counters := new SummaryObject();
    NothingRead();
    for i := 0 to |results|
      invariant forall c :: Read(counters.Value(), c) == CountOf(Flat(results[..i]), c)
    {
      var vulnerabilities := results[i];
      for j := 0 to |vulnerabilities|
        invariant forall c ::
            Read(counters.Value(), c) == CountOf(Flat(results[..i]), c) + CountOf(vulnerabilities[..j], c)
      {
        assert vulnerabilities[..j + 1][..j] == vulnerabilities[..j];
        counters.Add(vulnerabilities[j]);
      }
      assert vulnerabilities[..|vulnerabilities|] == vulnerabilities;
      FlatAppend(results, i);
      forall c { CountOfConcat(Flat(results[..i]), vulnerabilities, c); }
    }
    assert results[..|results|] == results;
    summary := counters.Value();
  }

  lemma NothingRead()
    ensures forall c :: Read(NO_VULNERABILITIES, c) == 0
  {
  }
}
