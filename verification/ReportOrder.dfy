/** What the counters owe to the order in which the reports of a container are read.
    The query that fetches them has no order of its own. A vulnerability that two
    reports hold with different severities is counted under the first. */
module ReportOrder {
  import opened Ordering
  import opened VulnerabilitySummary

  // --- The counter a key is counted under --------------------------------------------

  /** The counter of the first vulnerability with the key. */
  function First(vulnerabilities: seq<Vulnerability>, k: Key): (c: Option<Counter>)
    ensures c.Some? <==> k in Keys(vulnerabilities)
  {
    if vulnerabilities == [] then None
    else
      var front, last := vulnerabilities[..|vulnerabilities| - 1], vulnerabilities[|vulnerabilities| - 1];
      assert vulnerabilities == front + [last];
      KeysAppend(front, last);
      var earlier := First(front, k);
      if earlier.Some? then earlier else if KeyOf(last) == k then Some(CounterOf(last)) else None
  }

  lemma {:induction false} FirstConcat(a: seq<Vulnerability>, b: seq<Vulnerability>, k: Key)
    ensures First(a + b, k) == if First(a, k).Some? then First(a, k) else First(b, k)
  {
    hide Keys, KeyOf, CounterOf;
    if b == [] {
      assert a + b == a;
    } else {
      FirstConcat(a, b[..|b| - 1], k);
      assert (a + b)[..|a + b| - 1] == a + b[..|b| - 1];
    }
  }

  /** The keys not seen before that are counted under `c`. */
  function NewAs(vulnerabilities: seq<Vulnerability>, seen: set<Key>, c: Counter): set<Key> {
    set k | k in Keys(vulnerabilities) && k !in seen && First(vulnerabilities, k) == Some(c)
  }

  lemma FirstAppend(front: seq<Vulnerability>, v: Vulnerability, k: Key)
    ensures First(front + [v], k)
         == if k in Keys(front) then First(front, k) else if KeyOf(v) == k then Some(CounterOf(v)) else None
  {
    hide KeyOf, CounterOf, Keys;
    assert (front + [v])[..|front|] == front;
  }

  lemma NewMember(vulnerabilities: seq<Vulnerability>, seen: set<Key>, c: Counter, k: Key)
    ensures k in NewAs(vulnerabilities, seen, c) <==>
        k in Keys(vulnerabilities) && k !in seen && First(vulnerabilities, k) == Some(c)
  {
  }

  lemma NewAppend(front: seq<Vulnerability>, v: Vulnerability, seen: set<Key>, c: Counter)
    ensures NewAs(front + [v], seen, c) == NewAs(front, seen, c)
        + if KeyOf(v) !in seen + Keys(front) && CounterOf(v) == c then {KeyOf(v)} else {}
    ensures |NewAs(front + [v], seen, c)| == |NewAs(front, seen, c)|
        + if KeyOf(v) !in seen + Keys(front) && CounterOf(v) == c then 1 else 0
  {
    hide KeyOf, CounterOf, Keys, First, NewAs;
    KeysAppend(front, v);
    var before, after := NewAs(front, seen, c), NewAs(front + [v], seen, c);
    var added := if KeyOf(v) !in seen + Keys(front) && CounterOf(v) == c then {KeyOf(v)} else {};
    forall k ensures k in before <==> k in Keys(front) && k !in seen && First(front, k) == Some(c) {
      NewMember(front, seen, c, k);
    }
    forall k ensures k in after <==> k in before + added {
      NewMember(front + [v], seen, c, k);
      FirstAppend(front, v, k);
    }
    assert after == before + added && before !! added;
  }

  lemma MeetCounter(t: Tally, v: Vulnerability, c: Counter)
    ensures Meet(t, v).seen == t.seen + {KeyOf(v)}
    ensures Read(Meet(t, v).summary, c)
         == Read(t.summary, c) + if KeyOf(v) !in t.seen && CounterOf(v) == c then 1 else 0
  {
    hide KeyOf, CounterOf, Plus, Read;
    if KeyOf(v) in t.seen { assert t.seen + {KeyOf(v)} == t.seen; }
  }

  /** A list adds to each counter the keys it newly counts under it. */
  lemma {:induction false} AbsorbFirst(t: Tally, vulnerabilities: seq<Vulnerability>, c: Counter)
    ensures var r := Absorb(t, vulnerabilities);
            && r.seen == t.seen + Keys(vulnerabilities)
            && Read(r.summary, c) == Read(t.summary, c) + |NewAs(vulnerabilities, t.seen, c)|
  {
    hide KeyOf, CounterOf, Meet, Read, Keys, NewAs;
    if vulnerabilities == [] {
      NoKeys(t.seen, c);
    } else {
      var front, last := vulnerabilities[..|vulnerabilities| - 1], vulnerabilities[|vulnerabilities| - 1];
      AbsorbFirst(t, front, c);
      MeetCounter(Absorb(t, front), last, c);
      assert vulnerabilities == front + [last];
      KeysAppend(front, last);
      NewAppend(front, last, t.seen, c);
    }
  }

  lemma NoKeys(seen: set<Key>, c: Counter)
    ensures Keys([]) == {} && NewAs([], seen, c) == {}
  {
  }

  // --- Containers --------------------------------------------------------------------

  function Counted(vulnerabilities: seq<Vulnerability>): Summary {
    Absorb(Tally({}, NO_VULNERABILITIES), vulnerabilities).summary
  }

  lemma CountedFirst(vulnerabilities: seq<Vulnerability>, c: Counter)
    ensures Read(Counted(vulnerabilities), c) == |NewAs(vulnerabilities, {}, c)|
  {
    hide Absorb, NewAs, Read;
    AbsorbFirst(Tally({}, NO_VULNERABILITIES), vulnerabilities, c);
    NothingRead();
  }

  lemma FoundConcat(a: seq<Report>, b: seq<Report>)
    ensures Found(a + b) == Found(a) + Found(b)
  {
    FlatConcat(a, b);
    FlatConcat(Flat(a), Flat(b));
  }

  lemma FoundOne(r: Report)
    ensures Found([r]) == Flat(r)
  {
    assert Flat([r]) == Flat<seq<Vulnerability>>([]) + r == r;
  }

  // --- One key ------------------------------------------------------------------------

  /** Any two reports that hold the key meet it first with the same counter. */
  ghost predicate Agree(container: seq<Report>, k: Key) {
    forall r, s :: r in container && s in container && First(Flat(r), k).Some? && First(Flat(s), k).Some? ==>
                     First(Flat(r), k) == First(Flat(s), k)
  }

  /** The counter of a key is that of a report that holds it, if there is one. */
  lemma {:induction false} FirstReport(container: seq<Report>, k: Key)
    ensures First(Found(container), k).Some? ==>
              exists r :: r in container && First(Flat(r), k) == First(Found(container), k)
    ensures forall r :: r in container && First(Flat(r), k).Some? ==> First(Found(container), k).Some?
  {
    hide First, Found, Flat;
    if container == [] {
      NothingFound(k);
    } else {
      var front, last := container[..|container| - 1], container[|container| - 1];
      FirstReport(front, k);
      assert container == front + [last];
      FoundConcat(front, [last]);
      FoundOne(last);
      FirstConcat(Found(front), Flat(last), k);
      if First(Found(front), k).Some? {
        var r :| r in front && First(Flat(r), k) == First(Found(front), k);
        assert r in container;
      } else {
        assert last in container;
      }
    }
  }

  lemma NothingFound(k: Key)
    ensures First(Found([]), k) == None
  {
  }

  lemma PullReport(container: seq<Report>, r: Report) returns (rest: seq<Report>)
    requires r in container
    ensures multiset([r] + rest) == multiset(container)
  {
    var i :| 0 <= i < |container| && container[i] == r;
    rest := container[..i] + container[i + 1..];
    assert container == container[..i] + [r] + container[i + 1..];
  }

  lemma FirstOfAll(r: Report, rest: seq<Report>, k: Key)
    requires First(Flat(r), k).Some?
    ensures First(Found([r] + rest), k) == First(Flat(r), k)
  {
    hide First;
    FoundConcat([r], rest);
    FoundOne(r);
    FirstConcat(Flat(r), Found(rest), k);
  }

  /** The counter a key is counted under is the same for every order of the reports
      if and only if the reports that hold it agree. */
  lemma KeyOrderIff(container: seq<Report>, k: Key)
    ensures Agree(container, k) <==>
        forall other :: multiset(other) == multiset(container) ==> First(Found(other), k) == First(Found(container), k)
  {
    hide First, Found, Flat;
    if Agree(container, k) {
      forall other | multiset(other) == multiset(container)
        ensures First(Found(other), k) == First(Found(container), k)
      {
        SameElements(other, container);
        FirstReport(other, k);
        FirstReport(container, k);
      }
    } else {
      var r, s :| r in container && s in container && First(Flat(r), k).Some? && First(Flat(s), k).Some?
                  && First(Flat(r), k) != First(Flat(s), k);
      var others := PullReport(container, r);
      var rest := PullReport(container, s);
      FirstOfAll(r, others, k);
      FirstOfAll(s, rest, k);
    }
  }

  // --- Two neighbouring reports ------------------------------------------------------------

  /** Keys of both lists, not seen before, that the first counts under `c`. */
  function SharedAs(x: seq<Vulnerability>, y: seq<Vulnerability>, seen: set<Key>, c: Counter): set<Key> {
    set k | k in Keys(x) && k in Keys(y) && k !in seen && First(x, k) == Some(c)
  }

  /** Of the keys they share, the lists count as many under each counter. */
  ghost predicate Even(x: seq<Vulnerability>, y: seq<Vulnerability>, seen: set<Key>) {
    forall c :: |SharedAs(x, y, seen, c)| == |SharedAs(y, x, seen, c)|
  }

  lemma NewSplit(x: seq<Vulnerability>, y: seq<Vulnerability>, seen: set<Key>, c: Counter)
    ensures |NewAs(x, seen, c)| == |NewAs(x, seen + Keys(y), c)| + |SharedAs(x, y, seen, c)|
  {
    hide First, Keys;
    assert NewAs(x, seen, c) == NewAs(x, seen + Keys(y), c) + SharedAs(x, y, seen, c);
    assert NewAs(x, seen + Keys(y), c) !! SharedAs(x, y, seen, c);
  }

  /** Reading two lists in the other order shifts a counter by the shared keys. */
  lemma SwapShifts(t: Tally, x: seq<Vulnerability>, y: seq<Vulnerability>, c: Counter)
    ensures var xy, yx := Absorb(t, x + y), Absorb(t, y + x);
            && xy.seen == yx.seen
            && Read(xy.summary, c) + |SharedAs(y, x, t.seen, c)| == Read(yx.summary, c) + |SharedAs(x, y, t.seen, c)|
  {
    hide Absorb, NewAs, SharedAs, Keys, Read;
    AbsorbConcat(t, x, y);
    AbsorbConcat(t, y, x);
    AbsorbFirst(t, x, c);
    AbsorbFirst(t, y, c);
    AbsorbFirst(Absorb(t, x), y, c);
    AbsorbFirst(Absorb(t, y), x, c);
    NewSplit(x, y, t.seen, c);
    NewSplit(y, x, t.seen, c);
    assert t.seen + Keys(x) + Keys(y) == t.seen + Keys(y) + Keys(x);
  }

  /** What is absorbed adds the same to the counters whatever they held before. */
  lemma AbsorbShift(seen: set<Key>, s: Summary, t: Summary, rest: seq<Vulnerability>, c: Counter)
    ensures Read(Absorb(Tally(seen, s), rest).summary, c) - Read(s, c)
         == Read(Absorb(Tally(seen, t), rest).summary, c) - Read(t, c)
  {
    hide Absorb, NewAs, Read;
    AbsorbFirst(Tally(seen, s), rest, c);
    AbsorbFirst(Tally(seen, t), rest, c);
  }

  /** A container in which `r` is read right before `s`. */
  function Around(p: seq<Report>, r: Report, s: Report, q: seq<Report>): seq<Report> { p + [r, s] + q }

  lemma AroundFound(p: seq<Report>, r: Report, s: Report, q: seq<Report>)
    ensures Found(Around(p, r, s, q)) == Found(p) + (Flat(r) + Flat(s)) + Found(q)
  {
    hide Found, Flat;
    FoundConcat(p + [r, s], q);
    FoundConcat(p, [r, s]);
    assert [r, s] == [r] + [s];
    FoundConcat([r], [s]);
    FoundOne(r);
    FoundOne(s);
  }

  lemma SwapCounter(p: seq<Report>, r: Report, s: Report, q: seq<Report>, c: Counter)
    ensures Read(Counted(Found(Around(p, r, s, q))), c) + |SharedAs(Flat(s), Flat(r), Keys(Found(p)), c)|
         == Read(Counted(Found(Around(p, s, r, q))), c) + |SharedAs(Flat(r), Flat(s), Keys(Found(p)), c)|
  {
    hide Absorb, Found, Flat, Around, SharedAs, Keys, Read;
    var start, x, y := Tally({}, NO_VULNERABILITIES), Flat(r), Flat(s);
    var t := Absorb(start, Found(p));
    AroundFound(p, r, s, q);
    AroundFound(p, s, r, q);
    AbsorbConcat(start, Found(p), x + y);
    AbsorbConcat(start, Found(p), y + x);
    AbsorbConcat(start, Found(p) + (x + y), Found(q));
    AbsorbConcat(start, Found(p) + (y + x), Found(q));
    AbsorbFirst(start, Found(p), c);
    assert t.seen == Keys(Found(p));
    SwapShifts(t, x, y, c);
    var xy, yx := Absorb(t, x + y), Absorb(t, y + x);
    AbsorbShift(xy.seen, xy.summary, yx.summary, Found(q), c);
    assert xy == Tally(xy.seen, xy.summary) && yx == Tally(xy.seen, yx.summary);
  }

  /** Two neighbouring reports can be exchanged if and only if they are even. */
  lemma SwapIff(p: seq<Report>, r: Report, s: Report, q: seq<Report>)
    ensures Counted(Found(Around(p, r, s, q))) == Counted(Found(Around(p, s, r, q))) <==>
        Even(Flat(r), Flat(s), Keys(Found(p)))
  {
    hide Counted, Found, Flat, Around, SharedAs, Keys, Read;
    var a, b := Counted(Found(Around(p, r, s, q))), Counted(Found(Around(p, s, r, q)));
    forall c ensures Read(a, c) == Read(b, c) <==>
        |SharedAs(Flat(r), Flat(s), Keys(Found(p)), c)| == |SharedAs(Flat(s), Flat(r), Keys(Found(p)), c)| {
      SwapCounter(p, r, s, q, c);
    }
    if Even(Flat(r), Flat(s), Keys(Found(p))) { SummaryByCounters(a, b); }
  }

  // --- All orders ----------------------------------------------------------------------------

  /** Any two reports of the container are even, whichever others are read before. */
  ghost predicate Balanced(reports: multiset<Report>) {
    forall p, r, s, q :: multiset(Around(p, r, s, q)) == reports ==> Even(Flat(r), Flat(s), Keys(Found(p)))
  }

  function Exchanged(x: seq<Report>, i: nat): seq<Report>
    requires 0 < i < |x|
  {
    x[..i - 1] + [x[i], x[i - 1]] + x[i + 1..]
  }

  lemma ExchangedAround(p: seq<Report>, x: seq<Report>, i: nat)
    requires 0 < i < |x|
    ensures p + x == Around(p + x[..i - 1], x[i - 1], x[i], x[i + 1..])
    ensures p + Exchanged(x, i) == Around(p + x[..i - 1], x[i], x[i - 1], x[i + 1..])
    ensures Exchanged(x, i)[..i - 1] + Exchanged(x, i)[i..] == x[..i] + x[i + 1..] && Exchanged(x, i)[i - 1] == x[i]
  {
  }

  lemma SameAround(p: seq<Report>, r: Report, s: Report, q: seq<Report>)
    ensures multiset(Around(p, r, s, q)) == multiset(Around(p, s, r, q))
  {
  }

  lemma BalancedSwap(reports: multiset<Report>, p: seq<Report>, r: Report, s: Report, q: seq<Report>)
    requires Balanced(reports) && multiset(Around(p, r, s, q)) == reports
    ensures Counted(Found(Around(p, r, s, q))) == Counted(Found(Around(p, s, r, q)))
  {
    hide Counted, Found, Even, Around, Flat, Keys;
    SwapIff(p, r, s, q);
  }

  /** Moving a report to the front of the remaining ones. */
  lemma {:induction false} MoveForward(reports: multiset<Report>, p: seq<Report>, x: seq<Report>, i: nat)
    requires i < |x| && Balanced(reports) && multiset(p + x) == reports
    ensures Counted(Found(p + x)) == Counted(Found(p + [x[i]] + (x[..i] + x[i + 1..])))
    decreases i
  {
    hide Counted, Found, Balanced, Around, Exchanged;
    if i == 0 {
      assert p + x == p + [x[0]] + (x[..0] + x[1..]);
    } else {
      ExchangedAround(p, x, i);
      SameAround(p + x[..i - 1], x[i - 1], x[i], x[i + 1..]);
      BalancedSwap(reports, p + x[..i - 1], x[i - 1], x[i], x[i + 1..]);
      MoveForward(reports, p, Exchanged(x, i), i - 1);
    }
  }

  lemma TakenOut(x: seq<Report>, i: nat, y: seq<Report>)
    requires i < |x| && multiset(x) == multiset(y) && y != [] && x[i] == y[0]
    ensures multiset(x[..i] + x[i + 1..]) == multiset(y[1..])
  {
    assert x == x[..i] + [x[i]] + x[i + 1..] && y == [y[0]] + y[1..];
    var a, b := multiset(x[..i] + x[i + 1..]), multiset(y[1..]);
    assert multiset(x) == multiset(x[..i]) + multiset{x[i]} + multiset(x[i + 1..]) == a + multiset{x[i]};
    assert multiset(y) == multiset{y[0]} + b == b + multiset{x[i]};
    forall r ensures a[r] == b[r] {
      assert (a + multiset{x[i]})[r] == (b + multiset{x[i]})[r];
    }
  }

  lemma {:induction false} AnyOrder(reports: multiset<Report>, p: seq<Report>, x: seq<Report>, y: seq<Report>)
    requires multiset(x) == multiset(y) && Balanced(reports) && multiset(p + x) == reports
    ensures Counted(Found(p + x)) == Counted(Found(p + y))
    decreases |y|
  {
    hide Counted, Found, Balanced;
    SameElements(x, y);
    if y != [] {
      assert y[0] in x;
      var i :| 0 <= i < |x| && x[i] == y[0];
      MoveForward(reports, p, x, i);
      var rest := x[..i] + x[i + 1..];
      TakenOut(x, i, y);
      assert y == [y[0]] + y[1..];
      assert p + [y[0]] + y[1..] == p + y;
      assert multiset(p + [y[0]] + rest) == multiset(p + y) == multiset(p + x);
      AnyOrder(reports, p + [y[0]], rest, y[1..]);
    } else {
      assert x == y;
    }
  }

  /** The counters of a container are the same for every order of its reports if and
      only if it is balanced. */
  lemma ContainerOrderIff(container: seq<Report>)
    ensures Balanced(multiset(container)) <==>
        forall other :: multiset(other) == multiset(container) ==> Counted(Found(other)) == Counted(Found(container))
  {
    hide Counted, Found, Even, Flat, Around, Keys;
    if Balanced(multiset(container)) {
      forall other | multiset(other) == multiset(container) ensures Counted(Found(other)) == Counted(Found(container)) {
        assert [] + container == container && [] + other == other;
        AnyOrder(multiset(container), [], container, other);
      }
    } else {
      var p, r, s, q :| multiset(Around(p, r, s, q)) == multiset(container) && !Even(Flat(r), Flat(s), Keys(Found(p)));
      SwapIff(p, r, s, q);
      SameAround(p, r, s, q);
    }
  }

  // --- Whole summaries ---------------------------------------------------------------------

  /** A container adds to each counter what it would count on its own. */
  lemma ContainerAdds(s: Summary, found: seq<Vulnerability>, c: Counter)
    ensures Read(Absorb(Tally({}, s), found).summary, c) == Read(s, c) + Read(Counted(found), c)
  {
    hide Absorb, Read;
    AbsorbShift({}, s, NO_VULNERABILITIES, found, c);
    NothingRead();
  }

  /** Replacing one container changes a counter by what the container counts. */
  lemma {:induction false} Replaced(a: seq<seq<Report>>, i: nat, container: seq<Report>, c: Counter)
    requires i < |a|
    ensures Read(SummaryOf(a[i := container]), c) + Read(Counted(Found(a[i])), c)
         == Read(SummaryOf(a), c) + Read(Counted(Found(container)), c)
  {
    hide Absorb, Read, Found, Counted;
    var n, b := |a| - 1, a[i := container];
    ContainerAdds(SummaryOf(a[..n]), Found(a[n]), c);
    ContainerAdds(SummaryOf(b[..n]), Found(b[n]), c);
    if i == n {
      assert b[..n] == a[..n];
    } else {
      assert b[..n] == a[..n][i := container];
      Replaced(a[..n], i, container, c);
    }
  }

  /** The same reports in every container, in any order. */
  ghost predicate Reordered(a: seq<seq<Report>>, b: seq<seq<Report>>) {
    |a| == |b| && forall i :: 0 <= i < |a| ==> multiset(a[i]) == multiset(b[i])
  }

  /** Containers that count the same add up to the same. */
  lemma {:induction false} SameSums(a: seq<seq<Report>>, b: seq<seq<Report>>)
    requires |a| == |b| && forall i :: 0 <= i < |a| ==> Counted(Found(a[i])) == Counted(Found(b[i]))
    ensures SummaryOf(a) == SummaryOf(b)
  {
    hide Absorb, Counted, Found, Read;
    if a != [] {
      var n := |a| - 1;
      assert forall i :: 0 <= i < n ==> a[..n][i] == a[i] && b[..n][i] == b[i];
      SameSums(a[..n], b[..n]);
      forall c ensures Read(SummaryOf(a), c) == Read(SummaryOf(b), c) {
        ContainerAdds(SummaryOf(a[..n]), Found(a[n]), c);
        ContainerAdds(SummaryOf(b[..n]), Found(b[n]), c);
      }
      SummaryByCounters(SummaryOf(a), SummaryOf(b));
    }
  }

  lemma DifferentCounter(s: Summary, t: Summary) returns (c: Counter)
    requires s != t
    ensures Read(s, c) != Read(t, c)
  {
    hide Read;
    if forall d :: Read(s, d) == Read(t, d) {
      SummaryByCounters(s, t);
      assert false;
    }
    c :| Read(s, c) != Read(t, c);
  }

  /** The summary of a workload is the same for every order of the reports within its
      containers if and only if every container is balanced. */
  lemma SummaryOrderIff(a: seq<seq<Report>>)
    ensures (forall i :: 0 <= i < |a| ==> Balanced(multiset(a[i]))) <==>
        forall b :: Reordered(a, b) ==> SummaryOf(b) == SummaryOf(a)
  {
    hide Balanced, Found, Counted, SummaryOf, Read;
    if forall i :: 0 <= i < |a| ==> Balanced(multiset(a[i])) {
      forall b | Reordered(a, b) ensures SummaryOf(b) == SummaryOf(a) {
        forall i | 0 <= i < |a| ensures Counted(Found(a[i])) == Counted(Found(b[i])) { ContainerOrderIff(a[i]); }
        SameSums(a, b);
      }
    } else {
      var i :| 0 <= i < |a| && !Balanced(multiset(a[i]));
      ContainerOrderIff(a[i]);
      var other :| multiset(other) == multiset(a[i]) && Counted(Found(other)) != Counted(Found(a[i]));
      assert Reordered(a, a[i := other]);
      var c := DifferentCounter(Counted(Found(other)), Counted(Found(a[i])));
      Replaced(a, i, other, c);
    }
  }

  // --- Agreement of all keys is enough, and more than needed -------------------------------------

  lemma AgreeingEven(container: seq<Report>, r: Report, s: Report, seen: set<Key>)
    requires r in container && s in container && forall k :: Agree(container, k)
    ensures Even(Flat(r), Flat(s), seen)
  {
    hide First, Flat, Keys;
    forall c ensures SharedAs(Flat(r), Flat(s), seen, c) == SharedAs(Flat(s), Flat(r), seen, c) {
      forall k ensures k in SharedAs(Flat(r), Flat(s), seen, c) <==> k in SharedAs(Flat(s), Flat(r), seen, c) {
        assert Agree(container, k);
      }
    }
  }

  /** A container whose reports agree on every key is balanced. */
  lemma AgreeingBalanced(container: seq<Report>)
    requires forall k :: Agree(container, k)
    ensures Balanced(multiset(container))
  {
    hide Agree, Flat, Found, Keys, Even;
    forall p, r, s, q | multiset(Around(p, r, s, q)) == multiset(container)
      ensures Even(Flat(r), Flat(s), Keys(Found(p)))
    {
      SameElements(Around(p, r, s, q), container);
      assert r in Around(p, r, s, q) && s in Around(p, r, s, q);
      AgreeingEven(container, r, s, Keys(Found(p)));
    }
  }

  /** If in every container any two reports that hold a key agree on it, no order of
      the reports changes the summary. */
  lemma AgreeingSummary(a: seq<seq<Report>>, b: seq<seq<Report>>)
    requires Reordered(a, b) && forall i, k :: 0 <= i < |a| ==> Agree(a[i], k)
    ensures SummaryOf(a) == SummaryOf(b)
  {
    hide Agree, Balanced, SummaryOf;
    forall i | 0 <= i < |a| ensures Balanced(multiset(a[i])) { AgreeingBalanced(a[i]); }
    SummaryOrderIff(a);
  }

  // --- Examples ---------------------------------------------------------------------------------

  function Flaw(cve: string, severity: string): Vulnerability { Vulnerability(cve, false, "package", "1", severity) }

  lemma SingleFirst(v: Vulnerability)
    ensures First([v], KeyOf(v)) == Some(CounterOf(v)) && Keys([v]) == {KeyOf(v)} && Flat([[v]]) == [v]
  {
    assert [v][..0] == [];
    assert v in [v];
    assert Flat([[v]]) == Flat([[v]][..0]) + [v];
  }

  /** Two reports that hold one vulnerability with different severities: the summary
      depends on which is read first. */
  lemma OrderChanges() returns (r: Report, s: Report)
    ensures SummaryOf([[r, s]]) != SummaryOf([[s, r]])
  {
    var v, w := Flaw("CVE", "HIGH"), Flaw("CVE", "LOW");
    var k := KeyOf(v);
    r, s := [[v]], [[w]];
    SingleFirst(v);
    SingleFirst(w);
    assert Keys(Found([])) == {};
    assert k in SharedAs([v], [w], {}, High);
    assert SharedAs([w], [v], {}, High) == {};
    assert !Even([v], [w], {});
    SwapIff([], r, s, []);
    assert Around([], r, s, []) == [r, s] && Around([], s, r, []) == [s, r];
    OneContainer([r, s]);
    OneContainer([s, r]);
  }

  lemma OneContainer(container: seq<Report>)
    ensures SummaryOf([container]) == Counted(Found(container))
  {
    assert [container][..0] == [];
  }

  lemma TwoFirst(v: Vulnerability, w: Vulnerability)
    requires KeyOf(v) != KeyOf(w)
    ensures First([v, w], KeyOf(v)) == Some(CounterOf(v)) && First([v, w], KeyOf(w)) == Some(CounterOf(w))
    ensures Keys([v, w]) == {KeyOf(v), KeyOf(w)} && Flat([[v, w]]) == [v, w]
  {
    hide KeyOf, CounterOf, Keys;
    assert [v, w] == [v] + [w];
    SingleFirst(v);
    FirstAppend([v], w, KeyOf(v));
    FirstAppend([v], w, KeyOf(w));
    KeysAppend([v], w);
    assert Flat([[v, w]]) == Flat([[v, w]][..0]) + [v, w];
  }

  /** The keys two lists share when both hold the same two. */
  lemma SharedTwo(v: Vulnerability, w: Vulnerability, x: seq<Vulnerability>, c: Counter)
    requires KeyOf(v) != KeyOf(w) && Keys(x) == {KeyOf(v), KeyOf(w)}
    ensures SharedAs([v, w], x, {}, c)
         == (if CounterOf(v) == c then {KeyOf(v)} else {}) + (if CounterOf(w) == c then {KeyOf(w)} else {})
  {
    hide KeyOf, CounterOf, Keys, First;
    TwoFirst(v, w);
  }

  /** Two keys under exchanged counters are even. */
  lemma CrossEven(v: Vulnerability, w: Vulnerability, x: Vulnerability, y: Vulnerability)
    requires KeyOf(v) == KeyOf(x) && KeyOf(w) == KeyOf(y) && KeyOf(v) != KeyOf(w)
    requires CounterOf(v) == CounterOf(y) && CounterOf(w) == CounterOf(x)
    ensures Even([v, w], [x, y], {})
  {
    hide KeyOf, CounterOf, Keys, First, SharedAs;
    TwoFirst(v, w);
    TwoFirst(x, y);
    forall c ensures |SharedAs([v, w], [x, y], {}, c)| == |SharedAs([x, y], [v, w], {}, c)| {
      SharedTwo(v, w, [x, y], c);
      SharedTwo(x, y, [v, w], c);
    }
  }

  lemma CrossDisagrees(v: Vulnerability, w: Vulnerability, x: Vulnerability, y: Vulnerability)
    requires KeyOf(v) == KeyOf(x) && KeyOf(w) == KeyOf(y) && KeyOf(v) != KeyOf(w) && CounterOf(v) != CounterOf(x)
    ensures !Agree([[[v, w]], [[x, y]]], KeyOf(v))
  {
    hide KeyOf, CounterOf, Keys, First, Flat;
    TwoFirst(v, w);
    TwoFirst(x, y);
    assert [[v, w]] in [[[v, w]], [[x, y]]] && [[x, y]] in [[[v, w]], [[x, y]]];
  }

  /** Reports can disagree on two keys in opposite ways: the keys are counted under
      other severities, the summary is the same. Agreement is not necessary. */
  lemma Cancels() returns (container: seq<Report>, k: Key)
    ensures !Agree(container, k) && Balanced(multiset(container))
  {
    hide Agree, Balanced, Even, Flat, First;
    var v, w, x, y := Flaw("A", "HIGH"), Flaw("B", "LOW"), Flaw("A", "LOW"), Flaw("B", "HIGH");
    container, k := [[[v, w]], [[x, y]]], KeyOf(v);
    assert CounterOf(v) == High == CounterOf(y) && CounterOf(w) == Low == CounterOf(x);
    CrossDisagrees(v, w, x, y);
    CrossEven(v, w, x, y);
    TwoFirst(v, w);
    TwoFirst(x, y);
    assert [[v, w]] != [[x, y]] by { assert [[v, w]][0][0] != [[x, y]][0][0]; }
    EvenPair([[v, w]], [[x, y]]);
  }

  lemma EvenPair(r: Report, s: Report)
    requires r != s && Even(Flat(r), Flat(s), {})
    ensures Balanced(multiset([r, s]))
  {
    hide Even, Flat;
    forall p, a, b, q | multiset(Around(p, a, b, q)) == multiset([r, s])
      ensures Even(Flat(a), Flat(b), Keys(Found(p)))
    {
      SameElements(Around(p, a, b, q), [r, s]);
      assert p == [] && q == [];
      assert Around(p, a, b, q) == [a, b];
      SamePair(a, b, r, s);
      EvenBothWays(Flat(r), Flat(s));
      NoFound();
    }
  }

  lemma SamePair(a: Report, b: Report, r: Report, s: Report)
    requires multiset([a, b]) == multiset([r, s]) && r != s
    ensures (a == r && b == s) || (a == s && b == r)
  {
    assert multiset([a, b])[r] == multiset([r, s])[r] == 1 && multiset([a, b])[s] == multiset([r, s])[s] == 1;
  }

  lemma EvenBothWays(x: seq<Vulnerability>, y: seq<Vulnerability>)
    requires Even(x, y, {})
    ensures Even(y, x, {})
  {
  }

  lemma NoFound()
    ensures Keys(Found([])) == {}
  {
  }

  // --- What no order changes -----------------------------------------------------------------

  /** The same vulnerabilities in every container, however ordered or spread. */
  ghost predicate SameFound(a: seq<seq<Report>>, b: seq<seq<Report>>) {
    |a| == |b| && forall i :: 0 <= i < |a| ==> multiset(Found(a[i])) == multiset(Found(b[i]))
  }

  /** Equal keys are counted under one counter. */
  ghost predicate Consistent(vulnerabilities: seq<Vulnerability>) {
    forall v, w :: v in vulnerabilities && w in vulnerabilities && KeyOf(v) == KeyOf(w) ==> CounterOf(v) == CounterOf(w)
  }

  lemma {:induction false} SameReports(x: seq<Report>, y: seq<Report>)
    requires multiset(x) == multiset(y)
    ensures multiset(Found(x)) == multiset(Found(y))
    decreases |y|
  {
    hide Found;
    SameElements(x, y);
    if y != [] {
      assert y[0] in x;
      var i :| 0 <= i < |x| && x[i] == y[0];
      var before, after := x[..i], x[i + 1..];
      TakenOut(x, i, y);
      SameReports(before + after, y[1..]);
      assert x == before + ([y[0]] + after) && y == [y[0]] + y[1..];
      FoundConcat(before, [y[0]] + after);
      FoundConcat([y[0]], after);
      FoundConcat(before, after);
      FoundConcat([y[0]], y[1..]);
    } else {
      assert x == y;
    }
  }

  lemma ReorderedFound(a: seq<seq<Report>>, b: seq<seq<Report>>)
    requires Reordered(a, b)
    ensures SameFound(a, b)
  {
    hide Found;
    forall i | 0 <= i < |a| ensures multiset(Found(a[i])) == multiset(Found(b[i])) { SameReports(a[i], b[i]); }
  }

  /** The counter of a key is that of one of its vulnerabilities. */
  lemma {:induction false} FirstMember(vulnerabilities: seq<Vulnerability>, k: Key)
    requires k in Keys(vulnerabilities)
    ensures exists v :: v in vulnerabilities && KeyOf(v) == k && First(vulnerabilities, k) == Some(CounterOf(v))
  {
    assert vulnerabilities != [];
    hide KeyOf, CounterOf, Keys;
    var front, last := vulnerabilities[..|vulnerabilities| - 1], vulnerabilities[|vulnerabilities| - 1];
    assert vulnerabilities == front + [last];
    FirstAppend(front, last, k);
    if k in Keys(front) {
      FirstMember(front, k);
    } else {
      KeysAppend(front, last);
      assert last in vulnerabilities;
    }
  }

  lemma SameKeys(a: seq<Vulnerability>, b: seq<Vulnerability>)
    requires multiset(a) == multiset(b)
    ensures Keys(a) == Keys(b) && SuppressedKeys(a) == SuppressedKeys(b)
  {
    SameElements(a, b);
  }

  lemma ConsistentCounted(a: seq<Vulnerability>, b: seq<Vulnerability>)
    requires multiset(a) == multiset(b) && Consistent(a)
    ensures Counted(a) == Counted(b)
  {
    hide KeyOf, CounterOf, Keys, First, Counted, Read;
    SameElements(a, b);
    SameKeys(a, b);
    forall k | k in Keys(a) ensures First(a, k) == First(b, k) {
      FirstMember(a, k);
      FirstMember(b, k);
    }
    forall c ensures Read(Counted(a), c) == Read(Counted(b), c) {
      CountedFirst(a, c);
      CountedFirst(b, c);
      assert NewAs(a, {}, c) == NewAs(b, {}, c);
    }
    SummaryByCounters(Counted(a), Counted(b));
  }

  /** However vulnerabilities are ordered within containers, the total and the suppressed
      counter are the same, and so are all counters when equal keys have equal counters. */
  lemma {:induction false} SummaryOrder(a: seq<seq<Report>>, b: seq<seq<Report>>)
    requires SameFound(a, b)
    ensures KeyCount(a) == KeyCount(b) && SuppressedCount(a) == SuppressedCount(b)
    ensures Total(SummaryOf(a)) == Total(SummaryOf(b)) && SummaryOf(a).suppressed == SummaryOf(b).suppressed
    ensures (forall i :: 0 <= i < |a| ==> Consistent(Found(a[i]))) ==> SummaryOf(a) == SummaryOf(b)
  {
    hide Consistent, Keys, SuppressedKeys, Found, Total, Counted;
    SummaryCountsKeys(a);
    SummaryCountsKeys(b);
    if a != [] {
      var n := |a| - 1;
      assert forall i :: 0 <= i < n ==> a[..n][i] == a[i] && b[..n][i] == b[i];
      SummaryOrder(a[..n], b[..n]);
      SameKeys(Found(a[n]), Found(b[n]));
    }
    if forall i :: 0 <= i < |a| ==> Consistent(Found(a[i])) {
      forall i | 0 <= i < |a| ensures Counted(Found(a[i])) == Counted(Found(b[i])) {
        ConsistentCounted(Found(a[i]), Found(b[i]));
      }
      SameSums(a, b);
    }
  }

  /** No order of the reports changes the total or the suppressed counter. */
  lemma TotalsKept(a: seq<seq<Report>>, b: seq<seq<Report>>)
    requires Reordered(a, b)
    ensures Total(SummaryOf(a)) == Total(SummaryOf(b)) && SummaryOf(a).suppressed == SummaryOf(b).suppressed
  {
    hide SummaryOf, Total, Found;
    ReorderedFound(a, b);
    SummaryOrder(a, b);
  }
}
