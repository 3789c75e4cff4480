/** Byte-wise string order, sorting by a string key, and strictly sorted lists.

    A strictly sorted list is determined by its elements. Every claim in this
    project that a result does not depend on the iteration order of a set or a
    map rests on that fact.
 */
module Ordering {

  datatype Option<+T> = None | Some(value: T)

  /** The order of `strings.Compare`: lexicographic, character by character. */
  predicate Less(a: string, b: string) {
    |b| > 0 && (|a| == 0 || a[0] < b[0] || (a[0] == b[0] && Less(a[1..], b[1..])))
  }

  lemma {:induction false} LessIsStrict(a: string, b: string)
    ensures !(Less(a, b) && Less(b, a))
    ensures !Less(a, a)
  {
    if |a| > 0 {
      LessIsStrict(a[1..], if |b| > 0 then b[1..] else b);
    }
  }

  lemma {:induction false} LessIsTransitive(a: string, b: string, c: string)
    requires Less(a, b) && Less(b, c)
    ensures Less(a, c)
  {
    if |a| > 0 && a[0] == b[0] == c[0] {
      LessIsTransitive(a[1..], b[1..], c[1..]);
    }
  }

  lemma {:induction false} LessIsTotal(a: string, b: string)
    ensures a == b || Less(a, b) || Less(b, a)
  {
    if |a| > 0 && |b| > 0 && a[0] == b[0] {
      LessIsTotal(a[1..], b[1..]);
      assert a == [a[0]] + a[1..] && b == [b[0]] + b[1..];
    }
  }

  /** A text longer than every one in a set. */
  lemma {:induction false} LongerText(texts: set<string>) returns (novel: string)
    ensures forall t :: t in texts ==> |t| < |novel|
  {
    if texts == {} {
      novel := "";
    } else {
      var t :| t in texts;
      var longer := LongerText(texts - {t});
      novel := longer + t + "x";
      forall u | u in texts ensures |u| < |novel| {
        if u != t { assert u in texts - {t}; }
      }
    }
  }

  /** Strictly increasing by `key`, hence without two elements of equal key. */
  ghost predicate StrictlySorted<T(!new)>(key: T -> string, s: seq<T>) {
    forall i, j :: 0 <= i < j < |s| ==> Less(key(s[i]), key(s[j]))
  }

  ghost predicate DistinctKeys<T(!new)>(key: T -> string, s: seq<T>) {
    forall i, j :: 0 <= i < j < |s| ==> key(s[i]) != key(s[j])
  }

  lemma SortedIsDistinct<T(!new)>(key: T -> string, s: seq<T>)
    requires StrictlySorted(key, s)
    ensures DistinctKeys(key, s)
  {
    forall i, j | 0 <= i < j < |s| ensures key(s[i]) != key(s[j]) {
      LessIsStrict(key(s[i]), key(s[j]));
    }
  }

  /** Two strictly sorted lists with the same elements are the same list. */
  lemma {:induction false} SortedListUnique<T(!new)>(key: T -> string, s: seq<T>, t: seq<T>)
    requires StrictlySorted(key, s) && StrictlySorted(key, t)
    requires forall x :: x in s <==> x in t
    ensures s == t
    decreases |s|
  {
    assert t == [] || t[0] in s;
    if s != [] {
      assert s[0] in t;
      SameHead(key, s, t);
      TailsAgree(key, s, t);
      TailsAgree(key, t, s);
      SortedListUnique(key, s[1..], t[1..]);
      assert s == [s[0]] + s[1..] && t == [t[0]] + t[1..];
    }
  }

  lemma SameHead<T(!new)>(key: T -> string, s: seq<T>, t: seq<T>)
    requires StrictlySorted(key, s) && StrictlySorted(key, t)
    requires |s| > 0 && |t| > 0 && s[0] in t && t[0] in s
    ensures s[0] == t[0]
  {
    var i :| 0 <= i < |t| && t[i] == s[0];
    var j :| 0 <= j < |s| && s[j] == t[0];
    LessIsStrict(key(s[0]), key(t[0]));
  }

  lemma TailsAgree<T(!new)>(key: T -> string, s: seq<T>, t: seq<T>)
    requires StrictlySorted(key, s) && |s| > 0 && |t| > 0 && s[0] == t[0]
    requires forall x :: x in s ==> x in t
    ensures forall x :: x in s[1..] ==> x in t[1..]
  {
    forall x | x in s[1..] ensures x in t[1..] {
      var i :| 1 <= i < |s| && s[i] == x;
      LessIsStrict(key(s[0]), key(s[i]));
      assert x in t && x != t[0];
    }
  }

  /** Insertion into a list sorted by `key`. */
  function Insert<T>(key: T -> string, x: T, s: seq<T>): (r: seq<T>)
    ensures multiset(r) == multiset(s) + multiset{x}
  {
    if s == [] || Less(key(x), key(s[0])) then [x] + s
    else
      assert s == [s[0]] + s[1..];
      [s[0]] + Insert(key, x, s[1..])
  }

  /** A list sorted by `key`. The program's sort routines are unstable; every use
      here is on lists whose keys are distinct, where the result is unique. */
  function SortBy<T>(key: T -> string, s: seq<T>): (r: seq<T>)
    ensures multiset(r) == multiset(s)
  {
    if s == [] then []
    else
      assert s == [s[0]] + s[1..];
      Insert(key, s[0], SortBy(key, s[1..]))
  }

  lemma SameElements<T>(s: seq<T>, t: seq<T>)
    requires multiset(s) == multiset(t)
    ensures |s| == |t|
    ensures forall x :: x in s <==> x in t
  {
    assert |s| == |multiset(s)| && |t| == |multiset(t)|;
    forall x ensures x in s <==> x in t {
      assert x in s <==> x in multiset(s);
      assert x in t <==> x in multiset(t);
    }
  }

  lemma {:induction false} InsertSorted<T(!new)>(key: T -> string, x: T, s: seq<T>)
    requires StrictlySorted(key, s)
    requires forall y :: y in s ==> key(y) != key(x)
    ensures StrictlySorted(key, Insert(key, x, s))
  {
    var r := Insert(key, x, s);
    if s == [] {
    } else if Less(key(x), key(s[0])) {
      forall i, j | 0 <= i < j < |r| ensures Less(key(r[i]), key(r[j])) {
        if i == 0 && j > 1 { LessIsTransitive(key(x), key(s[0]), key(s[j - 1])); }
      }
    } else {
      LessIsTotal(key(x), key(s[0]));
      assert s[0] in s;
      InsertSorted(key, x, s[1..]);
      var rest := Insert(key, x, s[1..]);
      SameElements(rest, s[1..] + [x]);
      forall i, j | 0 <= i < j < |r| ensures Less(key(r[i]), key(r[j])) {
        if i == 0 {
          assert r[j] == rest[j - 1] && r[j] in s[1..] + [x];
        }
      }
    }
  }

  /** Sorting a list of distinct keys yields the strictly sorted list of its elements. */
  lemma {:induction false} SortBySorts<T(!new)>(key: T -> string, s: seq<T>)
    requires DistinctKeys(key, s)
    ensures StrictlySorted(key, SortBy(key, s))
    ensures |SortBy(key, s)| == |s|
    ensures forall x :: x in SortBy(key, s) <==> x in s
  {
    SameElements(SortBy(key, s), s);
    if s != [] {
      SortBySorts(key, s[1..]);
      forall y | y in SortBy(key, s[1..]) ensures key(y) != key(s[0]) {
        assert y in s[1..];
        var j :| 1 <= j < |s| && s[j] == y;
      }
      InsertSorted(key, s[0], SortBy(key, s[1..]));
    }
  }

  /** The strictly sorted list of a set of strings: `sort.Strings` over
      `UnsortedList`, whatever order the list came in. */
  method SortedList(s: set<string>) returns (r: seq<string>)
    ensures StrictlySorted(Self, r)
    ensures forall x :: x in r <==> x in s
    ensures |r| == |s|
  {
    var todo := s;
    var unsorted: seq<string> := [];
    while todo != {}
      invariant todo <= s
      invariant forall x :: x in unsorted <==> x in s - todo
      invariant DistinctKeys(Self, unsorted)
      invariant |unsorted| + |todo| == |s|
      decreases todo
    {
      var x :| x in todo;
      unsorted := unsorted + [x];
      todo := todo - {x};
    }
    SortBySorts(Self, unsorted);
    r := SortBy(Self, unsorted);
  }

  function Self(s: string): string { s }

  /** Text before a separator character: `a + sep + b` splits in one way only
      when neither head holds the separator. */
  lemma SplitUnique(sep: char, a: string, b: string, c: string, d: string)
    requires sep !in a && sep !in c
    requires a + [sep] + b == c + [sep] + d
    ensures a == c && b == d
  {
    var l := a + [sep] + b;
    var r := c + [sep] + d;
    assert l[|a|] == sep && forall k :: 0 <= k < |a| ==> l[k] == a[k] && a[k] != sep;
    assert r[|c|] == sep && forall k :: 0 <= k < |c| ==> r[k] == c[k] && c[k] != sep;
    assert |a| == |c|;
    assert l[..|a|] == a && r[..|a|] == c;
    assert l[|a| + 1..] == b && r[|a| + 1..] == d;
  }
}
