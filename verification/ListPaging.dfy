/** Cursor pagination of the storage list: one row more than the limit is fetched,
    and the id of the last returned row is the continue token. */
module ListPaging {
  import opened Ordering

  datatype Row<T> = Row(id: int, value: T)

  /** The rows of a table in id order, which every list query asks for. */
  ghost predicate IdOrdered<T(!new)>(rows: seq<Row<T>>) {
    forall i, j :: 0 <= i < j < |rows| ==> rows[i].id < rows[j].id
  }

  predicate After(id: int, cursor: Option<int>) { cursor.Some? ==> id > cursor.value }

  /** The query without its limit: the matching rows past the cursor. `keep` stands
      for the namespace, version, label and field conditions together. */
  function Query<T(!new)>(table: seq<Row<T>>, keep: T -> bool, cursor: Option<int>): seq<Row<T>> {
    if table == [] then []
    else
      var rest := Query(table[1..], keep, cursor);
      if keep(table[0].value) && After(table[0].id, cursor) then [table[0]] + rest else rest
  }

  lemma {:induction false} QueryMembers<T(!new)>(table: seq<Row<T>>, keep: T -> bool, cursor: Option<int>, r: Row<T>)
    ensures r in Query(table, keep, cursor) <==> r in table && keep(r.value) && After(r.id, cursor)
  {
    if table != [] {
      QueryMembers(table[1..], keep, cursor, r);
      assert table == [table[0]] + table[1..];
    }
  }

  datatype Page<T> = Page(rows: seq<Row<T>>, next: Option<int>)

  function PageOf<T(!new)>(table: seq<Row<T>>, keep: T -> bool, cursor: Option<int>, limit: int): Page<T> {
    var rows := Query(table, keep, cursor);
    if 0 < limit < |rows| then Page(rows[..limit], Some(rows[limit - 1].id)) else Page(rows, None)
  }

  // --- The continue token --------------------------------------------------------------

  const MIN_INT64: int := -0x8000_0000_0000_0000
  const MAX_INT64: int := 0x7fff_ffff_ffff_ffff

  predicate IsDigit(c: char) { '0' <= c <= '9' }

  function Digit(d: nat): (c: char)
    requires d < 10
    ensures IsDigit(c) && DigitValue(c) == d
  {
    "0123456789"[d]
  }

  function DigitValue(c: char): (d: nat)
    requires IsDigit(c)
    ensures d < 10
  {
    (c as int) - ('0' as int)
  }

  /** Decimal digits, most significant first. */
  function Digits(n: nat): (s: string)
    ensures |s| > 0 && forall c :: c in s ==> IsDigit(c)
  {
    if n < 10 then [Digit(n)] else Digits(n / 10) + [Digit(n % 10)]
  }

  function FormatInt(n: int): string { if n < 0 then "-" + Digits(-n) else Digits(n) }

  function Natural(s: string): Option<nat> {
    if s == [] then None
    else if !IsDigit(s[|s| - 1]) then None
    else if |s| == 1 then Some(DigitValue(s[0]))
    else
      match Natural(s[..|s| - 1])
      case None => None
      case Some(n) => Some(10 * n + DigitValue(s[|s| - 1]))
  }

  /** Base ten with an optional sign, within 64 bits. */
  function ParseInt(s: string): Option<int> {
    var negative := s != [] && s[0] == '-';
    var digits := if s != [] && (s[0] == '-' || s[0] == '+') then s[1..] else s;
    match Natural(digits)
    case None => None
    case Some(n) =>
      var v := if negative then 0 - n else n as int;
      if MIN_INT64 <= v <= MAX_INT64 then Some(v) else None
  }

  lemma {:induction false} NaturalDigits(n: nat)
    ensures Natural(Digits(n)) == Some(n)
  {
    if n >= 10 {
      NaturalDigits(n / 10);
      var s := Digits(n);
      assert s[..|s| - 1] == Digits(n / 10);
    }
  }

  /** A token reads back as the id it was written from, if and only if the id fits in
      64 bits. */
  lemma TokenRoundTrip(n: int)
    ensures FormatInt(n) != ""
    ensures ParseInt(FormatInt(n)) == if -9223372036854775808 <= n <= 9223372036854775807 then Some(n) else None
  {
    NaturalDigits(if n < 0 then -n else n);
    var s := FormatInt(n);
    if n < 0 {
      assert s[1..] == Digits(-n);
    } else {
      assert IsDigit(s[0]);
    }
  }

  // --- The list ------------------------------------------------------------------------

  datatype ListResult<T> = Listed(items: seq<T>, token: string) | InvalidToken

  function Values<T(!new)>(rows: seq<Row<T>>): (values: seq<T>)
    ensures |values| == |rows| && forall i :: 0 <= i < |rows| ==> values[i] == rows[i].value
  {
    if rows == [] then [] else Values(rows[..|rows| - 1]) + [rows[|rows| - 1].value]
  }

  function TokenOf(next: Option<int>): string { if next.Some? then FormatInt(next.value) else "" }

  /** The loop over the fetched rows. */
  method ScanRows<T(!new)>(fetched: seq<Row<T>>, limit: int) returns (items: seq<T>, next: Option<int>)
    ensures var count := if 0 < limit < |fetched| then limit else |fetched|;
            items == Values(fetched[..count]) && next == if count < |fetched| then Some(fetched[count - 1].id) else None
  {
    items := [];
    var lastId, count, hasMore := 0, 0, false;
    while count < |fetched|
      invariant 0 <= count <= |fetched| && (0 < limit ==> count <= limit)
      invariant items == Values(fetched[..count])
      invariant 0 < count ==> lastId == fetched[count - 1].id
      invariant !hasMore
    {
      if 0 < limit && count == limit {
        hasMore := true;
        break;
      }
      assert fetched[..count + 1][..count] == fetched[..count];
      items := items + [fetched[count].value];
      lastId := fetched[count].id;
      count := count + 1;
    }
    next := if hasMore then Some(lastId) else None;
  }

  /** Fetches at most one row more than the limit and scans them one by one. */
  method List<T(!new)>(table: seq<Row<T>>, keep: T -> bool, token: string, limit: int) returns (result: ListResult<T>)
    ensures token != "" && ParseInt(token) == None ==> result == InvalidToken
    ensures token == "" || ParseInt(token).Some? ==>
              var page := PageOf(table, keep, if token == "" then None else ParseInt(token), limit);
              result == Listed(Values(page.rows), TokenOf(page.next))
  {
    hide Query, ParseInt, FormatInt;
    var cursor: Option<int> := None;
    if token != "" {
      cursor := ParseInt(token);
      if cursor == None { return InvalidToken; }
    }
    var matching := Query(table, keep, cursor);
    var fetched := if 0 < limit && limit + 1 < |matching| then matching[..limit + 1] else matching;
    var items, next := ScanRows(fetched, limit);
    ghost var count := if 0 < limit < |fetched| then limit else |fetched|;
    assert fetched[..count] == PageOf(table, keep, cursor, limit).rows;
    result := Listed(items, if next.Some? then FormatInt(next.value) else "");
  }

  // --- Following the tokens over a fixed table ---------------------------------------------

  lemma {:induction false} QueryOrdered<T(!new)>(table: seq<Row<T>>, keep: T -> bool, cursor: Option<int>)
    requires IdOrdered(table)
    ensures IdOrdered(Query(table, keep, cursor))
  {
    if table != [] {
      var tail := table[1..];
      QueryOrdered(tail, keep, cursor);
      forall r | r in Query(tail, keep, cursor) ensures table[0].id < r.id {
        QueryMembers(tail, keep, cursor, r);
        var i :| 0 <= i < |tail| && tail[i] == r;
        assert tail[i] == table[i + 1];
      }
    }
  }

  /** The query past the last row of a page is the rest of the query. */
  lemma {:induction false} QueryRest<T(!new)>(table: seq<Row<T>>, keep: T -> bool, cursor: Option<int>, n: nat)
    requires IdOrdered(table) && 0 < n <= |Query(table, keep, cursor)|
    ensures Query(table, keep, Some(Query(table, keep, cursor)[n - 1].id)) == Query(table, keep, cursor)[n..]
  {
    var rows := Query(table, keep, cursor);
    var last := rows[n - 1].id;
    var tail := table[1..];
    var rest := Query(tail, keep, cursor);
    QueryMembers(table, keep, cursor, rows[n - 1]);
    assert rows[n - 1] in rows;
    FirstEarlier(table, rows[n - 1]);
    if keep(table[0].value) && After(table[0].id, cursor) {
      if n == 1 {
        AllLater(tail, keep, cursor, last);
      } else {
        QueryRest(tail, keep, cursor, n - 1);
      }
    } else {
      QueryRest(tail, keep, cursor, n);
      assert rows == rest;
    }
  }

  lemma FirstEarlier<T(!new)>(table: seq<Row<T>>, r: Row<T>)
    requires IdOrdered(table) && r in table
    ensures table[0].id <= r.id
  {
  }

  /** Past the cursor and past a smaller id is past the cursor. */
  lemma {:induction false} AllLater<T(!new)>(table: seq<Row<T>>, keep: T -> bool, cursor: Option<int>, last: int)
    requires forall r :: r in table ==> r.id > last
    requires After(last, cursor)
    ensures Query(table, keep, Some(last)) == Query(table, keep, cursor)
  {
    if table != [] {
      assert forall r :: r in table[1..] ==> r in table;
      AllLater(table[1..], keep, cursor, last);
      assert table[0] in table;
    }
  }

  /** The pages a client gets by following the tokens. */
  ghost function Walk<T(!new)>(table: seq<Row<T>>, keep: T -> bool, cursor: Option<int>, limit: int): seq<seq<Row<T>>>
    requires limit > 0 && IdOrdered(table)
    decreases |Query(table, keep, cursor)|
  {
    var p := PageOf(table, keep, cursor, limit);
    if p.next == None then [p.rows]
    else
      QueryRest(table, keep, cursor, limit);
      [p.rows] + Walk(table, keep, p.next, limit)
  }

  function Concat<T>(pages: seq<seq<T>>): seq<T> { if pages == [] then [] else pages[0] + Concat(pages[1..]) }

  /** On a fixed table the pages make up the whole filtered list, every page but the
      last is full, and no page is empty unless nothing matches. */
  lemma {:induction false} WalkIsQuery<T(!new)>(table: seq<Row<T>>, keep: T -> bool, cursor: Option<int>, limit: int)
    requires limit > 0 && IdOrdered(table)
    ensures var pages := Walk(table, keep, cursor, limit);
            && Concat(pages) == Query(table, keep, cursor)
            && |pages| > 0 && (forall i :: 0 <= i < |pages| - 1 ==> |pages[i]| == limit)
            && |pages[|pages| - 1]| <= limit
            && (Query(table, keep, cursor) != [] ==> pages[|pages| - 1] != [])
    decreases |Query(table, keep, cursor)|
  {
    hide Query;
    var rows := Query(table, keep, cursor);
    var p := PageOf(table, keep, cursor, limit);
    if p.next.Some? {
      QueryRest(table, keep, cursor, limit);
      WalkIsQuery(table, keep, p.next, limit);
      var rest := Walk(table, keep, p.next, limit);
      assert ([p.rows] + rest)[1..] == rest;
      assert rows == rows[..limit] + rows[limit..];
    } else {
      assert [p.rows][1..] == [];
    }
  }

  /** What one more page does to the part of the list already read. */
  lemma NextPage<T(!new)>(table: seq<Row<T>>, keep: T -> bool, cursor: Option<int>, limit: int, all: seq<Row<T>>,
                          done: nat)
    requires limit > 0 && IdOrdered(table) && done <= |all| && Query(table, keep, cursor) == all[done..]
    ensures var p := PageOf(table, keep, cursor, limit);
            && done + |p.rows| <= |all| && all[..done] + p.rows == all[..done + |p.rows|]
            && (p.next == None ==> done + |p.rows| == |all|)
            && (p.next.Some? ==> |p.rows| == limit && p.rows[limit - 1] in table && p.next == Some(p.rows[limit - 1].id)
                                 && Query(table, keep, p.next) == all[done + limit..])
  {
    hide Query;
    var p := PageOf(table, keep, cursor, limit);
    if p.next.Some? {
      QueryRest(table, keep, cursor, limit);
      var last := p.rows[limit - 1];
      assert last in all[done..];
      QueryMembers(table, keep, cursor, last);
      assert all[done..][limit..] == all[done + limit..];
    } else {
      assert all[..done] + all[done..] == all;
      assert all[..|all|] == all;
    }
  }

  /** A client that asks for the next page until there is no token. */
  method FollowTokens<T(!new)>(table: seq<Row<T>>, keep: T -> bool, limit: int) returns (items: seq<T>)
    requires limit > 0 && IdOrdered(table)
    requires forall r :: r in table ==> MIN_INT64 <= r.id <= MAX_INT64
    ensures items == Values(Query(table, keep, None))
  {
    hide Query, PageOf, ParseInt, FormatInt, IdOrdered;
    items := [];
    ghost var cursor: Option<int> := None;
    ghost var all := Query(table, keep, None);
    ghost var done := 0;
    var token, more := "", true;
    assert all[0..] == all && all[..0] == [];
    while more
      invariant 0 <= done <= |all|
      invariant more ==> (token == "" <==> cursor == None) && (cursor.Some? ==> ParseInt(token) == cursor)
      invariant more ==> Query(table, keep, cursor) == all[done..]
      invariant !more ==> done == |all|
      invariant items == Values(all[..done])
      decreases more, |all| - done
    {
      var page := List(table, keep, token, limit);
      ghost var p := PageOf(table, keep, cursor, limit);
      assert page == Listed(Values(p.rows), TokenOf(p.next));
      NextPage(table, keep, cursor, limit, all, done);
      ValuesConcat(all[..done], p.rows);
      items := items + page.items;
      token := page.token;
      if p.next.Some? { TokenRoundTrip(p.next.value); }
      done := done + |p.rows|;
      cursor := p.next;
      more := token != "";
    }
    assert all[..done] == all;
  }

  lemma ValuesConcat<T(!new)>(a: seq<Row<T>>, b: seq<Row<T>>)
    ensures Values(a + b) == Values(a) + Values(b)
  {
  }

  // --- Following the tokens while the table changes --------------------------------------------

  /** The rows a client gets when each page is read from the table as it then is,
      and whether it reached the end. */
  ghost function Visit<T(!new)>(tables: seq<seq<Row<T>>>, keep: T -> bool, cursor: Option<int>, limit: int)
    : (seq<Row<T>>, bool)
  {
    if tables == [] then ([], false)
    else
      var p := PageOf(tables[0], keep, cursor, limit);
      if p.next == None then (p.rows, true)
      else
        var rest := Visit(tables[1..], keep, p.next, limit);
        (p.rows + rest.0, rest.1)
  }

  /** Whatever is inserted, updated or deleted between the pages, ids increase
      strictly, so no row is returned twice. */
  lemma {:induction false} VisitOrdered<T(!new)>(tables: seq<seq<Row<T>>>, keep: T -> bool, cursor: Option<int>,
                                                 limit: int)
    requires forall t :: t in tables ==> IdOrdered(t)
    ensures IdOrdered(Visit(tables, keep, cursor, limit).0)
    ensures forall r :: r in Visit(tables, keep, cursor, limit).0 ==> After(r.id, cursor)
  {
    hide Query;
    if tables != [] {
      assert tables[0] in tables;
      QueryOrdered(tables[0], keep, cursor);
      forall r | r in Query(tables[0], keep, cursor) ensures After(r.id, cursor) {
        QueryMembers(tables[0], keep, cursor, r);
      }
      var p := PageOf(tables[0], keep, cursor, limit);
      if p.next.Some? {
        assert forall t :: t in tables[1..] ==> t in tables;
        VisitOrdered(tables[1..], keep, p.next, limit);
        var rest := Visit(tables[1..], keep, p.next, limit).0;
        assert p.rows[|p.rows| - 1] in Query(tables[0], keep, cursor);
        forall i | 0 <= i < |rest| ensures p.next.value < rest[i].id { assert rest[i] in rest; }
        assert forall i :: 0 <= i < |p.rows| ==> p.rows[i].id <= p.next.value;
      }
    }
  }

  ghost predicate Holds<T(!new)>(table: seq<Row<T>>, keep: T -> bool, id: int) {
    exists r :: r in table && r.id == id && keep(r.value)
  }

  /** A row that is there and matches throughout is among the rows returned. */
  lemma {:induction false} VisitComplete<T(!new)>(tables: seq<seq<Row<T>>>, keep: T -> bool, cursor: Option<int>,
                                                  limit: int, id: int)
    requires forall t :: t in tables ==> IdOrdered(t) && Holds(t, keep, id)
    requires After(id, cursor) && Visit(tables, keep, cursor, limit).1
    ensures exists r :: r in Visit(tables, keep, cursor, limit).0 && r.id == id
  {
    assert tables[0] in tables;
    QueryOrdered(tables[0], keep, cursor);
    var rows := Query(tables[0], keep, cursor);
    var p := PageOf(tables[0], keep, cursor, limit);
    var r :| r in tables[0] && r.id == id && keep(r.value);
    QueryMembers(tables[0], keep, cursor, r);
    var i :| 0 <= i < |rows| && rows[i] == r;
    if p.next.Some? {
      var rest := Visit(tables[1..], keep, p.next, limit).0;
      if i < limit {
        assert p.rows[i] == r && r in p.rows + rest;
      } else {
        assert forall t :: t in tables[1..] ==> t in tables;
        VisitComplete(tables[1..], keep, p.next, limit, id);
        var q :| q in rest && q.id == id;
        assert q in p.rows + rest;
      }
    }
  }

  /** The rows of the page read at time `k`. */
  ghost function PageAt<T(!new)>(tables: seq<seq<Row<T>>>, keep: T -> bool, cursor: Option<int>, limit: int, k: nat)
    : seq<Row<T>>
  {
    if tables == [] then []
    else
      var p := PageOf(tables[0], keep, cursor, limit);
      if k == 0 then p.rows
      else if p.next == None then []
      else PageAt(tables[1..], keep, p.next, limit, k - 1)
  }

  /** Every returned row stood in the table its page was read from, as returned. */
  lemma {:induction false} VisitFrom<T(!new)>(tables: seq<seq<Row<T>>>, keep: T -> bool, cursor: Option<int>,
                                              limit: int,
                                              r: Row<T>) returns (k: nat)
    requires r in Visit(tables, keep, cursor, limit).0
    ensures k < |tables| && r in PageAt(tables, keep, cursor, limit, k) && r in tables[k] && keep(r.value)
  {
    hide Query;
    var p := PageOf(tables[0], keep, cursor, limit);
    if r in p.rows {
      k := 0;
      QueryMembers(tables[0], keep, cursor, r);
    } else {
      var later := VisitFrom(tables[1..], keep, p.next, limit, r);
      k := later + 1;
    }
  }

  /** Exactly once, with the value it had when its page was read. */
  lemma ReturnedOnce<T(!new)>(tables: seq<seq<Row<T>>>, keep: T -> bool, limit: int, id: int) returns (i: nat, k: nat)
    requires forall t :: t in tables ==> IdOrdered(t) && Holds(t, keep, id)
    requires Visit(tables, keep, None, limit).1
    ensures var rows := Visit(tables, keep, None, limit).0;
            && IdOrdered(rows) && i < |rows| && rows[i].id == id
            && (forall j :: 0 <= j < |rows| && rows[j].id == id ==> j == i)
            && k < |tables| && rows[i] in PageAt(tables, keep, None, limit, k) && rows[i] in tables[k]
  {
    VisitOrdered(tables, keep, None, limit);
    VisitComplete(tables, keep, None, limit, id);
    var rows := Visit(tables, keep, None, limit).0;
    hide Visit, PageAt, Holds;
    var r :| r in rows && r.id == id;
    i :| 0 <= i < |rows| && rows[i] == r;
    k := VisitFrom(tables, keep, None, limit, r);
  }
}
