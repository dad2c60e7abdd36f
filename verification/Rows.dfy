/** Metric rows, the columns they carry, and the UTC day that names their archive file. */
module Rows {

  /** Nanoseconds in a UTC day. */
  const DAY: int := 86_400_000_000_000

  datatype Cell = Null | Val(v: int)

  /** A row of a metric table: its timestamp and its other columns by name. */
  datatype Row = Row(ts: int, cells: map<string, Cell>)

  function DayOf(ts: int): int { ts / DAY }

  lemma DayBounds(ts: int)
    ensures DayOf(ts) * DAY <= ts < (DayOf(ts) + 1) * DAY
    ensures forall d :: d * DAY <= ts < (d + 1) * DAY ==> d == DayOf(ts)
  {
  }

  /** Matching by name: the row with exactly the columns `cols`, NULL for a column it
      was written without. */
  function Widen(cols: set<string>, r: Row): Row {
    Row(r.ts, map c | c in cols :: if c in r.cells then r.cells[c] else Null)
  }

  /** `r` is `q` read in a table with columns `cols`: what q was written with is there unchanged,
      and all other columns are NULL. */
  predicate ReadsAs(q: Row, cols: set<string>, r: Row) {
    && r.ts == q.ts && r.cells.Keys == cols
    && (forall c :: c in cols && c in q.cells ==> r.cells[c] == q.cells[c])
    && (forall c :: c in cols && c !in q.cells ==> r.cells[c] == Null)
  }

  lemma WidenReads(cols: set<string>, q: Row, r: Row)
    ensures ReadsAs(q, cols, r) <==> r == Widen(cols, q)
  {
    var w := Widen(cols, q);
    if ReadsAs(q, cols, r) {
      forall c | c in cols ensures r.cells[c] == w.cells[c] { }
      assert r.cells == w.cells;
    }
  }

  function WidenAll(cols: set<string>, s: seq<Row>): (w: seq<Row>)
    ensures |w| == |s|
  {
    if s == [] then [] else [Widen(cols, s[0])] + WidenAll(cols, s[1..])
  }

  function Between(s: seq<Row>, lo: int, hi: int): seq<Row> {
    if s == [] then []
    else (if lo <= s[0].ts < hi then [s[0]] else []) + Between(s[1..], lo, hi)
  }

  function Outside(s: seq<Row>, lo: int, hi: int): seq<Row> {
    if s == [] then []
    else (if lo <= s[0].ts < hi then [] else [s[0]]) + Outside(s[1..], lo, hi)
  }

  function DayRows(s: seq<Row>, d: int): seq<Row> {
    if s == [] then []
    else (if DayOf(s[0].ts) == d then [s[0]] else []) + DayRows(s[1..], d)
  }

  ghost predicate Columns(s: seq<Row>, cols: set<string>) {
    forall r :: r in s ==> r.cells.Keys == cols
  }

  ghost predicate ColumnsWithin(s: seq<Row>, cols: set<string>) {
    forall r :: r in s ==> r.cells.Keys <= cols
  }

  lemma {:induction false} BetweenMember(s: seq<Row>, lo: int, hi: int, r: Row)
    ensures r in Between(s, lo, hi) <==> r in s && lo <= r.ts < hi
  {
    if s != [] { BetweenMember(s[1..], lo, hi, r); }
  }

  lemma {:induction false} OutsideMember(s: seq<Row>, lo: int, hi: int, r: Row)
    ensures r in Outside(s, lo, hi) <==> r in s && !(lo <= r.ts < hi)
  {
    if s != [] { OutsideMember(s[1..], lo, hi, r); }
  }

  lemma {:induction false} DayMember(s: seq<Row>, d: int, r: Row)
    ensures r in DayRows(s, d) <==> r in s && DayOf(r.ts) == d
  {
    if s != [] { DayMember(s[1..], d, r); }
  }

  lemma {:induction false} WidenMember(cols: set<string>, s: seq<Row>, r: Row)
    ensures r in WidenAll(cols, s) ==> exists q :: q in s && r == Widen(cols, q)
    ensures r in s ==> Widen(cols, r) in WidenAll(cols, s)
  {
    if s != [] {
      WidenMember(cols, s[1..], r);
      if r in WidenAll(cols, s[1..]) {
        var q :| q in s[1..] && r == Widen(cols, q);
        assert q in s;
      }
    }
  }

  lemma {:induction false} WidenAt(cols: set<string>, s: seq<Row>, i: nat)
    requires i < |s|
    ensures WidenAll(cols, s)[i] == Widen(cols, s[i])
  {
    if i > 0 { WidenAt(cols, s[1..], i - 1); }
  }

  /** `rows` are the rows of `s`, one by one, read in a table with columns `cols`. */
  ghost predicate ReadAllAs(s: seq<Row>, cols: set<string>, rows: seq<Row>) {
    |rows| == |s| && forall i :: 0 <= i < |s| ==> ReadsAs(s[i], cols, rows[i])
  }

  lemma WidenAllReads(cols: set<string>, s: seq<Row>)
    ensures ReadAllAs(s, cols, WidenAll(cols, s))
  {
    forall i | 0 <= i < |s| ensures ReadsAs(s[i], cols, WidenAll(cols, s)[i]) { WidenAt(cols, s, i); }
  }

  lemma {:induction false} DayAppend(a: seq<Row>, b: seq<Row>, d: int)
    ensures DayRows(a + b, d) == DayRows(a, d) + DayRows(b, d)
  {
    if a == [] {
      assert a + b == b;
    } else {
      assert (a + b)[1..] == a[1..] + b && (a + b)[0] == a[0];
      DayAppend(a[1..], b, d);
      var h := if DayOf(a[0].ts) == d then [a[0]] else [];
      assert h + (DayRows(a[1..], d) + DayRows(b, d)) == (h + DayRows(a[1..], d)) + DayRows(b, d);
    }
  }

  lemma {:induction false} WidenAppend(cols: set<string>, a: seq<Row>, b: seq<Row>)
    ensures WidenAll(cols, a + b) == WidenAll(cols, a) + WidenAll(cols, b)
  {
    if a == [] {
      assert a + b == b;
    } else {
      assert (a + b)[1..] == a[1..] + b;
      WidenAppend(cols, a[1..], b);
    }
  }

  /** Rows that already have the columns stay as they are. */
  lemma {:induction false} WidenSame(cols: set<string>, s: seq<Row>)
    requires Columns(s, cols)
    ensures WidenAll(cols, s) == s
  {
    if s != [] {
      assert s[0] in s;
      assert Widen(cols, s[0]).cells == s[0].cells;
      forall r | r in s[1..] ensures r in s { }
      WidenSame(cols, s[1..]);
    }
  }

  /** Reading by name in two steps is reading by name once. */
  lemma {:induction false} WidenTwice(cols: set<string>, more: set<string>, s: seq<Row>)
    requires ColumnsWithin(s, cols) && cols <= more
    ensures WidenAll(more, WidenAll(cols, s)) == WidenAll(more, s)
  {
    if s != [] {
      assert s[0] in s;
      assert Widen(more, Widen(cols, s[0])) == Widen(more, s[0]);
      forall r | r in s[1..] ensures r in s { }
      WidenTwice(cols, more, s[1..]);
    }
  }

  lemma {:induction false} WidenColumns(cols: set<string>, s: seq<Row>)
    ensures Columns(WidenAll(cols, s), cols)
  {
    if s != [] { WidenColumns(cols, s[1..]); }
  }

  lemma {:induction false} DayOfWidened(cols: set<string>, s: seq<Row>, d: int)
    ensures DayRows(WidenAll(cols, s), d) == WidenAll(cols, DayRows(s, d))
  {
    if s != [] {
      DayOfWidened(cols, s[1..], d);
      WidenAppend(cols, if DayOf(s[0].ts) == d then [s[0]] else [], DayRows(s[1..], d));
    }
  }

  /** A day's rows, all of one day or of none. */
  lemma {:induction false} DayOfOneDay(s: seq<Row>, day: int, d: int)
    requires forall r :: r in s ==> DayOf(r.ts) == day
    ensures DayRows(s, d) == if d == day then s else []
  {
    if s != [] {
      assert s[0] in s;
      forall r | r in s[1..] ensures r in s { }
      DayOfOneDay(s[1..], day, d);
    }
  }

  lemma {:induction false} RangeSplit(s: seq<Row>, lo: int, hi: int)
    ensures multiset(s) == multiset(Outside(s, lo, hi)) + multiset(Between(s, lo, hi))
  {
    if s != [] {
      assert s == [s[0]] + s[1..];
      RangeSplit(s[1..], lo, hi);
    }
  }

  lemma {:induction false} RangeOfDay(s: seq<Row>, lo: int, hi: int, d: int)
    ensures DayRows(Outside(s, lo, hi), d) == Outside(DayRows(s, d), lo, hi)
    ensures DayRows(Between(s, lo, hi), d) == Between(DayRows(s, d), lo, hi)
  {
    if s != [] {
      RangeOfDay(s[1..], lo, hi, d);
      var b, o, y := Between(s[1..], lo, hi), Outside(s[1..], lo, hi), DayRows(s[1..], d);
      assert ([s[0]] + b)[1..] == b && ([s[0]] + o)[1..] == o && ([s[0]] + y)[1..] == y;
      assert [] + b == b && [] + o == o && [] + y == y;
    }
  }

  /** Cutting a time range out of a table splits each day's rows, losing none. */
  lemma DaySplit(s: seq<Row>, lo: int, hi: int, d: int)
    ensures multiset(DayRows(s, d)) ==
            multiset(DayRows(Outside(s, lo, hi), d)) + multiset(DayRows(Between(s, lo, hi), d))
  {
    RangeOfDay(s, lo, hi, d);
    RangeSplit(DayRows(s, d), lo, hi);
  }

  lemma {:induction false} WidenRemove(cols: set<string>, b: seq<Row>, i: nat)
    requires i < |b|
    ensures multiset(WidenAll(cols, b)) ==
            multiset(WidenAll(cols, b[..i] + b[i + 1..])) + multiset{Widen(cols, b[i])}
  {
    assert b == b[..i] + ([b[i]] + b[i + 1..]);
    WidenAppend(cols, b[..i], [b[i]] + b[i + 1..]);
    WidenAppend(cols, b[..i], b[i + 1..]);
    assert ([b[i]] + b[i + 1..])[1..] == b[i + 1..];
  }

  /** Widening respects multiplicities. */
  lemma {:induction false} WidenMonotone(cols: set<string>, a: seq<Row>, b: seq<Row>)
    requires multiset(a) <= multiset(b)
    ensures multiset(WidenAll(cols, a)) <= multiset(WidenAll(cols, b))
    decreases |a|
  {
    if a != [] {
      var i := RemoveHead(a, b);
      WidenMonotone(cols, a[1..], b[..i] + b[i + 1..]);
      WidenRemove(cols, b, i);
    }
  }

  lemma RemoveHead(a: seq<Row>, b: seq<Row>) returns (i: nat)
    requires a != [] && multiset(a) <= multiset(b)
    ensures i < |b| && b[i] == a[0]
    ensures multiset(a[1..]) <= multiset(b[..i] + b[i + 1..])
  {
    assert a[0] in multiset(a);
    assert a[0] in multiset(b);
    i :| 0 <= i < |b| && b[i] == a[0];
    var b' := b[..i] + b[i + 1..];
    assert b == b[..i] + [b[i]] + b[i + 1..];
    assert a == [a[0]] + a[1..];
    assert multiset(b) - multiset{a[0]} == multiset(b');
    assert multiset(a) - multiset{a[0]} == multiset(a[1..]);
  }

  /** Tables that hold the same rows day by day hold the same rows. */
  lemma SameDaysSameRows(a: seq<Row>, b: seq<Row>)
    requires forall d :: multiset(DayRows(a, d)) == multiset(DayRows(b, d))
    ensures multiset(a) == multiset(b)
  {
    forall r: Row ensures multiset(a)[r] == multiset(b)[r] {
      CountInDay(a, r);
      CountInDay(b, r);
      assert multiset(DayRows(a, DayOf(r.ts))) == multiset(DayRows(b, DayOf(r.ts)));
    }
  }

  lemma {:induction false} CountInDay(s: seq<Row>, r: Row)
    ensures multiset(DayRows(s, DayOf(r.ts)))[r] == multiset(s)[r]
  {
    if s != [] {
      CountInDay(s[1..], r);
      assert s == [s[0]] + s[1..];
      DayAppend([s[0]], s[1..], DayOf(r.ts));
    }
  }
}
