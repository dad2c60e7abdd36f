/** Making alert rule names unique, so that the unique index on them can be created. */
module RuleNames {
  import opened Basics

  datatype Rule = Rule(id: int, name: string)

  // ---- Suffixes

  function Digit(d: nat): char
    requires d < 10
  {
    "0123456789"[d]
  }

  /** Decimal rendering. */
  function Decimal(n: nat): (s: string)
    ensures s != [] && forall c :: c in s ==> '0' <= c <= '9'
  {
    if n < 10 then [Digit(n)] else Decimal(n / 10) + [Digit(n % 10)]
  }

  lemma DecimalLength(n: nat)
    ensures |Decimal(n)| == 1 <==> n < 10
  {
  }

  lemma {:induction false} DecimalInjective(m: nat, n: nat)
    requires Decimal(m) == Decimal(n)
    ensures m == n
    decreases m
  {
    var a, b := Decimal(m), Decimal(n);
    assert a[|a| - 1] == Digit(m % 10) && b[|b| - 1] == Digit(n % 10);
    DecimalLength(m);
    DecimalLength(n);
    if m >= 10 {
      assert a[..|a| - 1] == Decimal(m / 10) && b[..|b| - 1] == Decimal(n / 10);
      DecimalInjective(m / 10, n / 10);
    }
  }

  /** The number a string of digits stands for. */
  function Value(s: string): int {
    if s == [] then 0 else 10 * Value(s[..|s| - 1]) + (s[|s| - 1] as int - '0' as int)
  }

  /** The rendering stands for the number, and does not start with a needless zero. */
  lemma {:induction false} DecimalValue(n: nat)
    ensures Value(Decimal(n)) == n && (n > 0 ==> Decimal(n)[0] != '0')
    decreases n
  {
    var s := Decimal(n);
    if n >= 10 { DecimalValue(n / 10); }
    assert s[..|s| - 1] == if n < 10 then [] else Decimal(n / 10);
  }

  function Candidate(name: string, n: nat): string { name + " #" + Decimal(n) }

  /** A candidate name tells its base name and its number. */
  lemma CandidateInjective(x: string, m: nat, y: string, n: nat)
    requires Candidate(x, m) == Candidate(y, n)
    ensures x == y && m == n
  {
    var a, b, dm, dn := Candidate(x, m), Candidate(y, n), Decimal(m), Decimal(n);
    var i, j := |x| + 1, |y| + 1;
    assert a[i] == '#' && b[j] == '#';
    forall k | i < k < |a| ensures a[k] != '#' { assert a[k] == dm[k - i - 1] && a[k] in dm; }
    forall k | j < k < |b| ensures b[k] != '#' { assert b[k] == dn[k - j - 1] && b[k] in dn; }
    assert i == j;
    assert x == a[..|x|] && y == b[..|x|];
    assert dm == a[|x| + 2..] && dn == b[|x| + 2..];
    DecimalInjective(m, n);
  }

  ghost predicate IsCandidate(c: string, name: string, n: nat) {
    exists m: nat :: m >= n && c == Candidate(name, m)
  }

  /** The taken names that are candidates from `n` on. */
  ghost function Taken(seen: set<string>, name: string, n: nat): set<string> {
    set c | c in seen && IsCandidate(c, name, n)
  }

  lemma TakenShrinks(seen: set<string>, name: string, n: nat)
    requires Candidate(name, n) in seen
    ensures |Taken(seen, name, n + 1)| < |Taken(seen, name, n)|
  {
    var a, b, c := Taken(seen, name, n + 1), Taken(seen, name, n), Candidate(name, n);
    if c in a {
      var m: nat :| m >= n + 1 && c == Candidate(name, m);
      CandidateInjective(name, n, name, m);
    }
    assert IsCandidate(c, name, n);
    forall x | x in a ensures x in b - {c} {
      var m: nat :| m >= n + 1 && x == Candidate(name, m);
      assert IsCandidate(x, name, n);
    }
    SubsetSize(a, b - {c});
  }

  lemma {:induction false} SubsetSize(a: set<string>, b: set<string>)
    requires forall x :: x in a ==> x in b
    ensures |a| <= |b|
    decreases |a|
  {
    if a != {} {
      var x :| x in a;
      SubsetSize(a - {x}, b - {x});
    }
  }

  /** The least free number from `n` on.  It exists because finitely many names are taken. */
  ghost function FreeNumber(seen: set<string>, name: string, n: nat): (r: nat)
    ensures r >= n && Candidate(name, r) !in seen
    ensures forall m: nat :: n <= m < r ==> Candidate(name, m) in seen
    ensures r <= n + |Taken(seen, name, n)|
    decreases |Taken(seen, name, n)|
  {
    if Candidate(name, n) !in seen then n
    else
      TakenShrinks(seen, name, n);
      FreeNumber(seen, name, n + 1)
  }

  /** The search takes at most as many tries as there are taken names. */
  lemma SearchBound(seen: set<string>, name: string)
    requires name in seen
    ensures FreeNumber(seen, name, 2) <= |seen| + 1
  {
    var t := Taken(seen, name, 2);
    forall x | x in t ensures x in seen - {name} {
      var m: nat :| m >= 2 && x == Candidate(name, m);
      assert |x| > |name|;
    }
    SubsetSize(t, seen - {name});
  }

  // ---- The assignment of names

  function NamesIn(s: seq<string>): set<string> { set n | n in s }

  ghost function NameFor(seen: set<string>, name: string): string {
    if name !in seen then name else Candidate(name, FreeNumber(seen, name, 2))
  }

  /** The names given to rows, in order. */
  ghost function Assigned(rows: seq<Rule>): (names: seq<string>)
    ensures |names| == |rows|
  {
    if rows == [] then []
    else
      var before := Assigned(rows[..|rows| - 1]);
      before + [NameFor(NamesIn(before), rows[|rows| - 1].name)]
  }

  lemma {:induction false} AssignedPrefix(rows: seq<Rule>, i: nat)
    requires i <= |rows|
    ensures Assigned(rows)[..i] == Assigned(rows[..i])
    decreases |rows|
  {
    if i == |rows| {
      assert rows[..i] == rows;
    } else {
      var n := |rows| - 1;
      AssignedPrefix(rows[..n], i);
      assert rows[..n][..i] == rows[..i];
    }
  }

  lemma AssignedAt(rows: seq<Rule>, i: nat)
    requires i < |rows|
    ensures Assigned(rows)[i] == NameFor(NamesIn(Assigned(rows[..i])), rows[i].name)
  {
    AssignedPrefix(rows, i + 1);
    PrefixGrows(rows, i);
    AssignedLast(rows[..i], rows[i]);
    LastOfPrefix(Assigned(rows), Assigned(rows[..i]), i, NameFor(NamesIn(Assigned(rows[..i])), rows[i].name));
  }

  lemma PrefixGrows(rows: seq<Rule>, i: nat)
    requires i < |rows|
    ensures rows[..i + 1] == rows[..i] + [rows[i]]
  {
  }

  lemma LastOfPrefix(names: seq<string>, before: seq<string>, i: nat, name: string)
    requires |before| == i < |names| && names[..i + 1] == before + [name]
    ensures names[i] == name
  {
    assert names[i] == names[..i + 1][i];
  }

  lemma AssignedLast(rows: seq<Rule>, r: Rule)
    ensures Assigned(rows + [r]) == Assigned(rows) + [NameFor(NamesIn(Assigned(rows)), r.name)]
  {
    assert (rows + [r])[..|rows|] == rows;
  }

  /** Whatever the names were, the assigned ones are pairwise distinct. */
  lemma {:induction false} NamesDistinct(rows: seq<Rule>, i: nat, j: nat)
    requires i < j < |rows|
    ensures Assigned(rows)[i] != Assigned(rows)[j]
  {
    AssignedAt(rows, j);
    AssignedPrefix(rows, j);
    assert Assigned(rows)[i] == Assigned(rows)[..j][i];
    assert Assigned(rows)[i] in Assigned(rows[..j]);
  }

  /** A row keeps its name exactly if no earlier row ended up with it. */
  lemma KeepsNameIff(rows: seq<Rule>, i: nat)
    requires i < |rows|
    ensures Assigned(rows)[i] == rows[i].name <==> rows[i].name !in Assigned(rows)[..i]
  {
    AssignedAt(rows, i);
    AssignedPrefix(rows, i);
    var seen, name := NamesIn(Assigned(rows[..i])), rows[i].name;
    if name in seen {
      assert |Candidate(name, FreeNumber(seen, name, 2))| > |name|;
    }
  }

  // ---- When the first row of a name keeps it

  function Count(rows: seq<Rule>, name: string): nat {
    if rows == [] then 0
    else Count(rows[..|rows| - 1], name) + if rows[|rows| - 1].name == name then 1 else 0
  }

  predicate HasName(rows: seq<Rule>, name: string) { exists r :: r in rows && r.name == name }

  lemma {:induction false} CountPositive(rows: seq<Rule>, name: string)
    ensures Count(rows, name) > 0 <==> HasName(rows, name)
    decreases |rows|
  {
    if rows != [] {
      var n := |rows| - 1;
      CountPositive(rows[..n], name);
      assert rows == rows[..n] + [rows[n]];
    }
  }

  lemma {:induction false} CountPrefix(rows: seq<Rule>, i: nat, name: string)
    requires i <= |rows|
    ensures Count(rows[..i], name) <= Count(rows, name)
    decreases |rows|
  {
    if i < |rows| {
      CountPrefix(rows[..|rows| - 1], i, name);
      assert rows[..|rows| - 1][..i] == rows[..i];
    } else {
      assert rows[..i] == rows;
    }
  }

  /** Some name a duplicate of `x` will be given belongs to a row already. */
  ghost predicate Clash(rows: seq<Rule>, x: string, n: nat) {
    2 <= n <= Count(rows, x) && HasName(rows, Candidate(x, n))
  }

  ghost predicate NoClash(rows: seq<Rule>) { forall x: string, n: nat :: !Clash(rows, x, n) }

  /** After the first `i` rows: which numbers of `x`, up to `bound`, are taken. */
  ghost predicate NumbersTaken(rows: seq<Rule>, i: nat, x: string, bound: nat)
    requires i <= |rows|
  {
    forall m: nat :: 2 <= m <= bound ==>
      (Candidate(x, m) in Assigned(rows[..i]) <==> m <= Count(rows[..i], x))
  }

  /** Row `i` is the first with its name. */
  ghost predicate FirstOfName(rows: seq<Rule>, i: nat)
    requires i < |rows|
  {
    !HasName(rows[..i], rows[i].name)
  }

  ghost predicate FirstsKeepNames(rows: seq<Rule>) {
    forall i: nat :: i < |rows| && FirstOfName(rows, i) ==> Assigned(rows)[i] == rows[i].name
  }

  lemma NextPrefix(rows: seq<Rule>, i: nat, x: string)
    requires i < |rows|
    ensures Assigned(rows[..i + 1]) ==
            Assigned(rows[..i]) + [NameFor(NamesIn(Assigned(rows[..i])), rows[i].name)]
    ensures Count(rows[..i + 1], x) == Count(rows[..i], x) + if rows[i].name == x then 1 else 0
  {
    assert rows[..i + 1][..i] == rows[..i];
  }

  /** Given which numbers of `x` are taken, the next row of `x` gets the next one, if its
      own name is taken. */
  lemma NextNumber(rows: seq<Rule>, i: nat, x: string, bound: nat)
    requires i < |rows| && rows[i].name == x && NumbersTaken(rows, i, x, bound)
    requires x in Assigned(rows[..i]) && 1 <= Count(rows[..i], x) < bound
    ensures NameFor(NamesIn(Assigned(rows[..i])), x) == Candidate(x, Count(rows[..i], x) + 1)
  {
    var seen, k := NamesIn(Assigned(rows[..i])), Count(rows[..i], x) + 1;
    var r := FreeNumber(seen, x, 2);
    assert Candidate(x, k) !in seen;
    forall m: nat | 2 <= m < k ensures Candidate(x, m) in seen {
      assert Candidate(x, m) in Assigned(rows[..i]);
    }
  }

  lemma {:induction false} HeldByPrefix(rows: seq<Rule>, i: nat, x: string)
    requires i <= |rows| && HasName(rows[..i], x)
    ensures x in Assigned(rows[..i])
    decreases i
  {
    NextPrefix(rows, i - 1, x);
    assert rows[..i] == rows[..i - 1] + [rows[i - 1]];
    if HasName(rows[..i - 1], x) {
      HeldByPrefix(rows, i - 1, x);
    }
  }

  /** Without a clash, the k-th row of a name gets number k, so numbers taken are counts. */
  lemma {:induction false} NumbersFollowCounts(rows: seq<Rule>, i: nat, x: string)
    requires NoClash(rows) && i <= |rows|
    ensures NumbersTaken(rows, i, x, Count(rows, x))
    decreases i
  {
    if i > 0 {
      var p := i - 1;
      NumbersFollowCounts(rows, p, x);
      NextPrefix(rows, p, x);
      CountPrefix(rows, i, x);
      var y := rows[p].name;
      var seen := NamesIn(Assigned(rows[..p]));
      if y == x {
        CountPositive(rows[..p], x);
        if x in seen {
          if HasName(rows[..p], x) {
            NextNumber(rows, p, x, Count(rows, x));
            forall m: nat | 2 <= m <= Count(rows, x) && Candidate(x, m) == Candidate(x, Count(rows[..i], x))
              ensures m == Count(rows[..i], x)
            {
              CandidateInjective(x, m, x, Count(rows[..i], x));
            }
          } else {
            AssignedIsNameOrNumber(rows, p, x);
            assert false;
          }
        } else {
          if HasName(rows[..p], x) { HeldByPrefix(rows, p, x); }
          forall m: nat | 2 <= m ensures Candidate(x, m) != x { assert |Candidate(x, m)| > |x|; }
        }
      } else {
        forall m: nat | 2 <= m <= Count(rows, x) ensures Candidate(x, m) != NameFor(seen, y) {
          if Candidate(x, m) == y {
            assert HasName(rows, y) by { assert rows[p] in rows; }
            assert Clash(rows, x, m);
          }
          if y in seen && Candidate(x, m) == NameFor(seen, y) {
            CandidateInjective(x, m, y, FreeNumber(seen, y, 2));
          }
        }
      }
    }
  }

  /** Without a clash, a name given to an earlier row is that row's own. */
  lemma {:induction false} AssignedIsNameOrNumber(rows: seq<Rule>, i: nat, x: string)
    requires NoClash(rows) && i <= |rows| && HasName(rows, x)
    requires x in Assigned(rows[..i])
    ensures HasName(rows[..i], x)
    decreases i
  {
    var p := i - 1;
    NextPrefix(rows, p, x);
    assert rows[..i] == rows[..p] + [rows[p]];
    var y := rows[p].name;
    var seen := NamesIn(Assigned(rows[..p]));
    if x in Assigned(rows[..p]) {
      AssignedIsNameOrNumber(rows, p, x);
      var r :| r in rows[..p] && r.name == x;
      assert r in rows[..i];
    } else if y in seen {
      assert HasName(rows, y) by { assert rows[p] in rows; }
      AssignedIsNameOrNumber(rows, p, y);
      CountPositive(rows[..p], y);
      NextPrefix(rows, p, y);
      CountPrefix(rows, i, y);
      NumbersFollowCounts(rows, p, y);
      NextNumber(rows, p, y, Count(rows, y));
      assert Clash(rows, y, Count(rows[..i], y));
    } else {
      assert rows[p] in rows[..i];
    }
  }

  /** Without sorting: the numbers up to the count are all taken. */
  lemma {:induction false} CountedNumbersTaken(rows: seq<Rule>, i: nat, x: string, m: nat)
    requires 2 <= m && i <= |rows| && m <= Count(rows[..i], x)
    ensures Candidate(x, m) in Assigned(rows[..i])
    decreases i
  {
    var p := i - 1;
    NextPrefix(rows, p, x);
    var seen := NamesIn(Assigned(rows[..p]));
    if m <= Count(rows[..p], x) {
      CountedNumbersTaken(rows, p, x, m);
    } else {
      CountPositive(rows[..p], x);
      HeldByPrefix(rows, p, x);
      forall k: nat | 2 <= k < m ensures Candidate(x, k) in seen {
        CountedNumbersTaken(rows, p, x, k);
      }
    }
  }

  ghost predicate OrderedByName(rows: seq<Rule>) {
    forall i: nat, j: nat :: i < j < |rows| ==> NameLe(rows[i].name, rows[j].name)
  }

  lemma {:induction false} CountSame(rows: seq<Rule>, i: nat, x: string)
    requires i <= |rows| && forall k: nat :: i <= k < |rows| ==> rows[k].name != x
    ensures Count(rows[..i], x) == Count(rows, x)
    decreases |rows|
  {
    if i < |rows| {
      CountSame(rows[..|rows| - 1], i, x);
      assert rows[..|rows| - 1][..i] == rows[..i];
    } else {
      assert rows[..i] == rows;
    }
  }

  lemma {:induction false} FirstExists(rows: seq<Rule>, x: string) returns (i: nat)
    requires HasName(rows, x)
    ensures i < |rows| && rows[i].name == x && FirstOfName(rows, i)
  {
    var w: nat :| w < |rows| && rows[w].name == x;
    i := 0;
    while rows[i].name != x
      invariant i <= w && !HasName(rows[..i], x)
      decreases w - i
    {
      forall r | r in rows[..i + 1] ensures r.name != x { assert r in rows[..i] || r == rows[i]; }
      i := i + 1;
    }
  }

  /** A clash costs the row of the clashing name its name, although no other row has it. */
  lemma ClashRenames(rows: seq<Rule>, x: string, n: nat)
    requires OrderedByName(rows) && Clash(rows, x, n)
    ensures !FirstsKeepNames(rows)
  {
    var c := Candidate(x, n);
    var i := FirstExists(rows, c);
    assert c == x + (" #" + Decimal(n));
    LongerIsLater(x, " #" + Decimal(n));
    assert NameLe(c, c) ==> c != x;
    CountSame(rows, i, x);
    CountedNumbersTaken(rows, i, x, n);
    AssignedPrefix(rows, i);
    KeepsNameIff(rows, i);
  }

  /** Exactly when the first row of every name keeps it. */
  lemma FirstsKeepNamesIff(rows: seq<Rule>)
    requires OrderedByName(rows)
    ensures FirstsKeepNames(rows) <==> NoClash(rows)
  {
    if NoClash(rows) {
      forall i: nat | i < |rows| && FirstOfName(rows, i) ensures Assigned(rows)[i] == rows[i].name {
        var x := rows[i].name;
        assert HasName(rows, x) by { assert rows[i] in rows; }
        KeepsNameIff(rows, i);
        AssignedPrefix(rows, i);
        if x in Assigned(rows[..i]) { AssignedIsNameOrNumber(rows, i, x); }
      }
    } else {
      var x: string, n: nat :| Clash(rows, x, n);
      ClashRenames(rows, x, n);
    }
  }

  /** Names that are distinct already are all kept: a second pass changes nothing. */
  lemma DistinctNamesAreKept(rows: seq<Rule>)
    requires DistinctNames(rows)
    ensures forall i: nat :: i < |rows| ==> Assigned(rows)[i] == rows[i].name
  {
    KeptUpTo(rows, |rows|);
  }

  lemma {:induction false} KeptUpTo(rows: seq<Rule>, i: nat)
    requires DistinctNames(rows) && i <= |rows|
    ensures forall k: nat :: k < i ==> Assigned(rows)[k] == rows[k].name
    decreases i
  {
    if i > 0 {
      KeptUpTo(rows, i - 1);
      KeepsNameIff(rows, i - 1);
    }
  }

  /** A row whose name no other row has loses it: "a" twice and "a #2" once. */
  lemma UniqueNameLost()
    ensures var rows := [Rule(1, "a"), Rule(2, "a"), Rule(3, "a #2")];
            OrderedByName(rows) && FirstOfName(rows, 2) && Assigned(rows)[2] != rows[2].name
  {
    var rows := [Rule(1, "a"), Rule(2, "a"), Rule(3, "a #2")];
    assert Decimal(2) == "2";
    assert Candidate("a", 2) == "a #2";
    assert rows[..2] == [Rule(1, "a"), Rule(2, "a")];
    assert Count(rows[..2], "a") == 2 by {
      NextPrefix(rows, 0, "a");
      NextPrefix(rows, 1, "a");
    }
    CountedNumbersTaken(rows, 2, "a", 2);
    AssignedPrefix(rows, 2);
    KeepsNameIff(rows, 2);
  }

  // ---- The table

  predicate DistinctNames(rows: seq<Rule>) {
    forall i: nat, j: nat :: i < j < |rows| ==> rows[i].name != rows[j].name
  }

  /** One UPDATE of the name of every row with an id. */
  function Updated(rows: seq<Rule>, id: int, name: string): (r: seq<Rule>)
    ensures |r| == |rows| && forall k: nat :: k < |rows| ==> r[k].id == rows[k].id
  {
    seq(|rows|, k requires 0 <= k < |rows| => if rows[k].id == id then Rule(id, name) else rows[k])
  }

  /** The table after the first `k` of the listed rows. */
  ghost function After(rows: seq<Rule>, k: nat): (r: seq<Rule>)
    requires k <= |rows|
    ensures |r| == |rows| && forall i: nat :: i < |rows| ==> r[i].id == rows[i].id
  {
    if k == 0 then rows
    else if Assigned(rows)[k - 1] == rows[k - 1].name then After(rows, k - 1)
    else Updated(After(rows, k - 1), rows[k - 1].id, Assigned(rows)[k - 1])
  }

  /** No two rows share an id that the pass writes to. */
  ghost predicate RenamedIdsUnique(rows: seq<Rule>) {
    forall i: nat, j: nat :: i < |rows| && j < |rows| && i != j && rows[i].id == rows[j].id ==>
      Assigned(rows)[i] == rows[i].name
  }

  lemma {:induction false} AfterIsAssigned(rows: seq<Rule>, k: nat)
    requires RenamedIdsUnique(rows) && k <= |rows|
    ensures forall i: nat :: i < |rows| ==>
              After(rows, k)[i].name == if i < k then Assigned(rows)[i] else rows[i].name
  {
    if k > 0 { AfterIsAssigned(rows, k - 1); }
  }

  lemma {:induction false} SharedIdSharesName(rows: seq<Rule>, i: nat, j: nat, k: nat)
    requires i < |rows| && j < |rows| && rows[i].id == rows[j].id
    requires Assigned(rows)[i] != rows[i].name && i < k <= |rows|
    ensures After(rows, k)[i].name == After(rows, k)[j].name
    decreases k
  {
    if i < k - 1 { SharedIdSharesName(rows, i, j, k - 1); }
  }

  /** The pass leaves distinct names exactly when the ids it writes to are unique. */
  lemma DistinctIff(rows: seq<Rule>)
    ensures DistinctNames(After(rows, |rows|)) <==> RenamedIdsUnique(rows)
  {
    var r := After(rows, |rows|);
    if RenamedIdsUnique(rows) {
      AfterIsAssigned(rows, |rows|);
      forall i: nat, j: nat | i < j < |rows| ensures r[i].name != r[j].name { NamesDistinct(rows, i, j); }
    } else {
      var i: nat, j: nat :| i < |rows| && j < |rows| && i != j && rows[i].id == rows[j].id &&
                            Assigned(rows)[i] != rows[i].name;
      SharedIdSharesName(rows, i, j, |rows|);
      assert r[i].name == r[j].name;
    }
  }

  /** Without a clash, the rows renamed are those that repeat an earlier row's name. */
  lemma RenamedIffRepeats(rows: seq<Rule>, i: nat)
    requires OrderedByName(rows) && NoClash(rows) && i < |rows|
    ensures Assigned(rows)[i] != rows[i].name <==> !FirstOfName(rows, i)
  {
    FirstsKeepNamesIff(rows);
    KeepsNameIff(rows, i);
    if !FirstOfName(rows, i) {
      HeldByPrefix(rows, i, rows[i].name);
      AssignedPrefix(rows, i);
    }
  }

  /** No row that repeats an earlier row's name shares its id with another row. */
  ghost predicate RepeatedIdsUnique(rows: seq<Rule>) {
    forall i: nat, j: nat :: i < |rows| && j < |rows| && i != j && rows[i].id == rows[j].id ==> FirstOfName(rows, i)
  }

  /** On the table as it was listed: the pass leaves distinct names exactly when no row that
      repeats a name shares its id. */
  lemma DistinctIffListed(rows: seq<Rule>)
    requires OrderedByName(rows) && NoClash(rows)
    ensures DistinctNames(After(rows, |rows|)) <==> RepeatedIdsUnique(rows)
  {
    DistinctIff(rows);
    forall i: nat | i < |rows| ensures Assigned(rows)[i] != rows[i].name <==> !FirstOfName(rows, i) {
      RenamedIffRepeats(rows, i);
    }
  }

  /** Two rows with one id and one name both end as "a #2". */
  lemma SharedIdStaysDuplicate()
    ensures var rows := [Rule(1, "a"), Rule(1, "a")];
            && !RepeatedIdsUnique(rows) && !RenamedIdsUnique(rows)
            && After(rows, 2) == [Rule(1, "a #2"), Rule(1, "a #2")] && !DistinctNames(After(rows, 2))
  {
    var rows := [Rule(1, "a"), Rule(1, "a")];
    assert rows[..1] == [Rule(1, "a")] && rows[..1][..0] == [];
    assert Assigned([]) == [];
    assert Assigned(rows[..1]) == ["a"];
    assert Assigned(rows) == ["a"] + [NameFor({"a"}, "a")];
    SearchBound({"a"}, "a");
    assert Decimal(2) == "2";
    assert Candidate("a", 2) == "a #2";
    assert rows[..1][0] in rows[..1];
    assert !FirstOfName(rows, 1);
    assert After(rows, 1) == After(rows, 0) == rows;
  }

  /** What row `i` is given, and what it does to the table. */
  lemma PassStep(rows: seq<Rule>, i: nat)
    requires i < |rows|
    ensures var seen, name := NamesIn(Assigned(rows[..i])), rows[i].name;
            Assigned(rows[..i + 1]) == Assigned(rows[..i]) + [NameFor(seen, name)] &&
            After(rows, i + 1) == if name in seen then Updated(After(rows, i), rows[i].id, NameFor(seen, name))
                                  else After(rows, i)
  {
    NextPrefix(rows, i, rows[i].name);
    KeepsNameIff(rows, i);
    AssignedAt(rows, i);
    AssignedPrefix(rows, i);
  }

  lemma NamesGrow(names: seq<string>, name: string)
    ensures NamesIn(names + [name]) == NamesIn(names) + {name}
  {
  }

  class RuleTable {
    var rules: seq<Rule>    // in the order the listing query returns them

    constructor (rows: seq<Rule>)
      ensures rules == rows
    {
      rules := rows;
    }

    /** The least free suffix. */
    method FreeName(seen: set<string>, name: string) returns (free: string)
      ensures free == Candidate(name, FreeNumber(seen, name, 2))
    {
      var n: nat := 2;
      free := Candidate(name, n);
      while free in seen
        invariant n >= 2 && free == Candidate(name, n)
        invariant FreeNumber(seen, name, 2) == FreeNumber(seen, name, n)
        decreases |Taken(seen, name, n)|
      {
        TakenShrinks(seen, name, n);
        n := n + 1;
        free := Candidate(name, n);
      }
    }

    /** Renames the duplicates, then reports whether the unique index could be created. */
    method MakeNamesUnique() returns (indexed: bool)
      modifies this
      ensures rules == After(old(rules), |old(rules)|)
      ensures indexed <==> RenamedIdsUnique(old(rules))
      ensures indexed ==> DistinctNames(rules) && forall i: nat :: i < |rules| ==>
                rules[i] == Rule(old(rules)[i].id, Assigned(old(rules))[i])
    {
      var listed, seen := rules, {};
      ghost var names: seq<string> := [];
      for i := 0 to |listed|
        invariant rules == After(listed, i)
        invariant names == Assigned(listed[..i]) && seen == NamesIn(names)
      {
        var r := listed[i];
        var newName := r.name;
        PassStep(listed, i);
        if r.name in seen {
          newName := FreeName(seen, r.name);
          rules := Updated(rules, r.id, newName);
        }
        NamesGrow(names, newName);
        seen := seen + {newName};
        names := names + [newName];
      }
      assert listed[..|listed|] == listed;
      DistinctIff(listed);
      indexed := DistinctNames(rules);
      if indexed { AfterIsAssigned(listed, |listed|); }
    }
  }
}
