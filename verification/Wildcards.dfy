/** Wildcard matching of process command lines.

    The collector matches with `GlobMatchAny`, a two-pointer matcher that remembers
    only the last `*`.  The alert engine counts with SQL LIKE on `GlobToSql` of the
    same pattern.  A string is a sequence of elements: bytes for the matcher,
    characters for LIKE, so statements relating the two are about ASCII text. */
module Wildcards {

  /** The meaning of a pattern: `*` is any run, `?` exactly one element, everything
      else itself, and the whole string must match. */
  predicate Matches(p: string, s: string)
    decreases |p| + |s|
  {
    if p == [] then s == []
    else if p[0] == '*' then Matches(p[1..], s) || (s != [] && Matches(p, s[1..]))
    else s != [] && (p[0] == '?' || p[0] == s[0]) && Matches(p[1..], s[1..])
  }

  /** What the matcher decides: a `*` in the pattern that faces a literal `*` in the
      string is consumed as that literal and is no wildcard any more. */
  predicate LiteralFirst(p: string, s: string)
    decreases |p|, 1, 0
  {
    if p == [] then s == []
    else if s != [] && (p[0] == '?' || p[0] == s[0]) then LiteralFirst(p[1..], s[1..])
    else p[0] == '*' && SomeSuffix(p[1..], s)
  }

  /** Some suffix of `s`, possibly all of it, is accepted. */
  predicate SomeSuffix(p: string, s: string)
    decreases |p|, 2, |s|
  {
    LiteralFirst(p, s) || (s != [] && SomeSuffix(p, s[1..]))
  }

  lemma {:induction false} SomeSuffixAt(p: string, s: string, k: nat)
    requires k <= |s|
    requires SomeSuffix(p, s[k..])
    ensures SomeSuffix(p, s)
  {
    if k == 0 {
      assert s[0..] == s;
    } else {
      assert s[1..][k - 1..] == s[k..];
      SomeSuffixAt(p, s[1..], k - 1);
    }
  }

  /** The first `n` pattern elements consume the first `n` string elements one by one. */
  ghost predicate Lockstep(p: string, s: string, n: nat) {
    n <= |p| && n <= |s| && forall t :: 0 <= t < n ==> p[t] == '?' || p[t] == s[t]
  }

  /** Why the last `*` is enough: when the segment after an earlier `*` has matched in
      lockstep, letting that `*` take more can only reach the end of the segment at
      the same place or later. */
  lemma {:induction false} LaterStartReachesLater(p: string, s: string, n: nat, k: nat)
    requires Lockstep(p, s, n)
    requires k <= |s|
    requires LiteralFirst(p, s[k..])
    ensures SomeSuffix(p[n..], s[n..])
    decreases n
  {
    var s1 := s[k..];
    if n == 0 {
      assert p[0..] == p && s[0..] == s;
      SomeSuffixAt(p, s, k);
    } else {
      assert p[1..][n - 1..] == p[n..] && s[1..][n - 1..] == s[n..];
      assert Lockstep(p[1..], s[1..], n - 1);
      if s1 != [] && (p[0] == '?' || p[0] == s1[0]) {
        assert s[1..][k..] == s1[1..];
        LaterStartReachesLater(p[1..], s[1..], n - 1, k);
      } else {
        assert k > 0;
        var j := SuffixWitness(p[1..], s1);
        assert s[1..][k - 1 + j..] == s1[j..];
        LaterStartReachesLater(p[1..], s[1..], n - 1, k - 1 + j);
      }
    }
  }

  lemma {:induction false} SuffixWitness(p: string, s: string) returns (j: nat)
    requires SomeSuffix(p, s)
    ensures j <= |s| && LiteralFirst(p, s[j..])
    decreases |s|
  {
    if LiteralFirst(p, s) {
      j := 0;
      assert s[0..] == s;
    } else {
      var i := SuffixWitness(p, s[1..]);
      j := i + 1;
      assert s[1..][i..] == s[j..];
    }
  }

  lemma {:induction false} StarTakesAnySuffix(p: string, s: string)
    requires p != [] && p[0] == '*'
    requires SomeSuffix(p, s)
    ensures SomeSuffix(p[1..], s)
    decreases |s|
  {
    if LiteralFirst(p, s) {
      if s != [] && p[0] == s[0] {
        assert SomeSuffix(p[1..], s[1..]);
      }
    } else {
      StarTakesAnySuffix(p, s[1..]);
    }
  }

  /** What the loop still has to decide: the rest of the string against the rest of
      the pattern, or the last `*` (at `starPx`, tried up to `starSx`) taking more. */
  ghost predicate Open(p: string, s: string, px: nat, sx: nat, starPx: int, starSx: int)
    requires px <= |p| && sx <= |s| && starPx < |p|
  {
    LiteralFirst(p[px..], s[sx..]) || CanRetry(p, s, starPx, starSx)
  }

  ghost predicate CanRetry(p: string, s: string, starPx: int, starSx: int)
    requires starPx < |p|
  {
    starPx >= 0 && 0 <= starSx < |s| && SomeSuffix(p[starPx + 1..], s[starSx + 1..])
  }

  /** The segment behind the last `*` has matched in lockstep up to here. */
  ghost predicate InSegment(p: string, s: string, px: nat, sx: nat, starPx: int, starSx: int) {
    starPx >= 0 ==>
      starPx < px <= |p| && 0 <= starSx <= sx <= |s| && px - (starPx + 1) == sx - starSx &&
      Lockstep(p[starPx + 1..], s[starSx..], sx - starSx)
  }

  /** Every way the last `*` could still succeed is also a way from the current place on. */
  lemma RetryReachesHere(p: string, s: string, px: nat, sx: nat, starPx: int, starSx: int)
    requires px <= |p| && sx <= |s| && starPx < |p|
    requires InSegment(p, s, px, sx, starPx, starSx)
    requires CanRetry(p, s, starPx, starSx)
    ensures SomeSuffix(p[px..], s[sx..])
  {
    var p1, s1, n := p[starPx + 1..], s[starSx..], sx - starSx;
    var j := SuffixWitness(p1, s[starSx + 1..]);
    assert s1[1 + j..] == s[starSx + 1..][j..];
    LaterStartReachesLater(p1, s1, n, 1 + j);
    assert p1[n..] == p[px..] && s1[n..] == s[sx..];
  }

  lemma StepLiteral(p: string, s: string, px: nat, sx: nat, starPx: int, starSx: int)
    requires px < |p| && sx < |s| && starPx < |p|
    requires InSegment(p, s, px, sx, starPx, starSx)
    requires p[px] == '?' || p[px] == s[sx]
    ensures Open(p, s, px, sx, starPx, starSx) == Open(p, s, px + 1, sx + 1, starPx, starSx)
    ensures InSegment(p, s, px + 1, sx + 1, starPx, starSx)
  {
    assert p[px..][1..] == p[px + 1..] && s[sx..][1..] == s[sx + 1..];
  }

  lemma StepStar(p: string, s: string, px: nat, sx: nat, starPx: int, starSx: int)
    requires px < |p| && sx < |s| && starPx < |p|
    requires InSegment(p, s, px, sx, starPx, starSx)
    requires p[px] == '*' && s[sx] != '*'
    ensures Open(p, s, px, sx, starPx, starSx) == Open(p, s, px + 1, sx, px, sx)
    ensures InSegment(p, s, px + 1, sx, px, sx)
  {
    var p1, s1 := p[px..], s[sx..];
    assert p1[1..] == p[px + 1..] && s1[1..] == s[sx + 1..];
    assert LiteralFirst(p1, s1) == SomeSuffix(p[px + 1..], s1);
    if CanRetry(p, s, starPx, starSx) {
      RetryReachesHere(p, s, px, sx, starPx, starSx);
      StarTakesAnySuffix(p1, s1);
    }
  }

  lemma StepRetry(p: string, s: string, px: nat, sx: nat, starPx: nat, starSx: nat)
    requires px <= |p| && sx < |s| && starPx < px && starSx <= sx
    requires px < |p| ==> p[px] != '?' && p[px] != s[sx] && p[px] != '*'
    ensures Open(p, s, px, sx, starPx, starSx) == Open(p, s, starPx + 1, starSx + 1, starPx, starSx + 1)
    ensures InSegment(p, s, starPx + 1, starSx + 1, starPx, starSx + 1)
  {
    assert !LiteralFirst(p[px..], s[sx..]);
    assert starSx + 1 < |s| ==> s[starSx + 1..][1..] == s[starSx + 2..];
  }

  /** The loop's whole invariant: what it has still to decide decides `accepts`. */
  ghost predicate Decides(p: string, s: string, px: nat, sx: nat, starPx: int, starSx: int, accepts: bool) {
    && px <= |p| && sx <= |s| && -1 <= starPx < |p| && -1 <= starSx <= sx && (starPx == -1 ==> starSx == -1)
    && InSegment(p, s, px, sx, starPx, starSx)
    && (accepts <==> Open(p, s, px, sx, starPx, starSx))
  }

  /** With the string used up only the rest of the pattern is left to decide. */
  lemma StringUsedUp(p: string, s: string, px: nat, starPx: int, starSx: int, accepts: bool)
    requires Decides(p, s, px, |s|, starPx, starSx, accepts)
    ensures accepts <==> LiteralFirst(p[px..], [])
  {
    assert s[|s|..] == [];
    if CanRetry(p, s, starPx, starSx) { RetryReachesHere(p, s, px, |s|, starPx, starSx); }
  }

  /** The collector's matcher.  It decides `LiteralFirst`, for every pattern and string. */
  method GlobMatchAny(pattern: string, s: string) returns (matched: bool)
    ensures matched <==> LiteralFirst(pattern, s)
  {
    var px, sx := 0, 0;
    var starPx, starSx := -1, -1;
    ghost var accepts := LiteralFirst(pattern, s);
    assert pattern[0..] == pattern && s[0..] == s;
    while sx < |s|
      invariant 0 <= px <= |pattern| && 0 <= sx <= |s|
      invariant -1 <= starPx < |pattern| && -1 <= starSx <= sx && (starPx >= 0 ==> 0 <= starSx && starPx < px)
      invariant Decides(pattern, s, px, sx, starPx, starSx, accepts)
      decreases |s| - starSx, |pattern| - px
    {
      if px < |pattern| && (pattern[px] == '?' || pattern[px] == s[sx]) {
        StepLiteral(pattern, s, px, sx, starPx, starSx);
        px, sx := px + 1, sx + 1;
      } else if px < |pattern| && pattern[px] == '*' {
        StepStar(pattern, s, px, sx, starPx, starSx);
        starPx, starSx := px, sx;
        px := px + 1;
      } else if starPx != -1 {
        StepRetry(pattern, s, px, sx, starPx, starSx);
        px := starPx + 1;
        starSx := starSx + 1;
        sx := starSx;
      } else {
        return false;
      }
    }
    StringUsedUp(pattern, s, px, starPx, starSx, accepts);
    matched := OnlyStarsLeft(pattern, px);
  }

  /** The matcher's last loop. */
  method OnlyStarsLeft(pattern: string, from: nat) returns (matched: bool)
    requires from <= |pattern|
    ensures matched <==> LiteralFirst(pattern[from..], [])
  {
    var px := from;
    while px < |pattern| && pattern[px] == '*'
      invariant from <= px <= |pattern|
      invariant LiteralFirst(pattern[from..], []) <==> LiteralFirst(pattern[px..], [])
    {
      assert pattern[px..][1..] == pattern[px + 1..];
      px := px + 1;
    }
    matched := px == |pattern|;
  }

  /** No false positive: what the matcher accepts matches the pattern. */
  lemma {:induction false} AcceptedMatches(p: string, s: string)
    requires LiteralFirst(p, s)
    ensures Matches(p, s)
    decreases |p|
  {
    if p == [] {
    } else if s != [] && (p[0] == '?' || p[0] == s[0]) {
      AcceptedMatches(p[1..], s[1..]);
      if p[0] == '*' {
        assert Matches(p, s[1..]);
      }
    } else {
      var j := SuffixWitness(p[1..], s);
      AcceptedMatches(p[1..], s[j..]);
      StarSkips(p, s, j);
    }
  }

  lemma {:induction false} StarSkips(p: string, s: string, j: nat)
    requires p != [] && p[0] == '*' && j <= |s|
    requires Matches(p[1..], s[j..])
    ensures Matches(p, s)
    decreases j
  {
    if j == 0 {
      assert s[0..] == s;
    } else {
      assert s[1..][j - 1..] == s[j..];
      StarSkips(p, s[1..], j - 1);
    }
  }

  /** No false negative on strings without a literal `*`. */
  lemma {:induction false} MatchingAccepted(p: string, s: string)
    requires Matches(p, s) && '*' !in s
    ensures LiteralFirst(p, s)
    decreases |p| + |s|
  {
    if p == [] {
    } else if p[0] == '*' {
      StarAccepted(p, s);
    } else {
      MatchingAccepted(p[1..], s[1..]);
    }
  }

  lemma {:induction false} StarAccepted(p: string, s: string)
    requires p != [] && p[0] == '*' && Matches(p, s) && '*' !in s
    ensures SomeSuffix(p[1..], s)
    decreases |p| + |s|, 0
  {
    if Matches(p[1..], s) {
      MatchingAccepted(p[1..], s);
    } else {
      StarAccepted(p, s[1..]);
    }
  }

  function Repeat(c: char, n: nat): (r: string)
    ensures |r| == n && forall i :: 0 <= i < n ==> r[i] == c
  {
    seq(n, _ => c)
  }

  /** A pattern the matcher gets wrong on a string with a literal `*` at `i`: the text
      before it, a star, then one `?` for every element from `i` on. */
  function Tripping(s: string, i: nat): string
    requires i < |s|
  {
    s[..i] + "*" + Repeat('?', |s| - i)
  }

  lemma {:induction false} LiteralPrefix(a: string, p: string, s: string)
    requires '*' !in a
    ensures Matches(a + p, a + s) == Matches(p, s)
    ensures LiteralFirst(a + p, a + s) == LiteralFirst(p, s)
    decreases |a|
  {
    if a == [] {
      assert a + p == p && a + s == s;
    } else {
      assert (a + p)[1..] == a[1..] + p && (a + s)[1..] == a[1..] + s;
      LiteralPrefix(a[1..], p, s);
    }
  }

  lemma {:induction false} QuestionMarks(n: nat, s: string)
    ensures Matches(Repeat('?', n), s) == (|s| == n)
    ensures LiteralFirst(Repeat('?', n), s) == (|s| == n)
    decreases n
  {
    var q := Repeat('?', n);
    if n > 0 && s != [] {
      assert q[1..] == Repeat('?', n - 1);
      QuestionMarks(n - 1, s[1..]);
    }
  }

  /** Exactly when the matcher is right: it agrees with the pattern's meaning for every
      pattern if and only if the string holds no literal `*`. */
  lemma ExactWithoutLiteralStar(s: string)
    ensures (forall p: string :: LiteralFirst(p, s) == Matches(p, s)) <==> '*' !in s
  {
    if '*' !in s {
      forall p: string ensures LiteralFirst(p, s) == Matches(p, s) {
        if LiteralFirst(p, s) { AcceptedMatches(p, s); }
        if Matches(p, s) { MatchingAccepted(p, s); }
      }
    } else {
      var i := FirstStar(s);
      var p, rest := Tripping(s, i), s[i..];
      var q := Repeat('?', |rest|);
      assert p == s[..i] + ("*" + q) && s == s[..i] + rest;
      LiteralPrefix(s[..i], "*" + q, rest);
      assert ("*" + q)[1..] == q;
      QuestionMarks(|rest|, rest);
      QuestionMarks(|rest|, rest[1..]);
      assert Matches("*" + q, rest) && !LiteralFirst("*" + q, rest);
      assert LiteralFirst(p, s) != Matches(p, s);
    }
  }

  lemma {:induction false} FirstStar(s: string) returns (i: nat)
    requires '*' in s
    ensures i < |s| && s[i] == '*' && '*' !in s[..i]
    decreases |s|
  {
    if s[0] == '*' {
      i := 0;
    } else {
      var k := FirstStar(s[1..]);
      i := k + 1;
      assert s[..i] == [s[0]] + s[1..][..k];
    }
  }

  // ---- Agreement with SQL LIKE

  /** LIKE without an ESCAPE clause (section 8.5 of ISO/IEC 9075-2, SQL:2003): `%` is
      any run, `_` one character, and a backslash is an ordinary character. */
  predicate Like(q: string, s: string)
    decreases |q| + |s|
  {
    if q == [] then s == []
    else if q[0] == '%' then Like(q[1..], s) || (s != [] && Like(q, s[1..]))
    else s != [] && (q[0] == '_' || q[0] == s[0]) && Like(q[1..], s[1..])
  }

  function SqlChar(c: char): string {
    if c == '*' then "%"
    else if c == '?' then "_"
    else if c == '%' || c == '_' then "\\" + [c]
    else [c]
  }

  function ToSql(p: string): string {
    if p == [] then [] else SqlChar(p[0]) + ToSql(p[1..])
  }

  lemma {:induction false} ToSqlAppend(p: string, c: char)
    ensures ToSql(p + [c]) == ToSql(p) + SqlChar(c)
    decreases |p|
  {
    if p == [] {
      assert p + [c] == [c] && ToSql([c][1..]) == [];
    } else {
      assert (p + [c])[1..] == p[1..] + [c];
      ToSqlAppend(p[1..], c);
    }
  }

  /** The alert engine's translation of a pattern. */
  method GlobToSql(pattern: string) returns (result: string)
    ensures result == ToSql(pattern)
  {
    result := "";
    for i := 0 to |pattern|
      invariant result == ToSql(pattern[..i])
    {
      var c := pattern[i];
      assert pattern[..i + 1] == pattern[..i] + [c];
      ToSqlAppend(pattern[..i], c);
      if c == '*' {
        result := result + "%";
      } else if c == '?' {
        result := result + "_";
      } else if c == '%' || c == '_' {
        result := result + ("\\" + [c]);
      } else {
        result := result + [c];
      }
    }
    assert pattern[..|pattern|] == pattern;
  }

  lemma {:induction false} PlainPatternAgrees(p: string, s: string)
    requires '%' !in p && '_' !in p
    ensures Like(ToSql(p), s) == Matches(p, s)
    decreases |p| + |s|
  {
    if p != [] {
      assert ToSql(p)[1..] == ToSql(p[1..]);
      PlainPatternAgrees(p[1..], s);
      if s != [] {
        PlainPatternAgrees(p, s[1..]);
        PlainPatternAgrees(p[1..], s[1..]);
      }
    }
  }

  function Backslashes(s: string): nat {
    if s == [] then 0 else (if s[0] == '\\' then 1 else 0) + Backslashes(s[1..])
  }

  lemma {:induction false} LikeNeedsBackslashes(q: string, s: string)
    requires Like(q, s)
    ensures Backslashes(s) >= Backslashes(q)
    decreases |q| + |s|
  {
    if q != [] {
      if q[0] == '%' {
        if Like(q[1..], s) { LikeNeedsBackslashes(q[1..], s); } else { LikeNeedsBackslashes(q, s[1..]); }
      } else {
        LikeNeedsBackslashes(q[1..], s[1..]);
      }
    }
  }

  /** One string the pattern matches: its wildcards replaced by a letter. */
  function Filled(p: string): string {
    if p == [] then [] else [if p[0] == '*' || p[0] == '?' then 'a' else p[0]] + Filled(p[1..])
  }

  lemma {:induction false} EscapeAddsBackslash(p: string)
    ensures Matches(p, Filled(p))
    ensures Backslashes(ToSql(p)) >= Backslashes(Filled(p))
    ensures '%' in p || '_' in p ==> Backslashes(ToSql(p)) > Backslashes(Filled(p))
    decreases |p|
  {
    if p != [] {
      EscapeAddsBackslash(p[1..]);
      assert Filled(p)[1..] == Filled(p[1..]);
      assert ToSql(p)[|SqlChar(p[0])|..] == ToSql(p[1..]);
      if p[0] == '*' {
        assert Matches(p, Filled(p)[1..]);
      }
      if p[0] == '%' || p[0] == '_' {
        assert ToSql(p)[1..][1..] == ToSql(p[1..]);
      }
    }
  }

  ghost predicate LikeAgrees(p: string) {
    forall s: string :: Like(ToSql(p), s) == Matches(p, s)
  }

  /** Exactly when LIKE on the translated pattern means the pattern: when the pattern
      has no SQL wildcard of its own.  The backslash written before one escapes
      nothing, because the queries carry no ESCAPE clause. */
  lemma LikeAgreesIff(p: string)
    ensures LikeAgrees(p) <==> '%' !in p && '_' !in p
  {
    if '%' !in p && '_' !in p {
      forall s: string ensures Like(ToSql(p), s) == Matches(p, s) {
        PlainPatternAgrees(p, s);
      }
    } else {
      EscapeAddsBackslash(p);
      var q, s := ToSql(p), Filled(p);
      if Like(q, s) {
        LikeNeedsBackslashes(q, s);
      }
      assert Like(ToSql(p), s) != Matches(p, s);
    }
  }

  /** The collector enriches the processes the alert rule counts. */
  lemma CollectorAgreesWithRule(p: string, s: string)
    requires '%' !in p && '_' !in p && '*' !in s
    ensures LiteralFirst(p, s) == Like(ToSql(p), s)
  {
    PlainPatternAgrees(p, s);
    ExactWithoutLiteralStar(s);
  }

  /** The string "*" matches the pattern "*?", and is refused. */
  lemma LiteralStarRefused()
    ensures Matches("*?", "*") && !LiteralFirst("*?", "*")
  {
    assert "*?"[1..] == "?" && "*"[1..] == "" && "?"[1..] == "";
    assert Matches("?", "*");
    assert !LiteralFirst("?", "");
  }
}
