/** The collection scheduler: one tick for all collectors, and backoff after failures. */
module Scheduler {

  const MinTick: int := 100_000_000     // 100ms, in nanoseconds
  const MaxBackoff: int := 64

  // ---- The tick

  predicate Divides(d: int, n: int)
    requires d > 0
  {
    n % d == 0
  }

  /** `g` divides both, and every divisor of both divides `g`. */
  ghost predicate IsGcd(g: int, a: int, b: int) {
    && g > 0 && Divides(g, a) && Divides(g, b)
    && forall d: int :: d > 0 && Divides(d, a) && Divides(d, b) ==> Divides(d, g)
  }

  lemma DividesSum(d: int, a: int, k: int, b: int)
    requires d > 0 && Divides(d, b)
    ensures Divides(d, a + k * b) <==> Divides(d, a)
  {
    var q, m := b / d, a / d;
    assert k * b == (k * q) * d;
    var r := a % d;
    assert a + k * b == (m + k * q) * d + r;
    QuotientUnique(a + k * b, d, m + k * q, r);
  }

  lemma QuotientUnique(n: int, d: int, q: int, r: int)
    requires d > 0 && n == q * d + r && 0 <= r < d
    ensures n / d == q && n % d == r
  {
    var q', r' := n / d, n % d;
    assert (q - q') * d == r' - r;
    if q > q' { AtLeastFactor(q - q', d); }
    if q < q' { AtLeastFactor(q' - q, d); }
  }

  lemma AtLeastFactor(k: int, d: int)
    requires k >= 1 && d > 0
    ensures k * d >= d && -k * d <= -d
  {
    assert k * d == (k - 1) * d + d;
  }

  /** One step of Euclid's algorithm keeps the greatest common divisor. */
  lemma GcdStep(g: int, a: int, b: int)
    requires a >= 0 && b > 0
    ensures IsGcd(g, a, b) <==> IsGcd(g, b, a % b)
  {
    forall d: int | d > 0 && Divides(d, b) ensures Divides(d, a) <==> Divides(d, a % b) {
      DividesSum(d, a % b, a / b, b);
      assert a == a % b + (a / b) * b;
    }
  }

  lemma DividesAtMost(d: int, n: int)
    requires d > 0 && n > 0 && Divides(d, n)
    ensures d <= n
  {
  }

  method GcdDuration(a: int, b: int) returns (g: int)
    requires a > 0 && b >= 0
    ensures IsGcd(g, a, b)
  {
    var x, y := a, b;
    while y != 0
      invariant x > 0 && y >= 0
      invariant forall h :: IsGcd(h, x, y) <==> IsGcd(h, a, b)
      decreases y
    {
      forall h ensures IsGcd(h, x, y) <==> IsGcd(h, y, x % y) { GcdStep(h, x, y); }
      x, y := y, x % y;
    }
    assert IsGcd(x, x, 0);
    g := x;
  }

  predicate DividesAll(d: int, ns: seq<int>)
    requires d > 0
  {
    forall n :: n in ns ==> Divides(d, n)
  }

  /** `g` divides all of `ns`, and every common divisor divides `g`. */
  ghost predicate IsGcdOf(g: int, ns: seq<int>) {
    g > 0 && DividesAll(g, ns) && forall d: int :: d > 0 && DividesAll(d, ns) ==> Divides(d, g)
  }

  lemma GcdAppend(g: int, ns: seq<int>, n: int, h: int)
    requires IsGcdOf(g, ns) && IsGcd(h, g, n)
    ensures IsGcdOf(h, ns + [n])
  {
    forall m | m in ns + [n] ensures Divides(h, m) {
      if m in ns { DividesTransitive(h, g, m); }
    }
    forall d: int | d > 0 && DividesAll(d, ns + [n]) ensures Divides(d, h) {
      forall m | m in ns ensures Divides(d, m) { assert m in ns + [n]; }
      assert n in ns + [n];
      assert DividesAll(d, ns);
    }
  }

  lemma DividesTransitive(a: int, b: int, c: int)
    requires a > 0 && b > 0 && Divides(a, b) && Divides(b, c)
    ensures Divides(a, c)
  {
    var k := c / b;
    assert c == k * b;
    DividesSum(a, 0, k, b);
  }

  /** The tick for a set of intervals, and whether it was raised to the floor. */
  ghost predicate IsTick(intervals: seq<int>, tick: int, capped: bool) {
    if intervals == [] then tick == MinTick && !capped
    else if capped then tick == MinTick && exists g :: IsGcdOf(g, intervals) && g < MinTick
    else IsGcdOf(tick, intervals) && tick >= MinTick
  }

  method ComputeTickInterval(intervals: seq<int>) returns (tick: int, capped: bool)
    requires forall n :: n in intervals ==> n > 0
    ensures IsTick(intervals, tick, capped)
  {
    if |intervals| == 0 {
      return MinTick, false;
    }
    tick := intervals[0];
    assert intervals[..1] == [tick] && tick in intervals;
    for i := 1 to |intervals|
      invariant IsGcdOf(tick, intervals[..i])
    {
      assert intervals[i] in intervals;
      var h := GcdDuration(tick, intervals[i]);
      GcdAppend(tick, intervals[..i], intervals[i], h);
      assert intervals[..i + 1] == intervals[..i] + [intervals[i]];
      tick := h;
    }
    assert intervals[..|intervals|] == intervals;
    if tick < MinTick {
      return MinTick, true;
    }
    return tick, false;
  }

  /** Every collector fires on every tickMod-th tick. */
  function TickMod(interval: int, tick: int): int
    requires tick > 0
  {
    if interval / tick < 1 then 1 else interval / tick
  }

  /** Without the floor, the tick is the longest that hits every interval exactly; with it,
      each cadence is short of its interval by less than one tick. */
  lemma {:induction false} CadenceIsInterval(intervals: seq<int>, tick: int, capped: bool, interval: int)
    requires IsTick(intervals, tick, capped) && interval in intervals && interval >= MinTick
    ensures tick > 0
    ensures !capped ==> TickMod(interval, tick) * tick == interval
    ensures capped ==> interval - tick < TickMod(interval, tick) * tick <= interval
    ensures !capped ==> forall t: int :: t > 0 && DividesAll(t, intervals) ==> t <= tick
  {
    if !capped {
      DividesAtMost(tick, interval);
      forall t: int | t > 0 && DividesAll(t, intervals) ensures t <= tick { DividesAtMost(t, tick); }
    }
    assert interval == interval / tick * tick + interval % tick;
    AtLeastOne(interval, tick);
  }

  lemma AtLeastOne(n: int, d: int)
    requires 0 < d <= n
    ensures n / d >= 1
  {
  }

  /** The floor is reached only when no tick of at least 100ms hits every interval. */
  lemma {:induction false} CappedIff(intervals: seq<int>, tick: int, capped: bool)
    requires IsTick(intervals, tick, capped) && intervals != []
    ensures capped <==> forall t: int :: t >= 100_000_000 ==> !DividesAll(t, intervals)
  {
    if capped {
      var g :| IsGcdOf(g, intervals) && g < MinTick;
      forall t: int | t >= MinTick ensures !DividesAll(t, intervals) {
        if DividesAll(t, intervals) { DividesAtMost(t, g); }
      }
    }
  }

  // ---- Backoff

  const Two63: int := 0x8000_0000_0000_0000
  const Two64: int := 0x1_0000_0000_0000_0000

  /** A 64-bit signed integer's value. */
  function Wrap(n: int): int {
    var m := n % Two64;
    if m < Two63 then m else m - Two64
  }

  function Pow2(n: nat): int { if n == 0 then 1 else 2 * Pow2(n - 1) }

  /** 1 shifted left by `n`, in 64 bits. */
  function ShiftOne(n: nat): int {
    if n < 63 then Pow2(n) else if n == 63 then -Two63 else 0
  }

  function Min(a: int, b: int): int { if a < b then a else b }

  datatype Entry = Entry(tickMod: int, consecutiveFails: nat, skipUntilTick: int)

  predicate Due(e: Entry, tick: nat)
    requires e.tickMod > 0
  {
    tick % e.tickMod == 0 && tick >= e.skipUntilTick
  }

  /** An entry after one tick, on which its collector fails or not if it is run. */
  function Next(e: Entry, tick: nat, fails: bool): (r: Entry)
    requires e.tickMod > 0
    ensures r.tickMod == e.tickMod
  {
    if !Due(e, tick) then e
    else if fails then
      var k := e.consecutiveFails + 1;
      Entry(e.tickMod, k, Wrap(tick + Wrap(Min(ShiftOne(k - 1), MaxBackoff) * e.tickMod)))
    else if e.consecutiveFails > 0 then Entry(e.tickMod, 0, 0)
    else e
  }

  class Daemon {
    const scheduled: array<Entry>

    constructor (mods: seq<int>)
      ensures fresh(scheduled) && scheduled[..] == seq(|mods|, i requires 0 <= i < |mods| => Entry(mods[i], 0, 0))
    {
      scheduled := new Entry[|mods|](i requires 0 <= i < |mods| => Entry(mods[i], 0, 0));
    }

    /** One tick: runs what is due, then counts failures and sets the backoff. */
    method CollectTick(tickCount: nat, fails: seq<bool>) returns (ran: seq<bool>)
      requires |fails| == scheduled.Length
      requires forall i :: 0 <= i < scheduled.Length ==> scheduled[i].tickMod > 0
      modifies scheduled
      ensures |ran| == scheduled.Length
      ensures forall i :: 0 <= i < scheduled.Length ==>
                ran[i] == Due(old(scheduled[i]), tickCount) && scheduled[i] == Next(old(scheduled[i]), tickCount, fails[i])
    {
      ran := [];
      for i := 0 to scheduled.Length
        invariant |ran| == i
        invariant forall j :: 0 <= j < i ==> ran[j] == Due(scheduled[j], tickCount)
      {
        ran := ran + [tickCount % scheduled[i].tickMod == 0 && tickCount >= scheduled[i].skipUntilTick];
      }
      for i := 0 to scheduled.Length
        invariant forall j :: i <= j < scheduled.Length ==> scheduled[j] == old(scheduled[j])
        invariant forall j :: 0 <= j < i ==> scheduled[j] == Next(old(scheduled[j]), tickCount, fails[j])
      {
        if !ran[i] {
          continue;
        }
        var sc := scheduled[i];
        if fails[i] {
          sc := sc.(consecutiveFails := sc.consecutiveFails + 1);
          var backoff := Min(ShiftOne(sc.consecutiveFails - 1), MaxBackoff);
          sc := sc.(skipUntilTick := Wrap(tickCount + Wrap(backoff * sc.tickMod)));
        } else if sc.consecutiveFails > 0 {
          sc := sc.(consecutiveFails := 0, skipUntilTick := 0);
        }
        scheduled[i] := sc;
      }
    }
  }

  // ---- Whole runs of one collector

  /** The entry before tick `t`, when the attempts made at each tick would end as given. */
  function EntryAt(mod: int, fails: nat -> bool, t: nat): (e: Entry)
    requires mod > 0
    ensures e.tickMod == mod
  {
    if t == 0 then Entry(mod, 0, 0) else Next(EntryAt(mod, fails, t - 1), t - 1, fails(t - 1))
  }

  predicate Ran(mod: int, fails: nat -> bool, t: nat)
    requires mod > 0
  {
    Due(EntryAt(mod, fails, t), t)
  }

  /** The next attempt after the one at `t` is the one at `u`. */
  ghost predicate NextAttempt(mod: int, fails: nat -> bool, t: nat, u: nat)
    requires mod > 0
  {
    t < u && Ran(mod, fails, t) && Ran(mod, fails, u) && forall v: nat :: t < v < u ==> !Ran(mod, fails, v)
  }

  lemma {:induction false} Pow2AtMost(n: nat)
    ensures Pow2(n) >= 1
    ensures Pow2(n) < MaxBackoff <==> n < 6
    decreases n
  {
    if n > 6 {
      Pow2AtMost(n - 1);
    } else {
      assert Pow2(0) == 1 && Pow2(1) == 2 && Pow2(2) == 4 && Pow2(3) == 8;
      assert Pow2(4) == 16 && Pow2(5) == 32 && Pow2(6) == 64;
    }
  }

  ghost predicate Quiet(e: Entry, t: nat, u: nat)
    requires e.tickMod > 0
  {
    forall v: nat :: t < v < u ==> !Due(e, v)
  }

  lemma {:induction false} QuietKeepsEntry(mod: int, fails: nat -> bool, t: nat, u: nat, e: Entry)
    requires mod > 0 && t < u && e == EntryAt(mod, fails, t + 1) && Quiet(e, t, u)
    ensures EntryAt(mod, fails, u) == e
    decreases u
  {
    if u > t + 1 {
      QuietKeepsEntry(mod, fails, t, u - 1, e);
      assert !Due(e, u - 1);
    }
  }

  /** A collector in good standing is in no backoff. */
  lemma {:induction false} HealthyIsNotSkipped(mod: int, fails: nat -> bool, t: nat)
    requires mod > 0
    ensures EntryAt(mod, fails, t).consecutiveFails == 0 ==> EntryAt(mod, fails, t).skipUntilTick == 0
    decreases t
  {
    if t > 0 { HealthyIsNotSkipped(mod, fails, t - 1); }
  }

  lemma MultiplesApart(t: nat, u: nat, mod: int)
    requires mod > 0 && t % mod == 0 && u % mod == 0 && t < u
    ensures u >= t + mod
  {
    var p, q := t / mod, u / mod;
    assert u - t == (q - p) * mod;
    if q > p {
      AtLeastFactor(q - p, mod);
    } else if q < p {
      AtLeastFactor(p - q, mod);
    }
  }

  lemma MultipleLater(t: nat, k: int, mod: int)
    requires mod > 0 && t % mod == 0
    ensures (t + k * mod) % mod == 0
  {
    assert Divides(mod, mod);
    DividesSum(mod, t, k, mod);
  }

  /** The backoff, in cadences, after the k-th failure in a row. */
  function Cadences(k: nat): int {
    if 1 <= k <= 63 then Min(Pow2(k - 1), MaxBackoff) else 1
  }

  /** What the code stores after the k-th failure at `t`. */
  lemma SkipAfterFailure(k: nat, t: nat, mod: int)
    requires k > 0 && mod > 0 && t + MaxBackoff * mod < Two63
    ensures var skip := Wrap(t + Wrap(Min(ShiftOne(k - 1), MaxBackoff) * mod));
            if k <= 63 then skip == t + Cadences(k) * mod else skip <= t
  {
    if k <= 63 {
      Pow2AtMost(k - 1);
      ProductAtMost(Cadences(k), MaxBackoff, mod);
      WrapSmall(Cadences(k) * mod);
      WrapSmall(t + Cadences(k) * mod);
    } else if k == 64 {
      HighBit(mod);
      WrapSmall(t);
      WrapSmall(t - Two63);
    } else {
      WrapSmall(0);
      WrapSmall(t);
    }
  }

  lemma WrapSmall(n: int)
    requires -Two63 <= n < Two63
    ensures Wrap(n) == n
  {
  }

  lemma ProductAtMost(a: int, b: int, mod: int)
    requires 0 <= a <= b && mod > 0
    ensures 0 <= a * mod <= b * mod
  {
  }

  lemma HighBit(mod: int)
    ensures Wrap(-Two63 * mod) == if mod % 2 == 0 then 0 else -Two63
  {
    var h := mod / 2;
    if mod % 2 == 0 {
      QuotientUnique(-Two63 * mod, Two64, -h, 0);
    } else {
      QuotientUnique(-Two63 * mod, Two64, -h - 1, Two63);
    }
  }

  /** The attempt after one that leaves k failures in a row comes exactly min(2^(k-1), 64)
      cadences later, up to k = 63; after a success, and from k = 64 on, when the shift
      overflows, it comes at the very next cadence. */
  lemma NextAttemptAfter(mod: int, fails: nat -> bool, t: nat)
    requires mod > 0 && Ran(mod, fails, t) && t + MaxBackoff * mod < Two63
    ensures var k := EntryAt(mod, fails, t + 1).consecutiveFails;
            Cadences(k) * mod >= 0 && NextAttempt(mod, fails, t, t + Cadences(k) * mod)
  {
    AfterAttempt(mod, fails, t);
    var e := EntryAt(mod, fails, t + 1);
    NextAttemptFrom(mod, fails, t, e, Cadences(e.consecutiveFails));
  }

  /** What an attempt leaves in the entry. */
  lemma AfterAttempt(mod: int, fails: nat -> bool, t: nat)
    requires mod > 0 && Ran(mod, fails, t) && t + MaxBackoff * mod < Two63
    ensures var e := EntryAt(mod, fails, t + 1);
            var n := Cadences(e.consecutiveFails);
            n >= 1 && e.skipUntilTick <= t + n * mod && (n == 1 || e.skipUntilTick == t + n * mod)
  {
    var k := EntryAt(mod, fails, t + 1).consecutiveFails;
    HealthyIsNotSkipped(mod, fails, t + 1);
    if k > 0 {
      SkipAfterFailure(k, t, mod);
      Pow2AtMost(k - 1);
    }
  }

  lemma NextAttemptFrom(mod: int, fails: nat -> bool, t: nat, e: Entry, n: int)
    requires mod > 0 && Ran(mod, fails, t) && e == EntryAt(mod, fails, t + 1)
    requires n >= 1 && e.skipUntilTick <= t + n * mod && (n == 1 || e.skipUntilTick == t + n * mod)
    ensures n * mod >= 0 && NextAttempt(mod, fails, t, t + n * mod)
  {
    QuietUntil(e, t, n);
    MultipleLater(t, n, mod);
    var u := t + n * mod;
    QuietKeepsEntry(mod, fails, t, u, e);
    forall v: nat | t < v < u ensures !Ran(mod, fails, v) {
      QuietKeepsEntry(mod, fails, t, v, e);
      assert !Due(e, v);
    }
  }

  /** Nothing is due before the skip is over, nor between two cadences. */
  lemma QuietUntil(e: Entry, t: nat, n: int)
    requires e.tickMod > 0 && t % e.tickMod == 0 && n >= 1
    requires n == 1 || e.skipUntilTick == t + n * e.tickMod
    ensures n * e.tickMod >= e.tickMod && Quiet(e, t, t + n * e.tickMod)
  {
    AtLeastFactor(n, e.tickMod);
    forall v: nat | t < v < t + n * e.tickMod ensures !Due(e, v) {
      if v % e.tickMod == 0 { MultiplesApart(t, v, e.tickMod); }
    }
  }

  /** The doubling holds exactly up to 63 failures in a row. */
  lemma BackoffHoldsIff(mod: int, fails: nat -> bool, t: nat)
    requires mod > 0 && Ran(mod, fails, t) && t + MaxBackoff * mod < Two63
    ensures var k := EntryAt(mod, fails, t + 1).consecutiveFails;
            k > 0 ==>
              var u := t + Min(Pow2(k - 1), 64) * mod;
              u >= 0 && (NextAttempt(mod, fails, t, u) <==> k <= 63)
  {
    var k := EntryAt(mod, fails, t + 1).consecutiveFails;
    if k > 0 {
      NextAttemptAfter(mod, fails, t);
      Pow2AtMost(k - 1);
      if k > 63 { assert MaxBackoff * mod > mod; }
    }
  }

  lemma {:induction false} IdleKeepsEntry(mod: int, fails: nat -> bool, t: nat, u: nat)
    requires mod > 0 && t < u && forall v: nat :: t < v < u ==> !Ran(mod, fails, v)
    ensures EntryAt(mod, fails, u) == EntryAt(mod, fails, t + 1)
    decreases u
  {
    if u > t + 1 {
      IdleKeepsEntry(mod, fails, t, u - 1);
      assert !Ran(mod, fails, u - 1);
    }
  }

  lemma CadencesAtMost(k: nat, mod: int)
    requires mod > 0
    ensures 1 <= Cadences(k) <= MaxBackoff && Cadences(k) * mod <= MaxBackoff * mod
  {
    if 1 <= k <= 63 { Pow2AtMost(k - 1); }
    ProductAtMost(Cadences(k), MaxBackoff, mod);
  }

  /** A collector that always fails comes to every number of failures in a row: the k-th is
      no later than 64 * (k - 1) cadences after the first. */
  lemma {:induction false} FailuresAddUp(mod: int, k: nat) returns (t: nat)
    requires mod > 0 && k > 0 && MaxBackoff * mod * k < Two63
    ensures Ran(mod, _ => true, t) && t <= MaxBackoff * mod * (k - 1)
    ensures EntryAt(mod, _ => true, t + 1).consecutiveFails == k
    decreases k
  {
    var always: nat -> bool := _ => true;
    if k == 1 {
      t := 0;
      assert EntryAt(mod, always, 0) == Entry(mod, 0, 0);
    } else {
      var step := MaxBackoff * mod;
      assert step * k == step * (k - 1) + step && step * (k - 1) == step * (k - 2) + step;
      var before := FailuresAddUp(mod, k - 1);
      NextAttemptAfter(mod, always, before);
      CadencesAtMost(k - 1, mod);
      t := before + Cadences(k - 1) * mod;
      IdleKeepsEntry(mod, always, before, t);
    }
  }

  /** So the collapse is reached: with a cadence of one tick, by the 64th failure. */
  lemma CollapseIsReached() returns (t: nat)
    ensures Ran(1, _ => true, t) && EntryAt(1, _ => true, t + 1).consecutiveFails == 64
    ensures NextAttempt(1, _ => true, t, t + 1)
  {
    t := FailuresAddUp(1, 64);
    NextAttemptAfter(1, _ => true, t);
  }

  // ---- What consecutiveFails counts

  /** How the attempts before tick `t` ended, oldest first. */
  function Outcomes(mod: int, fails: nat -> bool, t: nat): seq<bool>
    requires mod > 0
  {
    if t == 0 then []
    else Outcomes(mod, fails, t - 1) + if Ran(mod, fails, t - 1) then [fails(t - 1)] else []
  }

  /** The last `k` outcomes are failures, and the one before them is not. */
  ghost predicate FailureRun(outcomes: seq<bool>, k: nat) {
    && k <= |outcomes|
    && (forall i :: |outcomes| - k <= i < |outcomes| ==> outcomes[i])
    && (k < |outcomes| ==> !outcomes[|outcomes| - 1 - k])
  }

  /** consecutiveFails is the length of the current run of failed attempts. */
  lemma {:induction false} CountsTheFailureRun(mod: int, fails: nat -> bool, t: nat)
    requires mod > 0
    ensures FailureRun(Outcomes(mod, fails, t), EntryAt(mod, fails, t).consecutiveFails)
    decreases t
  {
    if t > 0 { CountsTheFailureRun(mod, fails, t - 1); }
  }
}
