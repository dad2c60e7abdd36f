/** The growth of cumulative counters (SMART sectors, ECC errors) in a window. */
module Counter {
  import opened Basics

  const Lookback: int := 24 * 3600 * 1_000_000_000     // 24h, in nanoseconds

  /** One row: a host-wide series has no device, and a count may be NULL. */
  datatype Reading = Reading(ts: int, device: Option<string>, count: Option<int>)

  /** A counted row of `device` with a timestamp after `lo` and up to `hi`. */
  predicate In(r: Reading, device: Option<string>, lo: int, hi: int) {
    r.device == device && r.count.Some? && lo < r.ts <= hi
  }

  /** The latest such row. */
  function Latest(rs: seq<Reading>, device: Option<string>, lo: int, hi: int): Option<Reading> {
    if rs == [] then None
    else
      var rest, r := Latest(rs[..|rs| - 1], device, lo, hi), rs[|rs| - 1];
      if !In(r, device, lo, hi) || (rest.Some? && rest.value.ts > r.ts) then rest else Some(r)
  }

  /** The lowest such count. */
  function Lowest(rs: seq<Reading>, device: Option<string>, lo: int, hi: int): Option<int> {
    if rs == [] then None
    else
      var rest, r := Lowest(rs[..|rs| - 1], device, lo, hi), rs[|rs| - 1];
      if !In(r, device, lo, hi) || (rest.Some? && rest.value < r.count.value) then rest else Some(r.count.value)
  }

  /** The query's CASE: latest count, lowest count, and the count before the window. */
  function Case(last: int, lo: int, base: Option<int>): int {
    if base.None? then last - lo
    else if lo < base.value then last
    else last - base.value
  }

  function Base(rs: seq<Reading>, device: Option<string>, cutoff: int): Option<int> {
    var b := Latest(rs, device, cutoff - Lookback, cutoff);
    if b.Some? then b.value.count else None
  }

  /** One device's increase over the rows after `cutoff`, as seen at `now`. */
  function Increase(rs: seq<Reading>, device: Option<string>, cutoff: int, now: int): Option<int> {
    var last, lo := Latest(rs, device, cutoff, now), Lowest(rs, device, cutoff, now);
    if last.None? || last.value.count.None? || lo.None? then None
    else Some(Case(last.value.count.value, lo.value, Base(rs, device, cutoff)))
  }

  ghost predicate HasReading(rs: seq<Reading>, device: Option<string>, lo: int, hi: int) {
    exists r :: r in rs && In(r, device, lo, hi)
  }

  lemma {:induction false} LatestIs(rs: seq<Reading>, device: Option<string>, lo: int, hi: int)
    ensures Latest(rs, device, lo, hi).Some? <==> HasReading(rs, device, lo, hi)
    ensures var l := Latest(rs, device, lo, hi);
            l.Some? ==> l.value in rs && In(l.value, device, lo, hi)
    ensures var l := Latest(rs, device, lo, hi);
            l.Some? ==> forall r :: r in rs && In(r, device, lo, hi) ==> r.ts <= l.value.ts
    decreases |rs|
  {
    if rs != [] {
      var n := |rs| - 1;
      LatestIs(rs[..n], device, lo, hi);
      assert rs == rs[..n] + [rs[n]];
    }
  }

  lemma {:induction false} LowestIs(rs: seq<Reading>, device: Option<string>, lo: int, hi: int)
    ensures Lowest(rs, device, lo, hi).Some? <==> HasReading(rs, device, lo, hi)
    ensures var l := Lowest(rs, device, lo, hi);
            l.Some? ==> exists r :: r in rs && In(r, device, lo, hi) && r.count.value == l.value
    ensures var l := Lowest(rs, device, lo, hi);
            l.Some? ==> forall r :: r in rs && In(r, device, lo, hi) ==> l.value <= r.count.value
    decreases |rs|
  {
    if rs != [] {
      var n := |rs| - 1;
      LowestIs(rs[..n], device, lo, hi);
      assert rs == rs[..n] + [rs[n]];
    }
  }

  /** Adjacent windows share no row and leave none out. */
  lemma OneWindow(r: Reading, device: Option<string>, a: int, b: int, c: int)
    requires a <= b <= c
    ensures In(r, device, a, c) <==> In(r, device, a, b) || In(r, device, b, c)
    ensures !(In(r, device, a, b) && In(r, device, b, c))
  {
  }

  /** The baseline is the last count at the cutoff, unless there is none in the 24 hours before. */
  lemma BaseIs(rs: seq<Reading>, device: Option<string>, cutoff: int)
    ensures Base(rs, device, cutoff).Some? <==>
            exists r :: r in rs && r.device == device && r.count.Some? && cutoff - 86_400_000_000_000 < r.ts <= cutoff
    ensures Base(rs, device, cutoff).Some? ==> exists r ::
              && r in rs && r.device == device && r.count == Base(rs, device, cutoff)
              && cutoff - 86_400_000_000_000 < r.ts <= cutoff
              && forall q :: q in rs && q.device == device && q.count.Some? && q.ts <= cutoff ==> q.ts <= r.ts
  {
    LatestIs(rs, device, cutoff - Lookback, cutoff);
  }

  ghost predicate NonNegative(rs: seq<Reading>) {
    forall r :: r in rs && r.count.Some? ==> r.count.value >= 0
  }

  /** Whatever resets there were, an increase is never negative; there is one exactly when the
      window holds a counted row. */
  lemma IncreaseNonNegative(rs: seq<Reading>, device: Option<string>, cutoff: int, now: int)
    requires NonNegative(rs)
    ensures Increase(rs, device, cutoff, now).Some? <==> HasReading(rs, device, cutoff, now)
    ensures Increase(rs, device, cutoff, now).Some? ==> Increase(rs, device, cutoff, now).value >= 0
  {
    LatestIs(rs, device, cutoff, now);
    LowestIs(rs, device, cutoff, now);
    LatestIs(rs, device, cutoff - Lookback, cutoff);
  }

  // ---- Adjacent windows

  /** The device's counter never goes down. */
  ghost predicate Monotone(rs: seq<Reading>, device: Option<string>) {
    forall r, r' :: r in rs && r' in rs && Counts(r, device) && Counts(r', device) && r.ts <= r'.ts ==> r.count.value <= r'.count.value
  }

  predicate Counts(r: Reading, device: Option<string>) { r.device == device && r.count.Some? }

  /** Cutoffs at most a lookback apart, with a counted row in every window between them. */
  ghost predicate Adjacent(rs: seq<Reading>, device: Option<string>, cuts: seq<int>) {
    forall i :: 0 < i < |cuts| ==> cuts[i - 1] < cuts[i] <= cuts[i - 1] + Lookback && HasReading(rs, device, cuts[i - 1], cuts[i])
  }

  /** The sum of the increases of the windows between the cutoffs. */
  function Total(rs: seq<Reading>, device: Option<string>, cuts: seq<int>): int {
    if |cuts| < 2 then 0
    else
      var n := |cuts| - 1;
      var inc := Increase(rs, device, cuts[n - 1], cuts[n]);
      Total(rs, device, cuts[..n]) + if inc.Some? then inc.value else 0
  }

  lemma BaseIsLatestBefore(rs: seq<Reading>, device: Option<string>, lo: int, cutoff: int)
    requires Monotone(rs, device) && cutoff - Lookback <= lo && HasReading(rs, device, lo, cutoff)
    ensures Latest(rs, device, lo, cutoff).Some? && Base(rs, device, cutoff) == Latest(rs, device, lo, cutoff).value.count
  {
    LatestIs(rs, device, lo, cutoff);
    LatestIs(rs, device, cutoff - Lookback, cutoff);
    var a := Latest(rs, device, lo, cutoff).value;
    assert In(a, device, cutoff - Lookback, cutoff);
    var b := Latest(rs, device, cutoff - Lookback, cutoff).value;
    assert In(b, device, lo, cutoff);
    assert Counts(a, device) && Counts(b, device);
  }

  /** A never-decreasing counter's increase is its latest count less its baseline. */
  lemma MonotoneIncrease(rs: seq<Reading>, device: Option<string>, cutoff: int, now: int)
    requires Monotone(rs, device) && Base(rs, device, cutoff).Some? && HasReading(rs, device, cutoff, now)
    ensures Latest(rs, device, cutoff, now).Some? && Latest(rs, device, cutoff, now).value.count.Some?
    ensures Increase(rs, device, cutoff, now) ==
            Some(Latest(rs, device, cutoff, now).value.count.value - Base(rs, device, cutoff).value)
  {
    HasLatest(rs, device, cutoff, now);
    BaseAtMostLowest(rs, device, cutoff, now);
    IncreaseFromBase(rs, device, cutoff, now);
  }

  lemma IncreaseFromBase(rs: seq<Reading>, device: Option<string>, cutoff: int, now: int)
    requires Latest(rs, device, cutoff, now).Some? && Latest(rs, device, cutoff, now).value.count.Some?
    requires Base(rs, device, cutoff).Some? && Lowest(rs, device, cutoff, now).Some?
    requires Base(rs, device, cutoff).value <= Lowest(rs, device, cutoff, now).value
    ensures Increase(rs, device, cutoff, now) ==
            Some(Latest(rs, device, cutoff, now).value.count.value - Base(rs, device, cutoff).value)
  {
  }

  lemma HasLatest(rs: seq<Reading>, device: Option<string>, lo: int, hi: int)
    requires HasReading(rs, device, lo, hi)
    ensures Latest(rs, device, lo, hi).Some? && Latest(rs, device, lo, hi).value.count.Some?
  {
    LatestIs(rs, device, lo, hi);
  }

  lemma BaseAtMostLowest(rs: seq<Reading>, device: Option<string>, cutoff: int, now: int)
    requires Monotone(rs, device) && Base(rs, device, cutoff).Some? && HasReading(rs, device, cutoff, now)
    ensures Lowest(rs, device, cutoff, now).Some? && Base(rs, device, cutoff).value <= Lowest(rs, device, cutoff, now).value
  {
    LowestIs(rs, device, cutoff, now);
    LatestIs(rs, device, cutoff - Lookback, cutoff);
    var r :| r in rs && In(r, device, cutoff, now) && r.count.value == Lowest(rs, device, cutoff, now).value;
    var b := Latest(rs, device, cutoff - Lookback, cutoff).value;
    assert Counts(r, device) && Counts(b, device) && b.ts <= r.ts;
  }

  /** The increases of adjacent windows add up: no growth is counted twice or missed. */
  lemma {:induction false} IncreasesTelescope(rs: seq<Reading>, device: Option<string>, cuts: seq<int>)
    requires Monotone(rs, device) && |cuts| >= 2 && Adjacent(rs, device, cuts) && Base(rs, device, cuts[0]).Some?
    ensures var last := Latest(rs, device, cuts[|cuts| - 2], cuts[|cuts| - 1]);
            last.Some? && last.value.count.Some? &&
            Total(rs, device, cuts) == last.value.count.value - Base(rs, device, cuts[0]).value
    decreases |cuts|
  {
    var n := |cuts| - 1;
    if n == 1 {
      MonotoneIncrease(rs, device, cuts[0], cuts[1]);
      assert Total(rs, device, cuts[..1]) == 0;
    } else {
      AdjacentPrefix(rs, device, cuts);
      IncreasesTelescope(rs, device, cuts[..n]);
      WindowAfter(rs, device, cuts[n - 2], cuts[n - 1], cuts[n]);
    }
  }

  lemma AdjacentPrefix(rs: seq<Reading>, device: Option<string>, cuts: seq<int>)
    requires |cuts| > 2 && Adjacent(rs, device, cuts)
    ensures Adjacent(rs, device, cuts[..|cuts| - 1])
    ensures var n := |cuts| - 1;
            && cuts[n - 2] < cuts[n - 1] <= cuts[n - 2] + Lookback && HasReading(rs, device, cuts[n - 2], cuts[n - 1])
            && HasReading(rs, device, cuts[n - 1], cuts[n])
  {
    var n := |cuts| - 1;
    var before := cuts[..n];
    forall i | 0 < i < n
      ensures before[i - 1] < before[i] <= before[i - 1] + Lookback && HasReading(rs, device, before[i - 1], before[i])
    { assert cuts[i - 1] < cuts[i]; }
    assert cuts[n - 2] < cuts[n - 1] && cuts[n - 1] < cuts[n];
  }

  /** A window's increase starts where the window before it ended. */
  lemma WindowAfter(rs: seq<Reading>, device: Option<string>, a: int, b: int, c: int)
    requires Monotone(rs, device) && a < b <= a + Lookback
    requires HasReading(rs, device, a, b) && HasReading(rs, device, b, c)
    ensures var before, last := Latest(rs, device, a, b), Latest(rs, device, b, c);
            && before.Some? && before.value.count.Some? && last.Some? && last.value.count.Some?
            && Increase(rs, device, b, c) == Some(last.value.count.value - before.value.count.value)
  {
    BaseIsLatestBefore(rs, device, a, b);
    HasLatest(rs, device, a, b);
    MonotoneIncrease(rs, device, b, c);
  }

  // ---- Against the true growth

  /** Growth over successive counts: after a drop, the new count is all new. */
  function Growth(vs: seq<int>): int {
    if |vs| < 2 then 0
    else
      var a, b := vs[|vs| - 2], vs[|vs| - 1];
      Growth(vs[..|vs| - 1]) + if b < a then b else b - a
  }

  /** The sum of the counts just before a drop. */
  function Lost(vs: seq<int>): int {
    if |vs| < 2 then 0
    else
      var a, b := vs[|vs| - 2], vs[|vs| - 1];
      Lost(vs[..|vs| - 1]) + if b < a then a else 0
  }

  function MinOf(vs: seq<int>): int
    requires vs != []
  {
    if |vs| == 1 then vs[0]
    else
      var rest := MinOf(vs[..|vs| - 1]);
      if rest < vs[|vs| - 1] then rest else vs[|vs| - 1]
  }

  ghost predicate NoNegative(vs: seq<int>) { forall v :: v in vs ==> v >= 0 }

  lemma {:induction false} GrowthIs(vs: seq<int>)
    requires vs != []
    ensures Growth(vs) == vs[|vs| - 1] - vs[0] + Lost(vs)
    decreases |vs|
  {
    if |vs| >= 2 { GrowthIs(vs[..|vs| - 1]); }
  }

  /** Before the first drop counts only rise, so a count below the first one means that at
      least the first one was lost. */
  lemma {:induction false} LostAtLeastFirst(vs: seq<int>)
    requires vs != [] && NoNegative(vs)
    ensures Lost(vs) >= 0 && MinOf(vs) <= vs[|vs| - 1] && MinOf(vs) in vs
    ensures Lost(vs) == 0 || Lost(vs) >= vs[0]
    ensures MinOf(vs) < vs[0] ==> Lost(vs) >= vs[0]
    ensures Lost(vs) == 0 ==> vs[|vs| - 1] >= vs[0]
    decreases |vs|
  {
    if |vs| >= 2 {
      var rest := vs[..|vs| - 1];
      assert vs == rest + [vs[|vs| - 1]];
      assert forall v :: v in rest ==> v in vs;
      assert vs[|vs| - 1] in vs;
      LostAtLeastFirst(rest);
    }
  }

  /** The counts of a device in a time range, in table order. */
  function Values(rs: seq<Reading>, device: Option<string>, lo: int, hi: int): seq<int> {
    if rs == [] then []
    else
      var r := rs[|rs| - 1];
      Values(rs[..|rs| - 1], device, lo, hi) + if In(r, device, lo, hi) then [r.count.value] else []
  }

  ghost predicate InTimeOrder(rs: seq<Reading>) {
    forall i, j :: 0 <= i < j < |rs| ==> rs[i].ts <= rs[j].ts
  }

  lemma MinAppend(vs: seq<int>, v: int)
    ensures MinOf(vs + [v]) == if vs != [] && MinOf(vs) < v then MinOf(vs) else v
  {
    var all := vs + [v];
    assert all[..|all| - 1] == vs;
  }

  /** In time order, the latest count is the last one. */
  lemma {:induction false} LatestIsLast(rs: seq<Reading>, device: Option<string>, lo: int, hi: int)
    requires InTimeOrder(rs)
    ensures var vs, last := Values(rs, device, lo, hi), Latest(rs, device, lo, hi);
            if vs == [] then last.None? else last.Some? && last.value.count == Some(vs[|vs| - 1])
    decreases |rs|
  {
    if rs != [] {
      var n := |rs| - 1;
      LatestIsLast(rs[..n], device, lo, hi);
      LatestIsEarlier(rs, device, lo, hi);
      var vs := Values(rs[..n], device, lo, hi);
      if !In(rs[n], device, lo, hi) { assert vs + [] == vs; }
    }
  }

  lemma LatestIsEarlier(rs: seq<Reading>, device: Option<string>, lo: int, hi: int)
    requires rs != [] && InTimeOrder(rs)
    ensures var n := |rs| - 1;
            var rest := Latest(rs[..n], device, lo, hi);
            rest.Some? ==> rest.value.ts <= rs[n].ts
  {
    var n := |rs| - 1;
    LatestIs(rs[..n], device, lo, hi);
    if Latest(rs[..n], device, lo, hi).Some? {
      var i :| 0 <= i < n && rs[..n][i] == Latest(rs[..n], device, lo, hi).value;
      assert rs[i].ts <= rs[n].ts;
    }
  }

  lemma {:induction false} LowestIsMin(rs: seq<Reading>, device: Option<string>, lo: int, hi: int)
    ensures var vs, low := Values(rs, device, lo, hi), Lowest(rs, device, lo, hi);
            if vs == [] then low.None? else low.Some? && low.value == MinOf(vs)
    decreases |rs|
  {
    if rs != [] {
      var n := |rs| - 1;
      LowestIsMin(rs[..n], device, lo, hi);
      var vs := Values(rs[..n], device, lo, hi);
      if In(rs[n], device, lo, hi) {
        MinAppend(vs, rs[n].count.value);
      } else {
        assert vs + [] == vs;
      }
    }
  }

  /** The counts an increase is computed from: the baseline, if any, then the window's. */
  function History(base: Option<int>, window: seq<int>): seq<int> {
    if base.Some? then [base.value] + window else window
  }

  lemma {:induction false} MinWithFirst(v: int, vs: seq<int>)
    requires vs != []
    ensures MinOf([v] + vs) == if v < MinOf(vs) then v else MinOf(vs)
    decreases |vs|
  {
    var all := [v] + vs;
    if |vs| == 1 {
      assert all[..1] == [v];
    } else {
      assert all[..|all| - 1] == [v] + vs[..|vs| - 1];
      MinWithFirst(v, vs[..|vs| - 1]);
    }
  }

  /** An increase never exceeds the true growth; it equals it exactly when no count was lost
      to a drop, or the counts lost are those the query allows for: with a baseline, the
      baseline alone; without one, the distance from the window's first count to its lowest. */
  lemma IncreaseAgainstGrowth(rs: seq<Reading>, device: Option<string>, cutoff: int, now: int)
    requires InTimeOrder(rs) && NonNegative(rs) && HasReading(rs, device, cutoff, now)
    ensures var window, base := Values(rs, device, cutoff, now), Base(rs, device, cutoff);
            var all := History(base, window);
            && window != [] && Increase(rs, device, cutoff, now).Some?
            && Increase(rs, device, cutoff, now).value <= Growth(all)
            && (Increase(rs, device, cutoff, now).value == Growth(all) <==>
                Lost(all) == if base.None? then all[0] - MinOf(all) else if MinOf(all) < all[0] then all[0] else 0)
  {
    LatestIs(rs, device, cutoff, now);
    LatestIs(rs, device, cutoff - Lookback, cutoff);
    LatestIsLast(rs, device, cutoff, now);
    LowestIsMin(rs, device, cutoff, now);
    ValuesNonNegative(rs, device, cutoff, now);
    var window, base := Values(rs, device, cutoff, now), Base(rs, device, cutoff);
    var all := History(base, window);
    GrowthIs(all);
    LostAtLeastFirst(all);
    if base.Some? { MinWithFirst(base.value, window); }
    FirstIsAtLeastMin(all);
  }

  lemma {:induction false} FirstIsAtLeastMin(vs: seq<int>)
    requires vs != []
    ensures MinOf(vs) <= vs[0]
    decreases |vs|
  {
    if |vs| > 1 { FirstIsAtLeastMin(vs[..|vs| - 1]); }
  }

  lemma {:induction false} ValuesNonNegative(rs: seq<Reading>, device: Option<string>, lo: int, hi: int)
    requires NonNegative(rs)
    ensures NoNegative(Values(rs, device, lo, hi))
    decreases |rs|
  {
    if rs != [] {
      assert rs == rs[..|rs| - 1] + [rs[|rs| - 1]];
      ValuesNonNegative(rs[..|rs| - 1], device, lo, hi);
    }
  }

  // ---- The reported device

  datatype Finding = Finding(increase: int, device: Option<string>)

  /** Devices in order, a missing one last. */
  predicate DeviceLe(a: Option<string>, b: Option<string>) {
    b.None? || (a.Some? && NameLe(a.value, b.value))
  }

  /** `a` is listed before `b`. */
  predicate Before(a: Finding, b: Finding) {
    a.increase > b.increase || (a.increase == b.increase && DeviceLe(a.device, b.device))
  }

  /** The first finding over the devices of `some`. */
  function Worst(some: seq<Reading>, rs: seq<Reading>, cutoff: int, now: int): Option<Finding> {
    if some == [] then None
    else
      var rest, device := Worst(some[..|some| - 1], rs, cutoff, now), some[|some| - 1].device;
      var inc := Increase(rs, device, cutoff, now);
      if inc.None? then rest
      else
        var f := Finding(inc.value, device);
        if rest.Some? && Before(rest.value, f) then rest else Some(f)
  }

  lemma BeforeIsAnOrder(a: Finding, b: Finding, c: Finding)
    ensures Before(a, b) || Before(b, a)
    ensures Before(a, b) && Before(b, c) ==> Before(a, c)
  {
    if a.device.Some? && b.device.Some? { NameLeTotal(a.device.value, b.device.value); }
    if Before(a, b) && Before(b, c) && a.device.Some? && b.device.Some? && c.device.Some? &&
       NameLe(a.device.value, b.device.value) && NameLe(b.device.value, c.device.value)
    {
      NameLeTransitive(a.device.value, b.device.value, c.device.value);
    }
  }

  /** Nothing among the devices of `some` comes before `w`. */
  ghost predicate FirstAmong(some: seq<Reading>, rs: seq<Reading>, cutoff: int, now: int, w: Option<Finding>) {
    forall r :: r in some && Increase(rs, r.device, cutoff, now).Some? ==>
      w.Some? && Before(w.value, Finding(Increase(rs, r.device, cutoff, now).value, r.device))
  }

  lemma {:induction false} WorstIsFirst(some: seq<Reading>, rs: seq<Reading>, cutoff: int, now: int)
    ensures var w := Worst(some, rs, cutoff, now);
            && FirstAmong(some, rs, cutoff, now, w)
            && (w.Some? ==> Increase(rs, w.value.device, cutoff, now) == Some(w.value.increase))
    decreases |some|
  {
    if some != [] {
      var n := |some| - 1;
      WorstIsFirst(some[..n], rs, cutoff, now);
      var rest, w, r := Worst(some[..n], rs, cutoff, now), Worst(some, rs, cutoff, now), some[n];
      assert some == some[..n] + [r];
      forall x | x in some && Increase(rs, x.device, cutoff, now).Some?
        ensures w.Some? && Before(w.value, Finding(Increase(rs, x.device, cutoff, now).value, x.device))
      {
        var f := Finding(Increase(rs, x.device, cutoff, now).value, x.device);
        BeforeIsAnOrder(f, f, f);
        if rest.Some? {
          BeforeIsAnOrder(rest.value, w.value, f);
          BeforeIsAnOrder(w.value, rest.value, f);
        }
      }
    }
  }

  /** The reported finding is a device's own increase, and no device increased more; nothing
      is reported exactly when the window holds no counted row. */
  lemma ReportedIsMaximum(rs: seq<Reading>, cutoff: int, now: int, device: Option<string>)
    requires NonNegative(rs)
    ensures var w := Worst(rs, rs, cutoff, now);
            && (w.Some? <==> exists d :: HasReading(rs, d, cutoff, now))
            && (w.Some? ==> Increase(rs, w.value.device, cutoff, now) == Some(w.value.increase))
            && (HasReading(rs, device, cutoff, now) ==>
                w.Some? && Increase(rs, device, cutoff, now).Some? &&
                Increase(rs, device, cutoff, now).value <= w.value.increase &&
                (Increase(rs, device, cutoff, now).value == w.value.increase ==> DeviceLe(w.value.device, device)))
  {
    WorstIsFirst(rs, rs, cutoff, now);
    var w := Worst(rs, rs, cutoff, now);
    forall d | HasReading(rs, d, cutoff, now)
      ensures w.Some? && Increase(rs, d, cutoff, now).Some? && Before(w.value, Finding(Increase(rs, d, cutoff, now).value, d))
    {
      IncreaseNonNegative(rs, d, cutoff, now);
      var r :| r in rs && In(r, d, cutoff, now);
    }
    if w.Some? { IncreaseNonNegative(rs, w.value.device, cutoff, now); }
  }
}
