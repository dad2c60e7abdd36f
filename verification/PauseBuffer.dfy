/** The store's pause buffer: samples offered while writes are paused wait in memory,
    at most `MAX_BUFFERED` of them, and are flushed one by one after the pause, while other
    goroutines write again. */
module PauseBuffer {
  import opened Basics

  const MAX_BUFFERED: nat := 2048

  /** A collector's sample; one without data comes from a failed collector. */
  datatype Sample = Sample(id: int, hasData: bool)

  datatype Action =
    | Pause
    | Unpause
    | Flush(ok: bool)                                  // the next sample of the pause is written
    | Write(sample: Sample, ok: bool)
    | WriteBatch(samples: seq<Sample>, written: nat)   // how many are written before one fails

  // ---- What it means

  function Newest<T>(s: seq<T>, n: nat): (r: seq<T>)
    ensures |r| == if |s| < n then |s| else n
  {
    if |s| <= n then s else s[|s| - n..]
  }

  function WithData(s: seq<Sample>): seq<Sample> {
    if s == [] then [] else (if s[0].hasData then [s[0]] else []) + WithData(s[1..])
  }

  function Least(a: nat, b: nat): nat { if a < b then a else b }

  /** A sample reaching the database: its place in the order of arrival, and the pause it
      waited out, if any. */
  datatype Delivery = Delivery(place: nat, pause: Option<nat>)

  /** The meaning: a paused store queues everything; after the pause the newest of the queue
      are pending and the rest count as dropped.  A write that fails loses its sample, and
      the store does not count it.  Maintenance is exclusive, so a pause begins only after
      the flush of the one before. */
  datatype Meaning = Meaning(
    offered: seq<Sample>,          // everything offered, in order of arrival
    delivered: seq<Delivery>,
    waiting: Option<seq<nat>>,     // places queued in this pause
    pending: seq<nat>,             // places being flushed
    pauses: nat,
    dropped: nat,
    failed: nat)

  const Start: Meaning := Meaning([], [], None, [], 0, 0, 0)

  function Places(from: nat, n: nat): (r: seq<nat>)
    ensures |r| == n && forall i :: 0 <= i < n ==> r[i] == from + i
  {
    seq(n, i requires 0 <= i < n => from + i)
  }

  function Direct(from: nat, n: nat): (r: seq<Delivery>)
    ensures |r| == n && forall i :: 0 <= i < n ==> r[i] == Delivery(from + i, None)
  {
    seq(n, i requires 0 <= i < n => Delivery(from + i, None))
  }

  lemma OnePlace(k: nat)
    ensures Places(k, 1) == [k] && Direct(k, 1) == [Delivery(k, None)]
    ensures [] + Places(k, 1) == [k] && [] + Direct(k, 1) == [Delivery(k, None)]
  {
  }

  /** `s` is offered; if it is written at once, only its first `n` samples are. */
  function Offer(m: Meaning, s: seq<Sample>, n: nat): Meaning {
    var from, landed := |m.offered|, Least(n, |s|);
    if m.waiting.Some? then m.(offered := m.offered + s, waiting := Some(m.waiting.value + Places(from, |s|)))
    else m.(offered := m.offered + s, delivered := m.delivered + Direct(from, landed), failed := m.failed + (|s| - landed))
  }

  function Overflow<T>(s: seq<T>): nat { if |s| <= MAX_BUFFERED then 0 else |s| - MAX_BUFFERED }

  function Means(m: Meaning, a: Action): Meaning {
    match a
    case Pause => if m.waiting.None? && m.pending == [] then m.(waiting := Some([]), pauses := m.pauses + 1) else m
    case Unpause =>
      if m.waiting.Some? then
        m.(waiting := None, pending := Newest(m.waiting.value, MAX_BUFFERED), dropped := m.dropped + Overflow(m.waiting.value))
      else m
    case Flush(ok) =>
      if m.pending == [] then m
      else if ok then
        m.(pending := m.pending[1..], delivered := m.delivered + [Delivery(m.pending[0], Some(m.pauses))])
      else m.(pending := m.pending[1..], failed := m.failed + 1)
    case Write(s, ok) => Offer(m, [s], if ok then 1 else 0)
    case WriteBatch(ss, n) => Offer(m, WithData(ss), n)
  }

  function Run(m: Meaning, actions: seq<Action>): Meaning
    decreases |actions|
  {
    if actions == [] then m else Run(Means(m, actions[0]), actions[1..])
  }

  function Waiting(m: Meaning): seq<nat> { if m.waiting.Some? then m.waiting.value else [] }

  // ---- Every sample is accounted for

  ghost predicate Rising(s: seq<nat>) { forall i, j :: 0 <= i < j < |s| ==> s[i] < s[j] }

  /** Nothing reached the database that arrived after place `p`. */
  ghost predicate AllBefore(d: seq<Delivery>, p: nat) { forall i :: 0 <= i < |d| ==> d[i].place < p }

  ghost predicate Placed(m: Meaning) {
    && Rising(Waiting(m)) && Rising(m.pending)
    && (m.waiting.Some? ==> m.pending == [])
    && AllBefore(m.delivered, |m.offered|)
    && (forall i :: 0 <= i < |m.pending| ==> m.pending[i] < |m.offered|)
    && (forall i :: 0 <= i < |Waiting(m)| ==> Waiting(m)[i] < |m.offered| && AllBefore(m.delivered, Waiting(m)[i]))
  }

  /** Samples that waited out the same pause, or none, are delivered in order of arrival. */
  ghost predicate OrderedByPause(d: seq<Delivery>) {
    forall i, j :: 0 <= i < j < |d| && d[i].pause == d[j].pause ==> d[i].place < d[j].place
  }

  /** This pause's samples already delivered arrived before those still pending. */
  ghost predicate PauseSoFar(m: Meaning) {
    && (forall i :: 0 <= i < |m.delivered| && m.delivered[i].pause.Some? ==> m.delivered[i].pause.value <= m.pauses)
    && (m.waiting.Some? ==> forall i :: 0 <= i < |m.delivered| ==> m.delivered[i].pause != Some(m.pauses))
    && (forall i, k :: 0 <= i < |m.delivered| && m.delivered[i].pause == Some(m.pauses) && 0 <= k < |m.pending| ==>
          m.delivered[i].place < m.pending[k])
  }

  ghost predicate Counted(m: Meaning) {
    |m.offered| == |m.delivered| + |Waiting(m)| + |m.pending| + m.dropped + m.failed
  }

  ghost predicate Inv(m: Meaning) { Placed(m) && OrderedByPause(m.delivered) && PauseSoFar(m) && Counted(m) }

  lemma OfferKeeps(m: Meaning, s: seq<Sample>, n: nat)
    requires Inv(m)
    ensures Inv(Offer(m, s, n))
  {
    var m' := Offer(m, s, n);
    if m.waiting.Some? {
      forall i | 0 <= i < |Waiting(m')|
        ensures Waiting(m')[i] < |m'.offered| && AllBefore(m'.delivered, Waiting(m')[i])
      {
        if i < |Waiting(m)| { assert Waiting(m')[i] == Waiting(m)[i]; }
      }
    }
  }

  lemma UnpauseKeeps(m: Meaning)
    requires Inv(m)
    ensures Inv(Means(m, Unpause))
  {
    var m' := Means(m, Unpause);
    if m.waiting.Some? {
      forall k | 0 <= k < |m'.pending| ensures m'.pending[k] == m.waiting.value[Overflow(m.waiting.value) + k] { }
    }
  }

  lemma FlushKeeps(m: Meaning, ok: bool)
    requires Inv(m)
    ensures Inv(Means(m, Flush(ok)))
  {
    var m' := Means(m, Flush(ok));
    if m.pending != [] {
      forall k | 0 <= k < |m'.pending| ensures m'.pending[k] == m.pending[k + 1] { }
    }
  }

  lemma StepKeeps(m: Meaning, a: Action)
    requires Inv(m)
    ensures Inv(Means(m, a))
  {
    match a
    case Pause =>
    case Unpause => UnpauseKeeps(m);
    case Flush(ok) => FlushKeeps(m, ok);
    case Write(s, ok) => OfferKeeps(m, [s], if ok then 1 else 0);
    case WriteBatch(ss, n) => OfferKeeps(m, WithData(ss), n);
  }

  lemma {:induction false} RunKeeps(m: Meaning, actions: seq<Action>)
    requires Inv(m)
    ensures Inv(Run(m, actions))
    decreases |actions|
  {
    if actions != [] {
      StepKeeps(m, actions[0]);
      RunKeeps(Means(m, actions[0]), actions[1..]);
    }
  }

  /** In every run, samples that waited out the same pause are delivered in order of arrival,
      as are those written at once; and each offered sample is delivered, waiting, pending,
      counted as dropped, or lost to a write that failed. */
  lemma EveryOfferAccounted(actions: seq<Action>)
    ensures var m := Run(Start, actions);
            && OrderedByPause(m.delivered)
            && |m.offered| == |m.delivered| + |Waiting(m)| + |m.pending| + m.dropped + m.failed
  {
    RunKeeps(Start, actions);
  }

  // ---- What a pause gives up

  /** The queue of a pause is everything offered since it began. */
  lemma {:induction false} QueueIsSuffix(m: Meaning, c: nat, writes: seq<Action>)
    requires m.waiting.Some? && c <= |m.offered| && OnlyWrites(writes)
    requires m.waiting.value == Places(c, |m.offered| - c)
    ensures var m' := Run(m, writes);
            && |m.offered| <= |m'.offered| && m'.waiting == Some(Places(c, |m'.offered| - c))
            && m' == m.(offered := m'.offered, waiting := m'.waiting)
    decreases |writes|
  {
    if writes != [] {
      var m1 := Means(m, writes[0]);
      var n := |m.offered|;
      assert forall k {:trigger Places(n, k)} :: 0 <= k ==> m.waiting.value + Places(n, k) == Places(c, n - c + k);
      assert m1.waiting == Some(Places(c, |m1.offered| - c));
      QueueIsSuffix(m1, c, writes[1..]);
    }
  }

  /** Whatever happened before a pause and is offered during it: when it ends, the last 2048
      places offered are pending, or all if there are no more; only older ones are given up,
      each is counted, and nothing else is lost or delivered meanwhile. */
  lemma {:induction false} NewestAreKept(before: seq<Action>, during: seq<Action>)
    requires Run(Start, before).waiting.None? && Run(Start, before).pending == [] && OnlyWrites(during)
    ensures var m := Run(Start, before);
            var paused := Run(Means(m, Pause), during);
            var m' := Means(paused, Unpause);
            var queued := |paused.offered| - |m.offered|;
            && queued >= 0 && |m'.pending| == (if queued < 2048 then queued else 2048)
            && (forall k :: 0 <= k < |m'.pending| ==> m'.pending[k] == |m'.offered| - |m'.pending| + k)
            && (forall p, k :: |m.offered| <= p < |m'.offered| && p !in m'.pending && 0 <= k < |m'.pending| ==>
                  p < m'.pending[k])
            && m'.dropped == m.dropped + (queued - |m'.pending|)
            && m'.offered == paused.offered && m'.delivered == m.delivered && m'.failed == m.failed
  {
    var m := Run(Start, before);
    var c := |m.offered|;
    assert Places(c, 0) == [];
    QueueIsSuffix(Means(m, Pause), c, during);
    var paused := Run(Means(m, Pause), during);
    var m' := Means(paused, Unpause);
    var n := |m'.offered|;
    assert forall k :: 0 <= k < |m'.pending| ==> m'.pending[k] == n - |m'.pending| + k;
    forall p | n - |m'.pending| <= p < n ensures p in m'.pending { assert m'.pending[p - (n - |m'.pending|)] == p; }
  }

  /** Of a batch, exactly the samples with data are offered, in their order: `at` are their
      places in the batch. */
  lemma {:induction false} WithDataAt(s: seq<Sample>) returns (at: seq<nat>)
    ensures |at| == |WithData(s)|
    ensures forall k :: 0 <= k < |at| ==> at[k] < |s| && WithData(s)[k] == s[at[k]]
    ensures forall j, k :: 0 <= j < k < |at| ==> at[j] < at[k]
    ensures forall i :: 0 <= i < |s| ==> (i in at <==> s[i].hasData)
    decreases |s|
  {
    at := [];
    if s != [] {
      var last := |s| - 1;
      at := WithDataAt(s[..last]);
      WithDataAppend(s[..last], s[last]);
      assert s == s[..last] + [s[last]];
      forall i | 0 <= i < last ensures i in at <==> s[i].hasData { assert s[..last][i] == s[i]; }
      if s[last].hasData { at := at + [last]; }
    }
  }

  // ---- When the store's own count is complete

  /** The action loses samples to a write that fails. */
  predicate Loses(m: Meaning, a: Action) {
    match a
    case Flush(ok) => !ok && m.pending != []
    case Write(_, ok) => !ok && m.waiting.None?
    case WriteBatch(ss, n) => n < |WithData(ss)| && m.waiting.None?
    case _ => false
  }

  predicate SomeWriteFails(m: Meaning, actions: seq<Action>)
    decreases |actions|
  {
    actions != [] && (Loses(m, actions[0]) || SomeWriteFails(Means(m, actions[0]), actions[1..]))
  }

  lemma {:induction false} FailedIff(m: Meaning, actions: seq<Action>)
    ensures Run(m, actions).failed >= m.failed
    ensures Run(m, actions).failed == m.failed <==> !SomeWriteFails(m, actions)
    decreases |actions|
  {
    if actions != [] { FailedIff(Means(m, actions[0]), actions[1..]); }
  }

  /** Delivered, waiting, pending and dropped samples are all that were offered exactly if no
      write fails: neither one made at once, nor one of a flush. */
  lemma CountIsCompleteIff(actions: seq<Action>)
    ensures var m := Run(Start, actions);
            |m.offered| == |m.delivered| + |Waiting(m)| + |m.pending| + m.dropped <==> !SomeWriteFails(Start, actions)
  {
    EveryOfferAccounted(actions);
    FailedIff(Start, actions);
  }

  /** A sample that waited and could not be written is in no count of the store's. */
  lemma FailedFlushIsLost(s: Sample)
    ensures var m := Run(Start, [Pause, Write(s, true), Unpause, Flush(false)]);
            m.offered == [s] && m.delivered == [] && Waiting(m) == m.pending == [] && m.dropped == 0
  {
    var e3: seq<Action> := [Flush(false)];
    var e2: seq<Action> := [Unpause] + e3;
    var e1: seq<Action> := [Write(s, true)] + e2;
    var all: seq<Action> := [Pause] + e1;
    assert all[1..] == e1 && e1[1..] == e2 && e2[1..] == e3 && e3[1..] == [];
    var m1 := Means(Start, Pause);
    var m2 := Means(m1, Write(s, true));
    OnePlace(0);
    assert m2.waiting == Some([0]) && m2.offered == [s];
    var m3 := Means(m2, Unpause);
    assert Run(m3, e3) == Means(m3, Flush(false));
    assert Run(m2, e2) == Run(m3, e3);
    assert Run(m1, e1) == Run(m2, e2);
    assert all == [Pause, Write(s, true), Unpause, Flush(false)];
  }

  // ---- When everything is delivered in order of arrival

  ghost predicate InOrder(d: seq<Delivery>) { forall i, j :: 0 <= i < j < |d| ==> d[i].place < d[j].place }

  /** The action writes a sample at once, past those pending. */
  predicate GetsThrough(m: Meaning, a: Action) {
    m.pending != [] && m.waiting.None? &&
    match a
    case Write(_, ok) => ok
    case WriteBatch(ss, n) => n > 0 && WithData(ss) != []
    case _ => false
  }

  /** Some sample of those pending is still written. */
  predicate FlushLands(m: Meaning, actions: seq<Action>)
    decreases |actions|
  {
    m.pending != [] && actions != [] &&
    (actions[0] == Flush(true) || FlushLands(Means(m, actions[0]), actions[1..]))
  }

  /** Somewhere in the run a write gets through between the end of a pause and the write of a
      sample that waited it out. */
  predicate Overtakes(m: Meaning, actions: seq<Action>)
    decreases |actions|
  {
    actions != [] &&
    ((GetsThrough(m, actions[0]) && FlushLands(Means(m, actions[0]), actions[1..])) ||
     Overtakes(Means(m, actions[0]), actions[1..]))
  }

  /** A sample has been delivered that arrived after all those pending. */
  ghost predicate Passed(m: Meaning) {
    m.pending != [] && exists i :: 0 <= i < |m.delivered| && PastAll(m.delivered[i].place, m.pending)
  }

  ghost predicate PastAll(place: nat, pending: seq<nat>) { forall k :: 0 <= k < |pending| ==> pending[k] < place }

  /** Or all those delivered arrived before all those pending. */
  ghost predicate Unpassed(m: Meaning) { forall k :: 0 <= k < |m.pending| ==> AllBefore(m.delivered, m.pending[k]) }

  ghost predicate Decided(m: Meaning) { Inv(m) && InOrder(m.delivered) && (Passed(m) || Unpassed(m)) }

  lemma {:induction false} DisorderStays(m: Meaning, actions: seq<Action>)
    requires !InOrder(m.delivered)
    ensures !InOrder(Run(m, actions).delivered)
    decreases |actions|
  {
    if actions != [] {
      var m' := Means(m, actions[0]);
      var i, j :| 0 <= i < j < |m.delivered| && m.delivered[i].place >= m.delivered[j].place;
      assert m'.delivered[i] == m.delivered[i] && m'.delivered[j] == m.delivered[j];
      DisorderStays(m', actions[1..]);
    }
  }

  lemma OfferDecides(m: Meaning, s: seq<Sample>, n: nat)
    requires Decided(m)
    ensures var m' := Offer(m, s, n);
            && InOrder(m'.delivered) && (Passed(m') || Unpassed(m'))
            && (Passed(m') <==> Passed(m) || (m.pending != [] && m.waiting.None? && n > 0 && s != []))
  {
    var m' := Offer(m, s, n);
    if m.waiting.None? && n > 0 && s != [] && m.pending != [] {
      assert m'.delivered[|m.delivered|] == Delivery(|m.offered|, None);
      assert PastAll(m'.delivered[|m.delivered|].place, m'.pending);
    } else if Passed(m) {
      var i :| 0 <= i < |m.delivered| && PastAll(m.delivered[i].place, m.pending);
      assert m'.delivered[i] == m.delivered[i];
    }
  }

  /** What one action does to the order: it is lost exactly by flushing a sample that has been
      passed. */
  lemma StepDecides(m: Meaning, a: Action)
    requires Decided(m)
    ensures var m' := Means(m, a);
            && (InOrder(m'.delivered) <==> !(a == Flush(true) && Passed(m)))
            && (InOrder(m'.delivered) ==> Decided(m'))
            && (a != Flush(true) ==> (Passed(m') <==> m'.pending != [] && (Passed(m) || GetsThrough(m, a))))
            && (a == Flush(true) && !Passed(m) ==> !Passed(m'))
  {
    StepKeeps(m, a);
    match a
    case Write(s, ok) => OfferDecides(m, [s], if ok then 1 else 0);
    case WriteBatch(ss, n) => OfferDecides(m, WithData(ss), n);
    case Pause => assert !Passed(m) || m.pending != [];
    case Unpause => UnpauseDecides(m);
    case Flush(ok) => if m.pending != [] { FlushDecides(m, ok); }
  }

  lemma UnpauseDecides(m: Meaning)
    requires Decided(m)
    ensures var m' := Means(m, Unpause);
            && m'.delivered == m.delivered && (Passed(m') || Unpassed(m'))
            && (Passed(m') <==> Passed(m))
  {
    var m' := Means(m, Unpause);
    if m.waiting.Some? {
      forall k | 0 <= k < |m'.pending| ensures AllBefore(m'.delivered, m'.pending[k]) {
        assert m'.pending[k] == m.waiting.value[Overflow(m.waiting.value) + k];
      }
      UnpassedIsNotPassed(m');
    }
  }

  lemma UnpassedIsNotPassed(m: Meaning)
    requires Unpassed(m)
    ensures !Passed(m)
  {
    if m.pending != [] {
      forall i | 0 <= i < |m.delivered| ensures !PastAll(m.delivered[i].place, m.pending) {
        assert AllBefore(m.delivered, m.pending[0]);
      }
    }
  }

  lemma FlushDecides(m: Meaning, ok: bool)
    requires Decided(m) && m.pending != []
    ensures var m' := Means(m, Flush(ok));
            && (InOrder(m'.delivered) <==> !(ok && Passed(m)))
            && (InOrder(m'.delivered) ==> Passed(m') || Unpassed(m'))
            && (!ok ==> (Passed(m') <==> m'.pending != [] && Passed(m)))
            && (ok && !Passed(m) ==> !Passed(m'))
  {
    var m' := Means(m, Flush(ok));
    var p := m.pending[0];
    if Passed(m) {
      var i :| 0 <= i < |m.delivered| && PastAll(m.delivered[i].place, m.pending);
      assert p < m.delivered[i].place;
      if ok {
        assert m'.delivered[i] == m.delivered[i] && m'.delivered[|m.delivered|].place == p;
      } else {
        assert PastAll(m'.delivered[i].place, m'.pending);
      }
    } else {
      assert AllBefore(m.delivered, p);
      forall k | 0 <= k < |m'.pending| ensures AllBefore(m'.delivered, m'.pending[k]) {
        assert m'.pending[k] == m.pending[k + 1];
        assert AllBefore(m.delivered, m.pending[k + 1]);
      }
      UnpassedIsNotPassed(m');
    }
  }

  lemma {:induction false} OrderIff(m: Meaning, actions: seq<Action>)
    requires Decided(m)
    ensures InOrder(Run(m, actions).delivered) <==> !Overtakes(m, actions) && !(Passed(m) && FlushLands(m, actions))
    decreases |actions|
  {
    if actions != [] {
      var m' := Means(m, actions[0]);
      StepDecides(m, actions[0]);
      if InOrder(m'.delivered) { OrderIff(m', actions[1..]); } else { DisorderStays(m', actions[1..]); }
    }
  }

  /** Everything delivered is delivered in order of arrival exactly if no write gets through
      between the end of a pause and the write of a sample that waited it out. */
  lemma DeliveredInOrderIff(actions: seq<Action>)
    ensures InOrder(Run(Start, actions).delivered) <==> !Overtakes(Start, actions)
  {
    OrderIff(Start, actions);
  }

  /** A write made during the flush overtakes a sample that arrived before it. */
  lemma NewerIsDeliveredFirst(a: Sample, b: Sample)
    ensures var actions := [Pause, Write(a, true), Unpause, Write(b, true), Flush(true)];
            && Overtakes(Start, actions)
            && Run(Start, actions).delivered == [Delivery(1, None), Delivery(0, Some(1))]
  {
    var e4: seq<Action> := [Flush(true)];
    var e3: seq<Action> := [Write(b, true)] + e4;
    var e2: seq<Action> := [Unpause] + e3;
    var e1: seq<Action> := [Write(a, true)] + e2;
    var all: seq<Action> := [Pause] + e1;
    assert all[1..] == e1 && e1[1..] == e2 && e2[1..] == e3 && e3[1..] == e4 && e4[1..] == [];
    var m4 := NewerIsWritten(a, b);
    assert Run(m4, e4) == Means(m4, Flush(true));
    var m1 := Means(Start, Pause);
    var m2 := Means(m1, Write(a, true));
    var m3 := Means(m2, Unpause);
    assert Run(m3, e3) == Run(m4, e4);
    assert Run(m2, e2) == Run(m3, e3);
    assert Run(m1, e1) == Run(m2, e2);
    assert Run(Start, all) == Run(m1, e1);
    assert all == [Pause, Write(a, true), Unpause, Write(b, true), Flush(true)];
    DeliveredInOrderIff(all);
    var d := Run(Start, all).delivered;
    assert d == [Delivery(1, None), Delivery(0, Some(1))];
    assert d[0].place >= d[1].place;
  }

  lemma NewerIsWritten(a: Sample, b: Sample) returns (m: Meaning)
    ensures m == Means(Means(Means(Means(Start, Pause), Write(a, true)), Unpause), Write(b, true))
    ensures m.delivered == [Delivery(1, None)] && m.pending == [0] && m.pauses == 1
  {
    OnePlace(0);
    OnePlace(1);
    var m2 := Means(Means(Start, Pause), Write(a, true));
    assert m2.waiting == Some([0]) && |m2.offered| == 1;
    m := Means(Means(m2, Unpause), Write(b, true));
  }

  // ---- The store

  ghost function At(offered: seq<Sample>, places: seq<nat>): (r: seq<Sample>)
    requires forall i :: 0 <= i < |places| ==> places[i] < |offered|
    ensures |r| == |places| && forall i :: 0 <= i < |places| ==> r[i] == offered[places[i]]
  {
    seq(|places|, i requires 0 <= i < |places| => offered[places[i]])
  }

  ghost function Reached(offered: seq<Sample>, d: seq<Delivery>): (r: seq<Sample>)
    requires AllBefore(d, |offered|)
    ensures |r| == |d| && forall i :: 0 <= i < |d| ==> r[i] == offered[d[i].place]
  {
    seq(|d|, i requires 0 <= i < |d| => offered[d[i].place])
  }

  lemma {:induction false} RunAppend(m: Meaning, a: seq<Action>, b: seq<Action>)
    ensures Run(m, a + b) == Run(Run(m, a), b)
    decreases |a|
  {
    if a == [] {
      assert a + b == b;
    } else {
      assert (a + b)[1..] == a[1..] + b;
      RunAppend(Means(m, a[0]), a[1..], b);
    }
  }

  predicate OnlyWrites(actions: seq<Action>) {
    forall k :: 0 <= k < |actions| ==> actions[k].Write? || actions[k].WriteBatch?
  }

  /** The flush of `n` samples, with what other goroutines write before each of them. */
  function Interleaved(n: nat, ok: nat -> bool, between: nat -> seq<Action>): seq<Action> {
    if n == 0 then [] else Interleaved(n - 1, ok, between) + (between(n - 1) + [Flush(ok(n - 1))])
  }

  ghost predicate FlushedSoFar(m: Meaning, now: Meaning, i: nat, ok: nat -> bool, between: nat -> seq<Action>) {
    now == Run(m, Interleaved(i, ok, between))
  }

  lemma InterleavedNext(m: Meaning, now: Meaning, i: nat, ok: nat -> bool, between: nat -> seq<Action>) returns (next: Meaning)
    requires FlushedSoFar(m, now, i, ok, between)
    ensures next == Means(Run(now, between(i)), Flush(ok(i))) && FlushedSoFar(m, next, i + 1, ok, between)
  {
    RunAppend(m, Interleaved(i, ok, between), between(i) + [Flush(ok(i))]);
    RunAppend(now, between(i), [Flush(ok(i))]);
    assert [Flush(ok(i))][1..] == [];
    next := Means(Run(now, between(i)), Flush(ok(i)));
  }

  /** Writes of others leave what is pending, and add nothing that waited out a pause. */
  lemma {:induction false} WritesLeavePending(m: Meaning, writes: seq<Action>)
    requires m.waiting.None? && OnlyWrites(writes)
    ensures var m' := Run(m, writes);
            && m'.waiting.None? && m'.pending == m.pending && m'.pauses == m.pauses
            && m.delivered <= m'.delivered
            && forall i :: |m.delivered| <= i < |m'.delivered| ==> m'.delivered[i].pause.None?
    decreases |writes|
  {
    if writes != [] {
      assert writes[0].Write? || writes[0].WriteBatch?;
      WritesLeavePending(Means(m, writes[0]), writes[1..]);
    }
  }

  /** What a flush has come to after `n` of the samples pending at `m`. */
  ghost predicate FlushedEach(m: Meaning, now: Meaning, n: nat, ok: nat -> bool)
    requires n <= |m.pending|
  {
    && now.waiting.None? && now.pauses == m.pauses && now.pending == m.pending[n..]
    && (forall d: Delivery :: d in now.delivered && d.pause == Some(m.pauses) ==> d.place in m.pending[..n])
    && (forall k :: 0 <= k < n ==> (Delivery(m.pending[k], Some(m.pauses)) in now.delivered <==> ok(k)))
  }

  lemma WritesKeepFlushed(m: Meaning, now: Meaning, n: nat, ok: nat -> bool, writes: seq<Action>)
    requires n <= |m.pending| && FlushedEach(m, now, n, ok) && OnlyWrites(writes)
    ensures FlushedEach(m, Run(now, writes), n, ok)
  {
    WritesLeavePending(now, writes);
    var next := Run(now, writes);
    forall d: Delivery | d.pause == Some(m.pauses) ensures d in next.delivered <==> d in now.delivered {
      if d in now.delivered {
        var i :| 0 <= i < |now.delivered| && now.delivered[i] == d;
        assert next.delivered[i] == d;
      }
    }
  }

  lemma OneMoreFlushed(m: Meaning, now: Meaning, n: nat, ok: nat -> bool)
    requires n < |m.pending| && Rising(m.pending) && FlushedEach(m, now, n, ok)
    ensures FlushedEach(m, Means(now, Flush(ok(n))), n + 1, ok)
  {
    var next := Means(now, Flush(ok(n)));
    assert m.pending[n..][1..] == m.pending[n + 1..] && m.pending[..n + 1] == m.pending[..n] + [m.pending[n]];
    forall k | 0 <= k <= n
      ensures Delivery(m.pending[k], Some(m.pauses)) in next.delivered <==> ok(k)
    {
      var d := Delivery(m.pending[k], Some(m.pauses));
      if k == n { assert d.place !in m.pending[..n]; }
    }
  }

  /** After a flush, whatever others wrote meanwhile: of the samples that waited out the pause
      exactly those whose own write works are delivered; a failed one takes no other with it. */
  lemma {:induction false} EachIsFlushed(m: Meaning, n: nat, ok: nat -> bool, between: nat -> seq<Action>)
    requires m.waiting.None? && Rising(m.pending) && n <= |m.pending|
    requires forall d: Delivery :: d in m.delivered ==> d.pause != Some(m.pauses)
    requires forall i: nat :: OnlyWrites(between(i))
    ensures FlushedEach(m, Run(m, Interleaved(n, ok, between)), n, ok)
    decreases n
  {
    if n > 0 {
      var now := Run(m, Interleaved(n - 1, ok, between));
      EachIsFlushed(m, n - 1, ok, between);
      WritesKeepFlushed(m, now, n - 1, ok, between(n - 1));
      OneMoreFlushed(m, Run(now, between(n - 1)), n - 1, ok);
      var next := InterleavedNext(m, now, n - 1, ok, between);
    } else {
      assert m.pending[0..] == m.pending;
    }
  }

  /** In every run: what a pause leaves pending is written one by one. */
  lemma FlushDeliversEach(actions: seq<Action>, ok: nat -> bool, between: nat -> seq<Action>)
    requires Run(Start, actions).waiting.Some? && forall i: nat :: OnlyWrites(between(i))
    ensures var m := Means(Run(Start, actions), Unpause);
            var m' := Run(m, Interleaved(|m.pending|, ok, between));
            && m'.pending == []
            && forall k :: 0 <= k < |m.pending| ==> (Delivery(m.pending[k], Some(m.pauses)) in m'.delivered <==> ok(k))
  {
    var m0 := Run(Start, actions);
    var m := Means(m0, Unpause);
    RunKeeps(Start, actions);
    StepKeeps(m0, Unpause);
    EachIsFlushed(m, |m.pending|, ok, between);
  }

  class Store {
    var paused: bool
    var buf: seq<Sample>
    var bufDropped: nat
    var bufDroppedTotal: nat
    var written: seq<Sample>   // what reached the database
    ghost var failed: nat      // samples lost to failed writes, which are only logged

    /** The buffer stands for a queue of everything offered since the pause began; `flushing`
        is what a resume has still to write. */
    ghost predicate StandsFor(m: Meaning, flushing: seq<Sample>)
      reads this
    {
      && Inv(m)
      && written == Reached(m.offered, m.delivered) && flushing == At(m.offered, m.pending)
      && bufDroppedTotal == m.dropped && failed == m.failed
      && (paused <==> m.waiting.Some?)
      && (paused ==> buf == Newest(At(m.offered, m.waiting.value), MAX_BUFFERED) && bufDropped == Overflow(m.waiting.value))
      && (!paused ==> buf == [] && bufDropped == 0)
    }

    constructor ()
      ensures StandsFor(Start, [])
    {
      paused, buf, bufDropped, bufDroppedTotal, written, failed := false, [], 0, 0, [], 0;
    }

    method BufferLocked(sample: Sample)
      modifies this`buf, this`bufDropped
      ensures buf == Newest(old(buf) + [sample], MAX_BUFFERED)
      ensures bufDropped == old(bufDropped) + Overflow(old(buf) + [sample])
      ensures |buf| == if |old(buf)| < 2048 then |old(buf)| + 1 else 2048
      ensures LastOf(old(buf) + [sample], buf)
      ensures bufDropped == old(bufDropped) + (|old(buf)| + 1 - |buf|)
    {
      NewestAt(buf + [sample], MAX_BUFFERED);
      buf := buf + [sample];
      var over := |buf| - MAX_BUFFERED;
      if over > 0 {
        buf := buf[over..];
        bufDropped := bufDropped + over;
      }
    }

    method PauseWrites(ghost m: Meaning)
      requires StandsFor(m, [])
      modifies this
      ensures StandsFor(Means(m, Pause), [])
    {
      StepKeeps(m, Pause);
      paused := true;
    }

    /** Takes the buffer and lets others write again. */
    method EndPause(ghost m: Meaning) returns (pending: seq<Sample>)
      requires StandsFor(m, [])
      modifies this
      ensures StandsFor(Means(m, Unpause), pending) && !paused
    {
      StepKeeps(m, Unpause);
      pending := buf;
      buf := [];
      bufDroppedTotal := bufDroppedTotal + bufDropped;
      bufDropped := 0;
      paused := false;
      ghost var m' := Means(m, Unpause);
      assert pending == At(m'.offered, m'.pending);
    }

    /** Ends the pause, then writes what waited, one sample after the other.  Once the pause
        has ended others write as well: before sample i they do `between(i)`. */
    method ResumeWrites(ok: nat -> bool, between: nat -> seq<Action>, ghost m: Meaning)
      requires StandsFor(m, [])
      requires forall i: nat :: OnlyWrites(between(i))
      modifies this
      ensures var m' := Means(m, Unpause);
              StandsFor(Run(m', Interleaved(|m'.pending|, ok, between)), [])
    {
      var pending := EndPause(m);
      FlushAll(pending, ok, between, Means(m, Unpause));
    }

    method FlushAll(pending: seq<Sample>, ok: nat -> bool, between: nat -> seq<Action>, ghost m: Meaning)
      requires StandsFor(m, pending) && !paused
      requires forall i: nat :: OnlyWrites(between(i))
      modifies this
      ensures StandsFor(Run(m, Interleaved(|pending|, ok, between)), [])
    {
      ghost var now := m;
      var i, rest := 0, pending;
      while rest != []
        invariant i + |rest| == |pending|
        invariant FlushedSoFar(m, now, i, ok, between)
        invariant StandsFor(now, rest) && !paused
        decreases |rest|
      {
        assert rest == [rest[0]] + rest[1..];
        FlushNext(rest[0], rest[1..], between(i), ok(i), now);
        now := InterleavedNext(m, now, i, ok, between);
        i, rest := i + 1, rest[1..];
      }
    }

    method FlushNext(sample: Sample, ghost rest: seq<Sample>, before: seq<Action>, ok: bool, ghost m: Meaning)
      requires StandsFor(m, [sample] + rest) && !paused && OnlyWrites(before)
      modifies this
      ensures StandsFor(Means(Run(m, before), Flush(ok)), rest) && !paused
    {
      Interfere(before, m, [sample] + rest);
      FlushOne(sample, rest, ok, Run(m, before));
    }

    method FlushOne(sample: Sample, ghost rest: seq<Sample>, ok: bool, ghost m: Meaning)
      requires StandsFor(m, [sample] + rest) && !paused
      modifies this`written, this`failed
      ensures StandsFor(Means(m, Flush(ok)), rest)
    {
      StepKeeps(m, Flush(ok));
      assert ([sample] + rest)[0] == sample && ([sample] + rest)[1..] == rest;
      if ok {
        written := written + [sample];
      } else {
        failed := failed + 1;
      }
    }

    method Interfere(actions: seq<Action>, ghost m: Meaning, ghost flushing: seq<Sample>)
      requires StandsFor(m, flushing) && OnlyWrites(actions)
      modifies this
      ensures StandsFor(Run(m, actions), flushing)
      ensures paused == old(paused)
    {
      ghost var now := m;
      for i := 0 to |actions|
        invariant StandsFor(now, flushing) && now == Run(m, actions[..i]) && paused == old(paused)
      {
        match actions[i] {
          case Write(s, ok) => WriteSample(s, ok, now, flushing);
          case WriteBatch(ss, n) => WriteSamples(ss, n, now, flushing);
        }
        assert actions[..i + 1] == actions[..i] + [actions[i]];
        RunAppend(m, actions[..i], [actions[i]]);
        assert [actions[i]][1..] == [];
        now := Means(now, actions[i]);
      }
      assert actions[..|actions|] == actions;
    }

    method WriteSample(sample: Sample, ok: bool, ghost m: Meaning, ghost flushing: seq<Sample>)
      requires StandsFor(m, flushing)
      modifies this
      ensures StandsFor(Means(m, Write(sample, ok)), flushing)
      ensures paused == old(paused)
    {
      StepKeeps(m, Write(sample, ok));
      if paused {
        Queue(sample, m, flushing);
      } else if ok {
        written := written + [sample];
      } else {
        failed := failed + 1;
      }
    }

    /** Queues one sample. */
    method Queue(sample: Sample, ghost m: Meaning, ghost flushing: seq<Sample>)
      requires StandsFor(m, flushing) && paused
      modifies this`buf, this`bufDropped
      ensures StandsFor(Offer(m, [sample], 0), flushing)
    {
      OfferKeeps(m, [sample], 0);
      ghost var m' := Offer(m, [sample], 0);
      assert At(m'.offered, m'.waiting.value) == At(m.offered, m.waiting.value) + [sample];
      NewestAppend(At(m.offered, m.waiting.value), sample);
      BufferLocked(sample);
    }

    method WriteSamples(samples: seq<Sample>, works: nat, ghost m: Meaning, ghost flushing: seq<Sample>)
      requires StandsFor(m, flushing)
      modifies this
      ensures StandsFor(Means(m, WriteBatch(samples, works)), flushing)
      ensures paused == old(paused)
    {
      if paused {
        QueueAll(samples, works, m, flushing);
      } else {
        var n := WriteUpTo(samples, works);
        Landed(m, WithData(samples), works, written);
      }
    }

    method QueueAll(samples: seq<Sample>, ghost works: nat, ghost m: Meaning, ghost flushing: seq<Sample>)
      requires StandsFor(m, flushing) && paused
      modifies this
      ensures StandsFor(Offer(m, WithData(samples), works), flushing) && paused
    {
      OfferNothing(m, works);
      for i := 0 to |samples|
        invariant StandsFor(Offer(m, WithData(samples[..i]), works), flushing) && paused
      {
        WithDataAppend(samples[..i], samples[i]);
        assert samples[..i + 1] == samples[..i] + [samples[i]];
        if samples[i].hasData {
          ghost var now := Offer(m, WithData(samples[..i]), works);
          OfferMore(m, WithData(samples[..i]), samples[i], works);
          Queue(samples[i], now, flushing);
        } else {
          assert WithData(samples[..i]) + [] == WithData(samples[..i]);
        }
      }
      assert samples[..|samples|] == samples;
    }

    /** Writes the samples with data, up to the one whose write fails. */
    method WriteUpTo(samples: seq<Sample>, works: nat) returns (n: nat)
      modifies this`written, this`failed
      ensures n == Least(works, |WithData(samples)|)
      ensures written == old(written) + WithData(samples)[..n] && failed == old(failed) + (|WithData(samples)| - n)
    {
      n := 0;
      for i := 0 to |samples|
        invariant n == |WithData(samples[..i])| <= works
        invariant written == old(written) + WithData(samples[..i]) && failed == old(failed)
      {
        WithDataAppend(samples[..i], samples[i]);
        assert samples[..i + 1] == samples[..i] + [samples[i]];
        if samples[i].hasData {
          if n == works {
            WithDataPrefix(samples, i);
            failed := failed + (|WithData(samples)| - n);
            return;
          }
          assert (old(written) + WithData(samples[..i])) + [samples[i]] == old(written) + WithData(samples[..i + 1]);
          written := written + [samples[i]];
          n := n + 1;
        } else {
          assert WithData(samples[..i]) + [] == WithData(samples[..i]);
        }
      }
      assert samples[..|samples|] == samples && WithData(samples)[..n] == WithData(samples);
    }
  }

  /** Index by index, `kept` is the end of `all`. */
  predicate LastOf<T(==)>(all: seq<T>, kept: seq<T>) {
    |kept| <= |all| && forall k :: 0 <= k < |kept| ==> kept[k] == all[|all| - |kept| + k]
  }

  lemma NewestAt<T>(s: seq<T>, n: nat)
    ensures LastOf(s, Newest(s, n))
  {
  }

  lemma OfferNothing(m: Meaning, n: nat)
    requires m.waiting.Some?
    ensures Offer(m, [], n) == m
  {
    assert m.offered + [] == m.offered && m.waiting.value + Places(|m.offered|, 0) == m.waiting.value;
  }

  lemma OfferMore(m: Meaning, s: seq<Sample>, x: Sample, n: nat)
    requires m.waiting.Some?
    ensures Offer(Offer(m, s, n), [x], 0) == Offer(m, s + [x], n)
  {
    var from := |m.offered|;
    assert (m.offered + s) + [x] == m.offered + (s + [x]);
    assert (m.waiting.value + Places(from, |s|)) + Places(from + |s|, 1) == m.waiting.value + Places(from, |s| + 1);
  }

  /** What a batch written at once leaves in the database. */
  lemma Landed(m: Meaning, s: seq<Sample>, n: nat, written: seq<Sample>)
    requires Inv(m) && m.waiting.None?
    requires written == Reached(m.offered, m.delivered) + s[..Least(n, |s|)]
    ensures var m' := Offer(m, s, n);
            && Inv(m') && written == Reached(m'.offered, m'.delivered)
            && At(m'.offered, m'.pending) == At(m.offered, m.pending)
  {
    OfferKeeps(m, s, n);
  }

  /** The samples with data before position `i`, which has data itself. */
  lemma {:induction false} WithDataPrefix(a: seq<Sample>, i: nat)
    requires i < |a| && a[i].hasData
    ensures |WithData(a[..i])| < |WithData(a)| && WithData(a)[..|WithData(a[..i])|] == WithData(a[..i])
    decreases |a|
  {
    if i > 0 {
      assert a[..i][0] == a[0] && a[..i][1..] == a[1..][..i - 1];
      WithDataPrefix(a[1..], i - 1);
    } else {
      assert a[..0] == [];
    }
  }

  /** Dropping the oldest one sample at a time keeps the newest of the whole queue. */
  lemma NewestAppend(q: seq<Sample>, s: Sample)
    ensures Newest(Newest(q, MAX_BUFFERED) + [s], MAX_BUFFERED) == Newest(q + [s], MAX_BUFFERED)
    ensures Overflow(q) + Overflow(Newest(q, MAX_BUFFERED) + [s]) == Overflow(q + [s])
  {
  }

  lemma {:induction false} WithDataAppend(a: seq<Sample>, s: Sample)
    ensures WithData(a + [s]) == WithData(a) + if s.hasData then [s] else []
    decreases |a|
  {
    if a == [] {
      assert a + [s] == [s] && [s][1..] == [];
    } else {
      assert (a + [s])[1..] == a[1..] + [s] && (a + [s])[0] == a[0];
      WithDataAppend(a[1..], s);
      var h, t := if a[0].hasData then [a[0]] else [], if s.hasData then [s] else [];
      assert h + (WithData(a[1..]) + t) == (h + WithData(a[1..])) + t;
    }
  }
}
