/** The cache of process instances already written to process_info.

    It only saves statements: the table is at every moment what inserting every process
    of every batch with ON CONFLICT DO NOTHING would have made it. */
module ProcessInfoCache {

  /** A process instance: PID reuse is told apart by start time. */
  datatype Key = Key(pid: int, startTime: int)

  datatype Proc = Proc(key: Key, attributes: int)

  datatype Info = Info(attributes: int, firstSeen: int)

  type Table = map<Key, Info>

  datatype Action =
    | Batch(ts: int, procs: seq<Proc>, ok: bool)  // ok: the insert statement succeeds
    | Evict(cutoff: int)
    | Prune(live: set<Key>, now: int)             // live: instances that still have metrics
    | Rebuild(now: int)                           // start, or the reload after compaction
    | Reload(rows: Table)                         // unarchive: INSERT OR IGNORE old rows

  /** INSERT … ON CONFLICT DO NOTHING, row by row. */
  function InsertIgnore(t: Table, procs: seq<Proc>, ts: int): Table
    decreases |procs|
  {
    if procs == [] then t
    else
      var p := procs[0];
      InsertIgnore(if p.key in t then t else t[p.key := Info(p.attributes, ts)], procs[1..], ts)
  }

  function Uncached(procs: seq<Proc>, cache: map<Key, int>): seq<Proc> {
    if procs == [] then []
    else (if procs[0].key in cache then [] else [procs[0]]) + Uncached(procs[1..], cache)
  }

  predicate Mentions(procs: seq<Proc>, k: Key) { exists p :: p in procs && p.key == k }

  /** Cached instances that are seen again get a new last-seen time. */
  function Refreshed(cache: map<Key, int>, procs: seq<Proc>, ts: int): map<Key, int> {
    map k | k in cache :: if Mentions(procs, k) then ts else cache[k]
  }

  function Touch(cache: map<Key, int>, procs: seq<Proc>, ts: int): map<Key, int> {
    if procs == [] then cache else Touch(cache, procs[..|procs| - 1], ts)[procs[|procs| - 1].key := ts]
  }

  function Loaded(t: Table, now: int): map<Key, int> { map k | k in t :: now }

  function Pruned(t: Table, live: set<Key>): Table { map k | k in t && k in live :: t[k] }

  datatype World = World(table: Table, cache: map<Key, int>)

  function Step(w: World, a: Action): World {
    match a
    case Batch(ts, procs, ok) =>
      var added := Uncached(procs, w.cache);
      var touched := Refreshed(w.cache, procs, ts);
      if added == [] || !ok then w.(cache := touched)
      else World(InsertIgnore(w.table, added, ts), Touch(touched, added, ts))
    case Evict(cutoff) => w.(cache := map k | k in w.cache && w.cache[k] >= cutoff :: w.cache[k])
    case Prune(live, now) => World(Pruned(w.table, live), Loaded(Pruned(w.table, live), now))
    case Rebuild(now) => w.(cache := Loaded(w.table, now))
    case Reload(rows) => w.(table := rows + w.table)
  }

  /** The same actions without a cache. */
  function PlainStep(t: Table, a: Action): Table {
    match a
    case Batch(ts, procs, ok) => if ok then InsertIgnore(t, procs, ts) else t
    case Evict(_) => t
    case Prune(live, _) => Pruned(t, live)
    case Rebuild(_) => t
    case Reload(rows) => rows + t
  }

  function Run(w: World, actions: seq<Action>): World
    decreases |actions|
  {
    if actions == [] then w else Run(Step(w, actions[0]), actions[1..])
  }

  function PlainRun(t: Table, actions: seq<Action>): Table
    decreases |actions|
  {
    if actions == [] then t else PlainRun(PlainStep(t, actions[0]), actions[1..])
  }

  /** A cached instance has its row. */
  ghost predicate Honest(w: World) { forall k :: k in w.cache ==> k in w.table }

  lemma {:induction false} InsertKeeps(t: Table, procs: seq<Proc>, ts: int)
    ensures forall k :: k in t ==> k in InsertIgnore(t, procs, ts) && InsertIgnore(t, procs, ts)[k] == t[k]
    ensures forall p :: p in procs ==> p.key in InsertIgnore(t, procs, ts)
    decreases |procs|
  {
    if procs != [] {
      var p := procs[0];
      InsertKeeps(if p.key in t then t else t[p.key := Info(p.attributes, ts)], procs[1..], ts);
    }
  }

  /** A row that is there stays as it is; a new one is that of the first of its instance. */
  lemma {:induction false} InsertIgnoreIs(t: Table, procs: seq<Proc>, ts: int, k: Key)
    ensures var t' := InsertIgnore(t, procs, ts);
            && (k in t' <==> k in t || Mentions(procs, k))
            && (k in t ==> k in t' && t'[k] == t[k])
            && (k in t' && k !in t ==> exists i :: 0 <= i < |procs| && FirstOf(procs, i, k) && t'[k] == Info(procs[i].attributes, ts))
    decreases |procs|
  {
    if procs != [] {
      var p := procs[0];
      var t1 := if p.key in t then t else t[p.key := Info(p.attributes, ts)];
      InsertIgnoreIs(t1, procs[1..], ts, k);
      assert procs == [p] + procs[1..];
      assert Mentions(procs, k) <==> p.key == k || Mentions(procs[1..], k);
      if k in InsertIgnore(t, procs, ts) && k !in t {
        if p.key == k {
          assert FirstOf(procs, 0, k);
        } else {
          var i :| 0 <= i < |procs[1..]| && FirstOf(procs[1..], i, k)
                   && InsertIgnore(t1, procs[1..], ts)[k] == Info(procs[1..][i].attributes, ts);
          assert forall j :: 0 < j <= i ==> procs[j] == procs[1..][j - 1];
          assert FirstOf(procs, i + 1, k);
        }
      }
    }
  }

  predicate FirstOf(procs: seq<Proc>, i: nat, k: Key)
    requires i < |procs|
  {
    procs[i].key == k && forall j :: 0 <= j < i ==> procs[j].key != k
  }

  /** Leaving out instances that have their row changes nothing. */
  lemma {:induction false} SkippingIsHarmless(t: Table, procs: seq<Proc>, cache: map<Key, int>, ts: int)
    requires forall k :: k in cache ==> k in t
    ensures InsertIgnore(t, Uncached(procs, cache), ts) == InsertIgnore(t, procs, ts)
    decreases |procs|
  {
    if procs != [] {
      var p, rest := procs[0], procs[1..];
      var t1 := if p.key in t then t else t[p.key := Info(p.attributes, ts)];
      SkippingIsHarmless(t1, rest, cache, ts);
      if p.key in cache {
        assert Uncached(procs, cache) == Uncached(rest, cache);
      } else {
        assert Uncached(procs, cache)[1..] == Uncached(rest, cache);
      }
    }
  }

  lemma {:induction false} TouchKeys(cache: map<Key, int>, procs: seq<Proc>, ts: int, k: Key)
    ensures k in Touch(cache, procs, ts) <==> k in cache || Mentions(procs, k)
    decreases |procs|
  {
    if procs != [] {
      var n := |procs| - 1;
      TouchKeys(cache, procs[..n], ts, k);
      assert procs == procs[..n] + [procs[n]];
    }
  }

  lemma BatchStep(w: World, ts: int, procs: seq<Proc>, ok: bool)
    requires Honest(w)
    ensures var w' := Step(w, Batch(ts, procs, ok));
            Honest(w') && w'.table == PlainStep(w.table, Batch(ts, procs, ok))
  {
    var w' := Step(w, Batch(ts, procs, ok));
    var added := Uncached(procs, w.cache);
    var touched := Refreshed(w.cache, procs, ts);
    SkippingIsHarmless(w.table, procs, w.cache, ts);
    if added != [] && ok {
      InsertKeeps(w.table, added, ts);
      forall k | k in w'.cache ensures k in w'.table { TouchKeys(touched, added, ts, k); }
    }
  }

  lemma StepIsPlain(w: World, a: Action)
    requires Honest(w)
    ensures Honest(Step(w, a)) && Step(w, a).table == PlainStep(w.table, a)
  {
    match a
    case Batch(ts, procs, ok) => BatchStep(w, ts, procs, ok);
    case _ =>
  }

  /** The cache is invisible: over any sequence of batches, failed statements, evictions,
      prunes, compactions and reloads the table is what it would be without it. */
  lemma {:induction false} CacheIsInvisible(w: World, actions: seq<Action>)
    requires Honest(w)
    ensures Honest(Run(w, actions)) && Run(w, actions).table == PlainRun(w.table, actions)
    decreases |actions|
  {
    if actions != [] {
      StepIsPlain(w, actions[0]);
      CacheIsInvisible(Step(w, actions[0]), actions[1..]);
    }
  }

  lemma {:induction false} TouchTimes(cache: map<Key, int>, procs: seq<Proc>, ts: int, k: Key)
    requires k in Touch(cache, procs, ts)
    ensures Touch(cache, procs, ts)[k] == if Mentions(procs, k) then ts else if k in cache then cache[k] else ts
    decreases |procs|
  {
    TouchKeys(cache, procs, ts, k);
    if procs != [] {
      var n := |procs| - 1;
      TouchKeys(cache, procs[..n], ts, k);
      if procs[n].key != k { TouchTimes(cache, procs[..n], ts, k); }
      assert procs == procs[..n] + [procs[n]];
    }
  }

  lemma {:induction false} UncachedMember(procs: seq<Proc>, cache: map<Key, int>, p: Proc)
    ensures p in Uncached(procs, cache) <==> p in procs && p.key !in cache
  {
    if procs != [] { UncachedMember(procs[1..], cache, p); }
  }

  /** What it is for: once a batch is written, its instances are cached with the time of the
      batch, and until an eviction with a later cutoff none of them is written again. */
  lemma WrittenOnce(w: World, ts: int, procs: seq<Proc>, cutoff: int)
    requires cutoff <= ts
    ensures var w' := Step(w, Batch(ts, procs, true));
            && (forall p :: p in procs ==> p.key in w'.cache && w'.cache[p.key] == ts)
            && Uncached(procs, Step(w', Evict(cutoff)).cache) == []
  {
    var w' := Step(w, Batch(ts, procs, true));
    var added, touched := Uncached(procs, w.cache), Refreshed(w.cache, procs, ts);
    forall p | p in procs ensures p.key in w'.cache && w'.cache[p.key] == ts {
      UncachedMember(procs, w.cache, p);
      TouchKeys(touched, added, ts, p.key);
      assert Mentions(procs, p.key);
      if p in added { assert Mentions(added, p.key); }
      if added != [] { TouchTimes(touched, added, ts, p.key); }
    }
    var left := Uncached(procs, Step(w', Evict(cutoff)).cache);
    if left != [] { UncachedMember(procs, Step(w', Evict(cutoff)).cache, left[0]); }
  }

  /** Why prune must rebuild it: an entry left behind for a deleted row would keep a
      living process out of the table for good. */
  lemma StaleEntryHidesProcess(w: World, k: Key, ts: int, attributes: int)
    requires k in w.cache && k !in w.table
    ensures k !in Step(w, Batch(ts, [Proc(k, attributes)], true)).table
    ensures k in PlainStep(w.table, Batch(ts, [Proc(k, attributes)], true))
  {
    var procs := [Proc(k, attributes)];
    assert procs[1..] == [];
    assert Uncached(procs, w.cache) == [];
    assert InsertIgnore(w.table, procs, ts) == w.table[k := Info(attributes, ts)];
  }

  // ---- The store

  class Store {
    var table: Table
    var cache: map<Key, int>

    function Contents(): World
      reads this
    {
      World(table, cache)
    }

    /** Refresh the cached instances; the others are new. */
    method SplitNew(ts: int, procs: seq<Proc>) returns (newProcs: seq<Proc>)
      modifies this`cache
      ensures newProcs == Uncached(procs, old(cache))
      ensures cache == Refreshed(old(cache), procs, ts)
    {
      newProcs := [];
      for i := 0 to |procs|
        invariant newProcs == Uncached(procs[..i], old(cache))
        invariant forall k :: k in cache <==> k in old(cache)
        invariant forall k :: k in cache ==> cache[k] == if Mentions(procs[..i], k) then ts else old(cache)[k]
      {
        var p := procs[i];
        assert procs[..i + 1] == procs[..i] + [p];
        forall k ensures Mentions(procs[..i] + [p], k) <==> Mentions(procs[..i], k) || p.key == k {
          MentionsAppend(procs[..i], p, k);
        }
        UncachedAppend(procs[..i], p, old(cache));
        if p.key in cache {
          cache := cache[p.key := ts];
        } else {
          newProcs := newProcs + [p];
        }
      }
      assert procs[..|procs|] == procs;
    }

    method PrepareProcessInfo(ts: int, procs: seq<Proc>, ok: bool)
      modifies this
      ensures Contents() == Step(old(Contents()), Batch(ts, procs, ok))
    {
      var newProcs := SplitNew(ts, procs);
      if newProcs == [] { return; }
      if !ok { return; }
      table := InsertIgnore(table, newProcs, ts);
      ghost var touched := cache;
      for i := 0 to |newProcs|
        invariant cache == Touch(touched, newProcs[..i], ts)
        invariant table == InsertIgnore(old(table), newProcs, ts)
      {
        assert newProcs[..i + 1][..i] == newProcs[..i];
        cache := cache[newProcs[i].key := ts];
      }
      assert newProcs[..|newProcs|] == newProcs;
    }

    method EvictStaleProcInfoCache(cutoff: int) returns (evicted: nat)
      modifies this
      ensures Contents() == Step(old(Contents()), Evict(cutoff))
      ensures forall k :: k in cache ==> cache[k] >= cutoff
    {
      evicted := 0;
      var rest := cache.Keys;
      while rest != {}
        invariant table == old(table) && rest <= old(cache).Keys
        invariant forall k :: k in cache <==> k in old(cache) && (k in rest || old(cache)[k] >= cutoff)
        invariant forall k :: k in cache ==> cache[k] == old(cache)[k]
        decreases |rest|
      {
        var key :| key in rest;
        if cache[key] < cutoff {
          cache := cache - {key};
          evicted := evicted + 1;
        }
        rest := rest - {key};
      }
    }

    method LoadProcessInfoCache(now: int)
      modifies this`cache
      ensures cache == Loaded(table, now)
      ensures cache.Keys == table.Keys && forall k :: k in cache ==> cache[k] == now
    {
      cache := map[];
      var rest := table.Keys;
      while rest != {}
        invariant rest <= table.Keys
        invariant forall k :: k in cache <==> k in table && k !in rest
        invariant forall k :: k in cache ==> cache[k] == now
        decreases |rest|
      {
        var key :| key in rest;
        cache := cache[key := now];
        rest := rest - {key};
      }
    }

    /** The end of a prune: drop orphaned rows, then rebuild the cache. */
    method PruneProcessInfo(live: set<Key>, now: int)
      modifies this
      ensures Contents() == Step(old(Contents()), Prune(live, now))
      ensures forall k :: k in table <==> k in old(table) && k in live
      ensures forall k :: k in table ==> table[k] == old(table)[k]
      ensures cache.Keys == table.Keys && forall k :: k in cache ==> cache[k] == now
    {
      table := Pruned(table, live);
      LoadProcessInfoCache(now);
    }
  }

  lemma MentionsAppend(procs: seq<Proc>, p: Proc, k: Key)
    ensures Mentions(procs + [p], k) <==> Mentions(procs, k) || p.key == k
  {
    if Mentions(procs, k) {
      var q :| q in procs && q.key == k;
      assert q in procs + [p];
    }
    assert p in procs + [p];
  }

  lemma {:induction false} UncachedAppend(procs: seq<Proc>, p: Proc, cache: map<Key, int>)
    ensures Uncached(procs + [p], cache) == Uncached(procs, cache) + if p.key in cache then [] else [p]
    decreases |procs|
  {
    if procs == [] {
      assert procs + [p] == [p] && [p][1..] == [];
    } else {
      assert (procs + [p])[1..] == procs[1..] + [p] && (procs + [p])[0] == procs[0];
      UncachedAppend(procs[1..], p, cache);
      var h, t := if procs[0].key in cache then [] else [procs[0]], if p.key in cache then [] else [p];
      assert h + (Uncached(procs[1..], cache) + t) == (h + Uncached(procs[1..], cache)) + t;
    }
  }
}
