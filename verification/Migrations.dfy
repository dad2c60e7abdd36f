/** The migration runner: its version record, and starts that fail or die anywhere.

    A migration is a list of statements on a schema, each of which may fail.  A start is
    given as the number of statements, its own bookkeeping included, that it is let run. */
module Migrations {
  import opened Basics

  /** A statement gives the new schema, or fails and changes nothing. */
  datatype Migration<!S> = Migration(version: nat, stmts: seq<S -> Option<S>>)

  datatype Disk<S> = Disk(
    schema: S,
    version: nat,          // schema_version.version
    dirty: bool,           // schema_version.dirty
    done: seq<nat>,        // versions completed, in order
    attempts: seq<nat>)    // versions begun, in order

  /** The schema after the statements up to the first that fails. */
  function Reached<S>(stmts: seq<S -> Option<S>>, s: S): S {
    if stmts == [] then s
    else
      var next := stmts[0](s);
      if next.None? then s else Reached(stmts[1..], next.value)
  }

  predicate Succeeds<S>(stmts: seq<S -> Option<S>>, s: S) {
    stmts == [] || (stmts[0](s).Some? && Succeeds(stmts[1..], stmts[0](s).value))
  }

  /** The schema after applying each migration once. */
  function Migrated<S>(ms: seq<Migration<S>>, s: S): S {
    if ms == [] then s
    else Reached(ms[|ms| - 1].stmts, Migrated(ms[..|ms| - 1], s))
  }

  function Versions<S>(ms: seq<Migration<S>>): (vs: seq<nat>)
    ensures |vs| == |ms|
  {
    if ms == [] then [] else Versions(ms[..|ms| - 1]) + [ms[|ms| - 1].version]
  }

  /** Versions are positive and rise. */
  ghost predicate Sorted<S>(ms: seq<Migration<S>>) {
    && (forall i :: 0 <= i < |ms| ==> ms[i].version > 0)
    && (forall i, j :: 0 <= i < j < |ms| ==> ms[i].version < ms[j].version)
  }

  function Pending<S>(ms: seq<Migration<S>>, current: int): seq<Migration<S>> {
    if ms == [] then []
    else (if ms[0].version <= current then [] else [ms[0]]) + Pending(ms[1..], current)
  }

  function MarkDirty<S>(d: Disk<S>, v: nat): Disk<S> {
    d.(version := v, dirty := true, attempts := d.attempts + [v])
  }

  function MarkClean<S>(d: Disk<S>): Disk<S> {
    d.(dirty := false, done := d.done + [d.version])
  }

  function Least(a: nat, b: nat): nat { if a < b then a else b }

  /** The first `k` statements of a migration, or all. */
  function Part<S>(m: Migration<S>, k: nat): seq<S -> Option<S>> { m.stmts[..Least(k, |m.stmts|)] }

  /** The start is let run to the end of the migration, and no statement fails. */
  predicate Finishes<S>(m: Migration<S>, d: Disk<S>, fuel: nat) {
    fuel >= |m.stmts| + 2 && Succeeds(m.stmts, d.schema)
  }

  /** One migration: mark dirty, apply, mark clean. */
  function RunOne<S>(m: Migration<S>, d: Disk<S>, fuel: nat): Disk<S> {
    if fuel == 0 then d
    else
      var d1 := MarkDirty(d, m.version).(schema := Reached(Part(m, fuel - 1), d.schema));
      if Finishes(m, d, fuel) then MarkClean(d1) else d1
  }

  function RunFrom<S>(ms: seq<Migration<S>>, d: Disk<S>, fuel: nat): Disk<S> {
    if ms == [] then d
    else if !Finishes(ms[0], d, fuel) then RunOne(ms[0], d, fuel)
    else RunFrom(ms[1..], RunOne(ms[0], d, fuel), fuel - (|ms[0].stmts| + 2))
  }

  function Current<S>(d: Disk<S>): int { if d.dirty then d.version - 1 else d.version }

  function Start<S>(ms: seq<Migration<S>>, d: Disk<S>, fuel: nat): Disk<S> {
    RunFrom(Pending(ms, Current(d)), d, fuel)
  }

  function Starts<S>(ms: seq<Migration<S>>, d: Disk<S>, fuels: seq<nat>): Disk<S> {
    if fuels == [] then d else Start(ms, Starts(ms, d, fuels[..|fuels| - 1]), fuels[|fuels| - 1])
  }

  // ---- The version record

  /** Clean at v: exactly the migrations up to v are complete, in order without a gap.
      Dirty at v: exactly those below v. */
  ghost predicate Record<S>(ms: seq<Migration<S>>, d: Disk<S>, n: nat) {
    && n <= |ms|
    && d.done == Versions(ms[..n])
    && (!d.dirty ==> d.version == (if n == 0 then 0 else ms[n - 1].version))
    && (d.dirty ==> n < |ms| && d.version == ms[n].version)
  }

  /** Whatever was begun is complete, but for the dirty one. */
  ghost predicate BegunIsDoneOrDirty<S>(d: Disk<S>) {
    forall v :: v in d.attempts ==> v in d.done || (d.dirty && v == d.version)
  }

  lemma {:induction false} PendingSuffix<S>(ms: seq<Migration<S>>, current: int, n: nat)
    requires n <= |ms|
    requires forall i :: 0 <= i < n ==> ms[i].version <= current
    requires forall i :: n <= i < |ms| ==> current < ms[i].version
    ensures Pending(ms, current) == ms[n..]
    decreases |ms|
  {
    if ms != [] {
      var rest, k := ms[1..], if n == 0 then 0 else n - 1;
      PendingSuffix(rest, current, k);
      assert ms == [ms[0]] + rest;
      assert ms[n..] == if n == 0 then [ms[0]] + rest[k..] else rest[k..];
    }
  }

  lemma PendingIsRest<S>(ms: seq<Migration<S>>, d: Disk<S>, n: nat)
    requires Sorted(ms) && Record(ms, d, n)
    ensures Pending(ms, Current(d)) == ms[n..]
  {
    if n > 0 { assert ms[n - 1].version <= Current(d); }
    PendingSuffix(ms, Current(d), n);
  }

  lemma NextMigrated<S>(ms: seq<Migration<S>>, s: S, n: nat)
    requires n < |ms|
    ensures Migrated(ms[..n + 1], s) == Reached(ms[n].stmts, Migrated(ms[..n], s))
    ensures Versions(ms[..n + 1]) == Versions(ms[..n]) + [ms[n].version]
  {
    assert ms[..n + 1][..n] == ms[..n];
  }

  lemma RunOneKeepsRecord<S>(ms: seq<Migration<S>>, d: Disk<S>, n: nat, fuel: nat)
    requires n < |ms| && Record(ms, d, n) && BegunIsDoneOrDirty(d)
    ensures var d' := RunOne(ms[n], d, fuel);
            Record(ms, d', if Finishes(ms[n], d, fuel) then n + 1 else n) && BegunIsDoneOrDirty(d')
    ensures Finishes(ms[n], d, fuel) ==> !RunOne(ms[n], d, fuel).dirty
  {
    var s := d.schema;
    NextMigrated(ms, s, n);
  }

  lemma {:induction false} RunFromKeepsRecord<S>(ms: seq<Migration<S>>, d: Disk<S>, n: nat, fuel: nat)
    returns (n': nat)
    requires Record(ms, d, n) && BegunIsDoneOrDirty(d)
    ensures n <= n' && Record(ms, RunFrom(ms[n..], d, fuel), n') && BegunIsDoneOrDirty(RunFrom(ms[n..], d, fuel))
    decreases |ms| - n
  {
    n' := n;
    if n < |ms| {
      assert ms[n..][1..] == ms[n + 1..];
      RunOneKeepsRecord(ms, d, n, fuel);
      if Finishes(ms[n], d, fuel) {
        n' := RunFromKeepsRecord(ms, RunOne(ms[n], d, fuel), n + 1, fuel - (|ms[n].stmts| + 2));
      }
    }
  }

  /** Over any sequence of starts, each failing or stopped anywhere, the version record keeps
      its meaning, and migrations complete in rising order without a gap. */
  lemma {:induction false} StartsKeepRecord<S>(ms: seq<Migration<S>>, d: Disk<S>, n: nat, fuels: seq<nat>)
    returns (n': nat)
    requires Sorted(ms) && Record(ms, d, n) && BegunIsDoneOrDirty(d)
    ensures n <= n' && Record(ms, Starts(ms, d, fuels), n') && BegunIsDoneOrDirty(Starts(ms, d, fuels))
    decreases |fuels|
  {
    n' := n;
    if fuels != [] {
      var k := |fuels| - 1;
      var n1 := StartsKeepRecord(ms, d, n, fuels[..k]);
      var d1 := Starts(ms, d, fuels[..k]);
      PendingIsRest(ms, d1, n1);
      n' := RunFromKeepsRecord(ms, d1, n1, fuels[k]);
    }
  }

  lemma VersionsOfPrefix<S>(ms: seq<Migration<S>>, more: nat)
    requires ms != [] && more < |ms|
    ensures Versions(ms[..more + 1]) == [ms[0].version] + Versions(ms[1..][..more])
  {
    assert ms[..more + 1] == [ms[0]] + ms[1..][..more];
    VersionsCons(ms[0], ms[1..][..more]);
  }

  lemma {:induction false} RunFromAttempts<S>(ms: seq<Migration<S>>, d: Disk<S>, fuel: nat)
    returns (begun: nat)
    ensures begun <= |ms| && RunFrom(ms, d, fuel).attempts == d.attempts + Versions(ms[..begun])
    ensures fuel > 0 && ms != [] ==> begun > 0
    decreases |ms|
  {
    if ms == [] || fuel == 0 {
      begun := 0;
      assert d.attempts + [] == d.attempts;
    } else {
      var more: nat := 0;
      if Finishes(ms[0], d, fuel) {
        more := RunFromAttempts(ms[1..], RunOne(ms[0], d, fuel), fuel - (|ms[0].stmts| + 2));
      } else {
        assert ms[1..][..0] == [];
      }
      begun := more + 1;
      VersionsOfPrefix(ms, more);
      assert d.attempts + ([ms[0].version] + Versions(ms[1..][..more])) ==
             (d.attempts + [ms[0].version]) + Versions(ms[1..][..more]);
    }
  }

  lemma {:induction false} VersionsCons<S>(m: Migration<S>, ms: seq<Migration<S>>)
    ensures Versions([m] + ms) == [m.version] + Versions(ms)
    decreases |ms|
  {
    var all := [m] + ms;
    if ms == [] {
      assert all[..0] == [];
    } else {
      var k := |ms| - 1;
      assert all[..|all| - 1] == [m] + ms[..k];
      VersionsCons(m, ms[..k]);
    }
  }

  lemma {:induction false} VersionsMember<S>(ms: seq<Migration<S>>, v: nat)
    ensures v in Versions(ms) <==> exists i :: 0 <= i < |ms| && ms[i].version == v
    decreases |ms|
  {
    if ms != [] {
      var k := |ms| - 1;
      VersionsMember(ms[..k], v);
      if v in Versions(ms[..k]) {
        var i :| 0 <= i < k && ms[..k][i].version == v;
        assert ms[i].version == v;
      }
      if i :| 0 <= i < |ms| && ms[i].version == v {
        if i < k { assert ms[..k][i].version == v; }
      }
    }
  }

  /** Versions from the `n`-th on are none of those before. */
  lemma LaterVersionsDiffer<S>(ms: seq<Migration<S>>, n: nat, begun: nat, v: nat)
    requires Sorted(ms) && n <= |ms| && begun <= |ms| - n && v in Versions(ms[n..][..begun])
    ensures v !in Versions(ms[..n])
  {
    VersionsMember(ms[n..][..begun], v);
    VersionsMember(ms[..n], v);
    var i :| 0 <= i < begun && ms[n..][..begun][i].version == v;
    assert ms[n + i].version == v;
  }

  /** What one start begins: nothing completed before it, and a dirty migration first. */
  lemma StartBegins<S>(ms: seq<Migration<S>>, d: Disk<S>, n: nat, fuel: nat)
    requires Sorted(ms) && Record(ms, d, n)
    ensures var d' := Start(ms, d, fuel);
            && d.attempts <= d'.attempts
            && (forall v :: v in d'.attempts[|d.attempts|..] ==> v !in d.done)
            && (d.dirty && fuel > 0 ==> |d'.attempts| > |d.attempts| && d'.attempts[|d.attempts|] == d.version)
  {
    PendingIsRest(ms, d, n);
    var rest := ms[n..];
    var begun := RunFromAttempts(rest, d, fuel);
    assert Start(ms, d, fuel).attempts[|d.attempts|..] == Versions(rest[..begun]);
    forall v | v in Versions(rest[..begun]) ensures v !in d.done { LaterVersionsDiffer(ms, n, begun, v); }
    if d.dirty && fuel > 0 { VersionsOfPrefix(rest, begun - 1); }
  }

  /** In a run of starts, the next one begins nothing completed by then, begins a dirty
      migration first, and begins none a second time but the dirty one. */
  lemma OnlyTheDirtyOneReruns<S>(ms: seq<Migration<S>>, d: Disk<S>, n: nat, fuels: seq<nat>, fuel: nat)
    requires Sorted(ms) && Record(ms, d, n) && BegunIsDoneOrDirty(d)
    ensures var d1, d2 := Starts(ms, d, fuels), Starts(ms, d, fuels + [fuel]);
            && d1.attempts <= d2.attempts
            && (d1.dirty && fuel > 0 ==> |d2.attempts| > |d1.attempts| && d2.attempts[|d1.attempts|] == d1.version)
            && forall v :: v in d2.attempts[|d1.attempts|..] ==>
                 v !in d1.done && (v in d1.attempts ==> d1.dirty && v == d1.version)
  {
    var n1 := StartsKeepRecord(ms, d, n, fuels);
    assert (fuels + [fuel])[..|fuels|] == fuels;
    StartBegins(ms, Starts(ms, d, fuels), n1, fuel);
  }

  // ---- The schema

  /** The schema after runs of a migration that stopped after so many statements each. */
  function Partial<S>(m: Migration<S>, s: S, ks: seq<nat>): S {
    if ks == [] then s else Reached(Part(m, ks[|ks| - 1]), Partial(m, s, ks[..|ks| - 1]))
  }

  /** Begun at `s`, the migration finishes after any partial runs of it, with the schema it
      would have given at once. */
  ghost predicate Absorbs<S>(m: Migration<S>, s: S) {
    forall ks: seq<nat> :: AbsorbsRuns(m, s, ks)
  }

  ghost predicate AbsorbsRuns<S>(m: Migration<S>, s: S, ks: seq<nat>) {
    Succeeds(m.stmts, Partial(m, s, ks)) && Reached(m.stmts, Partial(m, s, ks)) == Reached(m.stmts, s)
  }

  /** The schema is that of the first `n` migrations, each applied once; dirty, with runs of
      the next one that did not finish. */
  ghost predicate Faithful<S>(ms: seq<Migration<S>>, s0: S, d: Disk<S>, n: nat)
    requires n <= |ms| && (d.dirty ==> n < |ms|)
  {
    && (!d.dirty ==> d.schema == Migrated(ms[..n], s0))
    && (d.dirty ==> exists ks :: d.schema == Partial(ms[n], Migrated(ms[..n], s0), ks))
  }

  ghost predicate Means<S>(ms: seq<Migration<S>>, s0: S, d: Disk<S>, n: nat) {
    Record(ms, d, n) && BegunIsDoneOrDirty(d) && Faithful(ms, s0, d, n)
  }

  /** A stamped database: clean, nothing begun, holding what the first `n` migrations give
      (0 for a new database, 1 for one that predates the version record). */
  ghost predicate Stamped<S>(ms: seq<Migration<S>>, s0: S, d: Disk<S>, n: nat) {
    Means(ms, s0, d, n) && !d.dirty && d.attempts == []
  }

  ghost predicate AllAbsorb<S>(ms: seq<Migration<S>>, s0: S, from: nat) {
    forall n :: from <= n < |ms| ==> Absorbs(ms[n], Migrated(ms[..n], s0))
  }

  /** What the schema is when the next migration is begun: partial runs of it, if any. */
  lemma BeginsAtPartial<S>(ms: seq<Migration<S>>, s0: S, d: Disk<S>, n: nat) returns (ks: seq<nat>)
    requires n < |ms| && Faithful(ms, s0, d, n)
    ensures d.schema == Partial(ms[n], Migrated(ms[..n], s0), ks)
  {
    if d.dirty {
      ks :| d.schema == Partial(ms[n], Migrated(ms[..n], s0), ks);
    } else {
      ks := [];
    }
  }

  lemma PartialAppend<S>(m: Migration<S>, s: S, ks: seq<nat>, k: nat)
    ensures Partial(m, s, ks + [k]) == Reached(Part(m, k), Partial(m, s, ks))
  {
    assert (ks + [k])[..|ks|] == ks;
  }

  lemma RunOneKeeps<S>(ms: seq<Migration<S>>, s0: S, d: Disk<S>, n: nat, fuel: nat)
    requires n < |ms| && Means(ms, s0, d, n) && Absorbs(ms[n], Migrated(ms[..n], s0))
    ensures Means(ms, s0, RunOne(ms[n], d, fuel), if Finishes(ms[n], d, fuel) then n + 1 else n)
    ensures Succeeds(ms[n].stmts, d.schema)
  {
    var m, s := ms[n], Migrated(ms[..n], s0);
    var ks := BeginsAtPartial(ms, s0, d, n);
    assert AbsorbsRuns(m, s, ks);
    RunOneKeepsRecord(ms, d, n, fuel);
    NextMigrated(ms, s0, n);
    if fuel > 0 {
      PartialAppend(m, s, ks, fuel - 1);
      assert m.stmts[..|m.stmts|] == m.stmts;
    }
  }

  lemma {:induction false} RunFromKeeps<S>(ms: seq<Migration<S>>, s0: S, d: Disk<S>, n: nat, fuel: nat)
    returns (n': nat)
    requires Means(ms, s0, d, n) && AllAbsorb(ms, s0, n)
    ensures n <= n' && Means(ms, s0, RunFrom(ms[n..], d, fuel), n')
    ensures fuel >= Cost(ms[n..]) ==> n' == |ms|
    decreases |ms| - n
  {
    n' := n;
    if n < |ms| {
      CostNext(ms, n);
      RunOneKeeps(ms, s0, d, n, fuel);
      if Finishes(ms[n], d, fuel) {
        n' := RunFromKeeps(ms, s0, RunOne(ms[n], d, fuel), n + 1, fuel - (|ms[n].stmts| + 2));
      }
    }
  }

  /** If every migration absorbs its partial runs, the schema means what the record says,
      over any sequence of starts. */
  lemma {:induction false} StartsKeepMeaning<S>(ms: seq<Migration<S>>, s0: S, d: Disk<S>, n: nat, fuels: seq<nat>)
    returns (n': nat)
    requires Sorted(ms) && Means(ms, s0, d, n) && AllAbsorb(ms, s0, n)
    ensures n <= n' && Means(ms, s0, Starts(ms, d, fuels), n')
    decreases |fuels|
  {
    n' := n;
    if fuels != [] {
      var k := |fuels| - 1;
      var n1 := StartsKeepMeaning(ms, s0, d, n, fuels[..k]);
      var d1 := Starts(ms, d, fuels[..k]);
      PendingIsRest(ms, d1, n1);
      n' := RunFromKeeps(ms, s0, d1, n1, fuels[k]);
    }
  }

  function Cost<S>(ms: seq<Migration<S>>): nat {
    if ms == [] then 0 else |ms[0].stmts| + 2 + Cost(ms[1..])
  }

  lemma CostNext<S>(ms: seq<Migration<S>>, n: nat)
    requires n < |ms|
    ensures ms[n..][0] == ms[n] && ms[n..][1..] == ms[n + 1..]
    ensures Cost(ms[n..]) == |ms[n].stmts| + 2 + Cost(ms[n + 1..])
  {
    assert ms[n..][1..] == ms[n + 1..];
  }

  lemma {:induction false} SuffixCost<S>(ms: seq<Migration<S>>, n: nat)
    requires n <= |ms|
    ensures Cost(ms[n..]) <= Cost(ms)
    decreases |ms|
  {
    if n > 0 {
      assert ms[1..][n - 1..] == ms[n..];
      SuffixCost(ms[1..], n - 1);
    } else {
      assert ms[0..] == ms;
    }
  }

  /** Whatever failed before, one start that is let run finishes: every migration is
      complete, and the schema is the one applying each once gives. */
  ghost predicate AlwaysMigrates<S>(ms: seq<Migration<S>>, s0: S, d: Disk<S>) {
    forall fuels: seq<nat>, last: nat :: last >= Cost(ms) ==> EndsMigrated(ms, s0, Start(ms, Starts(ms, d, fuels), last))
  }

  ghost predicate EndsMigrated<S>(ms: seq<Migration<S>>, s0: S, d: Disk<S>) {
    !d.dirty && d.schema == Migrated(ms, s0) && d.done == Versions(ms)
  }

  lemma FinallyMigrated<S>(ms: seq<Migration<S>>, s0: S, d: Disk<S>, stamp: nat, fuels: seq<nat>, last: nat)
    requires Sorted(ms) && Stamped(ms, s0, d, stamp) && AllAbsorb(ms, s0, stamp) && last >= Cost(ms)
    ensures EndsMigrated(ms, s0, Start(ms, Starts(ms, d, fuels), last))
  {
    var n := StartsKeepMeaning(ms, s0, d, stamp, fuels);
    var d1 := Starts(ms, d, fuels);
    PendingIsRest(ms, d1, n);
    SuffixCost(ms, n);
    var _ := RunFromKeeps(ms, s0, d1, n, last);
    assert ms[..|ms|] == ms;
  }

  // ---- Exactly when the migrations can be relied on

  ghost predicate CleanMeans<S>(ms: seq<Migration<S>>, s0: S, d: Disk<S>, n: nat) {
    Record(ms, d, n) && !d.dirty ==> d.schema == Migrated(ms[..n], s0)
  }

  /** After any starts, a clean record tells the schema, and a start let run finishes. */
  ghost predicate Reliable<S>(ms: seq<Migration<S>>, s0: S, d: Disk<S>) {
    && (forall fuels: seq<nat>, n: nat :: CleanMeans(ms, s0, Starts(ms, d, fuels), n))
    && AlwaysMigrates(ms, s0, d)
  }

  lemma StartsAppend<S>(ms: seq<Migration<S>>, d: Disk<S>, fuels: seq<nat>, fuel: nat)
    ensures Starts(ms, d, fuels + [fuel]) == Start(ms, Starts(ms, d, fuels), fuel)
  {
    assert (fuels + [fuel])[..|fuels|] == fuels;
  }

  /** A start too short to finish migration `n` runs part of it. */
  lemma PartOnly<S>(ms: seq<Migration<S>>, d: Disk<S>, n: nat, k: nat)
    requires Sorted(ms) && Record(ms, d, n) && n < |ms| && BegunIsDoneOrDirty(d)
    ensures var m := ms[n];
            var d' := Start(ms, d, Least(k, |m.stmts|) + 1);
            Record(ms, d', n) && BegunIsDoneOrDirty(d') && d'.schema == Reached(Part(m, k), d.schema)
  {
    PendingIsRest(ms, d, n);
    RunOneKeepsRecord(ms, d, n, Least(k, |ms[n].stmts|) + 1);
  }

  /** Partial runs of migration `n`, from a clean start of it, are reached by short starts. */
  lemma {:induction false} PartialIsReached<S>(ms: seq<Migration<S>>, d: Disk<S>, fuels: seq<nat>, n: nat, ks: seq<nat>)
    returns (more: seq<nat>)
    requires Sorted(ms) && n < |ms| && Record(ms, Starts(ms, d, fuels), n) && BegunIsDoneOrDirty(Starts(ms, d, fuels))
    ensures var d' := Starts(ms, d, more);
            && Record(ms, d', n) && BegunIsDoneOrDirty(d')
            && d'.schema == Partial(ms[n], Starts(ms, d, fuels).schema, ks)
    decreases |ks|
  {
    if ks == [] {
      more := fuels;
    } else {
      var j := |ks| - 1;
      var before := PartialIsReached(ms, d, fuels, n, ks[..j]);
      var fuel := Least(ks[j], |ms[n].stmts|) + 1;
      PartOnly(ms, Starts(ms, d, before), n, ks[j]);
      StartsAppend(ms, d, before, fuel);
      more := before + [fuel];
    }
  }

  /** A start of exactly migration `n`'s length completes it and nothing else. */
  lemma OneCompletes<S>(ms: seq<Migration<S>>, d: Disk<S>, n: nat)
    requires Sorted(ms) && Record(ms, d, n) && n < |ms| && BegunIsDoneOrDirty(d) && Succeeds(ms[n].stmts, d.schema)
    ensures var d' := Start(ms, d, |ms[n].stmts| + 2);
            && Record(ms, d', n + 1) && BegunIsDoneOrDirty(d') && !d'.dirty
            && d'.schema == Reached(ms[n].stmts, d.schema)
  {
    var fuel := |ms[n].stmts| + 2;
    PendingIsRest(ms, d, n);
    RunOneKeepsRecord(ms, d, n, fuel);
    assert ms[n..][1..] == ms[n + 1..];
    assert ms[n].stmts[..|ms[n].stmts|] == ms[n].stmts;
    assert RunFrom(ms[n + 1..], RunOne(ms[n], d, fuel), 0) == RunOne(ms[n], d, fuel);
  }

  /** A failing statement stops every start, however long. */
  lemma FailureStaysDirty<S>(ms: seq<Migration<S>>, d: Disk<S>, n: nat, fuel: nat)
    requires Sorted(ms) && Record(ms, d, n) && n < |ms| && fuel > 0 && !Succeeds(ms[n].stmts, d.schema)
    ensures Start(ms, d, fuel).dirty && Start(ms, d, fuel).version == ms[n].version
  {
    PendingIsRest(ms, d, n);
  }

  lemma AbsorbsWhereReliable<S>(ms: seq<Migration<S>>, s0: S, d: Disk<S>, fuels: seq<nat>, n: nat, ks: seq<nat>)
    requires Sorted(ms) && Reliable(ms, s0, d) && n < |ms|
    requires Record(ms, Starts(ms, d, fuels), n) && BegunIsDoneOrDirty(Starts(ms, d, fuels)) && !Starts(ms, d, fuels).dirty
    ensures AbsorbsRuns(ms[n], Migrated(ms[..n], s0), ks)
  {
    assert CleanMeans(ms, s0, Starts(ms, d, fuels), n);
    var more := PartialIsReached(ms, d, fuels, n, ks);
    var d1 := Starts(ms, d, more);
    assert EndsMigrated(ms, s0, Start(ms, d1, Cost(ms)));
    if Succeeds(ms[n].stmts, d1.schema) {
      OneCompletes(ms, d1, n);
      StartsAppend(ms, d, more, |ms[n].stmts| + 2);
      assert CleanMeans(ms, s0, Starts(ms, d, more + [|ms[n].stmts| + 2]), n + 1);
      NextMigrated(ms, s0, n);
    } else {
      CostNext(ms, n);
      SuffixCost(ms, n);
      FailureStaysDirty(ms, d1, n, Cost(ms));
    }
  }

  lemma {:induction false} CleanAt<S>(ms: seq<Migration<S>>, s0: S, d: Disk<S>, stamp: nat, n: nat) returns (fuels: seq<nat>)
    requires Sorted(ms) && Stamped(ms, s0, d, stamp) && Reliable(ms, s0, d) && stamp <= n <= |ms|
    ensures var d' := Starts(ms, d, fuels); Record(ms, d', n) && BegunIsDoneOrDirty(d') && !d'.dirty
    decreases n
  {
    if n == stamp {
      fuels := [];
    } else {
      var before := CleanAt(ms, s0, d, stamp, n - 1);
      AbsorbsWhereReliable(ms, s0, d, before, n - 1, []);
      assert CleanMeans(ms, s0, Starts(ms, d, before), n - 1);
      OneCompletes(ms, Starts(ms, d, before), n - 1);
      StartsAppend(ms, d, before, |ms[n - 1].stmts| + 2);
      fuels := before + [|ms[n - 1].stmts| + 2];
    }
  }

  /** Migrations can be relied on exactly when each absorbs any partial runs of itself where
      it is begun. */
  lemma ReliableIff<S>(ms: seq<Migration<S>>, s0: S, d: Disk<S>, stamp: nat)
    requires Sorted(ms) && Stamped(ms, s0, d, stamp)
    ensures Reliable(ms, s0, d) <==> AllAbsorb(ms, s0, stamp)
  {
    if AllAbsorb(ms, s0, stamp) {
      forall fuels: seq<nat>, n: nat ensures CleanMeans(ms, s0, Starts(ms, d, fuels), n) {
        var n' := StartsKeepMeaning(ms, s0, d, stamp, fuels);
        if Record(ms, Starts(ms, d, fuels), n) { assert |Versions(ms[..n])| == |Versions(ms[..n'])|; }
      }
      forall fuels: seq<nat>, last: nat | last >= Cost(ms)
        ensures EndsMigrated(ms, s0, Start(ms, Starts(ms, d, fuels), last))
      {
        FinallyMigrated(ms, s0, d, stamp, fuels, last);
      }
    }
    if Reliable(ms, s0, d) {
      forall n | stamp <= n < |ms| ensures Absorbs(ms[n], Migrated(ms[..n], s0)) {
        var fuels := CleanAt(ms, s0, d, stamp, n);
        forall ks: seq<nat> ensures AbsorbsRuns(ms[n], Migrated(ms[..n], s0), ks) {
          AbsorbsWhereReliable(ms, s0, d, fuels, n, ks);
        }
      }
    }
  }

  // ---- The runner

  class Database<S> {
    var schema: S
    var version: nat
    var dirty: bool
    ghost var done: seq<nat>
    ghost var attempts: seq<nat>

    ghost function Contents(): Disk<S>
      reads this
    {
      Disk(schema, version, dirty, done, attempts)
    }

    /** Initialises the version record of a database. */
    constructor (schema: S, version: nat, ghost done: seq<nat>)
      ensures Contents() == Disk(schema, version, false, done, [])
    {
      this.schema, this.version, dirty, this.done, attempts := schema, version, false, done, [];
    }

    /** The statements of one migration, up to one that fails or as far as `fuel` goes. */
    method Execute(stmts: seq<S -> Option<S>>, fuel: nat) returns (left: nat, finished: bool)
      modifies this`schema
      ensures finished == (fuel >= |stmts| && Succeeds(stmts, old(schema)))
      ensures schema == Reached(stmts[..Least(fuel, |stmts|)], old(schema))
      ensures finished ==> left == fuel - |stmts|
    {
      left, finished := fuel, true;
      var i := 0;
      while i < |stmts|
        invariant 0 <= i <= |stmts| && left == fuel - i && finished
        invariant schema == Reached(stmts[..i], old(schema)) && Succeeds(stmts[..i], old(schema))
      {
        ReachedNext(stmts, i, old(schema));
        if left == 0 {
          return left, false;
        }
        var next := stmts[i](schema);
        if next.None? {
          StopsAt(stmts, i, Least(fuel, |stmts|), old(schema));
          StopsAt(stmts, i, |stmts|, old(schema));
          assert stmts[..|stmts|] == stmts;
          return left, false;
        }
        schema := next.value;
        left := left - 1;
        i := i + 1;
      }
      assert stmts[..|stmts|] == stmts;
    }

    /** One migration: marked dirty, executed, marked clean. */
    method RunMigration(m: Migration<S>, fuel: nat) returns (left: nat, ok: bool)
      modifies this
      ensures Contents() == RunOne(m, old(Contents()), fuel)
      ensures ok == Finishes(m, old(Contents()), fuel)
      ensures ok ==> left == fuel - (|m.stmts| + 2)
    {
      if fuel == 0 {
        return 0, false;
      }
      version, dirty, attempts := m.version, true, attempts + [m.version];
      var rest, finished := Execute(m.stmts, fuel - 1);
      if !finished || rest == 0 {
        return 0, false;
      }
      dirty, done := false, done + [version];
      return rest - 1, true;
    }

    method RunMigrations(ms: seq<Migration<S>>, fuel: nat) returns (ok: bool)
      requires dirty ==> version > 0
      modifies this
      ensures Contents() == Start(ms, old(Contents()), fuel)
      ensures ok == RunsThrough(Pending(ms, Current(old(Contents()))), old(Contents()), fuel)
    {
      var currentVersion: int := version;
      if dirty {
        currentVersion := currentVersion - 1;
      }
      ghost var goal := Start(ms, Contents(), fuel);
      ghost var through := RunsThrough(Pending(ms, currentVersion), Contents(), fuel);
      var left, i := fuel, 0;
      assert ms[0..] == ms;
      ok := true;
      while i < |ms| && ok
        invariant 0 <= i <= |ms|
        invariant if ok then LeadsTo(ms, i, currentVersion, Contents(), left, goal, through) else Contents() == goal && !through
      {
        LeadsStep(ms, i, currentVersion, Contents(), left, goal, through);
        if ms[i].version > currentVersion {
          left, ok := RunMigration(ms[i], left);
        }
        i := i + 1;
      }
      assert ok ==> ms[i..] == [];
    }
  }

  /** Whether a start gets to the end of the list. */
  predicate RunsThrough<S>(ms: seq<Migration<S>>, d: Disk<S>, fuel: nat) {
    ms == [] || (Finishes(ms[0], d, fuel) && RunsThrough(ms[1..], RunOne(ms[0], d, fuel), fuel - (|ms[0].stmts| + 2)))
  }

  /** Running what is pending from migration `i` on gives `goal`, and gets through or not. */
  ghost predicate LeadsTo<S>(ms: seq<Migration<S>>, i: nat, current: int, d: Disk<S>, fuel: nat, goal: Disk<S>, through: bool)
    requires i <= |ms|
  {
    RunFrom(Pending(ms[i..], current), d, fuel) == goal && RunsThrough(Pending(ms[i..], current), d, fuel) == through
  }

  lemma LeadsStep<S>(ms: seq<Migration<S>>, i: nat, current: int, d: Disk<S>, fuel: nat, goal: Disk<S>, through: bool)
    requires i < |ms| && LeadsTo(ms, i, current, d, fuel, goal, through)
    ensures var m := ms[i];
            if m.version <= current then LeadsTo(ms, i + 1, current, d, fuel, goal, through)
            else if !Finishes(m, d, fuel) then RunOne(m, d, fuel) == goal && !through
            else LeadsTo(ms, i + 1, current, RunOne(m, d, fuel), fuel - (|m.stmts| + 2), goal, through)
  {
    assert ms[i..][0] == ms[i] && ms[i..][1..] == ms[i + 1..];
    PendingStep(ms[i..], current);
  }

  lemma PendingStep<S>(ms: seq<Migration<S>>, current: int)
    requires ms != []
    ensures Pending(ms, current) ==
            if ms[0].version <= current then Pending(ms[1..], current) else [ms[0]] + Pending(ms[1..], current)
    ensures ms[0].version > current ==> Pending(ms, current)[1..] == Pending(ms[1..], current)
  {
  }

  lemma {:induction false} ReachedStops<S>(a: seq<S -> Option<S>>, b: seq<S -> Option<S>>, s: S)
    ensures Reached(a + b, s) == if Succeeds(a, s) then Reached(b, Reached(a, s)) else Reached(a, s)
    ensures Succeeds(a + b, s) == (Succeeds(a, s) && Succeeds(b, Reached(a, s)))
    decreases |a|
  {
    if a == [] {
      assert a + b == b;
    } else {
      assert (a + b)[1..] == a[1..] + b;
      if a[0](s).Some? { ReachedStops(a[1..], b, a[0](s).value); }
    }
  }

  /** Nothing after a statement that fails changes what is reached. */
  lemma StopsAt<S>(stmts: seq<S -> Option<S>>, i: nat, k: nat, s: S)
    requires i < k <= |stmts| && !Succeeds(stmts[..i + 1], s)
    ensures Reached(stmts[..k], s) == Reached(stmts[..i + 1], s) && !Succeeds(stmts[..k], s)
  {
    assert stmts[..k] == stmts[..i + 1] + stmts[i + 1..k];
    ReachedStops(stmts[..i + 1], stmts[i + 1..k], s);
  }

  lemma ReachedNext<S>(stmts: seq<S -> Option<S>>, i: nat, s: S)
    requires i < |stmts| && Succeeds(stmts[..i], s)
    ensures var here, next := Reached(stmts[..i], s), stmts[i](Reached(stmts[..i], s));
            && Reached(stmts[..i + 1], s) == (if next.None? then here else next.value)
            && Succeeds(stmts[..i + 1], s) == next.Some?
  {
    assert stmts[..i + 1] == stmts[..i] + [stmts[i]];
    ReachedStops(stmts[..i], [stmts[i]], s);
    assert [stmts[i]][1..] == [];
  }
}
