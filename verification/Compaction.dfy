/** Rebuilding the database into a fresh file while API and alert writers go on.

    Writers hold the store's write gate shared; compaction holds it exclusively from the
    first copied table to the file swap.  Any interleaving of their steps is a run. */
module Compaction {
  import opened Basics

  /** A sequence, as the catalogue shows it: last is NULL until the first nextval. */
  datatype Sequence = Sequence(start: int, increment: int, last: Option<int>)

  datatype Database = Database(tables: map<string, multiset<int>>, seqs: map<string, Sequence>)

  const METRIC_TABLES: seq<string> := [
    "cpu_metrics", "memory_metrics", "load_metrics", "disk_metrics", "network_metrics", "ecc_metrics",
    "temperature_metrics", "power_metrics", "process_metrics", "gpu_metrics", "smart_metrics", "custom_metrics"]

  const DIMENSION_TABLES: seq<string> := ["dimension_values", "process_info"]

  const SYSTEM_TABLES: seq<string> := [
    "preferences", "alerts", "alert_rules", "alert_rule_threshold", "alert_rule_predictive",
    "alert_rule_variance", "alert_rule_process_down", "alert_rule_process_thrashing",
    "archive_state", "scheduled_jobs", "schema_version"]

  function AllTables(): seq<string> { DIMENSION_TABLES + METRIC_TABLES + SYSTEM_TABLES }

  // ---- Sequences

  /** What the next nextval returns. */
  function NextId(q: Sequence): int { if q.last.Some? then q.last.value + q.increment else q.start }

  function Drawn(q: Sequence): Sequence { q.(last := Some(NextId(q))) }

  /** The sequence created in the new file: it starts where the original would go on. */
  function Recreated(q: Sequence): Sequence { Sequence(NextId(q), q.increment, None) }

  /** Sequences that hand out the same ids from now on. */
  ghost predicate SameFuture(a: Sequence, b: Sequence) { NextId(a) == NextId(b) && a.increment == b.increment }

  // ---- Writes

  datatype Write =
    | Insert(table: string, row: int)
    | Remove(table: string, row: int)
    | InsertWithId(table: string, sequence: string)   // id DEFAULT nextval('…')

  function Apply(d: Database, w: Write): Database {
    if w.table !in d.tables then d
    else
      match w
      case Insert(t, row) => d.(tables := d.tables[t := d.tables[t] + multiset{row}])
      case Remove(t, row) => d.(tables := d.tables[t := d.tables[t] - multiset{row}])
      case InsertWithId(t, q) =>
        if q !in d.seqs then d
        else Database(d.tables[t := d.tables[t] + multiset{NextId(d.seqs[q])}], d.seqs[q := Drawn(d.seqs[q])])
  }

  function Replay(d: Database, ws: seq<Write>): Database {
    if ws == [] then d else Apply(Replay(d, ws[..|ws| - 1]), ws[|ws| - 1])
  }

  /** The id a write draws, if it draws one. */
  function DrawnId(d: Database, w: Write, q: string): seq<int> {
    if w.InsertWithId? && w.sequence == q && w.table in d.tables && q in d.seqs then [NextId(d.seqs[q])] else []
  }

  // ---- The gate and the copy

  datatype World = World(
    tables: seq<string>,      // the tables compaction carries over, in order
    live: Database,
    holders: nat,             // writers holding the gate
    copy: Option<Database>,   // the new file, while compaction holds the gate
    copied: nat,              // how many of them are copied so far
    swapped: bool,
    log: seq<Write>,          // every write made
    ids: seq<(string, int)>)  // every id drawn, with its sequence

  datatype Event =
    | Acquire
    | Release
    | DoWrite(write: Write)
    | BeginCompact
    | CopyTable
    | Swap
    | EndCompact

  function EmptyCopy(d: Database): Database {
    Database(map[], map q | q in d.seqs :: Recreated(d.seqs[q]))
  }

  function Step(w: World, e: Event): World {
    match e
    case Acquire => if w.copy.None? then w.(holders := w.holders + 1) else w
    case Release => if w.holders > 0 then w.(holders := w.holders - 1) else w
    case DoWrite(x) =>
      if w.holders > 0 then
        w.(live := Apply(w.live, x), log := w.log + [x],
           ids := w.ids + if x.InsertWithId? && DrawnId(w.live, x, x.sequence) != []
                          then [(x.sequence, DrawnId(w.live, x, x.sequence)[0])] else [])
      else w
    case BeginCompact =>
      if w.holders == 0 && w.copy.None? then w.(copy := Some(EmptyCopy(w.live)), copied := 0, swapped := false) else w
    case CopyTable =>
      if w.copy.Some? && !w.swapped && w.copied < |w.tables| && w.tables[w.copied] in w.live.tables then
        var t := w.tables[w.copied];
        w.(copy := Some(w.copy.value.(tables := w.copy.value.tables[t := w.live.tables[t]])), copied := w.copied + 1)
      else w
    case Swap =>
      if w.copy.Some? && !w.swapped && w.copied == |w.tables| then w.(live := w.copy.value, swapped := true) else w
    case EndCompact => w.(copy := None)   // success, or an error that drops the copy
  }

  function Run(w: World, es: seq<Event>): World
    decreases |es|
  {
    if es == [] then w else Run(Step(w, es[0]), es[1..])
  }

  /** Databases with the same rows and the same future ids. */
  ghost predicate Same(a: Database, b: Database) {
    && a.tables == b.tables
    && a.seqs.Keys == b.seqs.Keys
    && forall q :: q in a.seqs ==> SameFuture(a.seqs[q], b.seqs[q])
  }

  /** The live schema is the schema compaction carries over. */
  ghost predicate Covers(tables: seq<string>, d: Database) {
    (forall t :: t in d.tables ==> t in tables) && (forall t :: t in tables ==> t in d.tables)
  }

  ghost predicate CopyOk(w: World)
    requires w.copy.Some?
  {
    var c := w.copy.value;
    && w.holders == 0
    && w.copied <= |w.tables|
    && (forall i :: 0 <= i < w.copied ==> w.tables[i] in c.tables)
    && (forall t :: t in c.tables ==> t in w.tables[..w.copied] && t in w.live.tables && c.tables[t] == w.live.tables[t])
    && c.seqs.Keys == w.live.seqs.Keys
    && (forall q :: q in c.seqs ==> SameFuture(c.seqs[q], w.live.seqs[q]))
  }

  ghost predicate Inv(w: World, start: Database) {
    && Covers(w.tables, w.live)
    && Same(w.live, Replay(start, w.log))
    && (w.copy.Some? ==> CopyOk(w))
  }

  /** At the swap the new file holds exactly the live tables. */
  lemma {:induction false} CopyIsComplete(w: World)
    requires Covers(w.tables, w.live) && w.copy.Some? && CopyOk(w) && w.copied == |w.tables|
    ensures Same(w.copy.value, w.live)
  {
    var c := w.copy.value;
    assert w.tables[..w.copied] == w.tables;
    forall t: string ensures t in c.tables <==> t in w.live.tables {
      if t in w.live.tables {
        var i :| 0 <= i < |w.tables| && w.tables[i] == t;
      }
    }
  }

  lemma SameTransitive(a: Database, b: Database, c: Database)
    requires Same(a, b) && Same(b, c)
    ensures Same(a, c)
  {
  }

  /** A write does the same to databases that are the same. */
  lemma WriteSame(a: Database, b: Database, w: Write)
    requires Same(a, b)
    ensures Same(Apply(a, w), Apply(b, w))
    ensures forall q :: DrawnId(a, w, q) == DrawnId(b, w, q)
  {
  }

  lemma ReplayAppend(d: Database, ws: seq<Write>, w: Write)
    ensures Replay(d, ws + [w]) == Apply(Replay(d, ws), w)
  {
    assert (ws + [w])[..|ws|] == ws;
  }

  /** The live database stays the replay of the writes. */
  lemma WriteReplayed(live: Database, start: Database, log: seq<Write>, x: Write)
    requires Same(live, Replay(start, log))
    ensures Same(Apply(live, x), Replay(start, log + [x]))
  {
    WriteSame(live, Replay(start, log), x);
    ReplayAppend(start, log, x);
  }

  lemma CopyTableKeeps(w: World, start: Database)
    requires Inv(w, start)
    ensures Inv(Step(w, CopyTable), start)
  {
    var w' := Step(w, CopyTable);
    if w' != w {
      var t := w.tables[w.copied];
      assert w.tables[..w'.copied] == w.tables[..w.copied] + [t];
    }
  }

  lemma SwapKeeps(w: World, start: Database)
    requires Inv(w, start)
    ensures Inv(Step(w, Swap), start)
  {
    if Step(w, Swap) != w {
      CopyIsComplete(w);
      SameTransitive(w.copy.value, w.live, Replay(start, w.log));
    }
  }

  lemma StepKeeps(w: World, start: Database, e: Event)
    requires Inv(w, start)
    ensures Inv(Step(w, e), start)
  {
    match e
    case DoWrite(x) => WriteReplayed(w.live, start, w.log, x);
    case CopyTable => CopyTableKeeps(w, start);
    case Swap => SwapKeeps(w, start);
    case _ =>
  }

  ghost predicate Init(w: World) {
    w.holders == 0 && w.copy.None? && w.log == [] && w.ids == [] && Covers(w.tables, w.live)
  }

  lemma {:induction false} RunKeeps(w: World, start: Database, es: seq<Event>)
    requires Inv(w, start)
    ensures Inv(Run(w, es), start)
    decreases |es|
  {
    if es != [] {
      StepKeeps(w, start, es[0]);
      RunKeeps(Step(w, es[0]), start, es[1..]);
    }
  }

  /** Compaction loses no gated write: in every interleaving, through any number of
      compactions finished or dropped, the live database is the one all writes would have
      made, in their order, had it never been compacted. */
  lemma NoWriteLost(w: World, es: seq<Event>)
    requires Init(w)
    ensures Same(Run(w, es).live, Replay(w.live, Run(w, es).log))
  {
    RunKeeps(w, w.live, es);
  }

  /** When the swap happens, the new file equals the live database on every table. */
  lemma SwapIsInvisible(w: World, es: seq<Event>)
    requires Init(w)
    ensures Same(Step(Run(w, es), Swap).live, Run(w, es).live)
  {
    RunKeeps(w, w.live, es);
    if Step(Run(w, es), Swap) != Run(w, es) {
      CopyIsComplete(Run(w, es));
    }
  }

  /** Count by count, what a write does to a table. */
  lemma WriteIs(d: Database, w: Write, t: string, row: int)
    requires t in d.tables
    ensures var d' := Apply(d, w);
            var drawn := if w.InsertWithId? then DrawnId(d, w, w.sequence) else [];
            && t in d'.tables
            && d'.tables[t][row] == d.tables[t][row]
                 + (if w == Insert(t, row) || (w.table == t && drawn == [row]) then 1 else 0)
                 - (if w == Remove(t, row) && row in d.tables[t] then 1 else 0)
  {
  }

  // ---- A compaction comes to its end

  function Copies(n: nat): seq<Event> { seq(n, _ => CopyTable) }

  lemma {:induction false} RunAppend(w: World, a: seq<Event>, b: seq<Event>)
    ensures Run(w, a + b) == Run(Run(w, a), b)
    decreases |a|
  {
    if a == [] {
      assert a + b == b;
    } else {
      assert (a + b)[1..] == a[1..] + b;
      RunAppend(Step(w, a[0]), a[1..], b);
    }
  }

  lemma {:induction false} CopiesAll(w: World, n: nat)
    requires w.copy.Some? && !w.swapped && w.copied + n == |w.tables| && Covers(w.tables, w.live)
    ensures var w' := Run(w, Copies(n));
            w'.copy.Some? && w'.copied == |w.tables| && w' == w.(copy := w'.copy, copied := w'.copied)
    decreases n
  {
    if n > 0 {
      assert Copies(n)[1..] == Copies(n - 1);
      assert w.tables[w.copied] in w.tables;
      CopiesAll(Step(w, CopyTable), n - 1);
    }
  }

  /** The events of a compaction that succeeds. */
  function Whole(w: World): seq<Event> { [BeginCompact] + Copies(|w.tables|) + [Swap, EndCompact] }

  /** Wherever a run lets the gate go free, a compaction can be run to its end: it serves a new
      file with freshly created sequences, the same as the old one, and the gate is open to
      writers and to the next compaction again. */
  lemma CompactionFinishes(w: World, es: seq<Event>)
    requires Init(w) && Run(w, es).holders == 0 && Run(w, es).copy.None?
    ensures var before := Run(w, es);
            var after := Run(before, Whole(before));
            && Same(after.live, before.live) && (forall q :: q in after.live.seqs ==> after.live.seqs[q].last.None?)
            && after.copy.None? && after.holders == 0 && after.log == before.log
            && Step(after, Acquire).holders == 1 && Step(after, BeginCompact).copy.Some?
  {
    var before := Run(w, es);
    var n := |before.tables|;
    RunKeeps(w, w.live, es);
    var w1 := Step(before, BeginCompact);
    StepKeeps(before, w.live, BeginCompact);
    CopiesAll(w1, n);
    RunKeeps(w1, w.live, Copies(n));
    var w2 := Run(w1, Copies(n));
    CopiesKeepSequences(w1, n);
    CopyIsComplete(w2);
    var rest: seq<Event> := [Swap, EndCompact];
    assert rest[1..] == [EndCompact] && rest[1..][1..] == [];
    var w3 := Step(w2, Swap);
    assert Run(w2, rest) == Step(w3, EndCompact);
    RunAppend(w1, Copies(n), rest);
    assert Whole(before)[1..] == Copies(n) + rest;
  }

  lemma {:induction false} CopiesKeepSequences(w: World, n: nat)
    requires w.copy.Some?
    ensures var w' := Run(w, Copies(n)); w'.copy.Some? && w'.copy.value.seqs == w.copy.value.seqs
    decreases n
  {
    if n > 0 {
      assert Copies(n)[1..] == Copies(n - 1);
      CopiesKeepSequences(Step(w, CopyTable), n - 1);
    }
  }

  // ---- Ids

  /** All ids drawn so far lie below what their sequence hands out next, in rising order. */
  ghost predicate IdsRise(w: World) {
    && (forall q :: q in w.live.seqs ==> w.live.seqs[q].increment > 0)
    && (forall k :: 0 <= k < |w.ids| ==> w.ids[k].0 in w.live.seqs && w.ids[k].1 < NextId(w.live.seqs[w.ids[k].0]))
    && (forall j, k :: 0 <= j < k < |w.ids| && w.ids[j].0 == w.ids[k].0 ==> w.ids[j].1 < w.ids[k].1)
  }

  lemma WriteKeepsIds(w: World, x: Write)
    requires IdsRise(w) && w.holders > 0
    ensures IdsRise(Step(w, DoWrite(x)))
  {
    var w' := Step(w, DoWrite(x));
    forall k | 0 <= k < |w'.ids|
      ensures w'.ids[k].0 in w'.live.seqs && w'.ids[k].1 < NextId(w'.live.seqs[w'.ids[k].0])
    {
      if k < |w.ids| { assert w'.ids[k] == w.ids[k]; }
    }
    forall j, k | 0 <= j < k < |w'.ids| && w'.ids[j].0 == w'.ids[k].0 ensures w'.ids[j].1 < w'.ids[k].1 {
      assert w'.ids[j] == w.ids[j];
      if k < |w.ids| { assert w'.ids[k] == w.ids[k]; }
    }
  }

  lemma SwapKeepsIds(w: World, start: Database)
    requires Inv(w, start) && IdsRise(w)
    ensures IdsRise(Step(w, Swap))
  {
    if Step(w, Swap) != w {
      CopyIsComplete(w);
    }
  }

  lemma StepKeepsIds(w: World, start: Database, e: Event)
    requires Inv(w, start) && IdsRise(w)
    ensures IdsRise(Step(w, e))
  {
    match e
    case DoWrite(x) => if w.holders > 0 { WriteKeepsIds(w, x); }
    case Swap => SwapKeepsIds(w, start);
    case _ =>
      assert Step(w, e).live == w.live && Step(w, e).ids == w.ids;
  }

  lemma {:induction false} RunKeepsIds(w: World, start: Database, es: seq<Event>)
    requires Inv(w, start) && IdsRise(w)
    ensures IdsRise(Run(w, es))
    decreases |es|
  {
    if es != [] {
      StepKeeps(w, start, es[0]);
      StepKeepsIds(w, start, es[0]);
      RunKeepsIds(Step(w, es[0]), start, es[1..]);
    }
  }

  /** Ids drawn from a sequence never repeat, within or across compactions. */
  lemma IdsNeverRepeat(w: World, es: seq<Event>, j: nat, k: nat)
    requires Init(w) && forall q :: q in w.live.seqs ==> w.live.seqs[q].increment > 0
    requires j < k < |Run(w, es).ids| && Run(w, es).ids[j].0 == Run(w, es).ids[k].0
    ensures Run(w, es).ids[j].1 < Run(w, es).ids[k].1
  {
    RunKeepsIds(w, w.live, es);
  }

  // ---- The copying code

  class Store {
    var db: Database

    /** CreateSequencesIn: read the catalogue, then create each sequence in the new file. */
    method CreateSequences(names: seq<string>) returns (created: map<string, Sequence>)
      requires forall q :: q in names <==> q in db.seqs
      ensures created == EmptyCopy(db).seqs
    {
      created := map[];
      for i := 0 to |names|
        invariant forall q :: q in created <==> q in names[..i]
        invariant forall q :: q in created ==> q in db.seqs && created[q] == Recreated(db.seqs[q])
      {
        var q := db.seqs[names[i]];
        var next := q.start;
        if q.last.Some? {
          next := q.last.value + q.increment;
        }
        assert names[..i + 1] == names[..i] + [names[i]];
        created := created[names[i] := Sequence(next, q.increment, None)];
      }
      assert names[..|names|] == names;
    }

    /** Build the new file: the sequences, then the tables one by one. */
    method BuildCopy(names: seq<string>, tables: seq<string>) returns (copy: Database)
      requires Covers(tables, db)
      requires forall q :: q in names <==> q in db.seqs
      ensures Same(copy, db)
    {
      var created := CreateSequences(names);
      copy := Database(map[], created);
      for i := 0 to |tables|
        invariant copy.seqs == created
        invariant CopyOk(World(tables, db, 0, Some(copy), i, false, [], []))
      {
        assert tables[i] in db.tables;
        assert tables[..i + 1] == tables[..i] + [tables[i]];
        copy := copy.(tables := copy.tables[tables[i] := db.tables[tables[i]]]);
      }
      CopyIsComplete(World(tables, db, 0, Some(copy), |tables|, false, [], []));
    }

    /** The copy a compaction makes, of the tables it lists. */
    method CopyDatabase(names: seq<string>) returns (copy: Database)
      requires Covers(AllTables(), db)
      requires forall q :: q in names <==> q in db.seqs
      ensures Same(copy, db)
    {
      copy := BuildCopy(names, AllTables());
    }
  }
}
