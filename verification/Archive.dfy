/** What archiving promises over whole runs, and the archiver's own loops. */
module Archive {
  import opened Basics
  import opened Rows
  import opened ArchiveProtocol

  // ---- Whole runs

  /** Read by name, `r` is in the file named by its UTC day, the 24 hours it lies in. */
  ghost predicate Filed(k: Disk, r: Row) {
    exists d, q :: d in k.files && q in k.files[d] && ReadsAs(q, k.cols, r)
                   && d * 86_400_000_000_000 <= r.ts < (d + 1) * 86_400_000_000_000
  }

  /** In every run, whatever is interleaved and wherever the process dies, every inserted
      row is in the live table or, read by name, in the file named by its UTC day. */
  lemma NoRowLost(w: World, es: seq<Event>, r: Row)
    requires Init(w) && r in Run(w, es).ref
    ensures var k := Run(w, es).disk;
            r in k.live || Filed(k, r)
  {
    var w' := Run(w, es);
    var d := DayOf(r.ts);
    InitInv(w);
    RunKeeps(w, es);
    assert DayKept(w', d);
    DayMember(w'.ref, d, r);
    assert r in multiset(DayRows(w'.ref, d));
    assert r in multiset(Counted(w', d));
    assert r in DayRows(CountedLive(w'), d) || r in WidenAll(w'.disk.cols, FileOf(CountedFiles(w'), d));
    DayMember(CountedLive(w'), d, r);
    WidenMember(w'.disk.cols, FileOf(CountedFiles(w'), d), r);
    if r in WidenAll(w'.disk.cols, FileOf(CountedFiles(w'), d)) { ReadFromFile(w'.disk, r); }
    if w'.pc.AtDelete? {
      OutsideMember(w'.disk.live, w'.pc.job.DayStart(), w'.pc.job.DayEnd(), r);
    }
  }

  lemma ReadFromFile(k: Disk, r: Row)
    requires r in WidenAll(k.cols, FileOf(k.files, DayOf(r.ts)))
    ensures Filed(k, r)
  {
    var d := DayOf(r.ts);
    WidenMember(k.cols, FileOf(k.files, d), r);
    var q :| q in FileOf(k.files, d) && r == Widen(k.cols, q);
    WidenReads(k.cols, q, r);
    DayBounds(r.ts);
    assert d in k.files && q in k.files[d];
  }

  /** Nothing is invented either: what is held anywhere was inserted. */
  lemma NoRowInvented(w: World, es: seq<Event>, r: Row)
    requires Init(w)
    requires var k := Run(w, es).disk;
             r in k.live || exists d, q :: d in k.files && q in k.files[d] && ReadsAs(q, k.cols, r)
    ensures r in Run(w, es).ref
  {
    InitInv(w);
    RunKeeps(w, es);
    var k := Run(w, es).disk;
    if r !in k.live {
      var d, q :| d in k.files && q in k.files[d] && ReadsAs(q, k.cols, r);
      WidenReads(k.cols, q, r);
    }
  }

  // ---- The rows as they were inserted

  /** The row an event puts into the table. */
  function Taken(w: World, e: Event): seq<Row> {
    if e.Insert? && e.row.ts >= w.floor && e.row.cells.Keys == w.disk.cols then [e.row] else []
  }

  /** The rows inserted in a run, as they were written: no migration touches this log. */
  function Inserted(w: World, es: seq<Event>): seq<Row>
    decreases |es|
  {
    if es == [] then [] else Taken(w, es[0]) + Inserted(Step(w, es[0]), es[1..])
  }

  /** The table `rows`, with columns `cols`, holds the rows of the log in their order. */
  ghost predicate Reads(log: seq<Row>, cols: set<string>, rows: seq<Row>) {
    ReadAllAs(log, cols, rows) && forall i :: 0 <= i < |log| ==> log[i].cells.Keys <= cols
  }

  lemma StepReads(w: World, e: Event, log: seq<Row>)
    requires Reads(log, w.disk.cols, w.ref)
    ensures var w' := Step(w, e);
            Reads(log + Taken(w, e), w'.disk.cols, w'.ref)
  {
    if e.AddColumn? && w.pc.Idle? {
      var more := w.disk.cols + {e.name};
      assert log + [] == log;
      forall i | 0 <= i < |log| ensures log[i].cells.Keys <= more && ReadsAs(log[i], more, WidenAll(more, w.ref)[i]) {
        WidenAt(more, w.ref, i);
      }
    }
  }

  lemma {:induction false} RunReads(w: World, es: seq<Event>, log: seq<Row>)
    requires Reads(log, w.disk.cols, w.ref)
    ensures var w' := Run(w, es);
            Reads(log + Inserted(w, es), w'.disk.cols, w'.ref)
    decreases |es|
  {
    if es == [] {
      assert log + [] == log;
    } else {
      StepReads(w, es[0], log);
      RunReads(Step(w, es[0]), es[1..], log + Taken(w, es[0]));
      assert (log + Taken(w, es[0])) + Inserted(Step(w, es[0]), es[1..]) == log + Inserted(w, es);
    }
  }

  /** All rows ever written to a table that starts as `w`. */
  function Log(w: World, es: seq<Event>): seq<Row> { w.disk.live + Inserted(w, es) }

  /** The table had nothing ever left it is the log, each row with what it was written with and
      NULL in every column added since. */
  lemma RefReadsLog(w: World, es: seq<Event>)
    requires Init(w)
    ensures Reads(Log(w, es), Run(w, es).disk.cols, Run(w, es).ref)
  {
    RunReads(w, es, w.disk.live);
  }

  ghost predicate CrashFree(es: seq<Event>) { Crash !in es }

  lemma {:induction false} CrashFreeIsSafe(w: World, es: seq<Event>)
    requires CrashFree(es)
    ensures !CrashesAtRisk(w, es)
    decreases |es|
  {
    if es != [] {
      assert es[0] in es;
      CrashFreeIsSafe(Step(w, es[0]), es[1..]);
    }
  }

  ghost predicate Resting(pc: Pc) { pc.Idle? || pc.AtExport? || pc.AtUpsert? }

  ghost predicate HeldAsInserted(w: World, d: int) {
    multiset(Held(w.disk.cols, w.disk.live, w.disk.files, d)) == multiset(DayRows(w.ref, d))
  }

  /** Between the archiver's steps every row is held exactly as often as it was inserted,
      exactly if the process never died while rows stood both in the table and in a file. */
  lemma HeldExactly(w: World, es: seq<Event>)
    requires Init(w) && Resting(Run(w, es).pc)
    ensures (forall d :: HeldAsInserted(Run(w, es), d)) <==> !CrashesAtRisk(w, es)
  {
    var w' := Run(w, es);
    InitInv(w);
    RunKeeps(w, es);
    CleanIff(w, es);
    UncleanIsOverfull(w, es);
    if w'.clean {
      forall d ensures HeldAsInserted(w', d) { assert DayExact(w', d); }
    } else {
      var d :| Excess(w', d) > 0;
      assert HeldAsInserted(w', d) ==> |multiset(Counted(w', d))| == |multiset(DayRows(w'.ref, d))|;
    }
  }

  // ---- Runs that repeat or leave behind a row

  const OldRow: Row := Row(0, map[])

  /** A table of one row, never archived. */
  const OneRow: World := World(Disk({}, [OldRow], map[], None), Idle, 0, [OldRow], true, false)

  const OldJob: Job := Job(0, 0, 1, ZERO_TIME)

  lemma OldRowFacts()
    ensures Between([OldRow], ZERO_TIME, 1) == Between([OldRow], 0, 1) == [OldRow]
    ensures Outside([OldRow], 0, 1) == []
    ensures WidenAll({}, [OldRow]) == [OldRow] && DayRows([OldRow], 0) == [OldRow]
    ensures Between([], 0, 1) == [] && WidenAll({}, []) == [] && Flatten(map[0 := [OldRow]], [0]) == [OldRow]
  {
    assert [OldRow][1..] == [] && [0][1..] == [];
    assert Widen({}, OldRow) == OldRow;
    assert Flatten(map[0 := [OldRow]], []) == [];
  }

  /** OneRow exported, archived, exported and crashed, archived and its unarchive cut short. */
  const Exported: World := World(Disk({}, [OldRow], map[0 := [OldRow]], None), AtDelete(OldJob), 1, [OldRow], true, false)
  const Moved: World := World(Disk({}, [], map[0 := [OldRow]], Some(1)), Idle, 1, [OldRow], true, false)
  const Doubled: World := World(Disk({}, [OldRow], map[0 := [OldRow]], None), Idle, 1, [OldRow], false, false)
  const CutShort: World := World(Disk({}, [OldRow], map[], Some(1)), Idle, 1, [OldRow], true, true)

  const ToExport: seq<Event> := [Begin(1), Export]
  const ToMove: seq<Event> := ToExport + [Delete, Upsert]

  lemma ExportedOnce()
    ensures Init(OneRow) && Run(OneRow, ToExport) == Exported
  {
    OldRowFacts();
    var c := Candidates(OneRow.disk, 1);
    assert MinTs(c) == 0 && MaxTs(c) == 0;
    assert ToExport[1..] == [Export] && ToExport[1..][1..] == [];
    var w1 := Step(OneRow, Begin(1));
    assert w1.pc == AtExport(OldJob);
    assert DoExport(w1.disk, OldJob).files == map[0 := [OldRow]] by { assert [OldRow] + [] == [OldRow]; }
    assert Run(OneRow, ToExport) == Step(w1, Export);
  }

  lemma MovedOnce()
    ensures Run(OneRow, ToMove) == Moved
  {
    ExportedOnce();
    OldRowFacts();
    var rest: seq<Event> := [Delete, Upsert];
    RunAppend(OneRow, ToExport, rest);
    assert rest[1..] == [Upsert] && rest[1..][1..] == [];
    assert Run(Exported, rest) == Step(Step(Exported, Delete), Upsert);
  }

  lemma ExportedTwice()
    ensures Run(Doubled, ToExport).disk.files == map[0 := [OldRow, OldRow]]
  {
    OldRowFacts();
    var c := Candidates(Doubled.disk, 1);
    assert MinTs(c) == 0 && MaxTs(c) == 0;
    assert ToExport[1..] == [Export] && ToExport[1..][1..] == [];
    var w1 := Step(Doubled, Begin(1));
    assert w1.pc == AtExport(OldJob);
    assert [OldRow] + [OldRow] == [OldRow, OldRow];
    assert Step(w1, Export).disk.files[0] == [OldRow, OldRow];
    assert Step(w1, Export).disk.files == map[0 := [OldRow, OldRow]];
    assert Run(Doubled, ToExport) == Step(w1, Export);
  }

  /** A crash between export and DELETE leaves the row in both places, and the next archive
      run puts it into its file a second time. */
  lemma CrashMayDuplicate()
    ensures var w := Run(OneRow, ToExport + [Crash]);
            && Init(OneRow) && w.pc.Idle? && Held(w.disk.cols, w.disk.live, w.disk.files, 0) == [OldRow, OldRow]
            && Run(w, ToExport).disk.files == map[0 := [OldRow, OldRow]]
  {
    ExportedOnce();
    OldRowFacts();
    RunAppend(OneRow, ToExport, [Crash]);
    assert [Crash][1..] == [];
    assert Run(Exported, [Crash]) == Step(Exported, Crash) == Doubled;
    ExportedTwice();
  }

  lemma Reloaded()
    ensures Step(Moved, BeginUnarchive([0])) == Moved.(disk := Moved.disk.(live := [OldRow]), pc := AtRemove([0]))
  {
    OldRowFacts();
    assert Lists([0], Moved.disk.files);
    assert [] + [OldRow] == [OldRow];
  }

  /** A crash between the reload and the removal of the file does the same. */
  lemma UnarchiveCrashMayDuplicate()
    ensures var w := Run(OneRow, ToMove + [BeginUnarchive([0]), Crash]);
            w.pc.Idle? && Held(w.disk.cols, w.disk.live, w.disk.files, 0) == [OldRow, OldRow]
  {
    MovedOnce();
    Reloaded();
    OldRowFacts();
    var rest: seq<Event> := [BeginUnarchive([0]), Crash];
    RunAppend(OneRow, ToMove, rest);
    assert rest[1..] == [Crash] && rest[1..][1..] == [];
    assert Run(Moved, rest) == Step(Step(Moved, BeginUnarchive([0])), Crash);
  }

  lemma UnarchiveCutShort()
    ensures Run(Moved, [BeginUnarchive([0]), RemoveFile, Crash]) == CutShort
  {
    Reloaded();
    var rest: seq<Event> := [BeginUnarchive([0]), RemoveFile, Crash];
    assert rest[1..] == [RemoveFile, Crash] && rest[1..][1..] == [Crash] && rest[1..][1..][1..] == [];
    var w2 := Step(Moved, BeginUnarchive([0]));
    var w3 := Step(w2, RemoveFile);
    assert w3.disk == CutShort.disk && w3.pc == AtClear;
    assert OldRow in w3.disk.live;
    assert Run(Moved, rest) == Run(w2, [RemoveFile, Crash]) == Run(w3, [Crash]) == Step(w3, Crash);
  }

  const ToCutShort: seq<Event> := ToMove + [BeginUnarchive([0]), RemoveFile, Crash]

  lemma CutShortReached()
    ensures Init(OneRow) && Run(OneRow, ToCutShort) == CutShort
  {
    ExportedOnce();
    MovedOnce();
    UnarchiveCutShort();
    RunAppend(OneRow, ToMove, [BeginUnarchive([0]), RemoveFile, Crash]);
  }

  /** A crash after the files are removed and before archive_state is cleared leaves the
      reloaded row live, older than last_archived_ts: no later archive run looks at it. */
  lemma UnarchiveCrashStrands()
    ensures Run(OneRow, ToCutShort) == CutShort && OlderLive(CutShort.disk)
    ensures LeavesRowsBehind(OneRow, ToCutShort) && !CrashesAtRisk(OneRow, ToCutShort)
    ensures forall cutoff :: Candidates(CutShort.disk, cutoff) == []
  {
    CutShortReached();
    StrandedIff(OneRow, ToCutShort);
    CleanIff(OneRow, ToCutShort);
    assert OldRow in CutShort.disk.live;
    forall cutoff ensures Candidates(CutShort.disk, cutoff) == [] {
      assert [OldRow][1..] == [] && Between([], 1, cutoff) == [];
    }
  }

  // ---- archive_state

  /** Everything before last_archived_ts has left the live table for its day's file. */
  ghost predicate ArchivedBefore(w: World) {
    forall r :: r in w.ref && r.ts < From(w.disk) ==> r !in w.disk.live && Filed(w.disk, r)
  }

  /** last_archived_ts never passes a cutoff.  At every moment outside an unarchive, inside an
      archive run as well, every row before it has left the live table for its day's file
      exactly if the run leaves no row behind: if no crash inside an unarchive, not made up
      for by a finished one, brought such rows back. */
  lemma BeforeLastIsArchived(w: World, es: seq<Event>)
    requires Init(w) && !InUnarchive(Run(w, es).pc)
    ensures From(Run(w, es).disk) <= Run(w, es).floor
    ensures ArchivedBefore(Run(w, es)) <==> !LeavesRowsBehind(w, es)
    ensures OlderLive(Run(w, es).disk) <==> LeavesRowsBehind(w, es)
  {
    var w' := Run(w, es);
    InitInv(w);
    RunKeeps(w, es);
    StrandedIff(w, es);
    StrandedIsOlder(w, es);
    if w'.stranded {
      var r :| r in w'.disk.live && r.ts < From(w'.disk);
      assert r in w'.ref;
    } else {
      forall r | r in w'.ref && r.ts < From(w'.disk) ensures r !in w'.disk.live && Filed(w'.disk, r) {
        NoRowLost(w, es, r);
      }
    }
  }

  lemma StepAdvances(w: World, e: Event)
    requires Ordered(w) && e != ClearState
    ensures From(w.disk) <= From(Step(w, e).disk)
  {
  }

  lemma {:induction false} StateNeverMovesBack(w: World, es: seq<Event>)
    requires Frame(w) && ClearState !in es
    ensures From(w.disk) <= From(Run(w, es).disk) <= Run(w, es).floor
    decreases |es|
  {
    if es != [] {
      assert es[0] in es;
      StepFrame(w, es[0]);
      StepAdvances(w, es[0]);
      StateNeverMovesBack(Step(w, es[0]), es[1..]);
    }
  }

  // ---- Archive, then unarchive

  function UnarchiveEvents(days: seq<int>): seq<Event> {
    [BeginUnarchive(days)] + seq(|days|, _ => RemoveFile) + [ClearState]
  }

  lemma {:induction false} RunAppend(w: World, a: seq<Event>, b: seq<Event>)
    ensures Run(w, a + b) == Run(Run(w, a), b)
    decreases |a|
  {
    if a == [] {
      assert a + b == b;
    } else {
      assert (a + b)[1..] == a[1..] + b;
      RunAppend(Step(w, a[0]), a[1..], b);
    }
  }

  lemma {:induction false} RemovingAll(w: World, n: nat)
    requires w.pc == if n == 0 then AtClear else w.pc
    requires n > 0 ==> w.pc.AtRemove? && |w.pc.days| == n
    ensures Run(w, seq(n, _ => RemoveFile)).pc == AtClear
    ensures Run(w, seq(n, _ => RemoveFile)).clean == w.clean
    ensures Run(w, seq(n, _ => RemoveFile)).ref == w.ref
    decreases n
  {
    var es := seq(n, _ => RemoveFile);
    if n > 0 {
      assert es[1..] == seq(n - 1, _ => RemoveFile);
      RemovingAll(Step(w, RemoveFile), n - 1);
    }
  }

  lemma ReloadRuns(w: World, days: seq<int>)
    requires w.pc.Idle? && Lists(days, w.disk.files)
    ensures var w' := Run(w, UnarchiveEvents(days));
            w'.pc.Idle? && w'.disk.last.None? && w'.clean == w.clean && w'.ref == w.ref
  {
    var removals := seq(|days|, _ => RemoveFile);
    var w2 := Step(w, BeginUnarchive(days));
    assert UnarchiveEvents(days)[1..] == removals + [ClearState];
    RunAppend(w2, removals, [ClearState]);
    assert [ClearState][1..] == [];
    RemovingAll(w2, |days|);
  }

  lemma {:induction false} RemovingAllFiles(w: World, n: nat)
    requires Frame(w)
    requires if n == 0 then w.pc == AtClear else w.pc.AtRemove? && |w.pc.days| == n
    ensures Run(w, seq(n, _ => RemoveFile)).disk.files == map[]
    decreases n
  {
    var es := seq(n, _ => RemoveFile);
    if n > 0 {
      assert es[1..] == seq(n - 1, _ => RemoveFile);
      StepFrame(w, RemoveFile);
      RemovingAllFiles(Step(w, RemoveFile), n - 1);
    }
  }

  lemma ReloadEmptiesFiles(w: World, days: seq<int>)
    requires Frame(w) && w.pc.Idle? && Lists(days, w.disk.files)
    ensures Run(w, UnarchiveEvents(days)).disk.files == map[]
  {
    var removals := seq(|days|, _ => RemoveFile);
    var w2 := Step(w, BeginUnarchive(days));
    assert UnarchiveEvents(days)[1..] == removals + [ClearState];
    RunAppend(w2, removals, [ClearState]);
    assert [ClearState][1..] == [];
    StepFrame(w, BeginUnarchive(days));
    RemovingAllFiles(w2, |days|);
  }

  lemma {:induction false} UnarchiveHasNoCrash(days: seq<int>)
    ensures CrashFree(UnarchiveEvents(days))
  {
  }

  lemma {:induction false} CountOnDay(s: seq<Row>, d: int, r: Row)
    ensures multiset(DayRows(s, d))[r] == if DayOf(r.ts) == d then multiset(s)[r] else 0
  {
    if s != [] {
      CountOnDay(s[1..], d, r);
      assert s == [s[0]] + s[1..];
      DayAppend([s[0]], s[1..], d);
    }
  }

  lemma SameRowsSameDays(a: seq<Row>, b: seq<Row>, d: int)
    requires multiset(a) == multiset(b)
    ensures multiset(DayRows(a, d)) == multiset(DayRows(b, d))
  {
    forall r: Row ensures multiset(DayRows(a, d))[r] == multiset(DayRows(b, d))[r] {
      CountOnDay(a, d, r);
      CountOnDay(b, d, r);
    }
  }

  /** With nothing filed and nothing going on, tables are equal day by day or not at all. */
  lemma UnfiledExactIff(w: World)
    requires w.pc.Idle? && w.disk.files == map[]
    ensures (forall d :: HeldAsInserted(w, d)) <==> multiset(w.disk.live) == multiset(w.ref)
  {
    forall d ensures Held(w.disk.cols, w.disk.live, w.disk.files, d) == DayRows(w.disk.live, d) {
      assert DayRows(w.disk.live, d) + [] == DayRows(w.disk.live, d);
    }
    if multiset(w.disk.live) == multiset(w.ref) {
      forall d ensures HeldAsInserted(w, d) { SameRowsSameDays(w.disk.live, w.ref, d); }
    }
    if forall d :: HeldAsInserted(w, d) {
      forall d ensures multiset(DayRows(w.disk.live, d)) == multiset(DayRows(w.ref, d)) { assert HeldAsInserted(w, d); }
      SameDaysSameRows(w.disk.live, w.ref);
    }
  }

  lemma {:induction false} RiskAppend(w: World, a: seq<Event>, b: seq<Event>)
    ensures CrashesAtRisk(w, a + b) <==> CrashesAtRisk(w, a) || CrashesAtRisk(Run(w, a), b)
    decreases |a|
  {
    if a == [] {
      assert a + b == b;
    } else {
      assert (a + b)[1..] == a[1..] + b;
      RiskAppend(Step(w, a[0]), a[1..], b);
    }
  }

  /** Archive and unarchive are inverse, and commute with schema migration: after any run,
      with columns added while rows sat in old files, reloading gives the multiset the live
      table would hold had no row ever left it, exactly if the process never died while rows
      stood both in the table and in a file. */
  lemma ArchiveRoundTrip(w: World, es: seq<Event>, days: seq<int>)
    requires Init(w) && Run(w, es).pc.Idle?
    requires Lists(days, Run(w, es).disk.files)
    ensures var w' := Run(w, es + UnarchiveEvents(days));
            && (multiset(w'.disk.live) == multiset(Run(w, es).ref) <==> !CrashesAtRisk(w, es))
            && w'.disk.files == map[] && w'.disk.last.None? && w'.pc.Idle?
  {
    var w' := Run(w, es + UnarchiveEvents(days));
    InitInv(w);
    RunKeeps(w, es);
    RunAppend(w, es, UnarchiveEvents(days));
    ReloadRuns(Run(w, es), days);
    ReloadEmptiesFiles(Run(w, es), days);
    UnfiledExactIff(w');
    HeldExactly(w, es + UnarchiveEvents(days));
    RiskAppend(w, es, UnarchiveEvents(days));
    UnarchiveHasNoCrash(days);
    CrashFreeIsSafe(Run(w, es), UnarchiveEvents(days));
  }

  /** The round trip against the rows as they were written: `table` holds one row for each row of
      the log, equal in every column that one was written with and NULL in all others.  After
      the unarchive the live table has exactly the rows of `table`, and as often exactly if the
      process never died while rows stood in both places. */
  lemma RoundTripByName(w: World, es: seq<Event>, days: seq<int>) returns (table: seq<Row>)
    requires Init(w) && Run(w, es).pc.Idle?
    requires Lists(days, Run(w, es).disk.files)
    ensures Reads(Log(w, es), Run(w, es).disk.cols, table)
    ensures var live := Run(w, es + UnarchiveEvents(days)).disk.live;
            && (forall r :: r in live <==> r in table)
            && (multiset(live) == multiset(table) <==> !CrashesAtRisk(w, es))
  {
    table := Run(w, es).ref;
    RefReadsLog(w, es);
    ArchiveRoundTrip(w, es, days);
    ReloadRefIs(w, es, days);
    var all := es + UnarchiveEvents(days);
    forall r ensures r in Run(w, all).disk.live <==> r in table {
      if r in table { NoRowLost(w, all, r); }
      if r in Run(w, all).disk.live { NoRowInvented(w, all, r); }
    }
  }

  lemma ReloadRefIs(w: World, es: seq<Event>, days: seq<int>)
    requires Run(w, es).pc.Idle? && Lists(days, Run(w, es).disk.files)
    ensures Run(w, es + UnarchiveEvents(days)).ref == Run(w, es).ref
  {
    RunAppend(w, es, UnarchiveEvents(days));
    ReloadRuns(Run(w, es), days);
  }

  /** So for every live row after it, a row was written that it equals in the columns it was
      written with, being NULL in all others; and every row written has such a live row. */
  lemma UnarchivedRowsAreAsWritten(w: World, es: seq<Event>, days: seq<int>)
    requires Init(w) && Run(w, es).pc.Idle?
    requires Lists(days, Run(w, es).disk.files)
    ensures var log, cols, live := Log(w, es), Run(w, es).disk.cols, Run(w, es + UnarchiveEvents(days)).disk.live;
            && (forall r :: r in live ==> exists q :: q in log && ReadsAs(q, cols, r))
            && (forall q :: q in log ==> exists r :: r in live && ReadsAs(q, cols, r))
  {
    var table := RoundTripByName(w, es, days);
    var log, live := Log(w, es), Run(w, es + UnarchiveEvents(days)).disk.live;
    forall r | r in live ensures exists q :: q in log && ReadsAs(q, Run(w, es).disk.cols, r) {
      assert r in table;
      var i :| 0 <= i < |table| && table[i] == r;
      assert log[i] in log;
    }
    forall q | q in log ensures exists r :: r in live && ReadsAs(q, Run(w, es).disk.cols, r) {
      var i :| 0 <= i < |log| && log[i] == q;
      assert table[i] in table;
      assert table[i] in live;
    }
  }

  // ---- The archiver's statements and loops

  lemma NoDays(s: set<int>)
    requires forall d :: d !in s
    ensures s == {}
  {
    forall d ensures d !in s { }
  }

  class TableStore {
    var cols: set<string>
    var live: seq<Row>
    var files: map<int, seq<Row>>
    var last: Option<int>

    function Contents(): Disk
      reads this
    {
      Disk(cols, live, files, last)
    }

    /** COPY the range to the day's file, merging by name with what it already holds. */
    method ExportToParquet(day: int, start: int, end: int)
      modifies this`files
      ensures files == old(files)[day := Between(live, start, end) + WidenAll(cols, FileOf(old(files), day))]
      ensures var moved := Between(live, start, end);
              moved <= files[day] && ReadAllAs(FileOf(old(files), day), cols, files[day][|moved|..])
    {
      WidenAllReads(cols, FileOf(files, day));
      if day in files {
        files := files[day := Between(live, start, end) + WidenAll(cols, files[day])];
      } else {
        assert Between(live, start, end) + [] == Between(live, start, end);
        files := files[day := Between(live, start, end)];
      }
    }

    /** One table's archive run, day by day. */
    method ArchiveTable(cutoff: int)
      modifies this`live, this`files, this`last
      ensures Contents() == Archived(old(Contents()), cutoff)
    {
      var lastArchived := if last.Some? then last.value else ZERO_TIME;
      var rows := Between(live, lastArchived, cutoff);
      if rows == [] {
        return;
      }
      var minTs, maxTs := MinTs(rows), MaxTs(rows);
      var current := DayOf(minTs);
      ghost var goal, k, j := Archived(Contents(), cutoff), Contents(), FirstJob(Contents(), cutoff);
      while current * DAY <= maxTs
        invariant k == Contents() && j == Job(current, maxTs, cutoff, lastArchived)
        invariant Leads(k, j, goal)
        decreases maxTs - current * DAY
      {
        ArchiveDay(current, lastArchived, cutoff, maxTs);
        j := DayUnfolds(k, Contents(), j, goal);
        k := Contents();
        current := current + 1;
      }
    }

    /** One day: export it, then delete its rows and advance the archive state. */
    method ArchiveDay(current: int, lastArchived: int, cutoff: int, ghost maxTs: int)
      modifies this`live, this`files, this`last
      ensures var j := Job(current, maxTs, cutoff, lastArchived);
              Contents() == DoUpsert(DoDelete(DoExport(old(Contents()), j), j), j)
    {
      var nextDay := current + 1;
      var dayStart := if lastArchived > current * DAY then lastArchived else current * DAY;
      var dayEnd := if cutoff < nextDay * DAY then cutoff else nextDay * DAY;
      ghost var k, j := Contents(), Job(current, maxTs, cutoff, lastArchived);
      assert dayStart == j.DayStart() && dayEnd == j.DayEnd();
      ExportToParquet(current, dayStart, dayEnd);
      assert Contents() == DoExport(k, j);
      live := Outside(live, dayStart, dayEnd);
      assert Contents() == DoDelete(DoExport(k, j), j);
      last := Some(dayEnd);
    }

    /** The files of the table's directory. */
    method ParquetFiles() returns (days: seq<int>)
      ensures Lists(days, files)
    {
      days := [];
      var rest: set<int> := files.Keys;
      while rest != {}
        invariant rest <= files.Keys
        invariant forall i, j :: 0 <= i < j < |days| ==> days[i] != days[j]
        invariant forall d :: d in days ==> d in files && d !in rest
        invariant forall d :: d in files ==> d in days || d in rest
        decreases |rest|
      {
        if forall d :: d !in rest { NoDays(rest); }
        var d :| d in rest;
        days := days + [d];
        rest := rest - {d};
      }
    }

    /** read_parquet over a list of files. */
    method ReadParquet(days: seq<int>) returns (rows: seq<Row>)
      ensures rows == Flatten(files, days)
    {
      rows := [];
      var i := |days|;
      while i > 0
        invariant 0 <= i <= |days|
        invariant rows == Flatten(files, days[i..])
      {
        i := i - 1;
        assert days[i..][1..] == days[i + 1..];
        rows := FileOf(files, days[i]) + rows;
      }
      assert days[0..] == days;
    }

    /** Reload every file by name, remove the files, clear the archive state. */
    method Unarchive() returns (ghost days: seq<int>)
      modifies this`live, this`files, this`last
      ensures Lists(days, old(files))
      ensures Contents() == Unarchived(old(Contents()), days)
      ensures cols == old(cols) && files == map[] && last.None?
      ensures old(live) <= live && ReadAllAs(Flatten(old(files), days), cols, live[|old(live)|..])
    {
      var listing := ParquetFiles();
      days := listing;
      var rows := ReadParquet(listing);
      live := live + WidenAll(cols, rows);
      WidenAllReads(cols, rows);
      var i := 0;
      while i < |listing|
        invariant 0 <= i <= |listing|
        invariant live == Unarchived(old(Contents()), listing).live
        invariant cols == old(cols)
        invariant forall d :: d in files ==> d in listing[i..]
      {
        assert listing[i..] == [listing[i]] + listing[i + 1..];
        files := files - {listing[i]};
        i := i + 1;
      }
      NoFiles(files);
      last := None;
    }
  }

  // ---- The loops against the protocol

  function ArchiveDays(k: Disk, j: Job): Disk
    decreases j.maxTs - j.day * DAY
  {
    if j.day * DAY > j.maxTs then k
    else ArchiveDays(DoUpsert(DoDelete(DoExport(k, j), j), j), j.(day := j.day + 1))
  }

  /** Archiving the days still to do ends in `goal`. */
  ghost predicate Leads(k: Disk, j: Job, goal: Disk) { ArchiveDays(k, j) == goal }

  lemma DayUnfolds(k: Disk, k1: Disk, j: Job, goal: Disk) returns (next: Job)
    requires j.day * DAY <= j.maxTs && k1 == DoUpsert(DoDelete(DoExport(k, j), j), j)
    requires Leads(k, j, goal)
    ensures next == j.(day := j.day + 1) && Leads(k1, next, goal)
  {
    next := j.(day := j.day + 1);
  }

  function Archived(k: Disk, cutoff: int): Disk {
    if Candidates(k, cutoff) == [] then k else ArchiveDays(k, FirstJob(k, cutoff))
  }

  function Unarchived(k: Disk, days: seq<int>): Disk {
    Disk(k.cols, k.live + WidenAll(k.cols, Flatten(k.files, days)), map[], None)
  }

  /** What is left of the scanned range lies in the days not yet done. */
  ghost predicate Remaining(start: seq<Row>, live: seq<Row>, lo: int, hi: int, day: int, maxTs: int) {
    && (forall r :: r in live ==> r in start)
    && (forall r :: r in live && lo <= r.ts < hi ==> day * DAY <= r.ts <= maxTs)
  }

  lemma {:induction false} DaysLeaveNothing(start: seq<Row>, k: Disk, j: Job)
    requires Remaining(start, k.live, j.from, j.cutoff, j.day, j.maxTs)
    ensures Remaining(start, ArchiveDays(k, j).live, j.from, j.cutoff, j.maxTs / DAY + 1, j.maxTs)
    decreases j.maxTs - j.day * DAY
  {
    if j.day * DAY <= j.maxTs {
      var k1 := DoUpsert(DoDelete(DoExport(k, j), j), j);
      forall r | r in k1.live ensures r in k.live && !(j.DayStart() <= r.ts < j.DayEnd()) {
        OutsideMember(k.live, j.DayStart(), j.DayEnd(), r);
      }
      DaysLeaveNothing(start, k1, j.(day := j.day + 1));
    }
  }

  /** An archive run leaves no row of the range it scanned in the live table. */
  lemma ArchivedLeavesNothing(k: Disk, cutoff: int, r: Row)
    requires r in Archived(k, cutoff).live
    ensures r in k.live && !(From(k) <= r.ts < cutoff)
  {
    var c := Candidates(k, cutoff);
    if c == [] {
      BetweenMember(k.live, From(k), cutoff, r);
    } else {
      DayBounds(MinTs(c));
      forall q | q in k.live && From(k) <= q.ts < cutoff ensures MinTs(c) <= q.ts <= MaxTs(c) {
        BetweenMember(k.live, From(k), cutoff, q);
      }
      DaysLeaveNothing(k.live, k, FirstJob(k, cutoff));
    }
  }

  lemma {:induction false} DaysAdvance(k: Disk, j: Job)
    requires j.day * DAY <= j.maxTs < j.cutoff
    ensures var next := (DayOf(j.maxTs) + 1) * DAY;
            ArchiveDays(k, j).last == Some(if j.cutoff < next then j.cutoff else next)
    decreases j.maxTs - j.day * DAY
  {
    var k1 := DoUpsert(DoDelete(DoExport(k, j), j), j);
    var next := j.(day := j.day + 1);
    if next.day * DAY <= j.maxTs {
      DaysAdvance(k1, next);
    } else {
      DayBounds(j.maxTs);
      assert ArchiveDays(k1, next) == k1;
    }
  }

  /** Every row it moved is now before last_archived_ts, which does not pass the cutoff or the
      end of the last moved row's day. */
  lemma ArchivedAdvances(k: Disk, cutoff: int, r: Row) returns (newest: Row)
    requires r in k.live && From(k) <= r.ts < cutoff
    ensures newest in k.live && From(k) <= newest.ts < cutoff
    ensures var last := Archived(k, cutoff).last;
            && last.Some? && r.ts < last.value <= cutoff
            && (last.value == cutoff || last.value == (DayOf(newest.ts) + 1) * DAY) && newest.ts < last.value
  {
    var c := Candidates(k, cutoff);
    BetweenMember(k.live, From(k), cutoff, r);
    newest :| newest in c && newest.ts == MaxTs(c);
    BetweenMember(k.live, From(k), cutoff, newest);
    DayBounds(MinTs(c));
    DayBounds(MaxTs(c));
    DaysAdvance(k, FirstJob(k, cutoff));
  }

  lemma {:induction false} DaysAreARun(w: World, j: Job) returns (trace: seq<Event>)
    requires w.pc == if j.day * DAY <= j.maxTs then AtExport(j) else Idle
    ensures CrashFree(trace) && Run(w, trace).disk == ArchiveDays(w.disk, j) && Run(w, trace).pc.Idle?
    decreases j.maxTs - j.day * DAY
  {
    trace := [];
    if j.day * DAY <= j.maxTs {
      var day := [Export, Delete, Upsert];
      DayStep(w, j);
      var rest := DaysAreARun(Run(w, day), j.(day := j.day + 1));
      RunAppend(w, day, rest);
      trace := day + rest;
    }
  }

  /** The archiver's loop performs exactly events of the protocol. */
  lemma ArchivedIsARun(w: World, cutoff: int) returns (trace: seq<Event>)
    requires Inv(w) && w.pc.Idle?
    ensures CrashFree(trace) && Run(w, trace).disk == Archived(w.disk, cutoff) && Run(w, trace).pc.Idle?
  {
    var w1 := Step(w, Begin(cutoff));
    trace := [Begin(cutoff)];
    assert trace[1..] == [];
    assert Run(w, trace) == w1;
    if Candidates(w.disk, cutoff) != [] {
      BeginFrame(w, cutoff);
      var rest := DaysAreARun(w1, FirstJob(w.disk, cutoff));
      RunAppend(w, trace, rest);
      trace := trace + rest;
    }
  }

  lemma {:induction false} RemovalsKeepTable(w: World, n: nat)
    ensures var k := Run(w, seq(n, _ => RemoveFile)).disk;
            k.live == w.disk.live && k.cols == w.disk.cols
    decreases n
  {
    if n > 0 {
      assert seq(n, _ => RemoveFile)[1..] == seq(n - 1, _ => RemoveFile);
      RemovalsKeepTable(Step(w, RemoveFile), n - 1);
    }
  }

  /** So does unarchive. */
  lemma UnarchivedIsARun(w: World, days: seq<int>)
    requires Frame(w) && w.pc.Idle? && Lists(days, w.disk.files)
    ensures Run(w, UnarchiveEvents(days)).disk == Unarchived(w.disk, days)
  {
    var removals := seq(|days|, _ => RemoveFile);
    var w2 := Step(w, BeginUnarchive(days));
    assert UnarchiveEvents(days)[1..] == removals + [ClearState];
    RunAppend(w2, removals, [ClearState]);
    assert [ClearState][1..] == [];
    RemovalsKeepTable(w2, |days|);
    RemovingAll(w2, |days|);
    ReloadEmptiesFiles(w, days);
  }

  lemma DayStep(w: World, j: Job)
    requires w.pc == AtExport(j)
    ensures var w' := Run(w, [Export, Delete, Upsert]);
            w'.disk == DoUpsert(DoDelete(DoExport(w.disk, j), j), j) && w'.pc == NextPc(j)
  {
    var es := [Export, Delete, Upsert];
    assert es[1..] == [Delete, Upsert] && es[1..][1..] == [Upsert] && es[1..][1..][1..] == [];
    assert Run(w, es) == Run(Step(w, Export), es[1..]);
    assert Run(Step(w, Export), es[1..]) == Run(Step(Step(w, Export), Delete), [Upsert]);
  }
}
