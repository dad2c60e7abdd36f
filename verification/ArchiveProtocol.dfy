/** Moving one metric table between the live database and daily Parquet files.

    Every statement of the archiver (export a day, DELETE it, advance archive_state),
    of unarchive, and every collector insert is one atomic event; the process may die
    between any two.  `World.ref` is the table as it would be had nothing ever left it. */
module ArchiveProtocol {
  import opened Basics
  import opened Rows

  /** Go's zero time, from which a table without archive state is scanned. */
  const ZERO_TIME: int := -62_135_596_800_000_000_000

  datatype Disk = Disk(
    cols: set<string>,           // columns of the live table
    live: seq<Row>,              // the live table
    files: map<int, seq<Row>>,   // daily files by UTC day, with the columns of their time
    last: Option<int>)           // archive_state.last_archived_ts

  /** The archiver's local variables while it works on one table. */
  datatype Job = Job(day: int, maxTs: int, cutoff: int, from: int) {
    function DayStart(): int { if from > day * DAY then from else day * DAY }
    function DayEnd(): int { if cutoff < (day + 1) * DAY then cutoff else (day + 1) * DAY }
  }

  datatype Pc =
    | Idle
    | AtExport(job: Job)
    | AtDelete(job: Job)
    | AtUpsert(job: Job)
    | AtRemove(days: seq<int>)
    | AtClear

  datatype World = World(
    disk: Disk,
    pc: Pc,
    floor: int,       // collectors insert no row older than this
    ref: seq<Row>,    // the table had it never been archived
    clean: bool,      // no crash fell while rows stood both in the table and in a file
    stranded: bool)   // a crash left reloaded rows behind, and no unarchive finished since

  datatype Event =
    | Insert(row: Row)
    | AddColumn(name: string)
    | Begin(cutoff: int)
    | Export
    | Delete
    | Upsert
    | BeginUnarchive(days: seq<int>)
    | RemoveFile
    | ClearState
    | Crash

  function From(d: Disk): int { if d.last.Some? then d.last.value else ZERO_TIME }

  function MinTs(s: seq<Row>): (m: int)
    requires s != []
    ensures exists r :: r in s && r.ts == m
    ensures forall r :: r in s ==> m <= r.ts
  {
    if |s| == 1 then s[0].ts
    else
      var m := MinTs(s[1..]);
      assert s == [s[0]] + s[1..];
      if s[0].ts < m then s[0].ts else m
  }

  function MaxTs(s: seq<Row>): (m: int)
    requires s != []
    ensures exists r :: r in s && r.ts == m
    ensures forall r :: r in s ==> r.ts <= m
  {
    if |s| == 1 then s[0].ts
    else
      var m := MaxTs(s[1..]);
      assert s == [s[0]] + s[1..];
      if s[0].ts > m then s[0].ts else m
  }

  function FileOf(files: map<int, seq<Row>>, d: int): seq<Row> {
    if d in files then files[d] else []
  }

  /** `days` is a directory listing: every file once. */
  predicate Lists(days: seq<int>, files: map<int, seq<Row>>) {
    && (forall i, j :: 0 <= i < j < |days| ==> days[i] != days[j])
    && (forall d :: d in days ==> d in files)
    && (forall d :: d in files ==> d in days)
  }

  function Flatten(files: map<int, seq<Row>>, days: seq<int>): seq<Row> {
    if days == [] then [] else FileOf(files, days[0]) + Flatten(files, days[1..])
  }

  // ---- The statements, on the disk

  function DoInsert(d: Disk, r: Row): Disk { d.(live := d.live + [r]) }

  function DoAddColumn(d: Disk, c: string): Disk {
    d.(cols := d.cols + {c}, live := WidenAll(d.cols + {c}, d.live))
  }

  function DoExport(d: Disk, j: Job): Disk {
    d.(files := d.files[j.day := Between(d.live, j.DayStart(), j.DayEnd()) +
                                 WidenAll(d.cols, FileOf(d.files, j.day))])
  }

  function DoDelete(d: Disk, j: Job): Disk { d.(live := Outside(d.live, j.DayStart(), j.DayEnd())) }

  function DoUpsert(d: Disk, j: Job): Disk { d.(last := Some(j.DayEnd())) }

  function DoReload(d: Disk, days: seq<int>): Disk {
    d.(live := d.live + WidenAll(d.cols, Flatten(d.files, days)))
  }

  function DoRemove(d: Disk, day: int): Disk { d.(files := d.files - {day}) }

  function DoClear(d: Disk): Disk { d.(last := None) }

  function Candidates(d: Disk, cutoff: int): seq<Row> { Between(d.live, From(d), cutoff) }

  function FirstJob(d: Disk, cutoff: int): Job
    requires Candidates(d, cutoff) != []
  {
    var c := Candidates(d, cutoff);
    Job(DayOf(MinTs(c)), MaxTs(c), cutoff, From(d))
  }

  function NextPc(j: Job): Pc {
    if (j.day + 1) * DAY <= j.maxTs then AtExport(j.(day := j.day + 1)) else Idle
  }

  /** Rows have been copied and not yet removed where they came from. */
  predicate AtRisk(w: World) {
    match w.pc
    case AtDelete(j) => Between(w.disk.live, j.DayStart(), j.DayEnd()) != []
    case AtRemove(days) => Flatten(w.disk.files, days) != []
    case _ => false
  }

  /** Some live row is older than last_archived_ts: no archive run looks at it. */
  predicate OlderLive(d: Disk) { exists r :: r in d.live && r.ts < From(d) }

  predicate InUnarchive(pc: Pc) { pc.AtRemove? || pc.AtClear? }

  /** One atomic event.  An event that cannot happen in a state changes nothing there. */
  function Step(w: World, e: Event): World {
    match e
    case Insert(r) =>
      if r.ts >= w.floor && r.cells.Keys == w.disk.cols then
        w.(disk := DoInsert(w.disk, r), ref := w.ref + [r])
      else w
    case AddColumn(c) =>
      if w.pc.Idle? then
        w.(disk := DoAddColumn(w.disk, c), ref := WidenAll(w.disk.cols + {c}, w.ref))
      else w
    case Begin(cutoff) =>
      if w.pc.Idle? then
        w.(floor := if w.floor < cutoff then cutoff else w.floor,
           pc := if Candidates(w.disk, cutoff) == [] then Idle else AtExport(FirstJob(w.disk, cutoff)))
      else w
    case Export =>
      if w.pc.AtExport? then w.(disk := DoExport(w.disk, w.pc.job), pc := AtDelete(w.pc.job)) else w
    case Delete =>
      if w.pc.AtDelete? then w.(disk := DoDelete(w.disk, w.pc.job), pc := AtUpsert(w.pc.job)) else w
    case Upsert =>
      if w.pc.AtUpsert? then w.(disk := DoUpsert(w.disk, w.pc.job), pc := NextPc(w.pc.job)) else w
    case BeginUnarchive(days) =>
      if w.pc.Idle? && Lists(days, w.disk.files) then
        w.(disk := DoReload(w.disk, days), pc := if days == [] then AtClear else AtRemove(days))
      else w
    case RemoveFile =>
      if w.pc.AtRemove? && w.pc.days != [] then
        w.(disk := DoRemove(w.disk, w.pc.days[0]),
           pc := if |w.pc.days| == 1 then AtClear else AtRemove(w.pc.days[1..]))
      else w
    case ClearState =>
      if w.pc.AtClear? then w.(disk := DoClear(w.disk), pc := Idle, stranded := false) else w
    case Crash =>
      w.(pc := Idle,
         clean := w.clean && !AtRisk(w),
         stranded := w.stranded || (InUnarchive(w.pc) && OlderLive(w.disk)))
  }

  function Run(w: World, es: seq<Event>): World
    decreases |es|
  {
    if es == [] then w else Run(Step(w, es[0]), es[1..])
  }

  // ---- Conservation

  /** The rows of day `d` that a set of tables and files holds, read by name. */
  function Held(cols: set<string>, live: seq<Row>, files: map<int, seq<Row>>, d: int): seq<Row> {
    DayRows(live, d) + WidenAll(cols, FileOf(files, d))
  }

  /** What counts while a copy and its source both exist: the copy. */
  function CountedLive(w: World): seq<Row> {
    if w.pc.AtDelete? then Outside(w.disk.live, w.pc.job.DayStart(), w.pc.job.DayEnd()) else w.disk.live
  }

  function CountedFiles(w: World): map<int, seq<Row>> {
    if w.pc.AtRemove? || w.pc.AtClear? then map[] else w.disk.files
  }

  function Counted(w: World, d: int): seq<Row> {
    Held(w.disk.cols, CountedLive(w), CountedFiles(w), d)
  }

  ghost predicate Shape(w: World) {
    && Columns(w.disk.live, w.disk.cols)
    && Columns(w.ref, w.disk.cols)
    && (forall d :: d in w.disk.files ==> ColumnsWithin(w.disk.files[d], w.disk.cols))
    && (forall d :: d in w.disk.files ==> forall r :: r in w.disk.files[d] ==> DayOf(r.ts) == d)
    && (w.pc.AtRemove? ==> w.pc.days != [] && Lists(w.pc.days, w.disk.files))
    && (w.pc.AtClear? ==> w.disk.files == map[])
  }

  /** Day `d` has lost no row: each is held at least as often as it was inserted. */
  ghost predicate DayKept(w: World, d: int) {
    multiset(DayRows(w.ref, d)) <= multiset(Counted(w, d))
  }

  /** Day `d` is held exactly. */
  ghost predicate DayExact(w: World, d: int) {
    multiset(DayRows(w.ref, d)) == multiset(Counted(w, d))
  }

  ghost predicate Conserved(w: World) {
    && (forall d :: DayKept(w, d))
    && (w.clean ==> forall d :: DayExact(w, d))
  }

  /** Nothing is invented: every row held anywhere was inserted. */
  ghost predicate Genuine(w: World) {
    && (forall r :: r in w.disk.live ==> r in w.ref)
    && (forall d, r :: d in w.disk.files && r in w.disk.files[d] ==> Widen(w.disk.cols, r) in w.ref)
  }

  ghost predicate InJob(pc: Pc) { pc.AtExport? || pc.AtDelete? || pc.AtUpsert? }

  ghost predicate JobInv(w: World)
    requires InJob(w.pc)
  {
    var j := w.pc.job;
    && j.DayStart() < j.DayEnd() <= j.cutoff <= w.floor
    && j.day * DAY <= j.maxTs < j.cutoff
    && From(w.disk) <= j.DayStart()
    && (w.stranded || forall r :: r in w.disk.live ==>
          r.ts >= if w.pc.AtUpsert? then j.DayEnd() else j.DayStart())
  }

  /** Everything before last_archived_ts is archived, unless a crash left rows behind. */
  ghost predicate Ordered(w: World) {
    && ZERO_TIME <= From(w.disk) <= w.floor
    && (forall r :: r in w.ref ==> ZERO_TIME <= r.ts)
    && (InJob(w.pc) ==> JobInv(w))
    && (w.pc.Idle? && !w.stranded ==> forall r :: r in w.disk.live ==> From(w.disk) <= r.ts)
  }

  /** Everything but conservation. */
  ghost predicate Frame(w: World) { Shape(w) && Genuine(w) && Ordered(w) }

  ghost predicate Inv(w: World) { Frame(w) && Conserved(w) }

  /** A table that was never archived. */
  ghost predicate Init(w: World) {
    && w.pc.Idle? && w.clean && !w.stranded
    && w.disk.files == map[] && w.disk.last.None? && w.ref == w.disk.live
    && Columns(w.disk.live, w.disk.cols)
    && w.floor >= ZERO_TIME && forall r :: r in w.disk.live ==> r.ts >= ZERO_TIME
  }

  lemma InitInv(w: World)
    requires Init(w)
    ensures Inv(w)
  {
    forall d ensures Counted(w, d) == DayRows(w.ref, d) {
      assert DayRows(w.ref, d) + [] == DayRows(w.ref, d);
    }
  }

  // ---- Every event conserves the rows

  lemma SameCountConserves(w: World, w': World)
    requires Conserved(w) && w'.ref == w.ref && w'.clean == w.clean
    requires forall d :: multiset(Counted(w', d)) == multiset(Counted(w, d))
    ensures Conserved(w')
  {
    forall d ensures DayKept(w', d) && (w'.clean ==> DayExact(w', d)) {
      assert DayKept(w, d);
      assert w.clean ==> DayExact(w, d);
      assert multiset(Counted(w', d)) == multiset(Counted(w, d));
    }
  }

  lemma {:induction false} OutsideAppend(s: seq<Row>, r: Row, lo: int, hi: int)
    ensures Outside(s + [r], lo, hi) == Outside(s, lo, hi) + Outside([r], lo, hi)
    decreases |s|
  {
    if s == [] {
      assert s + [r] == [r];
    } else {
      assert (s + [r])[1..] == s[1..] + [r] && (s + [r])[0] == s[0];
      OutsideAppend(s[1..], r, lo, hi);
      var h := if lo <= s[0].ts < hi then [] else [s[0]];
      assert h + (Outside(s[1..], lo, hi) + Outside([r], lo, hi)) == (h + Outside(s[1..], lo, hi)) + Outside([r], lo, hi);
    }
  }

  lemma InsertCounted(w: World, r: Row)
    requires Ordered(w) && r.ts >= w.floor && r.cells.Keys == w.disk.cols
    ensures CountedLive(Step(w, Insert(r))) == CountedLive(w) + [r]
  {
    if w.pc.AtDelete? {
      OutsideAppend(w.disk.live, r, w.pc.job.DayStart(), w.pc.job.DayEnd());
      assert Outside([r], w.pc.job.DayStart(), w.pc.job.DayEnd()) == [r];
    }
  }

  lemma HeldAppend(cols: set<string>, live: seq<Row>, r: Row, files: map<int, seq<Row>>, d: int)
    ensures multiset(Held(cols, live + [r], files, d)) ==
            multiset(Held(cols, live, files, d)) + multiset(DayRows([r], d))
  {
    DayAppend(live, [r], d);
  }

  lemma InsertedOnce(w: World, r: Row, d: int)
    requires Ordered(w) && r.ts >= w.floor && r.cells.Keys == w.disk.cols
    ensures multiset(Counted(Step(w, Insert(r)), d)) == multiset(Counted(w, d)) + multiset(DayRows([r], d))
  {
    InsertCounted(w, r);
    HeldAppend(w.disk.cols, CountedLive(w), r, CountedFiles(w), d);
  }

  lemma InsertConserves(w: World, r: Row)
    requires Ordered(w) && Conserved(w) && r.ts >= w.floor && r.cells.Keys == w.disk.cols
    ensures Conserved(Step(w, Insert(r)))
  {
    var w' := Step(w, Insert(r));
    forall d ensures DayKept(w', d) && (w'.clean ==> DayExact(w', d)) {
      assert DayKept(w, d);
      assert w.clean ==> DayExact(w, d);
      InsertedOnce(w, r, d);
      DayAppend(w.ref, [r], d);
    }
  }

  /** Held rows widen as one: adding a column commutes with being archived. */
  lemma HeldWidens(cols: set<string>, c: string, live: seq<Row>, files: map<int, seq<Row>>, d: int)
    requires ColumnsWithin(FileOf(files, d), cols)
    ensures Held(cols + {c}, WidenAll(cols + {c}, live), files, d) ==
            WidenAll(cols + {c}, Held(cols, live, files, d))
  {
    var more := cols + {c};
    DayOfWidened(more, live, d);
    WidenTwice(cols, more, FileOf(files, d));
    WidenAppend(more, DayRows(live, d), WidenAll(cols, FileOf(files, d)));
  }

  lemma AddColumnConserves(w: World, c: string)
    requires Shape(w) && Conserved(w) && w.pc.Idle?
    ensures Conserved(Step(w, AddColumn(c)))
  {
    var w' := Step(w, AddColumn(c));
    var more := w.disk.cols + {c};
    forall d ensures DayKept(w', d) && (w'.clean ==> DayExact(w', d)) {
      assert DayKept(w, d);
      assert w.clean ==> DayExact(w, d);
      HeldWidens(w.disk.cols, c, w.disk.live, w.disk.files, d);
      DayOfWidened(more, w.ref, d);
      WidenMonotone(more, DayRows(w.ref, d), Counted(w, d));
      if w.clean {
        WidenMonotone(more, Counted(w, d), DayRows(w.ref, d));
      }
    }
  }

  /** The exported rows: all of one day, with the table's columns. */
  lemma ExportedRows(w: World)
    requires Shape(w) && Ordered(w) && w.pc.AtExport?
    ensures var j := w.pc.job;
            forall r :: r in Between(w.disk.live, j.DayStart(), j.DayEnd()) ==>
              r in w.disk.live && DayOf(r.ts) == j.day && r.cells.Keys == w.disk.cols
  {
    var j := w.pc.job;
    forall r | r in Between(w.disk.live, j.DayStart(), j.DayEnd())
      ensures r in w.disk.live && DayOf(r.ts) == j.day && r.cells.Keys == w.disk.cols
    {
      BetweenMember(w.disk.live, j.DayStart(), j.DayEnd(), r);
      DayBounds(r.ts);
    }
  }

  /** Reading the rewritten file by name gives the moved rows and what the old file gave. */
  lemma MergedFile(w: World)
    requires Shape(w) && Ordered(w) && w.pc.AtExport?
    ensures var j := w.pc.job;
            WidenAll(w.disk.cols, DoExport(w.disk, j).files[j.day]) ==
            Between(w.disk.live, j.DayStart(), j.DayEnd()) + WidenAll(w.disk.cols, FileOf(w.disk.files, j.day))
  {
    var j := w.pc.job;
    var moved, kept := Between(w.disk.live, j.DayStart(), j.DayEnd()), WidenAll(w.disk.cols, FileOf(w.disk.files, j.day));
    ExportedRows(w);
    WidenAppend(w.disk.cols, moved, kept);
    WidenSame(w.disk.cols, moved);
    WidenColumns(w.disk.cols, FileOf(w.disk.files, j.day));
    WidenSame(w.disk.cols, kept);
  }

  lemma ExportKeepsCount(w: World, d: int)
    requires Shape(w) && Ordered(w) && w.pc.AtExport?
    ensures multiset(Counted(Step(w, Export), d)) == multiset(Counted(w, d))
  {
    ExportFilesDay(w, d);
    HeldAfterExport(w.disk, w.pc.job, d);
    ExportCounts(w, Step(w, Export), d);
  }

  lemma ExportConserves(w: World)
    requires Shape(w) && Ordered(w) && Conserved(w) && w.pc.AtExport?
    ensures Conserved(Step(w, Export))
  {
    forall d ensures multiset(Counted(Step(w, Export), d)) == multiset(Counted(w, d)) { ExportKeepsCount(w, d); }
    SameCountConserves(w, Step(w, Export));
  }

  /** The day is held alike by `files` and, without the rows of the job, by `files'`. */
  ghost predicate MovedAlike(k: Disk, j: Job, files': map<int, seq<Row>>, d: int) {
    multiset(Held(k.cols, Outside(k.live, j.DayStart(), j.DayEnd()), files', d)) ==
    multiset(Held(k.cols, k.live, k.files, d))
  }

  lemma ExportCounts(w: World, w': World, d: int)
    requires w.pc.AtExport? && w'.pc == AtDelete(w.pc.job)
    requires w'.disk.cols == w.disk.cols && w'.disk.live == w.disk.live
    requires MovedAlike(w.disk, w.pc.job, w'.disk.files, d)
    ensures multiset(Counted(w', d)) == multiset(Counted(w, d))
  {
  }

  lemma MovedRowsSameDay(live: seq<Row>, lo: int, hi: int, tail: seq<Row>, d: int)
    ensures multiset(DayRows(Outside(live, lo, hi), d) + (DayRows(Between(live, lo, hi), d) + tail)) ==
            multiset(DayRows(live, d) + tail)
  {
    DaySplit(live, lo, hi, d);
  }

  /** What HeldAfterExport needs of the exported rows and the rewritten file. */
  ghost predicate DayFiled(k: Disk, j: Job, d: int) {
    var moved := Between(k.live, j.DayStart(), j.DayEnd());
    && DayRows(moved, d) == (if d == j.day then moved else [])
    && WidenAll(k.cols, DoExport(k, j).files[j.day]) == moved + WidenAll(k.cols, FileOf(k.files, j.day))
  }

  lemma ExportFilesDay(w: World, d: int)
    requires Shape(w) && Ordered(w) && w.pc.AtExport?
    ensures DayFiled(w.disk, w.pc.job, d)
  {
    var j := w.pc.job;
    ExportedRows(w);
    DayOfOneDay(Between(w.disk.live, j.DayStart(), j.DayEnd()), j.day, d);
    MergedFile(w);
  }

  lemma HeldAfterExport(k: Disk, j: Job, d: int)
    requires DayFiled(k, j, d)
    ensures MovedAlike(k, j, DoExport(k, j).files, d)
  {
    var lo, hi := j.DayStart(), j.DayEnd();
    var tail := WidenAll(k.cols, FileOf(k.files, d));
    MovedRowsSameDay(k.live, lo, hi, tail, d);
    assert [] + tail == tail;
    assert Held(k.cols, Outside(k.live, lo, hi), DoExport(k, j).files, d) ==
           DayRows(Outside(k.live, lo, hi), d) + (DayRows(Between(k.live, lo, hi), d) + tail);
  }

  lemma {:induction false} FlattenDay(files: map<int, seq<Row>>, days: seq<int>, d: int)
    requires forall i, j :: 0 <= i < j < |days| ==> days[i] != days[j]
    requires forall e :: e in files ==> forall r :: r in files[e] ==> DayOf(r.ts) == e
    ensures DayRows(Flatten(files, days), d) == if d in days then FileOf(files, d) else []
    decreases |days|
  {
    if days != [] {
      FlattenDay(files, days[1..], d);
      DayAppend(FileOf(files, days[0]), Flatten(files, days[1..]), d);
      DayOfOneDay(FileOf(files, days[0]), days[0], d);
      if d == days[0] {
        assert d !in days[1..];
      }
    }
  }

  lemma ReloadCounts(w: World, days: seq<int>, d: int)
    requires w.pc.Idle? && Lists(days, w.disk.files)
    requires forall e :: e in w.disk.files ==> forall r :: r in w.disk.files[e] ==> DayOf(r.ts) == e
    ensures Counted(Step(w, BeginUnarchive(days)), d) == Counted(w, d)
  {
    HeldAfterReload(w.disk, days, d);
    var w' := Step(w, BeginUnarchive(days));
    assert CountedFiles(w') == map[] && CountedLive(w') == DoReload(w.disk, days).live;
  }

  lemma HeldAfterReload(k: Disk, days: seq<int>, d: int)
    requires Lists(days, k.files)
    requires forall e :: e in k.files ==> forall r :: r in k.files[e] ==> DayOf(r.ts) == e
    ensures Held(k.cols, DoReload(k, days).live, map[], d) == Held(k.cols, k.live, k.files, d)
  {
    var all := Flatten(k.files, days);
    DayAppend(k.live, WidenAll(k.cols, all), d);
    DayOfWidened(k.cols, all, d);
    FlattenDay(k.files, days, d);
    assert d in days <==> d in k.files;
  }

  lemma ReloadConserves(w: World, days: seq<int>)
    requires Shape(w) && Conserved(w) && w.pc.Idle? && Lists(days, w.disk.files)
    ensures Conserved(Step(w, BeginUnarchive(days)))
  {
    forall d ensures Counted(Step(w, BeginUnarchive(days)), d) == Counted(w, d) { ReloadCounts(w, days, d); }
    SameCountConserves(w, Step(w, BeginUnarchive(days)));
  }

  lemma MiddleAdds(a: seq<Row>, b: seq<Row>, c: seq<Row>)
    ensures multiset(a + c) <= multiset(a + (b + c))
  {
    assert multiset(a + c) == multiset(a) + multiset(c);
    assert multiset(a + (b + c)) == multiset(a) + (multiset(b) + multiset(c));
  }

  lemma SourceStillThere(k: Disk, j: Job, d: int)
    ensures multiset(Held(k.cols, Outside(k.live, j.DayStart(), j.DayEnd()), k.files, d)) <=
            multiset(Held(k.cols, k.live, k.files, d))
  {
    var lo, hi := j.DayStart(), j.DayEnd();
    var tail := WidenAll(k.cols, FileOf(k.files, d));
    MovedRowsSameDay(k.live, lo, hi, tail, d);
    MiddleAdds(DayRows(Outside(k.live, lo, hi), d), DayRows(Between(k.live, lo, hi), d), tail);
  }

  lemma FilesStillThere(k: Disk, d: int)
    ensures multiset(Held(k.cols, k.live, map[], d)) <= multiset(Held(k.cols, k.live, k.files, d))
  {
    var tail := WidenAll(k.cols, FileOf(k.files, d));
    MiddleAdds(DayRows(k.live, d), tail, []);
    assert tail + [] == tail;
  }

  function HeldNow(w: World, d: int): seq<Row> { Held(w.disk.cols, w.disk.live, w.disk.files, d) }

  lemma AfterCrash(w: World, d: int)
    ensures Counted(Step(w, Crash), d) == HeldNow(w, d)
  {
  }

  /** A crash never takes a row of the count. */
  lemma CrashCounts(w: World, d: int)
    requires w.pc.AtClear? ==> w.disk.files == map[]
    ensures multiset(Counted(w, d)) <= multiset(HeldNow(w, d))
  {
    match w.pc
    case AtDelete(j) => SourceStillThere(w.disk, j, d);
    case AtRemove(_) => FilesStillThere(w.disk, d);
    case _ =>
  }

  /** It leaves the count alone if nothing is at risk. */
  lemma SafeCrashCounts(w: World, d: int)
    requires Shape(w) && !AtRisk(w)
    ensures Counted(w, d) == HeldNow(w, d)
  {
    match w.pc
    case AtDelete(j) => OutsideAll(w.disk.live, j.DayStart(), j.DayEnd());
    case AtRemove(days) =>
      FlattenDay(w.disk.files, days, d);
      assert FileOf(w.disk.files, d) == [];
    case _ =>
  }

  lemma {:induction false} OutsideAll(s: seq<Row>, lo: int, hi: int)
    requires Between(s, lo, hi) == []
    ensures Outside(s, lo, hi) == s
  {
    if s != [] { OutsideAll(s[1..], lo, hi); }
  }

  lemma KeptTransfers(w: World, w': World, d: int)
    requires DayKept(w, d) && w'.ref == w.ref
    requires multiset(Counted(w, d)) <= multiset(Counted(w', d))
    ensures DayKept(w', d)
  {
  }

  lemma ExactTransfers(w: World, w': World, d: int)
    requires DayExact(w, d) && w'.ref == w.ref
    requires Counted(w, d) == Counted(w', d)
    ensures DayExact(w', d)
  {
  }

  /** A crash while a copy and its source both exist leaves both; it takes nothing. */
  lemma CrashConserves(w: World)
    requires Conserved(w) && Shape(w)
    ensures Conserved(Step(w, Crash))
  {
    var w' := Step(w, Crash);
    forall d ensures DayKept(w', d) {
      assert DayKept(w, d);
      CrashCounts(w, d);
      AfterCrash(w, d);
      KeptTransfers(w, w', d);
    }
    if w'.clean {
      CleanCrash(w);
    }
  }

  lemma CleanCrash(w: World)
    requires Shape(w) && !AtRisk(w) && forall d :: DayExact(w, d)
    ensures forall d :: DayExact(Step(w, Crash), d)
  {
    forall d ensures DayExact(Step(w, Crash), d) {
      assert DayExact(w, d);
      SafeCrashCounts(w, d);
      AfterCrash(w, d);
      ExactTransfers(w, Step(w, Crash), d);
    }
  }

  /** Events that neither add a row nor copy one leave the count alone. */
  lemma OtherCounts(w: World, e: Event, d: int)
    requires e.Begin? || e.Delete? || e.Upsert? || e.RemoveFile? || e.ClearState?
    requires w.pc.AtClear? ==> w.disk.files == map[]
    ensures Counted(Step(w, e), d) == Counted(w, d)
  {
    OtherLeaves(w, e);
  }

  lemma OtherLeaves(w: World, e: Event)
    requires e.Begin? || e.Delete? || e.Upsert? || e.RemoveFile? || e.ClearState?
    requires w.pc.AtClear? ==> w.disk.files == map[]
    ensures var w' := Step(w, e);
            CountedLive(w') == CountedLive(w) && CountedFiles(w') == CountedFiles(w) && w'.disk.cols == w.disk.cols
  {
  }

  lemma OtherConserves(w: World, e: Event)
    requires Conserved(w)
    requires e.Begin? || e.Delete? || e.Upsert? || e.RemoveFile? || e.ClearState?
    requires w.pc.AtClear? ==> w.disk.files == map[]
    ensures Conserved(Step(w, e))
  {
    var w' := Step(w, e);
    assert w'.ref == w.ref && w'.clean == w.clean;
    forall d ensures DayKept(w', d) && (w'.clean ==> DayExact(w', d)) {
      assert DayKept(w, d);
      assert w.clean ==> DayExact(w, d);
      OtherCounts(w, e, d);
      KeptTransfers(w, w', d);
      if w.clean { ExactTransfers(w, w', d); }
    }
  }

  lemma StepConserves(w: World, e: Event)
    requires Inv(w)
    ensures Conserved(Step(w, e))
  {
    match e
    case Insert(r) => if r.ts >= w.floor && r.cells.Keys == w.disk.cols { InsertConserves(w, r); }
    case AddColumn(c) => if w.pc.Idle? { AddColumnConserves(w, c); }
    case Export => if w.pc.AtExport? { ExportConserves(w); }
    case BeginUnarchive(days) => if w.pc.Idle? && Lists(days, w.disk.files) { ReloadConserves(w, days); }
    case Crash => CrashConserves(w);
    case _ => OtherConserves(w, e);
  }

  // ---- Every event keeps the rest of the invariant

  lemma AddColumnGenuine(w: World, c: string)
    requires Shape(w) && Genuine(w) && w.pc.Idle?
    ensures Genuine(Step(w, AddColumn(c)))
  {
    var w' := Step(w, AddColumn(c));
    var more := w.disk.cols + {c};
    forall r | r in w'.disk.live ensures r in w'.ref {
      WidenMember(more, w.disk.live, r);
      var q :| q in w.disk.live && r == Widen(more, q);
      WidenMember(more, w.ref, q);
    }
    forall d, r | d in w.disk.files && r in w.disk.files[d] ensures Widen(more, r) in w'.ref {
      var q := Widen(w.disk.cols, r);
      WidenMember(more, w.ref, q);
      assert Widen(more, q) == Widen(more, r);
    }
  }

  lemma AddColumnFrame(w: World, c: string)
    requires Frame(w) && w.pc.Idle?
    ensures Frame(Step(w, AddColumn(c)))
  {
    var w' := Step(w, AddColumn(c));
    var more := w.disk.cols + {c};
    AddColumnGenuine(w, c);
    WidenColumns(more, w.disk.live);
    WidenColumns(more, w.ref);
    forall r | r in w'.disk.live ensures w.stranded || From(w.disk) <= r.ts {
      WidenMember(more, w.disk.live, r);
    }
    forall r | r in w'.ref ensures ZERO_TIME <= r.ts {
      WidenMember(more, w.ref, r);
    }
  }

  lemma BeginFrame(w: World, cutoff: int)
    requires Frame(w) && w.pc.Idle?
    ensures Frame(Step(w, Begin(cutoff)))
  {
    var w' := Step(w, Begin(cutoff));
    var c := Candidates(w.disk, cutoff);
    if c != [] {
      var lo, hi := MinTs(c), MaxTs(c);
      var rlo :| rlo in c && rlo.ts == lo;
      var rhi :| rhi in c && rhi.ts == hi;
      BetweenMember(w.disk.live, From(w.disk), cutoff, rlo);
      BetweenMember(w.disk.live, From(w.disk), cutoff, rhi);
      DayBounds(lo);
      forall r | r in w.disk.live && !w.stranded ensures r.ts >= w'.pc.job.DayStart() {
        BetweenMember(w.disk.live, From(w.disk), cutoff, r);
      }
    }
  }

  lemma ExportFrame(w: World)
    requires Frame(w) && w.pc.AtExport?
    ensures Frame(Step(w, Export))
  {
    var j := w.pc.job;
    var kept := FileOf(w.disk.files, j.day);
    ExportedRows(w);
    forall r | r in Step(w, Export).disk.files[j.day]
      ensures DayOf(r.ts) == j.day && r.cells.Keys == w.disk.cols && Widen(w.disk.cols, r) in w.ref
    {
      WidenMember(w.disk.cols, kept, r);
      assert r.cells.Keys == w.disk.cols;
      assert Widen(w.disk.cols, r).cells == r.cells;
    }
  }

  lemma DeleteFrame(w: World)
    requires Frame(w) && w.pc.AtDelete?
    ensures Frame(Step(w, Delete))
  {
    var j := w.pc.job;
    forall r | r in Step(w, Delete).disk.live ensures r in w.disk.live && !(j.DayStart() <= r.ts < j.DayEnd()) {
      OutsideMember(w.disk.live, j.DayStart(), j.DayEnd(), r);
    }
  }

  lemma {:induction false} FlattenMember(files: map<int, seq<Row>>, days: seq<int>, r: Row)
    requires r in Flatten(files, days)
    ensures exists d :: d in files && r in files[d]
    decreases |days|
  {
    if r !in FileOf(files, days[0]) {
      FlattenMember(files, days[1..], r);
    }
  }

  lemma NoFiles(files: map<int, seq<Row>>)
    ensures (forall d :: d !in files) ==> files == map[]
  {
    if forall d :: d !in files {
      forall d ensures d !in files.Keys { }
    }
  }

  lemma ReloadFrame(w: World, days: seq<int>)
    requires Frame(w) && w.pc.Idle? && Lists(days, w.disk.files)
    ensures Frame(Step(w, BeginUnarchive(days)))
  {
    var w' := Step(w, BeginUnarchive(days));
    var all := Flatten(w.disk.files, days);
    WidenColumns(w.disk.cols, all);
    forall r | r in WidenAll(w.disk.cols, all) ensures r in w.ref {
      WidenMember(w.disk.cols, all, r);
      var q :| q in all && r == Widen(w.disk.cols, q);
      FlattenMember(w.disk.files, days, q);
    }
    if days == [] {
      NoFiles(w.disk.files);
    }
  }

  lemma RemoveFrame(w: World)
    requires Frame(w) && w.pc.AtRemove?
    ensures Frame(Step(w, RemoveFile))
  {
    var w' := Step(w, RemoveFile);
    var days := w.pc.days;
    assert days == [days[0]] + days[1..];
    assert days[0] !in days[1..];
    if |days| == 1 {
      NoFiles(w'.disk.files);
    } else {
      assert Lists(days[1..], w'.disk.files);
    }
  }

  lemma StepFrame(w: World, e: Event)
    requires Frame(w)
    ensures Frame(Step(w, e))
  {
    match e
    case AddColumn(c) => if w.pc.Idle? { AddColumnFrame(w, c); }
    case Begin(cutoff) => if w.pc.Idle? { BeginFrame(w, cutoff); }
    case Export => if w.pc.AtExport? { ExportFrame(w); }
    case Delete => if w.pc.AtDelete? { DeleteFrame(w); }
    case BeginUnarchive(days) => if w.pc.Idle? && Lists(days, w.disk.files) { ReloadFrame(w, days); }
    case RemoveFile => if w.pc.AtRemove? { RemoveFrame(w); }
    case _ =>
  }

  lemma {:induction false} RunKeeps(w: World, es: seq<Event>)
    requires Inv(w)
    ensures Inv(Run(w, es))
    decreases |es|
  {
    if es != [] {
      StepFrame(w, es[0]);
      StepConserves(w, es[0]);
      RunKeeps(Step(w, es[0]), es[1..]);
    }
  }

  // ---- What a crash at risk costs

  /** How many rows of day `d` are held beyond those inserted. */
  function Excess(w: World, d: int): int { |Counted(w, d)| - |DayRows(w.ref, d)| }

  /** Some day holds a row more often than it was inserted. */
  ghost predicate Overfull(w: World) { exists d :: Excess(w, d) > 0 }

  lemma SameSize(a: seq<Row>, b: seq<Row>)
    requires multiset(a) <= multiset(b)
    ensures |a| <= |b|
  {
    assert |multiset(a)| == |a| && |multiset(b)| == |b|;
    assert multiset(b) == multiset(a) + (multiset(b) - multiset(a));
  }

  lemma InsertExcess(w: World, r: Row, d: int)
    requires Ordered(w) && r.ts >= w.floor && r.cells.Keys == w.disk.cols
    ensures Excess(Step(w, Insert(r)), d) == Excess(w, d)
  {
    var w' := Step(w, Insert(r));
    InsertedOnce(w, r, d);
    DayAppend(w.ref, [r], d);
    SameMultisetSize(Counted(w', d), Counted(w, d) + DayRows([r], d));
  }

  lemma SameMultisetSize(a: seq<Row>, b: seq<Row>)
    requires multiset(a) == multiset(b)
    ensures |a| == |b|
  {
    SameSize(a, b);
    SameSize(b, a);
  }

  lemma AddColumnExcess(w: World, c: string, d: int)
    requires Shape(w) && w.pc.Idle?
    ensures Excess(Step(w, AddColumn(c)), d) == Excess(w, d)
  {
    HeldWidens(w.disk.cols, c, w.disk.live, w.disk.files, d);
    DayOfWidened(w.disk.cols + {c}, w.ref, d);
  }

  lemma ExportExcess(w: World, d: int)
    requires Shape(w) && Ordered(w) && w.pc.AtExport?
    ensures Excess(Step(w, Export), d) == Excess(w, d)
  {
    ExportKeepsCount(w, d);
    SameMultisetSize(Counted(w, d), Counted(Step(w, Export), d));
  }

  lemma CrashExcess(w: World, d: int)
    requires Shape(w)
    ensures Excess(Step(w, Crash), d) >= Excess(w, d)
  {
    CrashCounts(w, d);
    AfterCrash(w, d);
    SameSize(Counted(w, d), HeldNow(w, d));
  }

  /** No event lowers the excess of a day. */
  lemma ExcessNeverFalls(w: World, e: Event, d: int)
    requires Frame(w)
    ensures Excess(Step(w, e), d) >= Excess(w, d)
  {
    match e
    case Insert(r) => if r.ts >= w.floor && r.cells.Keys == w.disk.cols { InsertExcess(w, r, d); }
    case AddColumn(c) => if w.pc.Idle? { AddColumnExcess(w, c, d); }
    case Export => if w.pc.AtExport? { ExportExcess(w, d); }
    case BeginUnarchive(days) => if w.pc.Idle? && Lists(days, w.disk.files) { ReloadCounts(w, days, d); }
    case Crash => CrashExcess(w, d);
    case _ => OtherCounts(w, e, d);
  }

  lemma MovedTwice(w: World) returns (d: int)
    requires w.pc.AtDelete? && AtRisk(w)
    ensures |HeldNow(w, d)| > |Counted(w, d)|
  {
    var live, lo, hi := w.disk.live, w.pc.job.DayStart(), w.pc.job.DayEnd();
    var moved := Between(live, lo, hi);
    d := DayOf(moved[0].ts);
    var kept := DayRows(Outside(live, lo, hi), d);
    DaySplit(live, lo, hi, d);
    DayMember(moved, d, moved[0]);
    SameSize(kept + DayRows(moved, d), DayRows(live, d));
  }

  lemma ReloadedTwice(w: World) returns (d: int)
    requires Shape(w) && w.pc.AtRemove? && AtRisk(w)
    ensures |HeldNow(w, d)| > |Counted(w, d)|
  {
    var all := Flatten(w.disk.files, w.pc.days);
    d := DayOf(all[0].ts);
    FlattenDay(w.disk.files, w.pc.days, d);
    DayMember(all, d, all[0]);
  }

  /** A crash at risk leaves some day overfull. */
  lemma CrashAtRiskOverfills(w: World)
    requires Inv(w) && AtRisk(w)
    ensures Overfull(Step(w, Crash))
  {
    var d;
    if w.pc.AtDelete? { d := MovedTwice(w); } else { d := ReloadedTwice(w); }
    assert DayKept(w, d);
    SameSize(DayRows(w.ref, d), Counted(w, d));
    AfterCrash(w, d);
    assert Excess(Step(w, Crash), d) > 0;
  }

  /** Somewhere in the run the process dies at risk. */
  predicate CrashesAtRisk(w: World, es: seq<Event>)
    decreases |es|
  {
    es != [] && ((es[0].Crash? && AtRisk(w)) || CrashesAtRisk(Step(w, es[0]), es[1..]))
  }

  lemma {:induction false} CleanIff(w: World, es: seq<Event>)
    ensures Run(w, es).clean <==> w.clean && !CrashesAtRisk(w, es)
    decreases |es|
  {
    if es != [] { CleanIff(Step(w, es[0]), es[1..]); }
  }

  lemma OverfullStays(w: World, e: Event)
    requires Frame(w) && Overfull(w)
    ensures Overfull(Step(w, e))
  {
    var d :| Excess(w, d) > 0;
    ExcessNeverFalls(w, e, d);
    assert Excess(Step(w, e), d) > 0;
  }

  lemma OnlyRiskUncleans(w: World, e: Event)
    requires w.clean && !Step(w, e).clean
    ensures e.Crash? && AtRisk(w)
  {
  }

  lemma {:induction false} UncleanIsOverfull(w: World, es: seq<Event>)
    requires Inv(w) && (w.clean || Overfull(w))
    ensures Run(w, es).clean || Overfull(Run(w, es))
    decreases |es|
  {
    if es != [] {
      if !w.clean {
        OverfullStays(w, es[0]);
      } else if !Step(w, es[0]).clean {
        OnlyRiskUncleans(w, es[0]);
        CrashAtRiskOverfills(w);
      }
      StepFrame(w, es[0]);
      StepConserves(w, es[0]);
      UncleanIsOverfull(Step(w, es[0]), es[1..]);
    }
  }

  // ---- What a crash inside an unarchive leaves behind

  /** The run finishes an unarchive. */
  predicate Clears(w: World, es: seq<Event>)
    decreases |es|
  {
    es != [] && ((es[0].ClearState? && w.pc.AtClear?) || Clears(Step(w, es[0]), es[1..]))
  }

  /** Somewhere in the run the process dies inside an unarchive that has brought rows older
      than last_archived_ts back, and the run finishes no unarchive after that. */
  predicate LeavesRowsBehind(w: World, es: seq<Event>)
    decreases |es|
  {
    es != [] &&
    ((es[0].Crash? && InUnarchive(w.pc) && OlderLive(w.disk) && !Clears(Step(w, es[0]), es[1..])) ||
     LeavesRowsBehind(Step(w, es[0]), es[1..]))
  }

  lemma {:induction false} StrandedIff(w: World, es: seq<Event>)
    ensures Run(w, es).stranded <==> (w.stranded && !Clears(w, es)) || LeavesRowsBehind(w, es)
    decreases |es|
  {
    if es != [] { StrandedIff(Step(w, es[0]), es[1..]); }
  }

  /** Rows left behind stay behind until an unarchive finishes. */
  lemma StrandedIsOlderStep(w: World, e: Event)
    requires Inv(w) && (w.stranded ==> OlderLive(w.disk))
    ensures Step(w, e).stranded ==> OlderLive(Step(w, e).disk)
  {
    var w' := Step(w, e);
    if w'.stranded && w.stranded && w' != w {
      var r :| r in w.disk.live && r.ts < From(w.disk);
      match e
      case AddColumn(c) =>
        WidenMember(w'.disk.cols, w.disk.live, r);
        assert Widen(w'.disk.cols, r) in w'.disk.live;
      case Delete =>
        OutsideMember(w.disk.live, w.pc.job.DayStart(), w.pc.job.DayEnd(), r);
        assert r in w'.disk.live;
      case _ => assert r in w'.disk.live && r.ts < From(w'.disk);
    }
  }

  lemma {:induction false} StrandedIsOlder(w: World, es: seq<Event>)
    requires Inv(w) && (w.stranded ==> OlderLive(w.disk))
    ensures Run(w, es).stranded ==> OlderLive(Run(w, es).disk)
    decreases |es|
  {
    if es != [] {
      StrandedIsOlderStep(w, es[0]);
      StepFrame(w, es[0]);
      StepConserves(w, es[0]);
      StrandedIsOlder(Step(w, es[0]), es[1..]);
    }
  }
}
