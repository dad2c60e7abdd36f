/** Where a history query reads from, and that it misses and repeats nothing. */
module History {
  import opened Basics
  import opened Rows
  import opened ArchiveProtocol
  import opened Archive

  datatype Source = DuckDB | Parquet | Both

  /** The choice by configuration, existence of any archive file, and the archive cutoff
      at the time of the query. */
  function QuerySource(configured: bool, anyFiles: bool, start: int, end: int, cutoff: int): Source {
    if !configured then DuckDB
    else if !anyFiles then DuckDB
    else if start >= cutoff then DuckDB
    else if end < cutoff then Parquet
    else Both
  }

  /** The same, but a table without files of its own is read from DuckDB alone. */
  function QuerySourceForTable(configured: bool, anyFiles: bool, tableHasFiles: bool,
                               start: int, end: int, cutoff: int): Source
  {
    var source := QuerySource(configured, anyFiles, start, end, cutoff);
    if source != DuckDB && !tableHasFiles then DuckDB else source
  }

  // ---- Pruning archive files by date

  /** An entry of a table's archive directory, by what its name says it holds. */
  datatype Entry =
    | Daily(day: int)
    | Monthly(from: int, upto: int)   // first instant of the month and of the next one
    | Unknown(name: string)

  predicate Overlaps(e: Entry, start: int, end: int) {
    var startDate, endDate := DayOf(start) * DAY, DayOf(end) * DAY + DAY;
    match e
    case Daily(d) => d * DAY < endDate && d * DAY + DAY > startDate
    case Monthly(from, upto) => from < endDate && upto > startDate
    case Unknown(_) => true
  }

  /** A daily file is picked exactly if its day is one of those the range touches, a monthly one
      exactly if its month has an instant in them. */
  lemma OverlapsIff(e: Entry, start: int, end: int)
    ensures e.Daily? ==> (Overlaps(e, start, end) <==> DayOf(start) <= e.day <= DayOf(end))
    ensures e.Monthly? && e.from < e.upto && start <= end ==>
              (Overlaps(e, start, end) <==> exists t :: e.from <= t < e.upto && Touches(t, start, end))
    ensures e.Unknown? ==> Overlaps(e, start, end)
  {
    if e.Monthly? && e.from < e.upto && start <= end {
      var lo, hi := DayOf(start) * DAY, (DayOf(end) + 1) * DAY;
      forall t ensures Touches(t, start, end) <==> lo <= t < hi { }
      if Overlaps(e, start, end) {
        var t := if e.from < lo then lo else e.from;
        assert e.from <= t < e.upto && Touches(t, start, end);
      }
    }
  }

  /** Instant `t` lies in a day of the range. */
  predicate Touches(t: int, start: int, end: int) { DayOf(start) <= DayOf(t) <= DayOf(end) }

  function Picked(e: Entry, start: int, end: int): seq<Entry> { if Overlaps(e, start, end) then [e] else [] }

  function Selected(entries: seq<Entry>, start: int, end: int): seq<Entry> {
    if entries == [] then []
    else Picked(entries[0], start, end) + Selected(entries[1..], start, end)
  }

  lemma {:induction false} SelectedAppend(a: seq<Entry>, e: Entry, start: int, end: int)
    ensures Selected(a + [e], start, end) == Selected(a, start, end) + Picked(e, start, end)
    decreases |a|
  {
    var all := a + [e];
    if a == [] {
      assert all[1..] == [];
    } else {
      assert all[1..] == a[1..] + [e];
      SelectedAppend(a[1..], e, start, end);
    }
  }

  /** The files whose dates overlap the range; all of them when none does. */
  method ParquetPathForRange(entries: seq<Entry>, start: int, end: int) returns (files: seq<Entry>)
    ensures var picked := Selected(entries, start, end); files == if picked == [] then entries else picked
  {
    var startDate := DayOf(start) * DAY;
    var endDate := DayOf(end) * DAY + DAY;
    files := [];
    for i := 0 to |entries|
      invariant files == Selected(entries[..i], start, end)
    {
      var e := entries[i];
      assert entries[..i + 1] == entries[..i] + [e];
      SelectedAppend(entries[..i], e, start, end);
      var fileStart, fileEnd;
      match e {
        case Daily(d) => fileStart, fileEnd := d * DAY, d * DAY + DAY;
        case Monthly(from, upto) => fileStart, fileEnd := from, upto;
        case Unknown(_) =>
          files := files + [e];
          continue;
      }
      if fileStart < endDate && fileEnd > startDate {
        files := files + [e];
      }
    }
    assert entries[..|entries|] == entries;
    if files == [] {
      files := entries;
    }
  }

  /** Rows with a timestamp BETWEEN start AND end. */
  function InRange(s: seq<Row>, start: int, end: int): seq<Row> { Between(s, start, end + 1) }

  function RowsOf(rows: map<Entry, seq<Row>>, e: Entry): seq<Row> { if e in rows then rows[e] else [] }

  function Read(rows: map<Entry, seq<Row>>, entries: seq<Entry>): seq<Row> {
    if entries == [] then []
    else RowsOf(rows, entries[0]) + Read(rows, entries[1..])
  }

  /** Every file holds only rows of the time its name says. */
  ghost predicate NamedByDate(rows: map<Entry, seq<Row>>) {
    forall e, r :: e in rows && r in rows[e] ==>
      match e
      case Daily(d) => DayOf(r.ts) == d
      case Monthly(from, upto) => from <= r.ts < upto
      case Unknown(_) => true
  }

  lemma {:induction false} BetweenAppend(a: seq<Row>, b: seq<Row>, lo: int, hi: int)
    ensures Between(a + b, lo, hi) == Between(a, lo, hi) + Between(b, lo, hi)
    decreases |a|
  {
    if a == [] {
      assert a + b == b;
    } else {
      assert (a + b)[1..] == a[1..] + b && (a + b)[0] == a[0];
      BetweenAppend(a[1..], b, lo, hi);
      var h := if lo <= a[0].ts < hi then [a[0]] else [];
      assert h + (Between(a[1..], lo, hi) + Between(b, lo, hi)) == (h + Between(a[1..], lo, hi)) + Between(b, lo, hi);
    }
  }

  lemma {:induction false} NoneBetween(s: seq<Row>, lo: int, hi: int)
    requires forall r :: r in s ==> !(lo <= r.ts < hi)
    ensures Between(s, lo, hi) == []
  {
    if s != [] {
      assert s[0] in s;
      forall r | r in s[1..] ensures r in s { }
      NoneBetween(s[1..], lo, hi);
    }
  }

  lemma SkippedHoldsNothing(rows: map<Entry, seq<Row>>, e: Entry, start: int, end: int)
    requires NamedByDate(rows) && e in rows && !Overlaps(e, start, end)
    ensures InRange(rows[e], start, end) == []
  {
    forall r | r in rows[e] ensures !(start <= r.ts < end + 1) {
      DayBounds(r.ts);
      DayBounds(start);
      DayBounds(end);
    }
    NoneBetween(rows[e], start, end + 1);
  }

  /** What an entry adds to the range, whether or not its date lets it be picked. */
  lemma PickedReadsAll(rows: map<Entry, seq<Row>>, e: Entry, rest: seq<Entry>, start: int, end: int)
    requires NamedByDate(rows)
    ensures InRange(Read(rows, Picked(e, start, end) + rest), start, end) ==
            InRange(RowsOf(rows, e), start, end) + InRange(Read(rows, rest), start, end)
  {
    if Overlaps(e, start, end) {
      assert ([e] + rest)[1..] == rest;
      BetweenAppend(RowsOf(rows, e), Read(rows, rest), start, end + 1);
    } else {
      if e in rows { SkippedHoldsNothing(rows, e, start, end); }
      assert [] + rest == rest;
      assert InRange(RowsOf(rows, e), start, end) == [];
    }
  }

  lemma {:induction false} SelectionReadsAll(rows: map<Entry, seq<Row>>, entries: seq<Entry>, start: int, end: int)
    requires NamedByDate(rows)
    ensures InRange(Read(rows, Selected(entries, start, end)), start, end) ==
            InRange(Read(rows, entries), start, end)
    decreases |entries|
  {
    if entries != [] {
      SelectionReadsAll(rows, entries[1..], start, end);
      PickedReadsAll(rows, entries[0], Selected(entries[1..], start, end), start, end);
      BetweenAppend(RowsOf(rows, entries[0]), Read(rows, entries[1..]), start, end + 1);
    }
  }

  /** Pruning files by date loses no row of the range: the chosen files hold, in order,
      exactly the rows of the range that all files hold. */
  lemma PruningIsExact(rows: map<Entry, seq<Row>>, entries: seq<Entry>, start: int, end: int)
    requires NamedByDate(rows)
    ensures var picked := Selected(entries, start, end);
            InRange(Read(rows, if picked == [] then entries else picked), start, end) ==
            InRange(Read(rows, entries), start, end)
  {
    SelectionReadsAll(rows, entries, start, end);
  }

  // ---- The answer

  function DailyEntries(days: seq<int>): seq<Entry> {
    if days == [] then [] else [Daily(days[0])] + DailyEntries(days[1..])
  }

  function DailyRows(files: map<int, seq<Row>>): map<Entry, seq<Row>> {
    map e: Entry | e in (set d | d in files :: Daily(d)) :: files[e.day]
  }

  function ArchivePart(k: Disk, days: seq<int>, start: int, end: int): seq<Row> {
    var entries := DailyEntries(days);
    var picked := Selected(entries, start, end);
    InRange(WidenAll(k.cols, Read(DailyRows(k.files), if picked == [] then entries else picked)), start, end)
  }

  function Answer(k: Disk, days: seq<int>, source: Source, start: int, end: int): seq<Row> {
    match source
    case DuckDB => InRange(k.live, start, end)
    case Parquet => ArchivePart(k, days, start, end)
    case Both => InRange(k.live, start, end) + ArchivePart(k, days, start, end)
  }

  lemma {:induction false} ReadIsFlatten(files: map<int, seq<Row>>, days: seq<int>)
    ensures Read(DailyRows(files), DailyEntries(days)) == Flatten(files, days)
    decreases |days|
  {
    if days != [] {
      var es := DailyEntries(days);
      assert es[0] == Daily(days[0]) && es[1..] == DailyEntries(days[1..]);
      ReadIsFlatten(files, days[1..]);
      assert Daily(days[0]) in DailyRows(files) <==> days[0] in files;
    }
  }

  lemma {:induction false} RangeOfWidened(cols: set<string>, s: seq<Row>, lo: int, hi: int)
    ensures Between(WidenAll(cols, s), lo, hi) == WidenAll(cols, Between(s, lo, hi))
  {
    if s != [] {
      RangeOfWidened(cols, s[1..], lo, hi);
      WidenAppend(cols, if lo <= s[0].ts < hi then [s[0]] else [], Between(s[1..], lo, hi));
    }
  }

  lemma ArchivePartIsAll(k: Disk, days: seq<int>, start: int, end: int)
    requires forall d, r :: d in k.files && r in k.files[d] ==> DayOf(r.ts) == d
    ensures ArchivePart(k, days, start, end) == InRange(WidenAll(k.cols, Flatten(k.files, days)), start, end)
  {
    var rows, entries := DailyRows(k.files), DailyEntries(days);
    var picked := Selected(entries, start, end);
    var chosen := Read(rows, if picked == [] then entries else picked);
    PruningIsExact(rows, entries, start, end);
    ReadIsFlatten(k.files, days);
    RangeOfWidened(k.cols, chosen, start, end + 1);
    RangeOfWidened(k.cols, Flatten(k.files, days), start, end + 1);
  }

  lemma {:induction false} CountBetween(s: seq<Row>, lo: int, hi: int, r: Row)
    ensures multiset(Between(s, lo, hi))[r] == if lo <= r.ts < hi then multiset(s)[r] else 0
  {
    if s != [] {
      assert s == [s[0]] + s[1..];
      CountBetween(s[1..], lo, hi, r);
    }
  }

  lemma SameRowsSameRange(a: seq<Row>, b: seq<Row>, lo: int, hi: int)
    requires multiset(a) == multiset(b)
    ensures multiset(Between(a, lo, hi)) == multiset(Between(b, lo, hi))
  {
    forall r: Row ensures multiset(Between(a, lo, hi))[r] == multiset(Between(b, lo, hi))[r] {
      CountBetween(a, lo, hi, r);
      CountBetween(b, lo, hi, r);
    }
  }

  /** The rows already exported and not yet deleted: live and in their file. */
  function AwaitsDelete(w: World): seq<Row> {
    if w.pc.AtDelete? then Between(w.disk.live, w.pc.job.DayStart(), w.pc.job.DayEnd()) else []
  }

  /** A state of a clean run outside an unarchive, and a listing of its files. */
  ghost predicate Listed(w: World, days: seq<int>) {
    Inv(w) && w.clean && !InUnarchive(w.pc) && Lists(days, w.disk.files)
  }

  /** Live rows, but for those awaiting their DELETE, and archived rows together are the rows
      inserted. */
  lemma LivePlusArchive(w: World, days: seq<int>)
    requires Listed(w, days)
    ensures multiset(CountedLive(w) + WidenAll(w.disk.cols, Flatten(w.disk.files, days))) == multiset(w.ref)
  {
    var k, live := w.disk, CountedLive(w);
    var archived := WidenAll(k.cols, Flatten(k.files, days));
    forall d ensures multiset(DayRows(live + archived, d)) == multiset(DayRows(w.ref, d)) {
      assert DayExact(w, d);
      DayAppend(live, archived, d);
      DayOfWidened(k.cols, Flatten(k.files, days), d);
      FlattenDay(k.files, days, d);
    }
    SameDaysSameRows(live + archived, w.ref);
  }

  ghost predicate SplitsExactly(w: World, days: seq<int>, start: int, end: int) {
    multiset(InRange(CountedLive(w), start, end) + ArchivePart(w.disk, days, start, end)) == multiset(InRange(w.ref, start, end))
  }

  /** What the two stores hold of a range, whatever is asked. */
  lemma RangeSplitsByStore(w: World, days: seq<int>, start: int, end: int)
    requires Listed(w, days)
    ensures SplitsExactly(w, days, start, end)
  {
    var k, live := w.disk, CountedLive(w);
    var archived := WidenAll(k.cols, Flatten(k.files, days));
    LivePlusArchive(w, days);
    ArchivePartIsAll(k, days, start, end);
    BetweenAppend(live, archived, start, end + 1);
    SameRowsSameRange(live + archived, w.ref, start, end + 1);
  }

  /** Archived rows are older than every cutoff an archive run has used, and an exported day
      has its file. */
  ghost predicate FiledBelowFloor(w: World) {
    && (forall d, r :: d in w.disk.files && r in w.disk.files[d] ==> r.ts < w.floor)
    && (w.pc.AtDelete? ==> w.pc.job.day in w.disk.files)
  }

  lemma {:induction false} RunFilesBelowFloor(w: World, es: seq<Event>)
    requires Inv(w) && FiledBelowFloor(w)
    ensures FiledBelowFloor(Run(w, es))
    decreases |es|
  {
    if es != [] {
      StepFilesBelowFloor(w, es[0]);
      StepFrame(w, es[0]);
      StepConserves(w, es[0]);
      RunFilesBelowFloor(Step(w, es[0]), es[1..]);
    }
  }

  lemma StepFilesBelowFloor(w: World, e: Event)
    requires Ordered(w) && FiledBelowFloor(w)
    ensures FiledBelowFloor(Step(w, e))
  {
    if e.Export? && w.pc.AtExport? {
      var j := w.pc.job;
      forall r | r in Step(w, e).disk.files[j.day] ensures r.ts < w.floor {
        BetweenMember(w.disk.live, j.DayStart(), j.DayEnd(), r);
        WidenMember(w.disk.cols, FileOf(w.disk.files, j.day), r);
      }
    }
  }

  lemma NothingFiledInRange(w: World, days: seq<int>, start: int, end: int)
    requires FiledBelowFloor(w) && Frame(w) && w.floor <= start
    ensures ArchivePart(w.disk, days, start, end) == []
  {
    var k := w.disk;
    var archived := WidenAll(k.cols, Flatten(k.files, days));
    ArchivePartIsAll(k, days, start, end);
    forall r | r in archived ensures !(start <= r.ts < end + 1) {
      WidenMember(k.cols, Flatten(k.files, days), r);
      var q :| q in Flatten(k.files, days) && r == Widen(k.cols, q);
      FlattenMember(k.files, days, q);
    }
    NoneBetween(archived, start, end + 1);
  }

  lemma NothingLiveInRange(w: World, start: int, end: int)
    requires Ordered(w) && !w.stranded && !InUnarchive(w.pc) && end < From(w.disk)
    ensures InRange(w.disk.live, start, end) == []
  {
    forall r | r in w.disk.live ensures !(start <= r.ts < end + 1) { }
    NoneBetween(w.disk.live, start, end + 1);
  }

  /** The source a handler reads, archiving configured: by table or for all tables. */
  function Chosen(perTable: bool, anyFiles: bool, days: seq<int>, start: int, end: int, cutoff: int): Source {
    if perTable then QuerySourceForTable(true, anyFiles, days != [], start, end, cutoff)
    else QuerySource(true, anyFiles, start, end, cutoff)
  }

  /** No store is read without need: the files exactly if there are some and the range starts
      before the cutoff; then the live table exactly if the range also reaches the cutoff. */
  lemma StoresRead(perTable: bool, anyFiles: bool, days: seq<int>, start: int, end: int, cutoff: int)
    ensures var source, filed := Chosen(perTable, anyFiles, days, start, end, cutoff), anyFiles && (perTable ==> days != []);
            && (source == Parquet || source == Both <==> filed && start < cutoff)
            && (source == DuckDB || source == Both <==> !filed || start >= cutoff || end >= cutoff)
  {
  }

  ghost predicate Exact(w: World, days: seq<int>, source: Source, start: int, end: int) {
    multiset(Answer(w.disk, days, source, start, end)) == multiset(InRange(w.ref, start, end))
  }

  lemma SameMore(a: seq<Row>, b: seq<Row>, there: seq<Row>)
    requires multiset(a) == multiset(b)
    ensures multiset(a + there) == multiset(b + there)
  {
    assert multiset(a + there) == multiset(a) + multiset(there);
    assert multiset(b + there) == multiset(b) + multiset(there);
  }

  lemma MoreDiffers(a: seq<Row>, b: seq<Row>, there: seq<Row>)
    requires |a| != |b|
    ensures multiset(a + there) != multiset(b + there)
  {
    assert |multiset(a + there)| == |a| + |there| && |multiset(b + there)| == |b| + |there|;
  }

  /** A range of the live table: what awaits its DELETE, and the rest. */
  lemma {:induction false} RangeOfLive(w: World, start: int, end: int)
    ensures multiset(InRange(w.disk.live, start, end)) ==
            multiset(InRange(CountedLive(w), start, end)) + multiset(InRange(AwaitsDelete(w), start, end))
  {
    if w.pc.AtDelete? {
      var lo, hi := w.pc.job.DayStart(), w.pc.job.DayEnd();
      RangeSplit(w.disk.live, lo, hi);
      assert multiset(w.disk.live) == multiset(CountedLive(w) + AwaitsDelete(w));
      SameRowsSameRange(w.disk.live, CountedLive(w) + AwaitsDelete(w), start, end + 1);
      BetweenAppend(CountedLive(w), AwaitsDelete(w), start, end + 1);
    }
  }

  /** Parquet alone answers exactly if no live row is in the range but those awaiting their
      DELETE. */
  lemma ParquetIsExactIff(w: World, days: seq<int>, start: int, end: int)
    requires Listed(w, days)
    ensures Exact(w, days, Parquet, start, end) <==> InRange(CountedLive(w), start, end) == []
  {
    RangeSplitsByStore(w, days, start, end);
    ParquetFromSplit(w, days, start, end);
  }

  lemma ParquetFromSplit(w: World, days: seq<int>, start: int, end: int)
    requires SplitsExactly(w, days, start, end)
    ensures Exact(w, days, Parquet, start, end) <==> InRange(CountedLive(w), start, end) == []
  {
    var here, there := InRange(CountedLive(w), start, end), ArchivePart(w.disk, days, start, end);
    assert [] + there == there;
    if here != [] { MoreDiffers([], here, there); }
  }

  /** Both stores together answer exactly if none of the range awaits its DELETE. */
  lemma BothIsExactAtIff(w: World, days: seq<int>, start: int, end: int)
    requires Listed(w, days)
    ensures Exact(w, days, Both, start, end) <==> InRange(AwaitsDelete(w), start, end) == []
  {
    RangeSplitsByStore(w, days, start, end);
    BothFromSplit(w, days, start, end);
  }

  lemma BothFromSplit(w: World, days: seq<int>, start: int, end: int)
    requires SplitsExactly(w, days, start, end)
    ensures Exact(w, days, Both, start, end) <==> InRange(AwaitsDelete(w), start, end) == []
  {
    var live, here := InRange(w.disk.live, start, end), InRange(CountedLive(w), start, end);
    var there, twice := ArchivePart(w.disk, days, start, end), InRange(AwaitsDelete(w), start, end);
    RangeOfLive(w, start, end);
    assert Answer(w.disk, days, Both, start, end) == live + there;
    assert multiset(live) == multiset(here + twice);
    if twice == [] {
      assert here + [] == here;
      SameMore(live, here, there);
    } else {
      SameMultisetSize(live, here + twice);
      MoreDiffers(live, here, there);
    }
  }

  /** DuckDB alone answers exactly when it is chosen. */
  lemma DuckDBIsExact(w: World, days: seq<int>, start: int, end: int)
    requires Listed(w, days) && FiledBelowFloor(w) && (days == [] || w.floor <= start)
    ensures Exact(w, days, DuckDB, start, end)
  {
    RangeSplitsByStore(w, days, start, end);
    if days == [] {
      assert DailyEntries(days) == [];
    } else {
      NothingFiledInRange(w, days, start, end);
    }
    assert ArchivePart(w.disk, days, start, end) == [];
    assert InRange(CountedLive(w), start, end) + [] == InRange(CountedLive(w), start, end);
    NoneAwaits(w, days, start, end);
    RangeOfLive(w, start, end);
  }

  lemma NoneAwaits(w: World, days: seq<int>, start: int, end: int)
    requires Ordered(w) && Lists(days, w.disk.files) && FiledBelowFloor(w) && (days == [] || w.floor <= start)
    ensures InRange(AwaitsDelete(w), start, end) == []
  {
    forall r | r in AwaitsDelete(w) ensures !(start <= r.ts < end + 1) {
      BetweenMember(w.disk.live, w.pc.job.DayStart(), w.pc.job.DayEnd(), r);
    }
    NoneBetween(AwaitsDelete(w), start, end + 1);
  }

  /** What keeps a source from answering a range exactly. */
  predicate NothingAmiss(w: World, source: Source, start: int, end: int) {
    match source
    case DuckDB => true
    case Parquet => InRange(CountedLive(w), start, end) == []
    case Both => InRange(AwaitsDelete(w), start, end) == []
  }

  /** Which answers are exact.  The query's cutoff is not behind that of any archive run
      (fixed threshold, monotone clock). */
  lemma AnswerIsExactIff(w: World, days: seq<int>, anyFiles: bool, start: int, end: int, cutoff: int, perTable: bool)
    requires Listed(w, days) && FiledBelowFloor(w) && (days != [] ==> anyFiles) && w.floor <= cutoff
    ensures var source := Chosen(perTable, anyFiles, days, start, end, cutoff);
            Exact(w, days, source, start, end) <==> NothingAmiss(w, source, start, end)
  {
    var source := Chosen(perTable, anyFiles, days, start, end, cutoff);
    match source
    case DuckDB => DuckDBIsExact(w, days, start, end);
    case Parquet => ParquetIsExactIff(w, days, start, end);
    case Both => BothIsExactAtIff(w, days, start, end);
  }

  /** In every run in which the process never died while rows stood both in the table and in
      a file, a query at any moment outside an unarchive returns exactly the rows inserted in
      its range, wherever they live, unless it reads Parquet alone and a row of the range is
      live and not yet exported, or reads both stores and a row of the range awaits its
      DELETE.  The first does not happen for ranges before last_archived_ts unless a crash
      left rows behind; the second only between an export and its DELETE. */
  lemma HistoryIsExact(w0: World, es: seq<Event>, days: seq<int>, anyFiles: bool, start: int, end: int, cutoff: int, perTable: bool)
    requires Init(w0) && !CrashesAtRisk(w0, es) && !InUnarchive(Run(w0, es).pc)
    requires Lists(days, Run(w0, es).disk.files) && (days != [] ==> anyFiles) && Run(w0, es).floor <= cutoff
    ensures var w, source := Run(w0, es), Chosen(perTable, anyFiles, days, start, end, cutoff);
            && (Exact(w, days, source, start, end) <==> NothingAmiss(w, source, start, end))
            && (!LeavesRowsBehind(w0, es) && end < From(w.disk) && source == Parquet ==> Exact(w, days, source, start, end))
            && (!w.pc.AtDelete? && source != Parquet ==> Exact(w, days, source, start, end))
  {
    var w := Run(w0, es);
    InitInv(w0);
    RunKeeps(w0, es);
    RunFilesBelowFloor(w0, es);
    CleanIff(w0, es);
    StrandedIff(w0, es);
    AnswerIsExactIff(w, days, anyFiles, start, end, cutoff, perTable);
    if !w.stranded && end < From(w.disk) {
      NothingLiveInRange(w, start, end);
      RangeOfLive(w, start, end);
      SubsetOfNone(w, start, end);
    }
  }

  /** Whatever the choice falls on: in such a run the rows of the range that the files lack are
      missed only by a range that ends before the cutoff, and rows come twice only if they await
      their DELETE. */
  lemma ChoiceIsExactIff(w0: World, es: seq<Event>, days: seq<int>, anyFiles: bool, start: int, end: int, cutoff: int, perTable: bool)
    requires Init(w0) && !CrashesAtRisk(w0, es) && !InUnarchive(Run(w0, es).pc)
    requires Lists(days, Run(w0, es).disk.files) && (days != [] ==> anyFiles) && Run(w0, es).floor <= cutoff
    ensures var w := Run(w0, es);
            Exact(w, days, Chosen(perTable, anyFiles, days, start, end, cutoff), start, end) <==>
            if start < cutoff && end < cutoff && anyFiles && (perTable ==> days != [])
            then InRange(CountedLive(w), start, end) == [] else InRange(AwaitsDelete(w), start, end) == []
  {
    var w := Run(w0, es);
    HistoryIsExact(w0, es, days, anyFiles, start, end, cutoff, perTable);
    InitInv(w0);
    RunKeeps(w0, es);
    RunFilesBelowFloor(w0, es);
    if Chosen(perTable, anyFiles, days, start, end, cutoff) == DuckDB { NoneAwaits(w, days, start, end); }
  }

  /** The choice is right: with nothing exported awaiting its DELETE, a range that reaches the
      cutoff is answered exactly, whether it starts before the cutoff or after it. */
  lemma ChoiceIsRight(w0: World, es: seq<Event>, days: seq<int>, anyFiles: bool, start: int, end: int, cutoff: int, perTable: bool)
    requires Init(w0) && !CrashesAtRisk(w0, es) && !InUnarchive(Run(w0, es).pc) && !Run(w0, es).pc.AtDelete?
    requires Lists(days, Run(w0, es).disk.files) && (days != [] ==> anyFiles) && Run(w0, es).floor <= cutoff <= end
    ensures Exact(Run(w0, es), days, Chosen(perTable, anyFiles, days, start, end, cutoff), start, end)
  {
    ChoiceIsExactIff(w0, es, days, anyFiles, start, end, cutoff, perTable);
  }

  lemma SubsetOfNone(w: World, start: int, end: int)
    requires InRange(w.disk.live, start, end) == []
    ensures InRange(CountedLive(w), start, end) == []
  {
    RangeOfLive(w, start, end);
    SameMultisetSize([], InRange(CountedLive(w), start, end) + InRange(AwaitsDelete(w), start, end));
  }

  lemma {:induction false} DayIsRange(s: seq<Row>, d: int)
    ensures InRange(s, d * DAY, (d + 1) * DAY - 1) == DayRows(s, d)
  {
    if s != [] {
      DayIsRange(s[1..], d);
      DayBounds(s[0].ts);
    }
  }

  /** Both stores asked for one day answer with what they hold of it. */
  lemma BothOfOneDay(k: Disk, days: seq<int>, d: int)
    requires Lists(days, k.files) && forall e, r :: e in k.files && r in k.files[e] ==> DayOf(r.ts) == e
    ensures Answer(k, days, Both, d * DAY, (d + 1) * DAY - 1) == Held(k.cols, k.live, k.files, d)
  {
    var all := Flatten(k.files, days);
    ArchivePartIsAll(k, days, d * DAY, (d + 1) * DAY - 1);
    DayIsRange(k.live, d);
    DayIsRange(WidenAll(k.cols, all), d);
    DayOfWidened(k.cols, all, d);
    FlattenDay(k.files, days, d);
    assert d in days <==> d in k.files;
  }

  ghost predicate BothIsExact(w: World, days: seq<int>) { forall start, end :: Exact(w, days, Both, start, end) }

  lemma InexactDayShows(w: World, days: seq<int>, d: int)
    requires Shape(w) && Lists(days, w.disk.files) && !HeldAsInserted(w, d)
    ensures !Exact(w, days, Both, d * DAY, (d + 1) * DAY - 1)
  {
    BothOfOneDay(w.disk, days, d);
    DayIsRange(w.ref, d);
  }

  lemma BothWhenClean(w: World, days: seq<int>)
    requires Listed(w, days)
    ensures BothIsExact(w, days) <==> AwaitsDelete(w) == []
  {
    forall start, end ensures Exact(w, days, Both, start, end) <==> InRange(AwaitsDelete(w), start, end) == [] {
      BothIsExactAtIff(w, days, start, end);
    }
    if AwaitsDelete(w) != [] {
      var r := AwaitsDelete(w)[0];
      LiveInItsRange(AwaitsDelete(w), r);
      assert !Exact(w, days, Both, r.ts, r.ts);
    }
  }

  /** A day held beyond what was inserted shows in the answer of both stores. */
  lemma OverfullShows(w: World, days: seq<int>)
    requires Shape(w) && Lists(days, w.disk.files) && !InUnarchive(w.pc) && Overfull(w)
    ensures !BothIsExact(w, days)
  {
    var d :| Excess(w, d) > 0;
    CrashCounts(w, d);
    SameSize(Counted(w, d), HeldNow(w, d));
    assert HeldAsInserted(w, d) ==> |multiset(HeldNow(w, d))| == |multiset(DayRows(w.ref, d))|;
    InexactDayShows(w, days, d);
  }

  /** Both stores together answer every range exactly if the process never died while rows
      stood both in the table and in a file, and no exported row awaits its DELETE: what is
      held twice, a query returns twice. */
  lemma BothIsExactIff(w0: World, es: seq<Event>, days: seq<int>)
    requires Init(w0) && !InUnarchive(Run(w0, es).pc) && Lists(days, Run(w0, es).disk.files)
    ensures BothIsExact(Run(w0, es), days) <==> !CrashesAtRisk(w0, es) && AwaitsDelete(Run(w0, es)) == []
  {
    var w := Run(w0, es);
    InitInv(w0);
    RunKeeps(w0, es);
    UncleanIsOverfull(w0, es);
    CleanIff(w0, es);
    if CrashesAtRisk(w0, es) { OverfullShows(w, days); } else { BothWhenClean(w, days); }
  }

  /** Parquet alone answers every range before last_archived_ts exactly. */
  ghost predicate ParquetIsSafe(w: World, days: seq<int>) {
    forall start, end :: end < From(w.disk) ==> Exact(w, days, Parquet, start, end)
  }

  lemma {:induction false} LiveInItsRange(live: seq<Row>, r: Row)
    requires r in live
    ensures InRange(live, r.ts, r.ts) != []
  {
    BetweenMember(live, r.ts, r.ts + 1, r);
  }

  lemma NoneLiveBefore(d: Disk, start: int, end: int)
    requires !OlderLive(d) && end < From(d)
    ensures InRange(d.live, start, end) == []
  {
    NoneBetween(d.live, start, end + 1);
  }

  lemma SafeRange(w: World, days: seq<int>, start: int, end: int)
    requires Listed(w, days) && !OlderLive(w.disk) && end < From(w.disk)
    ensures Exact(w, days, Parquet, start, end)
  {
    NoneLiveBefore(w.disk, start, end);
    SubsetOfNone(w, start, end);
    ParquetIsExactIff(w, days, start, end);
  }

  lemma UnsafeRange(w: World, days: seq<int>, r: Row)
    requires Listed(w, days) && r in w.disk.live && r.ts < From(w.disk)
    ensures !Exact(w, days, Parquet, r.ts, r.ts)
  {
    if w.pc.AtDelete? { OutsideMember(w.disk.live, w.pc.job.DayStart(), w.pc.job.DayEnd(), r); }
    LiveInItsRange(CountedLive(w), r);
    ParquetIsExactIff(w, days, r.ts, r.ts);
  }

  /** Exactly when Parquet alone may be asked for every range before last_archived_ts: when
      no live row is older than that. */
  lemma ParquetAloneIsSafeIff(w: World, days: seq<int>)
    requires Listed(w, days)
    ensures ParquetIsSafe(w, days) <==> !OlderLive(w.disk)
  {
    if OlderLive(w.disk) {
      var r :| r in w.disk.live && r.ts < From(w.disk);
      UnsafeRange(w, days, r);
    } else {
      forall start, end | end < From(w.disk) ensures Exact(w, days, Parquet, start, end) {
        SafeRange(w, days, start, end);
      }
    }
  }

  /** A row past the cutoff that no archive run has moved yet is missed by Parquet alone. */
  lemma UnarchivedRowIsMissed()
    ensures var late := Row(5, map[]);
            var w := Run(OneRow, ToMove + [Insert(late)]);
            && Init(OneRow) && w.pc.Idle? && w.clean && !w.stranded && w.floor <= 10 && Lists([0], w.disk.files)
            && late in w.ref && Chosen(true, true, [0], 5, 5, 10) == Parquet && !Exact(w, [0], Parquet, 5, 5)
  {
    var r := Row(5, map[]);
    var insert: seq<Event> := [Insert(r)];
    ExportedOnce();
    MovedOnce();
    RunAppend(OneRow, ToMove, insert);
    assert insert[1..] == [];
    var w := Step(Moved, Insert(r));
    assert Run(Moved, insert) == w;
    assert r in w.ref && r in w.disk.live;
    InitInv(OneRow);
    RunKeeps(OneRow, ToMove + insert);
    ParquetIsExactIff(w, [0], 5, 5);
    BetweenMember(w.disk.live, 5, 6, r);
  }

  /** After the unarchive that was cut short, a range before last_archived_ts is missed too. */
  lemma StrandedRowIsMissed()
    ensures var w := Run(OneRow, ToCutShort);
            && Init(OneRow) && !CrashesAtRisk(OneRow, ToCutShort) && w.pc.Idle? && Lists([], w.disk.files) && w.floor <= 1
            && OldRow in w.ref && 0 < From(w.disk)
            && Chosen(false, true, [], 0, 0, 1) == Parquet && !Exact(w, [], Parquet, 0, 0)
  {
    CutShortReached();
    UnarchiveCrashStrands();
    InitInv(OneRow);
    RunKeeps(OneRow, ToCutShort);
    ParquetIsExactIff(CutShort, [], 0, 0);
    BetweenMember(CutShort.disk.live, 0, 1, OldRow);
  }

  /** Without any crash: between an export and its DELETE both stores return the row twice. */
  lemma ExportedRowIsRepeated()
    ensures var w := Run(OneRow, ToExport);
            && Init(OneRow) && Listed(w, [0]) && AwaitsDelete(w) == [OldRow]
            && Answer(w.disk, [0], Both, 0, 0) != InRange(w.ref, 0, 0) && !Exact(w, [0], Both, 0, 0)
  {
    ExportedOnce();
    OldRowFacts();
    InitInv(OneRow);
    RunKeeps(OneRow, ToExport);
    assert Lists([0], Exported.disk.files);
    BothIsExactAtIff(Exported, [0], 0, 0);
  }
}
