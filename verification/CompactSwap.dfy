/** Swapping a compacted database file into place, and recovering from a crash.

    The file system is a map from path to contents; every rename, remove and open is one
    atomic event that may fail, and the process may die between any two. */
module CompactSwap {

  datatype Path = Main | Backup | Tmp

  /** A file is a complete database, one still being written, or a new empty one. */
  datatype Content<T> = Db(data: T) | Partial | Empty

  type Files<T> = map<Path, Content<T>>

  datatype Phase =
    | Down        // no process
    | Recovered   // started: recovery done, database not opened yet
    | Up          // serving from the main path
    | Building    // copying tables into the temporary file
    | Built       // temporary file complete, database closed
    | Aside       // original renamed to the backup path
    | Swapped     // compacted file renamed to the main path
    | Reopened    // serving from the new file, backup not yet removed
    | Closed      // a failed swap could not reopen the database: running, serving nothing

  /** An open works; or it creates the file and fails on a setting after that; or it fails
      before. */
  datatype Outcome = Works | FailsLate | FailsEarly

  datatype World<T> = World(
    files: Files<T>,
    phase: Phase,
    data: T,        // what the database holds: every committed write
    blind: bool)    // an empty file was created at the main path, where none was

  datatype Event<T> =
    | Commit(data: T)
    | BeginCompact
    | AbortCompact(removed: bool)
    | FinishCopy
    | RenameAside(ok: bool, again: Outcome)                  // again: on failure, how opening
    | RenameIn(ok: bool, restored: bool, again: Outcome)     // the database once more goes
    | Reopen(ok: bool, restored: bool, again: Outcome)
    | DropBackup(ok: bool)
    | Crash
    | Recover(ok: bool)
    | Open(outcome: Outcome)

  function Rename<T>(f: Files<T>, from: Path, to: Path): Files<T> {
    if from in f && from != to then (f - {from})[to := f[from]] else f
  }

  /** recoverInterruptedCompaction: `ok` is whether its one rename or remove succeeds. */
  function RecoverFiles<T>(f: Files<T>, ok: bool): Files<T> {
    if Backup !in f then f
    else if Main !in f then (if ok then Rename(f, Backup, Main) else f)
    else if ok then f - {Backup}
    else f
  }

  /** Opening a path without a file creates an empty database there. */
  function OpenFiles<T>(f: Files<T>): Files<T> { if Main in f then f else f[Main := Empty] }

  function Touched<T>(w: World<T>): World<T> {
    w.(files := OpenFiles(w.files), blind := w.blind || Main !in w.files)
  }

  /** The main path is opened, or not; then the process is in phase `failed`. */
  function Opened<T>(w: World<T>, outcome: Outcome, failed: Phase): World<T> {
    match outcome
    case Works => Touched(w).(phase := Up)
    case FailsLate => Touched(w).(phase := failed)
    case FailsEarly => w.(phase := failed)
  }

  /** One event; one that cannot happen in the phase changes nothing. */
  function Step<T>(w: World<T>, e: Event<T>): World<T> {
    var f := w.files;
    match e
    case Commit(d) => if w.phase.Up? && Main in f then w.(data := d, files := f[Main := Db(d)]) else w
    case BeginCompact => if w.phase.Up? then w.(files := f[Tmp := Partial], phase := Building) else w
    case AbortCompact(removed) =>
      if w.phase.Building? then w.(files := if removed then f - {Tmp} else f, phase := Up) else w
    case FinishCopy => if w.phase.Building? then w.(files := f[Tmp := Db(w.data)], phase := Built) else w
    case RenameAside(ok, again) =>
      if !w.phase.Built? then w
      else if ok then w.(files := Rename(f, Main, Backup), phase := Aside)
      else Opened(w, again, Closed)
    case RenameIn(ok, restored, again) =>
      if !w.phase.Aside? then w
      else if ok then w.(files := Rename(f, Tmp, Main), phase := Swapped)
      else Opened(w.(files := if restored then Rename(f, Backup, Main) else f), again, Closed)
    case Reopen(ok, restored, again) =>
      if !w.phase.Swapped? then w
      else if ok then w.(phase := Reopened)
      else Opened(w.(files := if restored then Rename(f, Backup, Main) else f), again, Closed)
    case DropBackup(ok) =>
      if w.phase.Reopened? then w.(files := if ok then f - {Backup} else f, phase := Up) else w
    case Crash => w.(phase := Down)
    case Recover(ok) => if w.phase.Down? then w.(files := RecoverFiles(f, ok), phase := Recovered) else w
    case Open(outcome) => if w.phase.Recovered? then Opened(w, outcome, Down) else w
  }

  function Run<T>(w: World<T>, es: seq<Event<T>>): World<T>
    decreases |es|
  {
    if es == [] then w else Run(Step(w, es[0]), es[1..])
  }

  // ---- Safety

  ghost predicate Holds<T>(f: Files<T>, p: Path, d: T) { p in f && f[p] == Db(d) }

  /** While a process serves from the main path. */
  ghost predicate Serving(p: Phase) { p.Up? || p.Building? || p.Built? || p.Reopened? }

  /** The complete data is at the main path or, only while nothing is there, at the backup. */
  ghost predicate Inv<T>(w: World<T>) {
    !w.blind ==>
      && (Main in w.files ==> Holds(w.files, Main, w.data))
      && (Main !in w.files ==> Holds(w.files, Backup, w.data))
      && (Serving(w.phase) || w.phase.Swapped? ==> Main in w.files)
      && (w.phase.Built? || w.phase.Aside? ==> Holds(w.files, Tmp, w.data))
      && (w.phase.Aside? || w.phase.Swapped? ==> Holds(w.files, Backup, w.data))
      && (w.phase.Aside? ==> Main !in w.files)
  }

  ghost predicate Init<T>(w: World<T>) {
    w.phase.Up? && !w.blind && w.files == map[Main := Db(w.data)]
  }

  lemma StepKeeps<T>(w: World<T>, e: Event<T>)
    requires Inv(w)
    ensures Inv(Step(w, e))
  {
  }

  lemma {:induction false} RunKeeps<T>(w: World<T>, es: seq<Event<T>>)
    requires Inv(w)
    ensures Inv(Run(w, es))
    decreases |es|
  {
    if es != [] {
      StepKeeps(w, es[0]);
      RunKeeps(Step(w, es[0]), es[1..]);
    }
  }

  // ---- Opens that find nothing

  /** The next of `es` to open the database or end the process opens it, so far at least
      that the file is created. */
  predicate OpensNext<T>(es: seq<Event<T>>) {
    es != [] && if es[0].Open? then es[0].outcome != FailsEarly else !es[0].Crash? && OpensNext(es[1..])
  }

  /** The rename restoring the original after a failed swap fails. */
  predicate RestoreFails<T>(w: World<T>, e: Event<T>) { w.phase.Aside? && e.RenameIn? && !e.ok && !e.restored }

  /** A start's recovery has only the backup, and its rename fails. */
  predicate RecoveryFails<T>(w: World<T>, e: Event<T>) { w.phase.Down? && Main !in w.files && e.Recover? && !e.ok }

  /** Somewhere in the run a rename onto the main path fails and the same process then
      opens that path, be it that the open fails once the file is created. */
  predicate OpensAfterFailure<T>(w: World<T>, es: seq<Event<T>>)
    decreases |es|
  {
    es != [] &&
    ((RestoreFails(w, es[0]) && es[0].again != FailsEarly) || (RecoveryFails(w, es[0]) && OpensNext(es[1..])) ||
     OpensAfterFailure(Step(w, es[0]), es[1..]))
  }

  /** Between a start's failed recovery and its open. */
  predicate Exposed<T>(w: World<T>) { w.phase.Recovered? && Main !in w.files }

  /** Recovery leaves the main path vacant only if its own rename fails. */
  lemma VacantNeedsFailedRecovery<T>(w: World<T>, e: Event<T>)
    requires Inv(w) && !w.blind && !Exposed(w)
    ensures Exposed(Step(w, e)) <==> RecoveryFails(w, e)
    ensures Step(w, e).blind <==> RestoreFails(w, e) && e.again != FailsEarly
  {
  }

  lemma {:induction false} StaysBlind<T>(w: World<T>, es: seq<Event<T>>)
    requires w.blind
    ensures Run(w, es).blind
    decreases |es|
  {
    if es != [] { StaysBlind(Step(w, es[0]), es[1..]); }
  }

  /** An open finds the main path vacant exactly if it follows such a failure. */
  lemma {:induction false} BlindIff<T>(w: World<T>, es: seq<Event<T>>)
    requires Inv(w) && !w.blind
    ensures Run(w, es).blind <==> OpensAfterFailure(w, es) || (Exposed(w) && OpensNext(es))
    decreases |es|
  {
    if es != [] {
      var w1 := Step(w, es[0]);
      StepKeeps(w, es[0]);
      if !Exposed(w) { VacantNeedsFailedRecovery(w, es[0]); }
      if w1.blind { StaysBlind(w1, es[1..]); } else { BlindIff(w1, es[1..]); }
    }
  }

  /** No data is lost in any run of compactions, failures, crashes and starts in which no
      process opens the main path after failing to rename the original back to it: the
      complete data is at the main path or, while nothing is there, at the backup. */
  lemma NeverLost<T>(w: World<T>, es: seq<Event<T>>)
    requires Init(w) && !OpensAfterFailure(w, es)
    ensures var w' := Run(w, es);
            Holds(w'.files, if Main in w'.files then Main else Backup, w'.data)
    ensures Serving(Run(w, es).phase) ==> Holds(Run(w, es).files, Main, Run(w, es).data)
  {
    RunKeeps(w, es);
    BlindIff(w, es);
  }

  lemma {:induction false} RunAppend<T>(w: World<T>, a: seq<Event<T>>, b: seq<Event<T>>)
    ensures Run(w, a + b) == Run(Run(w, a), b)
    decreases |a|
  {
    if a == [] {
      assert a + b == b;
    } else {
      assert (a + b)[1..] == a[1..] + b;
      RunAppend(Step(w, a[0]), a[1..], b);
    }
  }

  /** From a crash anywhere in such a run, and after any number of starts that die before
      opening, one start whose recovery succeeds serves the complete data. */
  lemma StartRecovers<T>(w: World<T>, es: seq<Event<T>>)
    requires Init(w) && !OpensAfterFailure(w, es) && Run(w, es).phase.Down?
    ensures var w' := Run(w, es + [Recover(true), Open(Works)]);
            w'.phase.Up? && Holds(w'.files, Main, w'.data) && w'.data == Run(w, es).data && Backup !in w'.files
  {
    var w1 := Run(w, es);
    RunKeeps(w, es);
    BlindIff(w, es);
    var start: seq<Event<T>> := [Recover(true), Open(Works)];
    RunAppend(w, es, start);
    assert start[1..] == [Open(Works)] && start[1..][1..] == [];
    assert Run(w1, start) == Step(Step(w1, Recover(true)), Open(Works));
  }

  /** A compaction given up while copying leaves the main and the backup path alone, and at most
      a partial temporary file. */
  lemma AbortLeavesRest<T>(w: World<T>, removed: bool)
    requires w.phase.Up?
    ensures var w' := Run(w, [BeginCompact, AbortCompact(removed)]);
            && w'.phase.Up? && w'.data == w.data
            && w'.files == if removed then w.files - {Tmp} else w.files[Tmp := Partial]
  {
    var last: seq<Event<T>> := [AbortCompact(removed)];
    var es: seq<Event<T>> := [BeginCompact] + last;
    assert es == [BeginCompact, AbortCompact(removed)] && es[1..] == last && last[1..] == [];
    var w1 := Step(w, BeginCompact);
    assert Run(w, es) == Run(w1, last) == Step(w1, AbortCompact(removed));
    assert w.files[Tmp := Partial] - {Tmp} == w.files - {Tmp};
  }

  predicate RenamesBack<T>(e: Event<T>) {
    !(e.RenameIn? && !e.ok && !e.restored) && !(e.Recover? && !e.ok)
  }

  /** A run loses data only if some rename onto the main path failed. */
  lemma {:induction false} LossNeedsFailedRename<T>(w: World<T>, es: seq<Event<T>>)
    requires forall e :: e in es ==> RenamesBack(e)
    ensures !OpensAfterFailure(w, es)
    decreases |es|
  {
    if es != [] {
      assert RenamesBack(es[0]);
      LossNeedsFailedRename(Step(w, es[0]), es[1..]);
    }
  }

  ghost predicate ServesComplete<T>(w: World<T>) {
    Serving(w.phase) ==> Holds(w.files, Main, w.data)
  }

  ghost predicate AlwaysServesComplete<T>(w: World<T>, es: seq<Event<T>>)
    decreases |es|
  {
    ServesComplete(w) && (es != [] ==> AlwaysServesComplete(Step(w, es[0]), es[1..]))
  }

  /** The main path holds nothing but the complete data. */
  ghost predicate MainComplete<T>(w: World<T>) { Main in w.files ==> Holds(w.files, Main, w.data) }

  ghost predicate AlwaysMainComplete<T>(w: World<T>, es: seq<Event<T>>)
    decreases |es|
  {
    MainComplete(w) && (es != [] ==> AlwaysMainComplete(Step(w, es[0]), es[1..]))
  }

  /** An empty file stays at the main path until a process serves from it. */
  ghost predicate EmptyMain<T>(w: World<T>) { Main in w.files && w.files[Main] == Empty }

  lemma EmptyStays<T>(w: World<T>, e: Event<T>)
    requires EmptyMain(w) && (w.phase.Closed? || w.phase.Down? || w.phase.Recovered?)
    ensures var w1 := Step(w, e);
            EmptyMain(w1) && (w1.phase.Closed? || w1.phase.Down? || w1.phase.Recovered? || w1.phase.Up?)
  {
  }

  lemma BlindIsEmpty<T>(w: World<T>, e: Event<T>)
    requires Inv(w) && !w.blind && Step(w, e).blind
    ensures var w1 := Step(w, e);
            EmptyMain(w1) && Holds(w1.files, Backup, w.data) && (w1.phase.Up? || w1.phase.Closed? || w1.phase.Down?)
  {
  }

  /** Some process serves in the run. */
  ghost predicate EverServes<T>(w: World<T>, es: seq<Event<T>>)
    decreases |es|
  {
    Serving(w.phase) || (es != [] && EverServes(Step(w, es[0]), es[1..]))
  }

  lemma {:induction false} EmptyIsServedIff<T>(w: World<T>, es: seq<Event<T>>)
    requires EmptyMain(w) && (w.phase.Closed? || w.phase.Down? || w.phase.Recovered? || w.phase.Up?)
    ensures AlwaysServesComplete(w, es) <==> !EverServes(w, es)
    decreases |es|
  {
    if es != [] && !w.phase.Up? {
      EmptyStays(w, es[0]);
      EmptyIsServedIff(Step(w, es[0]), es[1..]);
    }
  }

  /** Somewhere in the run a rename onto the main path fails, the same process opens that path
      all the same, and after that some process serves. */
  ghost predicate ServesAfterFailure<T>(w: World<T>, es: seq<Event<T>>)
    decreases |es|
  {
    es != [] &&
    if OpensAfterFailureNow(w, es[0]) then EverServes(Step(w, es[0]), es[1..])
    else ServesAfterFailure(Step(w, es[0]), es[1..])
  }

  /** This event is the open. */
  ghost predicate OpensAfterFailureNow<T>(w: World<T>, e: Event<T>) {
    (RestoreFails(w, e) && e.again != FailsEarly) || (Exposed(w) && e.Open? && e.outcome != FailsEarly)
  }

  lemma NowIsBlind<T>(w: World<T>, e: Event<T>)
    requires Inv(w) && !w.blind
    ensures Step(w, e).blind <==> OpensAfterFailureNow(w, e)
  {
  }

  lemma {:induction false} MainCompleteUnlessBlind<T>(w: World<T>, es: seq<Event<T>>)
    requires Inv(w) && !w.blind
    ensures AlwaysMainComplete(w, es) <==> !Run(w, es).blind
    decreases |es|
  {
    if es != [] {
      var w1 := Step(w, es[0]);
      StepKeeps(w, es[0]);
      if w1.blind {
        BlindIsEmpty(w, es[0]);
        StaysBlind(w1, es[1..]);
        assert !MainComplete(w1);
      } else {
        MainCompleteUnlessBlind(w1, es[1..]);
      }
    }
  }

  /** The main path never holds anything but the complete data exactly when no process opens
      it after failing to rename the original back to it. */
  lemma MainCompleteIff<T>(w: World<T>, es: seq<Event<T>>)
    requires Init(w)
    ensures AlwaysMainComplete(w, es) <==> !OpensAfterFailure(w, es)
  {
    MainCompleteUnlessBlind(w, es);
    BlindIff(w, es);
  }

  lemma {:induction false} ServesCompleteFrom<T>(w: World<T>, es: seq<Event<T>>)
    requires Inv(w) && !w.blind
    ensures AlwaysServesComplete(w, es) <==> !ServesAfterFailure(w, es)
    decreases |es|
  {
    if es != [] {
      var w1 := Step(w, es[0]);
      StepKeeps(w, es[0]);
      NowIsBlind(w, es[0]);
      if w1.blind {
        BlindIsEmpty(w, es[0]);
        EmptyIsServedIff(w1, es[1..]);
      } else {
        ServesCompleteFrom(w1, es[1..]);
      }
    }
  }

  /** Every process in a run serves the complete data exactly when none serves after one that
      opened the main path although it had failed to rename the original back to it. */
  lemma ServesCompleteIff<T>(w: World<T>, es: seq<Event<T>>)
    requires Init(w)
    ensures AlwaysServesComplete(w, es) <==> !ServesAfterFailure(w, es)
  {
    ServesCompleteFrom(w, es);
  }

  /** Every compaction comes to where the original is aside and can fail to come back. */
  lemma ReachesAside<T>(w: World<T>) returns (es: seq<Event<T>>)
    requires Init(w)
    ensures Run(w, es).phase.Aside? && Inv(Run(w, es)) && !Run(w, es).blind
  {
    var e2: seq<Event<T>> := [RenameAside(true, Works)];
    var e1: seq<Event<T>> := [FinishCopy] + e2;
    es := [BeginCompact] + e1;
    assert es[1..] == e1 && e1[1..] == e2 && e2[1..] == [];
    var w2 := Step(Step(w, BeginCompact), FinishCopy);
    assert Run(w, es) == Run(w2, e2) == Step(w2, RenameAside(true, Works));
    RunKeeps(w, es);
  }

  /** There, if nothing can be renamed onto the main path, an open creates an empty database,
      even if it then fails, and the next start's recovery takes it for the compacted one. */
  lemma NextStartDropsOriginal<T>(w: World<T>, again: Outcome)
    requires Inv(w) && !w.blind && w.phase.Aside? && again != FailsEarly
    ensures OpensAfterFailure(w, [RenameIn(false, false, again)])
    ensures var w1 := Step(w, RenameIn(false, false, again));
            Holds(w1.files, Backup, w.data) && Holds(w1.files, Tmp, w.data) && EmptyMain(w1)
    ensures var w2 := Run(Step(w, RenameIn(false, false, again)), [Crash, Recover(true), Open(Works)]);
            EmptyMain(w2) && w2.phase.Up? && Backup !in w2.files
  {
    var es: seq<Event<T>> := [Crash, Recover(true), Open(Works)];
    var w1 := Step(w, RenameIn(false, false, again));
    assert es[1..] == [Recover(true), Open(Works)];
    assert es[1..][1..] == [Open(Works)];
    assert es[1..][1..][1..] == [];
    assert Run(w1, es) == Step(Step(Step(w1, Crash), Recover(true)), Open(Works));
  }

  // ---- The code

  class FileSystem<T> {
    var files: Files<T>

    method RenameFile(from: Path, to: Path, works: bool) returns (ok: bool)
      modifies this
      ensures ok == works
      ensures files == if works then Rename(old(files), from, to) else old(files)
    {
      if works && from in files && from != to {
        files := (files - {from})[to := files[from]];
      }
      ok := works;
    }

    method RemoveFile(p: Path, works: bool)
      modifies this
      ensures files == if works then old(files) - {p} else old(files)
    {
      if works { files := files - {p}; }
    }

    /** Run at start, before the database is opened. */
    method RecoverInterruptedCompaction(works: bool)
      modifies this
      ensures files == RecoverFiles(old(files), works)
    {
      if Backup !in files { return; }
      if Main !in files {
        var _ := RenameFile(Backup, Main, works);
        return;
      }
      RemoveFile(Backup, works);
    }

    method OpenDatabase(outcome: Outcome) returns (ok: bool)
      modifies this
      ensures ok == outcome.Works?
      ensures files == TryOpen(old(files), outcome)
    {
      if outcome != FailsEarly && Main !in files { files := files[Main := Empty]; }
      ok := outcome.Works?;
    }

    /** The swap at the end of a compaction, from the closed database with the temporary
        file complete.  The parameters say which operations work; `again` is how opening the
        database once more goes after a failed swap. */
    method SwapIn(aside: bool, inPlace: bool, restore: bool, reopen: bool, again: Outcome, drop: bool)
      returns (ok: bool, open: bool)
      modifies this
      ensures files == SwapFiles(old(files), aside, inPlace, restore, reopen, again, drop)
      ensures ok == (aside && inPlace && reopen) && open == (ok || again.Works?)
      ensures ok && Main in old(files) && Tmp in old(files) ==>
                files == if drop then map[Main := old(files)[Tmp]]
                         else map[Main := old(files)[Tmp], Backup := old(files)[Main]]
      ensures !ok && Main in old(files) && (!aside || restore) ==> Main in files && files[Main] == old(files)[Main]
    {
      var moved := RenameFile(Main, Backup, aside);
      if !moved {
        open := OpenDatabase(again);
        return false, open;
      }
      moved := RenameFile(Tmp, Main, inPlace);
      if !moved {
        var _ := RenameFile(Backup, Main, restore);
        open := OpenDatabase(again);
        return false, open;
      }
      if !reopen {
        var _ := RenameFile(Backup, Main, restore);
        open := OpenDatabase(again);
        return false, open;
      }
      RemoveFile(Backup, drop);
      assert Main in old(files) && Tmp in old(files) ==>
        forall p: Path :: p in files <==> p == Main || (p == Backup && !drop);
      return true, true;
    }
  }

  function TryOpen<T>(f: Files<T>, outcome: Outcome): Files<T> { if outcome == FailsEarly then f else OpenFiles(f) }

  function SwapFiles<T>(f: Files<T>, aside: bool, inPlace: bool, restore: bool, reopen: bool, again: Outcome, drop: bool): Files<T> {
    if !aside then TryOpen(f, again)
    else
      var f1 := Rename(f, Main, Backup);
      if !inPlace then TryOpen(if restore then Rename(f1, Backup, Main) else f1, again)
      else
        var f2 := Rename(f1, Tmp, Main);
        if !reopen then TryOpen(if restore then Rename(f2, Backup, Main) else f2, again)
        else if drop then f2 - {Backup}
        else f2
  }

  /** The code's branches are the protocol's events, one after the other. */
  lemma SwapIsARun<T>(w: World<T>, aside: bool, inPlace: bool, restore: bool, reopen: bool, again: Outcome, drop: bool)
    requires w.phase.Built?
    ensures var es := [RenameAside(aside, again), RenameIn(inPlace, restore, again), Reopen(reopen, restore, again), DropBackup(drop)];
            var w' := Run(w, es);
            && w'.files == SwapFiles(w.files, aside, inPlace, restore, reopen, again, drop)
            && w'.phase == if (aside && inPlace && reopen) || again.Works? then Up else Closed
  {
    var e4: seq<Event<T>> := [DropBackup(drop)];
    var e3: seq<Event<T>> := [Reopen(reopen, restore, again)] + e4;
    var e2: seq<Event<T>> := [RenameIn(inPlace, restore, again)] + e3;
    var es: seq<Event<T>> := [RenameAside(aside, again)] + e2;
    var w1 := Step(w, es[0]);
    var w2 := Step(w1, e2[0]);
    var w3 := Step(w2, e3[0]);
    assert e4[1..] == [] && e3[1..] == e4 && e2[1..] == e3 && es[1..] == e2;
    assert Run(w3, e4) == Step(w3, e4[0]);
    assert Run(w2, e3) == Run(w3, e4);
    assert Run(w1, e2) == Run(w2, e3);
    assert Run(w, es) == Run(w1, e2);
    assert es == [RenameAside(aside, again), RenameIn(inPlace, restore, again), Reopen(reopen, restore, again), DropBackup(drop)];
  }
}
