# Bewitch: storage, alert and reconciliation protocols, verified

Bewitch is a monitoring daemon. Collectors write metric rows into DuckDB; old rows move
day by day into Parquet files; the database file is compacted and swapped while writers go
on; an engine evaluates alert rules and keeps one row per firing; a command makes the
daemon's rules match a file. This project models those protocols in Dafny and proves what
they keep over every run, with every interleaving and crash point of the model.

A protocol is a step function on a state (`Step`, `Run`); its theorems are about every
sequence of events. Code that updates state is a class whose methods are proved equal to
functions of the old state, and those functions are shown to be runs of the protocol. Small
algorithms are methods proved against a specification that is independent of them.

| module | what it models |
|---|---|
| `Rows`, `ArchiveProtocol`, `Archive` | archiving one metric table, crashes, migrations meanwhile, and the way back |
| `History` | which store a query reads, and which files |
| `Compaction`, `CompactSwap` | the gated copy with its sequences; the file swap and its recovery |
| `PauseBuffer`, `ProcessInfoCache` | what waits in memory while writes pause; the process cache |
| `AlertEngine`, `AlertLifecycle`, `AlertProgress`, `AlertUniqueness` | firing, clearing and reminding; what never happens in a run; what is sent when it is due; one active row per name |
| `RulesImport` | the rule API and the import that reconciles a file |
| `Migrations`, `RuleUpgrade`, `RuleNames` | the version record over failed starts; migration 2; making rule names unique |
| `Scheduler` | one tick for all collectors, backoff in 64-bit arithmetic |
| `Wildcards`, `Counter`, `Regression`, `BindMounts` | wildcard matching, counter growth, least squares, bind mounts |

## What turned out false of the code

Each is kept as the code has it. The lemmas named give the exact condition under which the
code does meet the promise, and inputs on which it does not.

- The wildcard matcher compares a literal `*` before it looks for a wildcard, so a matching
  string that contains `*` can be refused. It accepts every matching string, whatever the
  pattern, exactly for strings without `*` (`Wildcards.LiteralStarRefused`,
  `Wildcards.ExactWithoutLiteralStar`).
- `globToSQL` writes `\%` and `\_`, but DuckDB's LIKE has no escape character unless one is
  given. The LIKE pattern means the same as the wildcard exactly when the pattern has neither
  `%` nor `_` (`Wildcards.LikeAgreesIff`).
- A crash between export and DELETE, or between reload and the removal of a file, leaves rows in
  both places, and the next archive run doubles them in the file (`Archive.CrashMayDuplicate`,
  `Archive.UnarchiveCrashMayDuplicate`). Rows are held exactly as often as inserted, and come
  back so from the archive, exactly if the process never died while rows stood both in the table
  and in a file (`Archive.HeldExactly`, `Archive.ArchiveRoundTrip`).
- A query of both stores returns rows twice that a crash left in both places, and also, without
  any crash, those exported and not yet deleted (`History.ExportedRowIsRepeated`). It is exact for every range exactly if there are
  neither (`History.BothIsExactIff`), and for one range of a run without such a crash exactly if
  nothing exported in it awaits its DELETE (`History.BothIsExactAtIff`).
- A crash inside an unarchive, before archive_state is cleared, leaves reloaded rows live that
  are older than `last_archived_ts`, where no archive run looks (`Archive.UnarchiveCrashStrands`),
  and a query of an archived range misses them (`History.StrandedRowIsMissed`). Everything before
  `last_archived_ts` is archived exactly if no such crash brought older rows back, or an unarchive
  finished since (`Archive.BeforeLastIsArchived`).
- Choosing Parquet alone misses rows past the cutoff that are still live
  (`History.UnarchivedRowIsMissed`). It answers exactly if no live row is in the range but those
  exported already (`History.ParquetIsExactIff`), and may be asked for every range before
  `last_archived_ts` exactly if no live row is older than that (`History.ParquetAloneIsSafeIff`).
- If the rename that restores the original after a failed swap fails too, the reopen creates an
  empty database, even if it then fails on a setting, and the next start's recovery removes the
  backup (`CompactSwap.ReachesAside`, `CompactSwap.NextStartDropsOriginal`). The main path never
  holds anything but the complete data exactly if no process opens it after failing to rename the
  original back (`CompactSwap.MainCompleteIff`), and every process serves the complete data
  exactly if none serves after that (`CompactSwap.ServesCompleteIff`).
- The comment in the migration runner says migrations can be re-run. Migration 2 copies rules with
  plain INSERTs into tables keyed by rule_id and then drops the old columns, the one it looks for
  first. A stop among the copies fails every later start; a stop among the drops is marked clean
  by the next one, with the rest of the columns left. A stop is absorbed exactly if nothing was
  copied or dropped yet, or everything was (`RuleUpgrade.UpgradeAbsorbsIff`). Migrations can be
  relied on exactly if each absorbs any partial runs of itself where it is begun
  (`Migrations.ReliableIff`).
- Buffered samples are written after the pause has ended, so a newer sample can be written first
  (`PauseBuffer.NewerIsDeliveredFirst`). Everything is delivered in order of arrival exactly if no
  write gets through between the end of a pause and the write of a sample that waited it out
  (`PauseBuffer.DeliveredInOrderIff`).
- A sample whose write fails is neither written nor counted as dropped, only logged
  (`PauseBuffer.FailedFlushIsLost`). The store's count accounts for every sample exactly if no
  write fails, neither one made at once nor one of a flush (`PauseBuffer.CountIsCompleteIff`).
- The backoff shift overflows: from the 64th failure in a row on, the collector is tried at
  every cadence again (`Scheduler.BackoffHoldsIff`, reached in `Scheduler.CollapseIsReached`).
- The comment on the name repair says the lowest id keeps its name. With the names `a`, `a`,
  `a #2` the third row loses a name no other row had. It is so exactly when no numbered name
  handed out belongs to a row (`RuleNames.FirstsKeepNamesIff`, `RuleNames.UniqueNameLost`).
- The id column has no primary key. Two rows that share id and name both end with the same new
  name (`RuleNames.SharedIdStaysDuplicate`). The names end distinct exactly when the pass writes
  to no id that two rows share (`RuleNames.DistinctIff`); where no numbered name handed out
  belongs to a row, when no row that repeats a name shares its id (`RuleNames.DistinctIffListed`).
- A rule renamed to the reserved name `collection-stalled` can bring two active rows under one
  name (`AlertUniqueness.ReservedRenameJoins`). Whatever names rules take, each name has at most
  one active row in a run exactly if no rule with an active row is renamed onto a name with one,
  which can only be the reserved one (`AlertUniqueness.OneActiveIff`,
  `AlertUniqueness.JoinsOntoReserved`).
- Notifications of one alert can come closer than the repeat interval: the all-clear does not
  wait for it (`AlertLifecycle.RecoveryComesEarly`). Every run spaces all of them by it exactly if
  there is no repeat interval or the clear period is at least as long
  (`AlertLifecycle.AllSpacedIff`).
- Two mounts of one device with the roots "" and "/" drop each other (`BindMounts.PairIsLost`). Every other dropped mount
  lies below a kept one (`BindMounts.DroppedAreRepresentedIff`). The kernel's roots are absolute,
  where nothing is lost (`BindMounts.NoFilesystemLost`).
- A rule in a file that sets a field its type does not have never compares equal to what the
  daemon stores, so every import updates it again, to the same effect. A second import of any file
  leaves all rules as they are, and makes no create or update call exactly if each rule conflicts
  in type, or was the same from the start, or is accepted and carries only the fields of its type
  (`RulesImport.ImportTwice`).
- A regression whose denominator is below the guard yields the zero line, which is the best line
  only if the sums of y and of x*y are zero (`Regression.FitIsBestIff`,
  `Regression.OnePointIsMissed`).

## Model

| member | source | states |
|---|---|---|
| Archive.NoRowLost | internal/store/archive.go:86-223 | in every interleaving with inserts, migrations and crashes, each inserted row is live or in the file of its UTC day |
| Archive.NoRowInvented | internal/store/archive.go:86-223 | every row held live or in a file was inserted |
| Archive.HeldExactly | internal/store/archive.go:116-176 | between the steps of any run, each day's rows are held exactly as often as inserted if and only if the process never died while rows stood both in the table and in a file |
| Archive.CrashMayDuplicate | internal/store/archive.go:141-164 | from a table of one row, a crash after the export leaves the row held twice, and the next export puts it into its file twice |
| Archive.UnarchiveCrashMayDuplicate | internal/store/archive.go:346-357 | so does a crash between the reload and the removal of the file |
| Archive.UnarchiveCrashStrands | internal/store/archive.go:323-325 | a crash before archive_state is cleared leaves a row live that no later archive run looks at |
| Archive.BeforeLastIsArchived | internal/store/archive.go:107-113 | last_archived_ts never passes a cutoff; at every moment outside an unarchive, every row before it has left the live table for its day's file if and only if no crash inside an unarchive left older rows behind, which is when no live row is older |
| Archive.StateNeverMovesBack | internal/store/archive.go:161-166 | archive_state only moves forward, and stays at or below the highest cutoff, until it is cleared |
| Archive.ArchiveRoundTrip | internal/store/archive.go:300-363 | unarchiving after any run, with columns added while rows sat in old files, gives the multiset of rows the table would hold had none ever left, if and only if the process never died while rows stood in both places; what each of those rows reads as is Archive.RoundTripByName |
| Archive.RoundTripByName | internal/store/archive.go:346-363 | against the log of rows as they were written: after the unarchive the live table holds for each row written one that equals it in the columns it was written with and is NULL in every other, as often as written if and only if the process never died while rows stood in both places |
| Archive.UnarchivedRowsAreAsWritten | internal/store/archive.go:20-26 | in every run, crashes included, each live row after the unarchive has such a written row, and each written row such a live one |
| Archive.RefReadsLog | internal/store/archive.go:20-26 | at every moment of a run the table had nothing ever left it is the log of written rows, one for one, NULL in the columns added since |
| Archive.ArchivedLeavesNothing | internal/store/archive.go:116-177 | one archive pass leaves no row between last_archived_ts and the cutoff live |
| Archive.ArchivedAdvances | internal/store/archive.go:116-166 | every row a pass moved is before the new last_archived_ts, which is the cutoff or the end of the last moved row's day if that is earlier |
| Archive.ArchivedIsARun | internal/store/archive.go:86-177 | the state ArchiveTable computes is one the step protocol reaches |
| Archive.UnarchivedIsARun | internal/store/archive.go:338-363 | the state Unarchive computes is the one its protocol events reach |
| Archive.TableStore.ArchiveTable | internal/store/archive.go:86-177 | the day loop's whole effect on live rows, files and archive_state |
| Archive.TableStore.ExportToParquet | internal/store/archive.go:182-223 | the file begins with the rows of the range, and what it held follows, row for row, NULL in the columns it predates |
| Archive.TableStore.Unarchive | internal/store/archive.go:300-363 | the live table keeps its rows and gains those of all files, row for row, NULL in the columns a file predates; no file and no archive_state is left |
| ArchiveProtocol.StepConserves | internal/store/archive.go:116-176 | every step, and a crash after any, keeps the account of each day's rows |
| ArchiveProtocol.StepFrame | internal/store/archive.go:107-177 | every step keeps files to rows of their own day and live rows at or after last_archived_ts |
| History.PruningIsExact | internal/api/history.go:121-166 | the files chosen by date hold, in order, exactly the rows of the range that all files hold |
| History.ParquetPathForRange | internal/api/history.go:121-166 | the loop picks the files whose dates overlap the range, and all of them when none does |
| History.OverlapsIff | internal/api/history.go:134-158 | a daily file is picked exactly if its day is one the range touches, a monthly one exactly if an instant of its month is in those days |
| History.HistoryIsExact | internal/api/history.go:52-79 | at every moment outside an unarchive, in every run without a crash while rows stood in both places, the chosen source returns exactly the rows inserted in the range if and only if it is neither Parquet alone with a row of the range live and not exported, nor both with a row of the range awaiting its DELETE |
| History.ChoiceIsExactIff | internal/api/history.go:52-79 | whatever is chosen: in such a run, a range that ends before the cutoff is exact if and only if no row of it is live and not exported, if the files are read; any other range if and only if no exported row of it awaits its DELETE |
| History.ChoiceIsRight | internal/api/history.go:59-66 | outside an unarchive and a pending DELETE, every range that reaches the cutoff is answered exactly by what is chosen for it, wherever it starts |
| History.ParquetIsExactIff | internal/api/history.go:63-65 | Parquet alone returns exactly the inserted rows of a range if and only if no live row is in it but those exported already |
| History.BothIsExactIff | internal/api/history.go:59-66 | both stores together answer every range exactly if and only if the process never died while rows stood in both places and no exported row awaits its DELETE |
| History.BothIsExactAtIff | internal/store/archive.go:141-153 | without such a crash, a range exactly if and only if no exported row of it awaits its DELETE |
| History.ExportedRowIsRepeated | internal/store/archive.go:141-153 | a run without a crash in which both stores return a row twice |
| History.ParquetAloneIsSafeIff | internal/api/history.go:63-65 | Parquet alone answers every range before last_archived_ts exactly if and only if no live row is older than that |
| History.UnarchivedRowIsMissed | internal/api/history.go:63-65 | a run in which a row past the cutoff and not yet archived is missed |
| History.StrandedRowIsMissed | internal/api/history.go:63-65 | a run in which an unarchive cut short makes a range before last_archived_ts miss a row |
| History.RangeSplitsByStore | internal/api/history.go:59-66 | live rows, but for those awaiting their DELETE, and archived rows of a range are together its inserted rows |
| Compaction.NoWriteLost | internal/store/store.go:232-235 | over any interleaving of gated writes with copies and swaps, the live database is the one all writes would have made in order |
| Compaction.SwapIsInvisible | internal/store/store.go:673-716 | at the swap the new file equals the live database on every table and sequence |
| Compaction.CopyIsComplete | internal/store/store.go:645-690 | once every table is copied, the copy equals the live database |
| Compaction.CompactionFinishes | internal/store/store.go:645-766 | wherever the gate is free in a run, a compaction can be run to its end: the new file is served, the same as the old one with its sequences created anew, and the gate is open again |
| Compaction.IdsNeverRepeat | internal/db/schema.go:90-126 | ids drawn from a sequence rise, within and across compactions |
| Compaction.Store.CopyDatabase | internal/store/store.go:645-716 | the copying loops leave in the new file what the protocol's copy is |
| Compaction.Store.CreateSequences | internal/db/schema.go:90-126 | each sequence is created to start at the next value of the old one |
| CompactSwap.NeverLost | internal/store/store.go:718-766 | the complete data is at the main path, or at the backup path while nothing is at the main one, in every run in which no process opens the main path after failing to rename the original back to it |
| CompactSwap.StartRecovers | internal/db/db.go:128-146 | in such a run, after a crash anywhere and any number of starts dying in recovery, one start that recovers serves the complete data and leaves no backup |
| CompactSwap.AbortLeavesRest | internal/store/store.go:655-708 | a compaction given up while copying leaves the main and the backup path alone, and at most a partial temporary file |
| CompactSwap.MainCompleteIff | internal/store/store.go:729-754 | the main path never holds anything but the complete data if and only if no process opens it after failing to rename the original back to it |
| CompactSwap.ServesCompleteIff | internal/store/store.go:729-754 | every process of a run serves the complete data if and only if none serves after such an open |
| CompactSwap.LossNeedsFailedRename | internal/store/store.go:736-741 | a run in which no restoring and no recovering rename fails has no such open |
| CompactSwap.BlindIff | internal/db/db.go:136-145 | an open finds the main path vacant if and only if the same process failed to rename the original back |
| CompactSwap.ReachesAside | internal/store/store.go:724-735 | every database can come to the point where the original is aside and nothing is at the main path |
| CompactSwap.NextStartDropsOriginal | internal/db/db.go:128-146 | if from there nothing can be renamed back, an open creates an empty database, working or failing after that, and the next start removes the backup that held the data |
| CompactSwap.SwapIsARun | internal/store/store.go:718-766 | the swap's code, with each operation failing or not, is a run of the protocol |
| CompactSwap.FileSystem.SwapIn | internal/store/store.go:632-766 | the new contents of the three paths, whether the swap succeeded and whether a database is open, on every failure branch, the second open working, failing with the file created, or failing before |
| CompactSwap.FileSystem.RecoverInterruptedCompaction | internal/db/db.go:128-146 | the recovery's new contents of the three paths |
| PauseBuffer.DeliveredInOrderIff | internal/store/store.go:473-491 | everything delivered is delivered in order of arrival if and only if no write gets through between the end of a pause and the write of a sample that waited it out |
| PauseBuffer.NewerIsDeliveredFirst | internal/store/store.go:476-491 | a run of five steps in which the newer sample is delivered first |
| PauseBuffer.EveryOfferAccounted | internal/store/store.go:252-276 | in every run the samples of one pause are delivered in order of arrival, and each offered one is delivered, waiting, pending, counted as dropped, or lost to a write that failed |
| PauseBuffer.NewestAreKept | internal/store/store.go:247-262 | whatever happened before a pause and is offered in it: when it ends the last 2048 places offered are pending, or all if fewer; every place given up is older than every one kept, and counted |
| PauseBuffer.FlushDeliversEach | internal/store/store.go:486-491 | of the samples a pause leaves pending exactly those whose own write works are delivered, whatever others write meanwhile |
| PauseBuffer.CountIsCompleteIff | internal/store/store.go:473-491 | delivered, waiting, pending and dropped samples are all that were offered if and only if no write fails |
| PauseBuffer.FailedFlushIsLost | internal/store/store.go:487-490 | a run in which a buffered sample ends in no count |
| PauseBuffer.Store.BufferLocked | internal/store/store.go:256-262 | index by index, the buffer becomes the last 2048 elements of itself and the sample, or all if fewer; the rest is counted |
| PauseBuffer.Store.ResumeWrites | internal/store/store.go:473-491 | the newest 2048 waiting samples are written one by one, each failing or not, with any writes of others before each |
| PauseBuffer.Store.WriteSamples | internal/store/store.go:309-353 | while paused, the batch's samples with data join the queue; otherwise they are written up to one that fails |
| ProcessInfoCache.CacheIsInvisible | internal/store/store.go:393-436 | over any batches, failed statements, evictions, prunes and reloads, process_info is what uncached inserts would make it |
| ProcessInfoCache.SkippingIsHarmless | internal/store/store.go:393-421 | leaving out processes that have their row changes nothing |
| ProcessInfoCache.InsertIgnoreIs | internal/store/store.go:420-422 | a row that is there stays, a new one has the attributes of the first of its process in the batch |
| ProcessInfoCache.WrittenOnce | internal/store/store.go:393-421 | after a batch is written all its processes are cached with its time, and until an eviction with a later cutoff none is written again |
| ProcessInfoCache.StaleEntryHidesProcess | internal/store/store.go:527-533 | an entry whose row is gone keeps a living process out of the table |
| ProcessInfoCache.Store.PrepareProcessInfo | internal/store/store.go:393-436 | table and cache after one batch, the insert failing or not |
| ProcessInfoCache.Store.PruneProcessInfo | internal/store/store.go:519-533 | orphaned rows go, and the cache is exactly the remaining keys |
| AlertLifecycle.AtMostOneActive | internal/alert/engine.go:440-475 | in every run without the reserved name, a rule name has at most one unresolved row |
| AlertLifecycle.PeriodsDisjoint | internal/alert/engine.go:458-505 | active periods of one rule name never overlap |
| AlertLifecycle.NotificationsInOrder | internal/alert/engine.go:457-542 | each row's notifications are a prefix of fire, reminders, resolve |
| AlertLifecycle.ResolvesOnlyAfterHealthySpan | internal/alert/engine.go:476-505 | an alert resolves only at a healthy evaluation, resolveAfter after an earlier one in the same lifetime with no breach between |
| AlertLifecycle.RemindersAreSpaced | internal/alert/engine.go:507-539 | a reminder comes repeatInterval or more after the row's earlier notifications in a lifetime with the rule unchanged, and never after an ack |
| AlertLifecycle.AllSpacedIff | internal/alert/engine.go:476-539 | every run spaces all later notifications of a row, all-clear included, by repeatInterval if and only if there is none or resolveAfter is at least as long |
| AlertLifecycle.RecoveryComesEarly | internal/alert/engine.go:481-505 | otherwise a run of three evaluations in which the all-clear comes too early |
| AlertLifecycle.NoDataHoldsState | internal/alert/engine.go:352-367 | a cycle with no data, or an error, for a rule changes no row of it and sends nothing about it |
| AlertProgress.ReminderIff | internal/alert/engine.go:518-541 | in every run, a breach of a rule with an active row adds a reminder to the log if and only if a repeat interval is set, the row is not acknowledged and all told of it is at least that old, the rule being unchanged within one lifetime; nothing else is sent |
| AlertProgress.ReminderAfterRestartIff | internal/alert/engine.go:526-529 | while nothing has been told of the rule since the engine started, if and only if the row fired at least the repeat interval ago |
| AlertProgress.ResolveIff | internal/alert/engine.go:476-505 | in every run, a healthy evaluation resolves the active row and sends the all-clear if and only if there is no clear period or an evaluation that long ago was healthy with no breach since, the rule being unchanged within one lifetime; otherwise no row changes |
| AlertProgress.BreachFires | internal/alert/engine.go:464-475 | a breach without an active row adds one row under a new id and tells of it |
| AlertProgress.BreachCarriesSeverity | internal/alert/engine.go:506-517 | a breach with an active row gives that row its severity and changes nothing else in the table |
| AlertProgress.CycleForgets | internal/alert/engine.go:369-385 | a cycle ends with times of enabled rules and the built-in one only |
| AlertUniqueness.OneActiveIff | internal/alert/engine.go:440-475 | in every run, whatever names the rules take, a name has at most one unresolved row at every moment if and only if no rule with one is renamed onto a name with one |
| AlertUniqueness.RenameKeepsOneActiveIff | internal/api/handlers.go:567-597 | a rename keeps one active row per name exactly unless both names have one, which takes the reserved name |
| AlertUniqueness.JoinsOntoReserved | internal/alert/engine.go:380-384 | the only name such a rename can be onto is the reserved one |
| AlertUniqueness.ReservedRenameJoins | internal/api/handlers.go:567-597 | a run from a daemon with one rule in which it does not |
| AlertEngine.Engine.ApplyAlertState | internal/alert/engine.go:440-542 | rows, timing maps and notifications after one verdict, on every branch, as the specification that the AlertLifecycle and AlertProgress results are about |
| AlertEngine.Engine.EvaluateCycle | internal/alert/engine.go:346-385 | one cycle is its evaluations in order, the purge, then the stalled-collection check |
| RulesImport.Converges | cmd/bewitch/rules.go:152-240 | after an import every accepted rule without a type conflict stands under its old id with the file's enabled flag, and is field for field the file's rule, an aggregate left out meaning avg, exactly if that carries only its type's fields |
| RulesImport.RefusedIsLeft | cmd/bewitch/rules.go:179-229 | a rule of the file that is refused or conflicts in type has at most its flag set |
| RulesImport.OthersUntouched | cmd/bewitch/rules.go:152-160 | rules not in the file are unchanged, and no existing rule loses its id, name or type |
| RulesImport.ImportTwice | cmd/bewitch/rules.go:152-240 | a second import of any file leaves every rule and flag as it is, leaves the daemon as it is if and only if no rule of an unknown type spends an id, and makes no create or update call if and only if each rule conflicts, was the same, or is accepted and carries only its type's fields |
| RulesImport.CleanFileTwice | cmd/bewitch/rules.go:182-190 | a second import of a file of accepted canonical rules without conflicts makes no call and reports every rule unchanged |
| RulesImport.ExportThenImport | cmd/bewitch/rules.go:106-118 | importing a daemon's own export makes no call and changes nothing |
| RulesImport.DryRunIsExactIff | cmd/bewitch/rules.go:191-195 | the dry run lists line for line what the real run does, exactly when the daemon would refuse none of the writes |
| RulesImport.DryRunChangesNothing | cmd/bewitch/rules.go:191-229 | a dry run leaves the daemon as it was |
| RulesImport.StoredIsSameIff | cmd/bewitch/rules.go:246-255 | a written rule reads back as the same rule exactly when it carries only its type's fields |
| RulesImport.SameRuleIff | cmd/bewitch/rules.go:246-255 | the comparison holds exactly if every field but id and flag is equal, an aggregate left out meaning avg for a threshold rule |
| RulesImport.ImportRules | cmd/bewitch/rules.go:152-240 | report, failures and new daemon state of both passes, dry or real; it succeeds exactly if no line tells of a skip or a failure |
| RulesImport.ReadRules | cmd/bewitch/rules.go:120-147 | a file is accepted exactly if its version is known and its names are given and differ; ids are dropped |
| RulesImport.Daemon.CreateAlertRule | internal/api/handlers.go:406-509 | reply and new rules, on refusal, duplicate, unknown type and success |
| RulesImport.Daemon.UpdateAlertRule | internal/api/handlers.go:514-644 | reply and new rules, on refusal, unknown id, type change, name taken and success |
| RulesImport.Daemon.ToggleAlertRule | internal/api/handlers.go:705-725 | the flag of the rule with the id is flipped, or nothing changes |
| RulesImport.CreateIs | internal/api/handlers.go:406-509 | a rule is made exactly if its texts are acceptable, its type known and its name free; it is enabled, under a new id, and field for field as asked for exactly if that carries only its type's fields |
| RulesImport.UpdateIs | internal/api/handlers.go:514-644 | an update is made exactly if its texts are acceptable, it keeps the type and no other rule has the name; the rule keeps place, id, type and flag |
| RulesImport.AcceptableIff | internal/api/handlers.go:39-46 | a name, no control characters, and an aggregate the daemon knows, increase being for the five counters alone |
| Migrations.StartsKeepRecord | internal/db/migrate.go:124-165 | for any migrations and any starts failing or stopping anywhere: clean at v, exactly the migrations up to v are complete without a gap; dirty at v, exactly those below v |
| Migrations.StartsKeepMeaning | internal/db/migrate.go:124-165 | if each absorbs its partial runs, the schema is that of the complete ones, each applied once, plus partial runs of the dirty one |
| Migrations.FinallyMigrated | internal/db/migrate.go:140-165 | then one start that is let run ends clean with the schema of applying each migration once |
| Migrations.ReliableIff | internal/db/migrate.go:130-138 | a clean record tells the schema, and a start let run finishes, after any starts, if and only if each migration absorbs any partial runs of itself where it is begun |
| RuleUpgrade.UpgradeAbsorbsIff | internal/db/db.go:150-250 | after a stop of migration 2 at any statement, the next start completes it if and only if nothing was copied or dropped or everything was; among the copies every later start fails, among the drops the next is marked clean with columns left |
| RuleUpgrade.StaysStuck | internal/db/db.go:196-223 | with a rule copied and the old columns there, no later start changes the tables or gets past |
| Migrations.OnlyTheDirtyOneReruns | internal/db/migrate.go:130-143 | over a run of starts, none begins a completed migration, each begins a dirty one first, and no other is begun twice |
| Migrations.Database.RunMigrations | internal/db/migrate.go:124-165 | schema, version, dirty flag and result of a start in which a statement fails or which stops after any number of statements |
| RuleNames.NamesDistinct | internal/db/db.go:306-322 | the names assigned are pairwise distinct whatever they were |
| RuleNames.KeepsNameIff | internal/db/db.go:308-311 | a row keeps its name exactly if no earlier row was given it |
| RuleNames.SearchBound | internal/db/db.go:314-320 | the suffix search ends at a number no greater than the count of taken names plus one |
| RuleNames.CandidateInjective | internal/db/db.go:315-315 | a numbered name tells its base name and number |
| RuleNames.FirstsKeepNamesIff | internal/db/db.go:269-273 | the first row of every name keeps it exactly when no numbered name handed out belongs to a row |
| RuleNames.UniqueNameLost | internal/db/db.go:269-273 | three rows of which the one with a name of its own is renamed |
| RuleNames.DistinctIff | internal/db/db.go:323-331 | the table ends with distinct names exactly when the pass writes to no id that two rows share |
| RuleNames.DistinctIffListed | internal/db/db.go:306-331 | where no numbered name handed out belongs to a row, exactly when no row repeating a name shares its id with another |
| RuleNames.SharedIdStaysDuplicate | internal/db/db.go:323-325 | two rows with one id and one name both end as "a #2" |
| RuleNames.DistinctNamesAreKept | internal/db/db.go:306-311 | distinct names are all kept, so a second pass changes nothing |
| RuleNames.RuleTable.MakeNamesUnique | internal/db/db.go:306-331 | the table after the pass, and whether the unique index can be created |
| RuleNames.RuleTable.FreeName | internal/db/db.go:314-320 | the unbounded search terminates, with the least free number from 2 on |
| Scheduler.GcdDuration | cmd/bewitchd/main.go:1032-1037 | Euclid's loop returns the greatest common divisor |
| Scheduler.ComputeTickInterval | cmd/bewitchd/main.go:1047-1059 | the tick is the greatest common divisor of all intervals, or the floor when that is below it |
| Scheduler.CadenceIsInterval | cmd/bewitchd/main.go:485-491 | uncapped, tickMod ticks are exactly each interval and no longer tick would do; capped, they fall short by less than one tick |
| Scheduler.CappedIff | cmd/bewitchd/main.go:1055-1058 | the floor applies exactly when no tick of at least 100ms hits every interval |
| Scheduler.NextAttemptAfter | cmd/bewitchd/main.go:683-728 | the attempt after k failures in a row comes min(2^(k-1), 64) cadences later for k up to 63, at the next cadence after a success or from k = 64 on |
| Scheduler.BackoffHoldsIff | cmd/bewitchd/main.go:712-715 | the doubling capped at 64 holds exactly for k up to 63 |
| Scheduler.CollapseIsReached | cmd/bewitchd/main.go:712-715 | a collector that always fails comes to its 64th failure in a row, after which it is tried at the very next tick |
| Scheduler.CountsTheFailureRun | cmd/bewitchd/main.go:711-727 | consecutiveFails is the length of the current run of failed attempts |
| Scheduler.Daemon.CollectTick | cmd/bewitchd/main.go:677-728 | which collectors run on a tick, and every entry after it |
| Wildcards.GlobMatchAny | internal/collector/process.go:519-542 | the two-pointer loop accepts exactly what the matcher with its literal-first order accepts |
| Wildcards.AcceptedMatches | internal/collector/process.go:519-542 | what is accepted matches the pattern's meaning |
| Wildcards.MatchingAccepted | internal/collector/process.go:524-535 | a matching string without an asterisk is accepted, so remembering only the last star loses nothing |
| Wildcards.ExactWithoutLiteralStar | internal/collector/process.go:524-527 | a string is accepted by every pattern it matches exactly if it has no asterisk |
| Wildcards.LiteralStarRefused | internal/collector/process.go:524-527 | the string "*" matches "*?" and is refused |
| Wildcards.GlobToSql | internal/alert/rules.go:746-763 | the loop computes the translation character by character |
| Wildcards.LikeAgreesIff | internal/alert/rules.go:746-763 | LIKE on the translation means the same for all strings exactly if the pattern has no percent sign or underscore |
| Wildcards.CollectorAgreesWithRule | internal/alert/rules.go:746-763 | for such a pattern the collector and the rule agree on every string without an asterisk |
| Counter.IncreaseNonNegative | internal/alert/rules.go:364-378 | an increase is never negative, and there is one exactly when the window holds a counted row |
| Counter.IncreasesTelescope | internal/alert/rules.go:368-378 | for a non-decreasing counter the increases of adjacent windows of at most 24h add up to last minus first baseline |
| Counter.IncreaseAgainstGrowth | internal/alert/rules.go:345-350 | an increase never exceeds the true growth over the readings, with the exact condition for equality |
| Counter.ReportedIsMaximum | internal/alert/rules.go:376-377 | the reported device attains the largest increase, the first by name among equals |
| Counter.LatestIs | internal/alert/rules.go:365-369 | the latest reading taken is in range and none in range is later |
| Counter.LowestIs | internal/alert/rules.go:365-366 | the lowest count taken is attained in range and none is lower |
| Counter.BaseIs | internal/alert/rules.go:367-370 | the baseline is the count of the latest counted reading up to the cutoff, and there is one exactly if one lies in the 24 hours before it |
| Regression.LinearRegression | internal/alert/rules.go:766-782 | at or above the guard the line satisfies the normal equations, below it the line is zero |
| Regression.NormalIsBest | internal/alert/rules.go:765-782 | such a line has the least squared error of all lines, and is the only one when two xs differ |
| Regression.DenomNonNegative | internal/alert/rules.go:775-776 | the denominator is never negative, and zero only when all xs are equal |
| Regression.FitIsBestIff | internal/alert/rules.go:776-778 | the returned line is a best one exactly when the denominator reaches the guard or the zero line is one |
| Regression.OnePointIsMissed | internal/alert/rules.go:776-778 | one point off the zero line, which the fallback misses |
| BindMounts.DropBindDuplicates | internal/collector/disk.go:640-655 | the nested loop keeps exactly the mounts no other on the device is strictly above, which for absolute roots is those whose path components no other root's components begin |
| BindMounts.SurvivorsInOrder | internal/collector/disk.go:641-654 | what is kept keeps its order and its repetitions |
| BindMounts.ContainsByComponents | internal/collector/disk.go:657-660 | one root contains an absolute one exactly if its components are a proper prefix of the other's |
| BindMounts.KeptByComponents | internal/collector/disk.go:640-655 | with absolute roots a mount is kept exactly if no other on its device has a root whose components begin those of its own |
| BindMounts.SiblingIsKept | internal/collector/disk.go:637-638 | a root that only goes on where another's last component ends is not dropped on account of it |
| BindMounts.SubvolumesAreKept | internal/collector/disk.go:637-638 | / from /@ and /home from /@home on one device are both kept |
| BindMounts.AboveIsAnOrder | internal/collector/disk.go:658-660 | between absolute roots, strict containment is transitive, asymmetric and shortens the root |
| BindMounts.DroppedAreRepresentedIff | internal/collector/disk.go:631-639 | every dropped mount lies below a kept one exactly unless a device has both the root "" and the root "/" |
| BindMounts.PairIsLost | internal/collector/disk.go:640-660 | two mounts of one device of which none is left |
| BindMounts.NoFilesystemLost | internal/collector/disk.go:631-639 | with absolute roots every mount is in the result or below one that is |
| BindMounts.DropTwice | internal/collector/disk.go:640-655 | dropping again drops nothing more |

## Left out

- DuckDB and Parquet themselves: a statement, a COPY or a rename is one atomic step, a first export included; SQL text, encodings and drivers are not modelled, and directories of the archive are not either.
- Statement failures in the alert engine and in the rule handlers' transactions, and failed removals of Parquet files while unarchiving.
- History.HistoryIsExact: requires a threshold and clock under which the query's cutoff is not behind a past run's; a run with a crash while rows stood in both places is covered by History.BothIsExactIff alone, and queries during an unarchive are not.
- Retention (Prune, PruneArchive): it deletes rows on purpose; only its effect on process_info is modelled.
- A batch already past its pause check when a pause begins, and the ungated RecordJobRun and Checkpoint writes.
- The bodies of single migrations other than the name repair and migration 2; a crash between creating schema_version and its first row; leftover WAL files.
- AlertEngine.Engine.EvaluateCycle: rule changes landing inside a cycle are taken before or after it; the log about missing data and the text of messages are left out.
- Delivery of notifications (mail, commands, webhooks).
- RulesImport.ImportRules: network failures and other clients changing rules during an import; JSON decoding; created_at.
- Regression.LinearRegression: over the reals, without floating-point rounding or NaN.
- Wildcards.LikeAgreesIff: characters are single bytes; for others a question mark matches one byte and an underscore one character.
- Counter.Increase: which of several readings at the same instant counts as latest is taken from table order; the level mode and the other threshold queries are left out.
- Scheduler.NextAttemptAfter: ticks stay below 2^63 by 64 cadences; collectors of a tick run one after another, their samples are not modelled.
- Overflow of counters that only grow (drops, ids, suffixes).
- The terminal interface, the query console, HTTP routing, authentication, hardware collectors and the simulator.
