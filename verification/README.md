# A verified model of PebbleDB's storage engine

PebbleDB is an LSM-tree key-value store: a write-ahead log, a memtable, sorted
table files in levels, and leveled compaction. This project models the engine in
Dafny and proves that it behaves like a plain map from keys to values, whatever
is asked of it and wherever the process dies.

The model has three layers.

1. **Byte formats.** `Crc32`, `Polynomials`, `CheckValues`, `Wal`, `Bloom`,
   `Blocks`, `SsTable`, `SsTableReader`, `SsTableRoundTrip`, `SsTableSize`,
   `SsTableIter`, `Layout`, `Names`, `Formats`. What is written is what is read;
   damage is noticed; a sparse index and a Bloom filter never change an answer; and
   how much fits. `Layout` says in numbers which bytes those are, and what a reader
   answers to any others. `Frames` holds the reasoning that the log, a block and an
   index share: each is a string of self-delimiting items.
2. **Merging and scheduling.** `Iter` (cursors, the newest-wins merge, bounded
   ranges), `Compaction` and `Planning` (which files are merged next, why that is
   safe, why the loop over it stops), `Merging` (from the inputs of a job to its
   output files), `TargetSize` (how long those are), `Budgets` (what the scheduler's
   tests mean for the tables themselves, and what one compaction moves).
3. **The persistence protocol.** `Lsm` (the files on disk, the order in which
   they are read, and the invariant), `Levels` and `Jobs` (the live levels and a
   job in progress), `Disk` (a directory and the changes to it that no reader can
   see), `Contents` (which records a directory holds, and whether its tables can be
   written and read), `Ids` (how many table ids are used), `Db` (the engine: set,
   delete, get, range, flush, compaction, recovery), `Runs` (whole runs of any
   number of processes), `Cache` (the cache built on top), `Necessity` (what goes
   wrong without the protocol's precautions).

`Directory` and `Opening` join layers 1 and 3. `Directory` says when files with
names and bytes store an abstract directory; `Opening` does recovery on names and
bytes, and proves that every step does to them what the step of `Db` does to the
abstract directory. The log is bytes in layer 3 as well. A table is a list of
records there; `DbInner.WriteLevelFile` makes the bytes of its file and loads them,
and every directory that a run leaves can be stored, read and opened
(`Runs.LeftDirectoryIsRead`, `Runs.OpenLeft`).

The main result is `Runs.Run`. Any number of processes, one after another, do any
operations on one directory. Each may die at any boundary between two durable
effects: inside an append, between two deletions of input files, inside recovery.
Every state that the directory goes through stands for exactly the operations
acknowledged by then, with the one in flight wholly there or wholly not; so does
what each process leaves; and every get, range, scan and delete on the way answered
what the map said at that point. The result holds until something outgrows its u32 or u64 field. The settings bound every table
and the operations bound the ids, however much is written, so a caller can rule
that out beforehand (see "How large a store may get").

## How crashes are modelled

The directory changes in one way only: `DbInner.Do` applies one atomic effect
(`Disk.Effect`: a temporary file is written, renamed or removed, a file is deleted,
the marker is written or removed, a record or a part of it is appended to the log,
the log is cut). It asks for a boundary to have been hit since the effect before,
and adds the new state to `states`, which records every state the directory went
through. `DbInner.Traced` is part of every contract: each state follows from the one
before by one effect, with a boundary in between, and the last one is the present
one.

`DbInner.Hit` is the fault injector's `hit`, except that every boundary can be the
last: a process is given a number of boundaries that it may pass (`budget`), dies at
the boundary with that number, and the method under way returns `ok == false`. An
append that is cut off leaves any proper prefix of its record (`torn`).

Each operation promises something of every state that it adds, not only of the last
one: all of them read as before (`Contents.AllKept`), or, for a write, all as before
or all updated (`AllSame`, `AllUpdated`). `Runs.AllLived` gathers this over all
sessions of a run. A body that deletes input files before the marker is written goes
through a state that fails it: `Necessity.DeletingWithoutMarkerResurrects`.

A handle that did not return `ok` is not used again; the next process opens the
directory.

## How large a store may get

A log record states its length in 32 bits, and a table file the offsets of its
blocks, index and filter. Nothing in the source checks them. A record that the log
takes can make a table that nobody can load: `SsTableSize.LongRecordIsNotLoaded`
gives the input, `Runs.LongSetOverflows` what it does to the engine, and
`SsTableSize.ParsesAsWrittenIff` says exactly when a file is parsed as it was
written.

The operations have no precondition about sizes. A process that writes a record, a
table or an id that does not fit sets `overflowed` and stops, and the model says
nothing about what is on disk then. Each operation promises that it does so only if
there is no `Formats.Room`: some table of records on the directory, as large as a
memtable or an output file gets, does not fit.

`Runs.WithinLimits` is what a caller can check beforehand. Either suffices:

- The heaviest record of each key, with its key and 12 bytes, are below 2^32 together
  with a header (`Formats.RoomForOneTable`). A table has each key once, so how often
  a key is written does not matter. This covers full compactions.
- The settings bound each table, for any amount of data (`Formats.RoomForEveryTable`):
  the fullest memtable times the heaviest record, and three times the target size and
  one such record, are below 2^32. A memtable has at most as many entries as the
  largest flush threshold, and one more for each process that dies. With the default
  settings, records of up to a mebibyte and 2000 processes that die this holds
  (`Runs.DefaultsAreWithinLimits`).

In both cases the filter of the largest table must fit as well. A run without a
crash that writes w records uses at most w * (1 + 65 * w) ids, and as many again for
each full compaction (`Ids.IdsFor`); `Runs.Run` promises that too.

## The invariant

The obvious invariant, that files of one level below L0 have disjoint key ranges,
is false after a crash: outputs that were renamed before the marker was written
stay beside their inputs. `Necessity.CutShortJobOverlaps` is such a planned job. Cut
short after some outputs, it leaves the levels disjoint exactly when no input from
the output level meets one of them (`Planning.CutShortIsDisjointIff`); after all of
them, if it drops no tombstone, exactly when the plan has no overlaps
(`Planning.AllOutputsDisjointIff`). A job that is finished, or behind its marker,
keeps disjoint levels disjoint, so without a crash they are.

The invariant proved here, `Lsm.Coherent`, is weaker and is kept by every step: for
each key, two files of one level below L0 that hold it agree on its record, or a
shallower level holds the key too.

## Modelling choices

- A key or a value is a sequence of bytes; key order is lexicographic. A u32 or a
  u64 is a natural number, with the modulus written out where the source wraps or
  truncates (`U32Bytes`, `TotalSize`, `KeyBit`, `Saturate`), as a release build does.
- A memtable, a `BTreeMap` and a table are a list of records with ascending keys.
  In layer 3 a table file is its list of records.
- How many bits and hashes the floating-point formulas for a Bloom filter yield is
  a parameter (`sizing`); the clamps to at least 64 bits and to 1 to 30 hashes are
  modelled.
- The children of a `MergeIterator` are values of type `Cursor`. The two mutable
  cursors of the source, `MemtableIterator` and `SsTableIterator`, are classes
  proved to move like one.
- `DbInner.Write` is the part that `set` and `delete` have in common.

## Where the code and its documentation disagree

The model follows the code. `README.md` here is the repository's own.

- README.md:29 and README.md:72 say that files within a level from L1 on never
  overlap. After a crash they may (see "The invariant").
- README.md:193 says that the record with the highest table id wins. Reads and
  merges go by level first. The file with the highest id answers exactly when no
  shallower level holds the key (`Lsm.HighestIdIsFirstIff`, `Lsm.HighestIdWinsIff`,
  and `Lsm.HighestIdWinsMergeIff` for a merge); `Necessity.HighestIdLosesAfterJob`
  is a planned compaction after which it does not.
- README.md:256 says that damage which no interrupted append explains is reported.
  Damage to a length prefix need not be: `Wal.DamagedLengthLosesRecords`. Exactly
  when bytes are dropped in silence is `Wal.TailDroppedIff`.
- README.md:272 says that output files have at most `target_file_size` bytes. A
  file is closed by the record that takes the bytes of its records to the target,
  and header, index, filter and footer come on top, so every output file but the
  last is longer than the target (`TargetSize.FullFileIsOverTarget`). The sentence
  holds exactly when all the output fits into one such file
  (`TargetSize.WithinTargetIff`).
- README.md:174-176 gives the filter a length field. The code writes the number of
  bits and the number of hashes.
- README.md:186 names files without a level; the code writes the level too and
  reads both forms, a name without one as level 0 (`Names.NoLevelIsZero`). A stored
  L0 table may have either (`Directory.Stores`), so opening holds for both.
- A `RangeIterator` that is sent back to its first record, or to a key before its
  start bound, leaves the range (src/iter.rs:284-291). `Iter.RestartGivesRangeIff`
  and `Iter.SeekGivesRangeIff` say when, `Iter.RestartLeavesRange` is an input.

## Model

| member | source | states |
|---|---|---|
| Runs.Run | tests/common/mod.rs:68-139 | for all sequences of processes, operations and crash points: every state the directory goes through stands for the operations acknowledged by then, the one in flight wholly or not at all, is one atomic effect and at least one boundary after the state before, and a process given b boundaries that does not finish dies at boundary b; every directory left stands for the acknowledged operations and can be stored and read as files; all gets, ranges and deletes answer what a plain map says; without a crash the levels are disjoint and the ids are bounded by the writes; no field overflows within limits that the settings and the operations meet beforehand, however much is written |
| Runs.RunSession | src/db.rs:189-320 | one process from any sound directory whose tables can be read: every acknowledged operation was applied in order, at most one more was, every answer was the map's, and every state on the way, like the one left, is sound, readable and stands for what was acknowledged by then; no record is there that was not there before or written; or a table of these, no larger than the settings allow, does not fit; without a crash it used no more ids than its operations are allowed |
| Runs.LifeMore | tests/common/mod.rs:68-139 | the states of one operation more: each stands for what was acknowledged before it, or for that and the operation |
| Runs.LivedIsLivedOn | tests/common/mod.rs:68-139 | what the states stand for relative to the directory found, they stand for as a map |
| Runs.Perform | src/db.rs:257-352 | one operation turns any map that the directory stands for into the updated map, or leaves it when it was cut off before the log held it, in every state on the way, and answers what that map says; a flush leaves an empty memtable, a flush or a compaction no level that needs work, a full compaction at most one table, and a read changes nothing |
| Runs.RangeThenWrite | src/iter.rs:256-330 | a range yields the pairs there were when it was made, in key order, whatever operations are done before it is read |
| Runs.LimitsGiveRoom | src/sstable.rs:300-352 | within the limits every table fits that a flush or a compaction may make of what was written so far |
| Runs.DefaultsAreWithinLimits | src/db.rs:18-22 | with the default settings, records of up to a mebibyte and 2000 processes that die are within the limits, however much they write |
| Runs.LongSetOverflows | src/db.rs:509-512 | a set that the log takes and whose flush leaves a table that does not load, so that no directory with it is opened again |
| Runs.LeftDirectoryIsRead | src/db.rs:204-214 | the files of every directory a run left are discovered under their ids and levels, load, and answer like the abstract tables; the marker says what was written |
| Runs.OpenLeft | src/db.rs:189-214 | every directory a run left can be opened from its names and bytes: the pending merge is finished and every table is loaded into its level |
| Db.DbInner.constructor | src/db.rs:240-250 | a new process has the directory, an empty memtable, one empty level and id 0 |
| Db.DbInner.Hit | src/fault.rs:22-39 | every boundary can be the last one of a process: it is when none may be passed any more, and it is remembered and counted |
| Db.DbInner.Do | src/fault.rs:22-39 | the only way the directory changes: one atomic effect, after a boundary of its own, recorded as the next state |
| Disk.EffectIs | src/db.rs:494-513 | what each atomic effect does to the directory, and when it can happen |
| Disk.OneMoreEffect | src/fault.rs:22-39 | one effect more after one boundary more keeps the trace going one by one |
| Db.DbInner.AppendRecord | src/wal.rs:141-151 | an append leaves the whole record; cut off, exactly as many of its bytes as were written, fewer than all |
| Db.DbInner.Write | src/db.rs:257-273 | an acknowledged write changes one key and no other, in all states after the append and in none before, also through the flush and the compactions it sets off; the memtable has one entry more, or was flushed when that fills it, and then the log is empty and no level needs work; a record or a table that does not fit is an overflow, and there is none while there is room |
| Db.DbInner.Set | src/db.rs:257-273 | after an acknowledged set the key reads as the value and every other key as before; after a cut-off one, and in every state on the way, that or no change; or a field overflowed, for which there was too much to store |
| Db.DbInner.Delete | src/db.rs:302-320 | after an acknowledged delete the key is gone and every other key reads as before; after a cut-off one, and in every state on the way, that or no change; the result tells whether it was there; or a field overflowed, for which there was too much to store |
| Db.DbInner.Get | src/db.rs:275-300 | the search through memtable, levels and files, newest first, finds what the directory stands for |
| Db.DbInner.Range | src/db.rs:455-464 | for every key: the range holds its live value if the key is above the start bound, or equal to an included one, and below the end bound, or equal to an included one, and nothing for it otherwise; ascending, on objects of its own |
| Db.DbInner.Children | src/db.rs:455-464 | the sources of a merge are the memtable and then every table in the order of point reads |
| Db.DbInner.Scan | src/db.rs:331-337 | a scan gives exactly the live pairs, ascending |
| Db.DbInner.WriteLevelFile | src/db.rs:494-513 | a table appears under a fresh id all at once or not at all, and is loaded as it was written; a file or an id that does not fit is an overflow, and nothing else is |
| Db.DbInner.Flush | src/db.rs:515-542 | no key reads differently in any state on the way and no record is invented; when done, memtable and log are empty, L0 has fewer tables than its threshold, every deeper level at most its target times the multiplier to the level above in bytes, and the levels are as disjoint as before; a memtable that does not fit in a table is an overflow and leaves its table, and there is none while there is room; ids are used within what is allowed |
| Db.DbInner.FlushMemtable | src/db.rs:515-538 | the memtable becomes the next L0 table, then the log is emptied, then the levels and the memtable change; no key reads differently in any state on the way |
| Db.DbInner.InstallTable | src/db.rs:531-538 | with the table in place the log is emptied, then the table joins L0 and the memtable is cleared; no key reads differently in any state on the way |
| Db.DbInner.CompactPending | src/db.rs:544-555 | stops for all settings and file sizes; on exit L0 has fewer tables than its threshold, and the files of each deeper level, in bytes summed modulo 2^64, are at most the target size times the multiplier to the power of the level less one (the settings raised to 1, 2 and 1 at least); where this holds already nothing happens; no key reads differently in any state on the way and no record is invented; log and memtable are untouched; no overflow while there is room |
| Db.DbInner.CompactOnce | src/db.rs:546-553 | one turn of the loop: nothing, exactly when no level needs work; or, for the first level that does, all of L0 or its oldest table and every table one level down that meets their range are replaced by tables one level down, without tombstones if nothing was deeper, with less energy left and no more ids used than it had |
| Db.DbInner.NextJob | src/db.rs:546-604 | the job for the first level that needs work, safe and ready to run, or none exactly when there is no such level |
| Db.DbInner.WithinBudgets | src/compaction.rs:50-70 | no level needs work exactly when L0 is below its threshold and the bytes of each deeper level are within its budget |
| Db.DbInner.FileMetas | src/db.rs:476-492 | one entry for each table of each level, with its key range and size |
| Db.DbInner.PlanJob | src/db.rs:580-604 | the job takes exactly the tables the plan names, from their two levels |
| Db.DbInner.ExecuteJob | src/db.rs:606-681 | no key reads differently in any state on the way; when done, the inputs are replaced by the outputs, and the levels mirror the files |
| Db.DbInner.WriteOutputs | src/db.rs:614-653 | the loop writes the surviving merged records as the specified pieces, and every state on the way is harmless |
| Db.DbInner.MergeInputs | src/db.rs:614-621 | the merge of the inputs in reading order, tombstones kept |
| Db.DbInner.DropInputs | src/db.rs:655-673 | marker, deletions, metadata, marker gone: every state in between is sound and reads as before, so no input goes before the marker is there |
| Db.DbInner.Retain | src/db.rs:664-666 | every level keeps its tables but the inputs, in order |
| Db.DbInner.EnsureLevel | src/db.rs:470-474 | empty levels are added up to the one needed |
| Db.DbInner.CompactFull | src/db.rs:557-578 | no key reads differently in any state on the way; from more than one file, one file or none is left, in level 1 and without a tombstone; with at most one file nothing happens; no overflow while there is room |
| Levels.CountIsFiles | src/db.rs:557-560 | the levels hold as many tables as there are files |
| Db.DbInner.AllTables | src/db.rs:562-567 | a full compaction takes every file |
| Db.DbInner.OpenDirectory | src/db.rs:189-255 | recovery, cut off anywhere and repeated, leaves the state that it found and every table readable, in every state on the way, and ends with levels, memtable and log in agreement |
| Db.DbInner.RemoveTmps | src/db.rs:194-200 | removing unfinished files changes no read |
| Db.DbInner.FinishPendingMerge | src/db.rs:784-811 | all inputs of a finished job go, or none of an unfinished one, however often this is interrupted |
| Db.DbInner.LoadLevels | src/db.rs:204-214 | the levels mirror the files, and the next id is one above the greatest id on disk |
| Db.DbInner.ReplayLog | src/db.rs:216-236 | the memtable is what the log rebuilds, and a torn tail is cut off without a change to any read |
| Db.ViewIsMerge | src/db.rs:455-464 | the merge of everything, without tombstones, is what point reads see |
| Db.ListIds | src/db.rs:707-718 | the ids of the directory, ascending |
| Disk.AppendIsWrite | src/db.rs:260-267 | a whole record at the end of a clean log is one write |
| Disk.TornAppendIsNothing | src/db.rs:219-236 | part of a record at the end of a clean log is nothing |
| Disk.TruncationIsNothing | src/db.rs:232-235 | cutting the log to its whole records changes nothing |
| Disk.FlushIsNothing | src/db.rs:529-532 | the memtable's file in place changes no read, with the log or without it |
| Disk.OutputsAreNothing | src/db.rs:641-655 | any part of a job's outputs, without a marker, changes no read and keeps the invariant |
| Disk.MarkedIsFinished | src/db.rs:656-660 | with the marker written, recovery ends in the finished job, whichever inputs are already gone |
| Disk.FinishedIsNothing | src/db.rs:661-673 | the finished job changes no read, dropped tombstones included |
| Disk.FinishingIsNothing | src/db.rs:801-809 | recovery may stop after any deletion and start again |
| Disk.StaleMarkerIsNothing | src/db.rs:798-809 | a marker that misses an output is dropped and nothing else |
| Disk.TmpsAreNothing | src/db.rs:194-200 | unfinished files are never read |
| Jobs.JobMerge | src/db.rs:614-621 | what a job merges is, key by key, what a reader would find in its inputs |
| Jobs.OutputsAre | src/db.rs:628-653 | outputs are new files of the output level, without a tombstone if the job drops them |
| Jobs.JobShrinks | src/db.rs:628-653 | a job writes no more records than it reads |
| Jobs.WritingIsNothing | src/db.rs:641-653 | a crash after any number of renamed outputs changes no read |
| Jobs.DroppingIsNothing | src/db.rs:656-660 | a crash after any deletions behind the marker changes no read |
| Jobs.PlannedJobDone | src/db.rs:551-552 | a planned job that is done brings the loop nearer its end and keeps disjoint levels disjoint |
| Jobs.FullJobDone | src/db.rs:569-575 | a full compaction leaves live records only, in disjoint files of level 1 |
| Contents.AppendAddsOne | src/db.rs:260-265 | a logged write adds its record to the directory and no other, and at most one entry to the memtable |
| Contents.WritingAddsNone | src/db.rs:641-653 | outputs hold no record that the inputs do not |
| Contents.DroppingContents | src/db.rs:656-660 | behind the marker no record is new and every table can be read |
| Contents.FlushAddsNone | src/db.rs:529-532 | a flushed table holds what the log recorded |
| Contents.FullJobIsSingle | src/db.rs:569-574 | a full compaction whose files fit makes one, or none |
| Contents.TableTooLarge | src/sstable.rs:300-352 | a table that a flush or a compaction makes and that does not fit leaves no room |
| Contents.RecordTooLong | src/wal.rs:141-151 | a record that does not fit in the log leaves no room |
| Ids.SpentByJob | src/db.rs:544-555 | a planned job takes away more energy than the ids it uses, so no allowance is exceeded however many jobs follow |
| Ids.JobUses | src/db.rs:628-653 | a job uses no more ids than there are records, and leaves no more records than there were |
| Ids.SpentByFlush | src/db.rs:494-501 | a flush uses the id that its entries allowed for |
| Ids.SpentByFull | src/db.rs:557-578 | a full compaction, which lifts every record to level 1, is paid for by its own allowance |
| Ids.IdsAreFew | src/db.rs:494-501 | from an empty directory, ids stay within a bound on the numbers of writes and full compactions |
| Lsm.SomeOutputsHarmless | src/db.rs:641-655 | for every safe job and any subset of its outputs: the invariant stays, and every key has the same newest entry |
| Lsm.FinishedJobKeepsReads | src/db.rs:656-673 | for every safe job: outputs in and inputs out keep the invariant and every visible value |
| Lsm.TopBelowL0 | src/db.rs:285-298 | under the invariant any file of the shallowest holding level answers a read |
| Lsm.HighestIdIsFirstIff | README.md:193-193 | the file with the highest id answers a read exactly when no shallower level holds the key |
| Lsm.HighestIdWinsIff | README.md:193-193 | for any files and key: the record with the highest id is the newest if no shallower level holds the key, and, if no other file has the same record, only then |
| Lsm.HighestIdWinsMergeIff | README.md:193-193 | the same for the inputs of any merge |
| Merging.FirstFindIsNewest | src/db.rs:285-298 | searching files by ascending level and descending id finds the newest entry |
| Merging.CutFlat | src/db.rs:628-653 | cutting loses, adds and moves no record |
| Merging.CutPieces | src/db.rs:640-653 | every output has a record, only its last record takes it to the target, and only the last output stays below |
| TargetSize.OutputFileBound | src/db.rs:640-653 | an output file passes the target by less than its last record, header, index, filter and footer together, unless it is one record |
| TargetSize.FullFileIsOverTarget | README.md:272-272 | every output file but the last is longer than the target |
| TargetSize.WithinTargetIff | README.md:272-272 | no output file passes the target exactly when everything fits into one that does not |
| TargetSize.LargeRecordPassesTarget | README.md:272-272 | a record as large as the target makes a file that passes it |
| Merging.OnePiece | src/db.rs:569-574 | below the target size there is a single output |
| Merging.PiecesAreOutputs | src/db.rs:628-653 | any first pieces of the cut are correct outputs of the job |
| Merging.PiecesAreApart | src/db.rs:628-653 | outputs of one job have disjoint key ranges |
| Levels.JobMirrors | src/db.rs:664-671 | after a job the live levels, sorted by id, are again exactly the files on disk |
| Levels.PlannedInputs | src/db.rs:580-604 | the collected tables are the ones the plan names, each once |
| Compaction.LevelConfig.LevelCapacity | src/compaction.rs:21-27 | the loop computes the saturating geometric budget |
| Compaction.LevelConfig.CapacityGrows | src/compaction.rs:8-28 | budgets at least double per level until they saturate, whatever the settings |
| Compaction.LevelConfig.DeepLevelsUnbounded | src/compaction.rs:21-27 | from level 65 on no u64 size exceeds the budget |
| Budgets.CapacityIs | src/compaction.rs:19-27 | the budget of level l is the target size times the multiplier to the power of l - 1, or the largest u64 |
| Budgets.NeedsWorkIff | src/compaction.rs:50-70 | the scheduler's test of a level, in terms of the lengths of the files of its tables |
| Budgets.SettledIff | src/compaction.rs:50-83 | the scheduler finds nothing to do exactly when no level needs work |
| Compaction.UnionRangeCovers | src/compaction.rs:85-99 | the union range covers every file it is made of |
| Budgets.UnionRangeAttained | src/compaction.rs:85-99 | and is no wider: both its ends are some file's |
| Compaction.PickCompaction | src/compaction.rs:47-83 | no plan exactly when no level needs work; otherwise the first level that does, all of L0 or the oldest file, what overlaps it one level down, and tombstones dropped exactly when nothing is deeper |
| Compaction.Oldest | src/compaction.rs:72-72 | the file with the lowest id |
| Planning.PlanTakes | src/compaction.rs:47-83 | a plan over correct metadata takes what lies within its hull and all it meets one level down |
| Budgets.PlannedMoves | src/compaction.rs:50-115 | a planned job, done, moves all of L0 or the table with the least id down by one, with exactly the tables there that meet their range |
| Planning.PlanIsSafe | src/compaction.rs:72-79 | overlap set and tombstone rule together make dropping a tombstone unobservable |
| Planning.FullJobIsSafe | src/db.rs:557-578 | so does taking every file |
| Planning.OneHolderPerLevel | src/compaction.rs:101-115 | in disjoint levels at most one file per level holds a key |
| Planning.PlanLeavesBeside | src/compaction.rs:101-115 | a file that was left out lies wholly to one side of every input |
| Planning.FinishedJobKeepsDisjoint | src/compaction.rs:72-79 | a finished job keeps disjoint levels disjoint |
| Planning.CutShortIsDisjointIff | src/db.rs:641-655 | a planned job cut short after any outputs leaves disjoint levels exactly when no input from the output level meets one of them |
| Planning.AllOutputsDisjointIff | src/db.rs:641-655 | with all outputs beside the inputs, and no tombstone dropped, the levels are disjoint exactly when the plan has no overlaps |
| Planning.JobLosesEnergy | src/db.rs:544-555 | records only sink or vanish, so a measure falls with every planned job |
| Planning.ChosenAboveFloor | src/compaction.rs:62-80 | no level below the floor is ever chosen |
| Planning.DisjointIsCoherent | src/compaction.rs:101-115 | disjoint levels satisfy the invariant |
| Iter.MergeAllFinds | src/iter.rs:192-202 | the merge of any sorted sources holds exactly the newest record of each key |
| Iter.MergeStep | src/iter.rs:178-210 | the first smallest head, then the merge of what is left when every source skips its key |
| Iter.SeekCommutes | src/iter.rs:221-226 | seeking in every source is seeking in the merge, tombstones hidden or kept |
| Iter.RangeFinds | src/iter.rs:256-282 | a range holds exactly the records within both bounds, ascending |
| Iter.BoundsMean | src/iter.rs:256-282 | an included bound takes its own key in, an excluded one leaves it out, none takes in everything |
| Bytes.LessIsLexicographic | src/iter.rs:276-280 | a key is below another exactly when it is a proper prefix, or smaller at the first byte where they differ |
| Iter.RestartGivesRangeIff | src/iter.rs:284-287 | going back to the first record gives the range again if and only if nothing before the end lies before the start |
| Iter.SeekGivesRangeIff | src/iter.rs:289-291 | seeking stays in the range if and only if nothing from the target to the end lies before the start |
| Iter.RestartLeavesRange | src/iter.rs:285-291 | a range of two records that yields one from its start, and both when it is sent back |
| Iter.MemtableIterator.Seek | src/iter.rs:43-48 | lands on the first key not below the target |
| Iter.MemtableIterator.Advance | src/iter.rs:50-55 | moves on by one record, or off the end |
| Iter.MergeIterator.constructor | src/iter.rs:165-176 | a new merge shows everything its sources hold |
| Iter.MergeIterator.SeekToFirst | src/iter.rs:214-219 | starts again from the first record to show |
| Iter.MergeIterator.Seek | src/iter.rs:221-226 | lands on the first record to show that is not below the target |
| Iter.MergeIterator.Normalize | src/iter.rs:178-190 | stops, and changes nothing of what is still to be shown |
| Iter.MergeIterator.Smallest | src/iter.rs:192-202 | the smallest head, and of equal ones the newest |
| Iter.MergeIterator.SkipKey | src/iter.rs:204-210 | every source leaves the key behind and nothing else |
| Iter.MergeIterator.Advance | src/iter.rs:228-234 | drops exactly the record that was shown |
| Iter.Drain | src/iter.rs:228-249 | reading a merge to its end yields all it has to show, in order |
| Iter.RangeIterator.constructor | src/iter.rs:257-270 | a range starts at its first record within the start bound, for all three kinds of bound |
| Iter.RangeIterator.Next | src/iter.rs:318-330 | yields the next live pair, and none after the last or once the key is past the end bound, equal to an excluded one included |
| Iter.RangeIterator.Advance | src/iter.rs:293-295 | moves on by one record, and past the end stays there |
| Iter.RangeIterator.SeekToFirst | src/iter.rs:285-287 | goes back to the very first record, start bound or not |
| Iter.RangeIterator.Seek | src/iter.rs:289-291 | goes to the first record not below the target, start bound or not |
| Iter.RangeIterator.Collect | src/db.rs:335-337 | collects exactly the pairs still in the range |
| Crc32.BuildTable | src/wal.rs:12-30 | the table holds eight single-bit steps for each byte |
| Crc32.Crc32 | src/wal.rs:32-38 | the table-driven loop computes the bit-by-bit checksum, which `ChecksumIsRemainder` ties to its generator and `CheckValue` to its check value |
| Polynomials.ChecksumIsRemainder | src/wal.rs:10-38 | for all data: the checksum, complemented and reflected, is the remainder of the message times x^32, its first 32 bits complemented, modulo x^32 + x^26 + x^23 + x^22 + x^16 + x^12 + x^11 + x^10 + x^8 + x^7 + x^5 + x^4 + x^2 + x + 1 |
| Polynomials.RemainderIsUnique | src/wal.rs:10-38 | no other quotient and remainder below x^32 do, for any generator of that degree |
| CheckValues.CheckValue | src/wal.rs:10-38 | the nine bytes "123456789" have the checksum 0xCBF43926 |
| Crc32.RegisterInjective | src/wal.rs:34-36 | different registers stay different over equal bytes |
| Crc32.BurstDetected | src/wal.rs:32-38 | any change within four consecutive bytes of sealed data or its checksum is noticed |
| Wal.EncodeRecord | src/wal.rs:47-86 | the buffer is the sealed, length-prefixed record |
| Wal.ReadRecords | src/wal.rs:201-253 | the loop reads exactly what the specification of a log says, tolerant or strict |
| Wal.ReadOne | src/wal.rs:206-248 | one turn of it, error kinds included |
| Wal.RoundTripIffFits | src/wal.rs:47-123 | a record is read back exactly when its length fits in 32 bits |
| Wal.TornTailRecovered | src/wal.rs:201-279 | records followed by any proper prefix of one more: exactly the records come back, with their total length |
| Wal.TailDroppedIff | src/wal.rs:211-224 | trailing bytes are dropped in silence if and only if they start no complete record |
| Wal.DamagedLengthLosesRecords | README.md:256-256 | two durable records lost in silence by damage to a length prefix |
| Wal.DamagedRecordReported | src/wal.rs:236-245 | any change within four consecutive bytes of a complete record, past its length prefix, is reported as corruption |
| Wal.RecoveryIsStable | src/db.rs:219-235 | for arbitrary bytes: after truncation, recovery gives the same records and leaves nothing to discard |
| Wal.AppendAfterRecovery | src/wal.rs:201-279 | for arbitrary recovered bytes: an appended record is exactly one more |
| Wal.TornAfterRecovery | src/wal.rs:201-279 | for arbitrary recovered bytes: a torn append is nothing |
| Layout.LittleEndian | src/wal.rs:54-66 | a u32 is stored lowest byte first, cut to 32 bits |
| Layout.NumberAt | src/wal.rs:95-96 | and read so |
| Layout.LogRecordLayout | src/wal.rs:47-86 | length, operation 1 or 2, lengths, key, value, checksum, at their places |
| Layout.LogEnds | src/wal.rs:206-224 | after whole records, bytes that start no complete record: the tolerant reader takes the records, the strict one answers that the log is incomplete, unless nothing is left or a length below nine |
| Layout.LogGoesOn | src/wal.rs:226-248 | after whole records, a complete one: wrong checksum, lengths past the end, an unknown operation and a delete with a value each have their error, in this order; otherwise the record is read and then the rest |
| Bloom.BloomFilter.constructor | src/bloom.rs:10-19 | a new filter is the one built from no keys |
| Bloom.BloomFilter.Insert | src/bloom.rs:34-43 | the loop over the array yields the filter with one more key, every index inside the word array |
| Bloom.WithKeySets | src/bloom.rs:34-43 | inserting sets the key's bits and no other |
| Bloom.InsertedIsContained | src/bloom.rs:34-57 | an inserted key is not rejected, and every bit set before stays set |
| Bloom.BloomFilter.MightContain | src/bloom.rs:45-57 | true exactly when every bit of the key is set |
| Bloom.LargerStillContains | src/bloom.rs:34-57 | further insertions never make the filter reject a key |
| Bloom.BloomFilter.Encode | src/bloom.rs:59-67 | sizes and words in little-endian order |
| Bloom.Decode | src/bloom.rs:69-92 | reads a filter, or none from data that is too short |
| Bloom.FilterRoundTripIffFits | src/bloom.rs:59-92 | writing and reading gives the same filter exactly when its sizes fit in u32 |
| Bloom.FromEntries | src/bloom.rs:21-32 | the keys are inserted one after another into an empty filter |
| Bloom.BuiltContains | src/bloom.rs:21-57 | no key that a filter was built from is rejected |
| Bloom.BuiltHoldsIff | src/bloom.rs:21-43 | a filter that was built holds exactly the bits of its keys |
| Bloom.KeyBitIs | src/bloom.rs:34-43 | bit i of a key: the checksum of its bytes and i times that of its bytes reversed, modulo the number of bits, where no u64 wraps |
| Layout.FilterLayout | src/bloom.rs:59-67 | a stored filter: number of bits, number of hashes, then the words with their lower halves first |
| Layout.FilterRefusedIff | src/bloom.rs:69-80 | a stored filter is refused exactly when bytes are missing |
| SsTable.FilterSizes | src/bloom.rs:107-116 | a filter has at least 64 bits, and from 1 to 30 hashes |
| SsTable.FilterContainsAll | src/sstable.rs:278-278 | the filter of a file rejects none of its keys |
| Blocks.DecodeBlock | src/sstable.rs:186-228 | the loop decodes what the specification of a block says, error kinds included |
| Blocks.BlockRoundTrip | src/sstable.rs:186-228 | a block of records is read back as those records |
| Blocks.ParseIndex | src/sstable.rs:123-146 | the loop parses what the specification of an index says |
| Blocks.IndexRoundTrip | src/sstable.rs:123-146 | an index is read back as its entries |
| Layout.BlockGoesOn | src/sstable.rs:186-228 | after whole records in a block: fewer than nine bytes are passed over, a record past the end and an unknown operation are errors, and a value of a deleted key is passed over |
| Layout.IndexGoesOn | src/sstable.rs:123-146 | after whole entries in an index: fewer than eight bytes are passed over, a key past the end is an error |
| SsTable.WriteSsTable | src/sstable.rs:273-369 | the buffer with its patched header is the specified file: header, blocks, index, filter, footer, checksum |
| SsTable.WriteBlocks | src/sstable.rs:282-333 | the loop lays out the packed blocks one after another and indexes each |
| SsTable.PackedFlat | src/sstable.rs:289-333 | packing loses, adds and moves no record |
| SsTable.PackedBlocks | src/sstable.rs:302-314 | no block is empty, and only a single record may pass the block size |
| SsTable.PackedTight | src/sstable.rs:302-314 | a block is closed only where the next record would take it past the block size |
| Layout.TableFileLayout | src/sstable.rs:335-368 | "BBEP", version 2, the counts, the block size, blocks, index, filter, their offsets and lengths, and the checksum of all that |
| SsTableReader.Load | src/sstable.rs:41-121 | the checks in their order, each with its error, then index, filter and last key |
| Layout.LoadingRefuses | src/sstable.rs:48-96 | fewer than 40 bytes, other first four bytes, another version and a wrong checksum are refused, in this order, each with its error |
| Layout.LoadingParts | src/sstable.rs:69-112 | a file that passes these is refused only for an index or a filter past its end or broken, and is loaded from its parts otherwise |
| SsTableReader.DamagedFileNotLoaded | src/sstable.rs:88-96 | no file loads after a change within four consecutive bytes of one that does |
| SsTableReader.LoadedFilterIsWhole | src/bloom.rs:69-92 | the filter of a loaded table has every word that a lookup can touch |
| SsTableReader.Loaded.FindBlock | src/sstable.rs:164-174 | the last block that starts at or below the key, or the first block |
| SsTableReader.Loaded.ReadBlock | src/sstable.rs:176-184 | the records of a block, or none if the index points past the file |
| SsTableReader.Loaded.Get | src/sstable.rs:148-162 | filter, index and scan, for any loaded file, one with a filter of zero bits included |
| SsTableReader.Loaded.Entries | src/sstable.rs:243-253 | every block's records, gathered in a map |
| SsTableRoundTrip.WrittenIsLoaded | src/sstable.rs:41-146 | a written file loads with the same records, blocks, counts, filter and key range |
| SsTableRoundTrip.LookupIsFind | src/sstable.rs:148-174 | filter and index never change an answer: a lookup in the file is a lookup in the list, for all keys |
| SsTableRoundTrip.EntriesAreRecords | src/sstable.rs:243-253 | `entries` gives back the written records |
| SsTableRoundTrip.IndexPoints | src/sstable.rs:303-332 | every index entry points at its block |
| SsTableRoundTrip.WriteAndLoad | src/db.rs:505-512 | a new table, written and loaded again, answers every lookup like the list it was written from |
| SsTableSize.FileLength | src/sstable.rs:285-365 | the length of a file in terms of its records |
| SsTableSize.ParsesAsWrittenIff | src/sstable.rs:48-112 | a file is parsed as it was written exactly when its index and filter are found at their offsets cut to 32 bits |
| SsTableSize.FittingFileParses | src/sstable.rs:344-356 | a file whose offsets fit is |
| SsTableSize.UnfitFileDoesNotParse | src/sstable.rs:303-332 | a file with a block beyond u32, or a filter too large for its fields, is not |
| SsTableSize.LongRecordIsNotLoaded | src/sstable.rs:344-356 | for every key and value whose record is 2^32 - 1 bytes long: the log takes them, and the table they are flushed to is not loaded |
| Formats.FittingTableLoads | src/db.rs:505-512 | a table that fits is loaded with its records and answers every lookup like them |
| Formats.RoomForOneTable | src/sstable.rs:300-352 | every table of some records fits if the heaviest record of each key, with its index entry, are below 2^32 together |
| Formats.RoomForEveryTable | src/db.rs:632-647 | every table of some records that is a memtable or is closed at the target fits if threshold, target size and heaviest record are small enough together |
| Formats.OutweighedTable | src/sstable.rs:300-352 | a table, which has each key once, is no heavier than the heaviest record of each key |
| SsTableIter.SsTableIterator.SeekToFirst | src/iter.rs:109-112 | the whole table lies ahead |
| SsTableIter.SsTableIterator.Seek | src/iter.rs:114-120 | exactly the records not below the target lie ahead, through all blocks |
| SsTableIter.SsTableIterator.Advance | src/iter.rs:122-127 | moves on by one record, across block boundaries |
| SsTableIter.SsTableIterator.EnsureEntry | src/iter.rs:97-105 | stops, and changes nothing of what lies ahead |
| SsTableIter.SeekBlock | src/sstable.rs:164-174 | seeking in the chosen block is seeking in the whole table |
| Names.FileNameRoundTripIffFits | src/db.rs:692-705 | a file is found again under its id and level exactly when they fit in u64 and u32 |
| Names.FileNameIs | src/db.rs:692-694 | a name is "sstable_L", the level, "_", the id in at least six digits, ".sst" |
| Names.DigitsAreDecimal | src/db.rs:692-705 | digits are read in base ten |
| Names.NoLevelIsZero | src/db.rs:700-705 | a name without a level is a table of level 0 under its number, if that fits in u64 |
| Names.LegacyNameParses | src/db.rs:700-705 | so is the old name of each id, with its six digits |
| Names.OnlyTableNamesParse | src/db.rs:696-705 | nothing is a table without "sstable_" in front and ".sst" at the end |
| Names.TmpIsNoTable | src/db.rs:696-705 | an unfinished file is never taken for a table |
| Names.ReadMarker | src/db.rs:756-772 | the marker is read line by line |
| Names.MarkerRoundTrip | src/db.rs:731-782 | the marker names exactly the outputs and inputs that it was written with, none included |
| Names.IdsAreListed | src/db.rs:731-746 | the ids stand in the marker as decimal numbers with commas between them |
| Directory.TablesAreDiscovered | src/db.rs:707-718 | discovery finds exactly the tables, each under its own id and level, whether an L0 table has a level in its name or not, and no unfinished file, log or marker |
| Directory.LegacyIsDiscovered | src/db.rs:700-718 | for every id below 2^64 a file "sstable_", six digits, ".sst" is discovered under that id in level 0 |
| Directory.TableLoads | src/db.rs:206-207 | every discovered table loads, holds the records of the abstract file and answers every lookup like them |
| Directory.MarkerIsRead | src/db.rs:756-772 | the marker on disk is read as the abstract marker |
| Directory.StorableCanBeStored | src/db.rs:692-746 | every directory whose tables fit can be stored as files |
| Opening.Folder.RemoveTmps | src/db.rs:194-200 | exactly the names that end in .tmp go |
| Opening.Folder.FinishPendingMerge | src/db.rs:784-811 | what the names and the marker text make recovery delete is what the abstract directory loses: the names left store the recovered files |
| Opening.Folder.LoadTables | src/db.rs:202-214 | loading succeeds exactly when every file with a table name loads; from a stored directory, with or without levels in the names of L0, the levels mirror it and the next id is one above the greatest |
| Opening.Folder.Open | src/db.rs:189-214 | the three steps in order leave the recovered directory stored and its levels loaded |
| Opening.TableRemoved | src/db.rs:801-807 | deleting the file of a table, under the name it has, removes that table from what is stored and nothing else |
| Opening.LongTableStopsOpening | src/db.rs:206-207 | a directory with the table of the overlong record is not opened |
| Cache.PebbleCache.Clear | src/cache.rs:80-97 | removes exactly the keys with the prefix "cache:" and changes no other, and in every state on the way has removed some of them; it writes a tombstone for each at most, and overflows only if there is no room for these |
| Cache.PebbleCache.PrefixedKeys | src/cache.rs:81-87 | stopping at the first key without the prefix misses none with it |
| Cache.PrefixedKeysAreNeighbours | src/cache.rs:82-85 | after the first key without the prefix no key has it |
| Necessity.DeletingWithoutMarkerResurrects | README.md:282-282 | without the marker, a crash between the two deletions of a planned job brings a deleted key back |
| Necessity.CutShortJobOverlaps | src/db.rs:643-656 | from disjoint levels, a planned job cut short before the marker breaks disjointness and leaves the invariant |
| Necessity.HighestIdLosesAfterJob | README.md:193-193 | from disjoint levels, a planned job gives the older of two records the highest id; reads and the next merge take the newer |

## Left out

- Real file I/O, fsync, directory listing and paths: the directory is an abstract value, as described above; power loss is outside the store's own contract (README.md:241).
- A live handle after an error, and ignored `remove_file` errors (src/db.rs:659): only reopening is promised (README.md:496).
- Locks, reference counts and atomic counters: one lock serializes the writers, so every operation is a sequential step.
- Metrics, `stats` and write amplification: counters.
- Floating-point sizing of the Bloom filter and its false-positive rate (src/bloom.rs:107-116): what the formulas yield before the clamps is a parameter.
- UTF-8 validation: keys and values are byte strings.
- The cache's clock, expiry, value encoding and statistics: a clock read and counters around set, get and delete.
- Trait objects: the children of a merge are values of one type, so a merge over merges is not modelled.
- Ids beyond 2^64: a table with such an id is an overflow; how many ids a run uses is bounded beforehand for runs without a crash.
- The marker's temporary file: it is never read, and writing the marker is one step.
- Formats.EveryTableHolds: is sufficient, not necessary: it counts an index entry for every record, where the file has one for each block.
- SsTableReader.Load: slices past the end of a file, at which the source panics, are an error here (`OutOfRange`); so is a remainder by zero bits in `Loaded.Get` (`ZeroBits`).
- Runs.Run: says nothing about a directory after a field overflowed, and neither does any operation of `Db.DbInner`; `SsTableSize.LongRecordIsNotLoaded` shows what can be there.
- SsTableSize.LongRecordIsNotLoaded: covers keys below 65536 bytes and one record length; a longer file may hold a copy of its index at the wrapped offset, so not every file that is too long fails to load.
- The command line, the fault injector's hit counting, benchmarks and demos.
