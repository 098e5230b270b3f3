/**
 The storage engine. Every method may stop at any boundary between two durable
 effects, as if the process had died there; what is on disk then is what counts.
 */
module Db {
  import opened Bytes
  import opened Records
  import opened Crc32
  import Blocks
  import Frames
  import opened Wal
  import opened SsTable
  import SsTableReader
  import opened Formats
  import opened Contents
  import opened Ids
  import opened Budgets
  import opened Lsm
  import opened Disk
  import opened Iter
  import opened Sorting
  import opened Compaction
  import opened Planning
  import opened Merging
  import opened Levels
  import opened Jobs

  /** The places where a run can end: the fault points, and the ones inside an append and inside recovery. */
  datatype Boundary =
    | BeforeWalAppend | InsideWalAppend | AfterWalAppend | AfterWalFsync | AfterMemtableUpdate
    | BeforeSstableCreation | AfterSstableWrite | BeforeAtomicRename | AfterAtomicRename
    | BeforeMetadataUpdate | AfterMetadataUpdate
    | BeforeObsoleteFileDelete | AfterObsoleteFileDelete
    | BeforeWalTruncation | AfterWalTruncation
    | AfterCompactionOutputCreation | AfterMarkerWrite
    | InsideRecovery

  datatype DbOptions = DbOptions(flushThreshold: nat, l0Threshold: nat, multiplier: nat, targetLevelSize: nat,
                                 targetFileSize: nat)
  {
    predicate Valid()
    {
      targetLevelSize <= U64_MAX
    }

    function LevelConfig(): (c: LevelConfig)
      requires Valid()
      ensures c.Valid()
    {
      Compaction.LevelConfig.New(l0Threshold, multiplier, targetLevelSize)
    }
  }

  const USIZE_MAX: nat := U64_MAX

  /** The record that a set or a delete leaves. */
  function Written(key: Key, value: Option<Bytes>): Record
  {
    Record(key, if value.Some? then Value(value.value) else Tombstone)
  }

  lemma WrittenIs(key: Key, value: Option<Bytes>)
    ensures Written(key, value) == Record(key, if value.Some? then Value(value.value) else Tombstone)
    ensures Written(key, value) == AsRecord(RecordOf(key, value))
    ensures Blocks.AsLogged(Written(key, value)) == RecordOf(key, value)
    ensures Written(key, value).key == key && Written(key, value).entry == EntryOf(RecordOf(key, value))
  {
  }

  function With(memtable: seq<Record>, written: Record): seq<Record>
  {
    Insert(memtable, written.key, written.entry)
  }

  /** The memtable after a write: one entry more, or flushed when that fills it. */
  function AfterWrite(memtable: seq<Record>, written: Record, flushThreshold: nat): seq<Record>
  {
    var more := With(memtable, written);
    if |more| >= flushThreshold then [] else more
  }

  lemma AfterWriteIs(memtable: seq<Record>, written: Record, flushThreshold: nat)
    ensures var more := With(memtable, written);
            AfterWrite(memtable, written, flushThreshold) == if |more| >= flushThreshold then [] else more
  {
  }

  lemma AfterWriteIsShort(memtable: seq<Record>, written: Record, flushThreshold: nat)
    ensures |AfterWrite(memtable, written, flushThreshold)| <= flushThreshold
  {
  }

  class DbInner {
    var disk: Disk
    var memtable: seq<Record>
    var levels: Levels
    var nextSstId: nat
    const options: DbOptions
    const format: Format

    /** How many boundaries the process has still to pass; no limit if there is none. */
    var budget: Option<nat>

    /** How much of a record an append that is cut off leaves behind. */
    const torn: nat

    /** Where the process died. */
    var stopped: Option<Boundary>

    /**
     A length, an offset or an id did not fit in its u32 or u64 field: what was
     written does not say what it should, and the model ends there.
     */
    var overflowed: bool

    /** How many boundaries the process was given. */
    const start: Option<nat>

    /** How many boundaries were hit so far. */
    ghost var passed: nat

    /** Every state that the directory went through, up to the present one. */
    ghost var states: seq<Moment>

    /**
     Nothing happens to the directory but one atomic effect after another, and
     between any two of them is a boundary at which a process can die. A process
     that was given `b` boundaries dies at boundary `b`, counted from 0.
     */
    ghost predicate Traced()
      reads this`disk, this`states, this`passed, this`budget, this`stopped
    {
      && states != [] && states[|states| - 1].disk == disk && states[|states| - 1].passed <= passed
      && OneByOne(states)
      && if start.None? then budget == None && stopped == None
         else
           && budget.Some? && (stopped.Some? ==> budget == Some(0))
           && passed + budget.value == start.value + (if stopped.Some? then 1 else 0)
    }

    /** The handle can be used: the process lives and knows what is on disk. */
    ghost predicate Valid()
      reads this
    {
      && Traced() && stopped == None
      && options.Valid() && !overflowed && Storable(disk, format)
      && Sound(disk) && disk.marker == None
      && Recover(disk.wal).value.length == |disk.wal|
      && memtable == Replay(Recover(disk.wal).value.items)
      && |levels| >= 1 && Mirrors(levels, disk.files)
      && forall id | id in disk.files :: id < nextSstId
    }

    /** How many entries the memtable has at most once a write is done. */
    ghost function MostEntries(): nat
      reads this`memtable
    {
      Max(|memtable|, options.flushThreshold)
    }

    /** A level of these tables needs work. */
    predicate Needs(levels: Levels, l: nat)
    {
      NeedsWork(levels, options.l0Threshold, options.multiplier, options.targetLevelSize, format, l)
    }

    /** The first level that needs work had one compaction. */
    ghost predicate FirstMoved(levels: Levels, fs: Files, gs: Files)
    {
      && WellFormed(fs)
      && exists l: nat, taken ::
           Needs(levels, l) && (forall k | 0 <= k < l :: !Needs(levels, k)) && MovedDown(fs, gs, l, taken)
    }

    /** What may still use ids. */
    ghost function Use(): Usage
      reads this`disk, this`memtable, this`nextSstId
    {
      Usage(disk.files, nextSstId, |memtable|)
    }

    lemma UseIs()
      ensures Use() == Usage(disk.files, nextSstId, |memtable|)
    {
    }

    lemma KeptFromTheStart()
      requires Valid()
      ensures Readable(disk) && Storable(disk, format) && !overflowed && Unharmed(disk, disk, format)
      ensures WellFormed(disk.files) && NoneNew(disk, disk) && SameView(disk, disk)
      ensures Traced() && stopped == None && states != [] && states[|states| - 1].disk == disk
      ensures AllKept(states, |states|, disk, format)
    {
      hide Recover, Lookup, Storable, RecordsOn, Mirrors, WellFormed, Coherent, OneByOne;
    }

    /** These records are too much for a table of so many entries, or of that size, or ids have reached 2^64. */
    ghost predicate Full(before: Disk, added: set<Record>, entries: nat, target: nat)
      requires Readable(before)
      reads this`nextSstId
    {
      !Room(format, RecordsOn(before) + added, entries, target) || nextSstId > U64_MODULUS
    }

    /** The record does not fit in the log, or fills a memtable that does not fit in a table. */
    predicate TooLarge(memtable: seq<Record>, written: Record)
    {
      var more := With(memtable, written);
      !Fits(Blocks.AsLogged(written)) || (|more| >= options.flushThreshold && !format.Fits(more))
    }

    /** A new process on an existing directory. */
    constructor (disk: Disk, options: DbOptions, format: Format, budget: Option<nat>, torn: nat)
      ensures this.disk == disk && this.options == options && this.format == format
      ensures this.budget == budget && this.torn == torn && !overflowed && stopped == None
      ensures memtable == [] && levels == [[]] && nextSstId == 0
      ensures start == budget && states == [Moment(disk, 0)] && passed == 0 && Traced()
    {
      start := budget;
      states := [Moment(disk, 0)];
      passed := 0;
      this.disk := disk;
      this.options := options;
      this.format := format;
      this.budget := budget;
      this.torn := torn;
      stopped := None;
      overflowed := false;
      memtable := [];
      levels := [[]];
      nextSstId := 0;
    }

    /** `FaultInjector::hit`, where every boundary can be the last. */
    method Hit(boundary: Boundary) returns (ok: bool)
      requires Traced() && stopped == None
      modifies this`budget, this`stopped, this`passed
      ensures Traced() && passed == old(passed) + 1 && states != [] && states[|states| - 1].passed < passed
      ensures ok <==> old(budget) != Some(0)
      ensures budget == if ok && old(budget).Some? then Some(old(budget).value - 1) else old(budget)
      ensures stopped == if ok then None else Some(boundary)
    {
      hide OneByOne;
      passed := passed + 1;
      if budget.Some? {
        if budget.value == 0 {
          stopped := Some(boundary);
          return false;
        }
        budget := Some(budget.value - 1);
      }
      return true;
    }

    /** One atomic effect. A boundary was hit before it. */
    method Do(f: Effect)
      requires Traced() && states[|states| - 1].passed < passed && Possible(disk, f)
      modifies this`disk, this`states
      ensures Traced() && disk == After(old(disk), f) && states == old(states) + [Moment(disk, passed)]
    {
      hide Possible, After, OneByOne;
      ghost var before := disk;
      disk := After(disk, f);
      states := states + [Moment(disk, passed)];
      OneMoreEffect(old(states), Moment(disk, passed), f);
    }

    // ---------- writing ----------

    /** Appends a record; if the process dies inside, as much of it is left as was written by then. */
    method AppendRecord(r: WalRecord) returns (ok: bool)
      requires Traced() && stopped == None
      modifies this`disk, this`budget, this`stopped, this`states, this`passed
      ensures Traced() && passed == old(passed) + 1 && states == old(states) + [Moment(disk, passed)]
      ensures ok ==> disk == old(disk).(wal := old(disk).wal + Encode(r)) && stopped == None
      ensures !ok ==> stopped.Some?
      ensures !ok ==> var n := if torn < |Encode(r)| then torn else 0;
                      n < |Encode(r)| && disk == old(disk).(wal := old(disk).wal + Encode(r)[..n])
      ensures old(budget).None? ==> ok && budget.None?
    {
      hide Encode, IsTable, OneByOne;
      var table := BuildTable();
      var encoded := EncodeRecord(table, r);
      ok := Hit(InsideWalAppend);
      var kept := if ok then |encoded| else if torn < |encoded| then torn else 0;
      assert encoded[..|encoded|] == encoded;
      Do(Effect.Appended(r, kept));
    }

    /** The common part of `set` and `delete`: log, sync, memtable, flush when full. */
    method Write(key: Key, value: Option<Bytes>) returns (ok: bool)
      requires Valid()
      modifies this
      ensures overflowed ==> !ok && Full(old(disk), {Written(key, value)}, |old(memtable)| + 1, options.targetFileSize)
      ensures old(budget).None? && TooLarge(old(memtable), Written(key, value)) ==>
                && overflowed
                && (Fits(Blocks.AsLogged(Written(key, value))) ==>
                      disk.files
                      == old(disk).files[old(nextSstId) := Table(0, With(old(memtable), Written(key, value)))])
      ensures !overflowed ==> Left(old(disk), disk, {Written(key, value)}, |old(memtable)| + 1, format)
      ensures ok ==> Valid() && Updated(old(disk), disk, key, value)
      ensures ok ==> memtable == AfterWrite(old(memtable), Written(key, value), options.flushThreshold)
      ensures ok && memtable != [] ==> disk.files == old(disk).files
      ensures ok && memtable == [] ==> disk.wal == [] && forall l | 0 <= l < |levels| :: !Needs(levels, l)
      ensures !ok && !overflowed ==> SameView(old(disk), disk) || Updated(old(disk), disk, key, value)
      ensures old(budget).None? ==> budget.None? && (ok || overflowed)
      ensures nextSstId >= old(nextSstId)
      ensures ok && old(DisjointLevels(disk.files)) ==> DisjointLevels(disk.files)
      ensures Uses(old(Use()), nextSstId, 1, 0) && (ok ==> Spent(old(Use()), Use(), 1, 0))
      ensures Traced() && old(states) <= states && old(passed) <= passed && (!ok && !overflowed ==> stopped.Some?)
      ensures !overflowed ==>
                && EachLeft(states, |old(states)|, old(disk), {Written(key, value)}, |old(memtable)| + 1, format)
                && (|| AllUpdated(states, |old(states)|, old(disk), key, value)
                    || AllSame(states, |old(states)|, old(disk)))
      ensures ok ==> AllUpdated(states, |old(states)|, old(disk), key, value)
    {
      hide *;
      var r := RecordOf(key, value);
      ghost var added := {Written(key, value)};
      WrittenIs(key, value);
      KeptFromTheStart();
      MemtableToFlush();
      LoggedSoFar();
      UseIs();
      ghost var use := Use();
      UsesEntries(use, nextSstId, 1, 0);
      TooLargeIs(memtable, Written(key, value));
      NothingAppended(old(disk), added);
      OneState(states, Moment(disk, passed), disk, key, value, added, |memtable| + 1, format);
      ok := Hit(BeforeWalAppend);
      if !ok { return; }
      ok := AppendRecord(r);
      if !Wal.Fits(r) {
        overflowed := true;
        NotLogged(old(disk), r, added, |memtable| + 1);
        return false;
      }
      if !ok {
        TornWrite(old(disk), r, added);
        OneState(old(states), Moment(disk, passed), old(disk), key, value, added, |memtable| + 1, format);
        return;
      }
      AppendIsKept(old(disk), key, value, added);
      OneState(old(states), Moment(disk, passed), old(disk), key, value, added, |memtable| + 1, format);
      ok := Hit(AfterWalAppend);
      if !ok { return; }
      ok := Hit(AfterWalFsync);
      if !ok { return; }
      memtable := Insert(memtable, key, EntryOf(r));
      ok := Hit(AfterMemtableUpdate);
      if !ok { return; }
      AppendedIsValid(old(disk));
      AfterWriteIs(old(memtable), Written(key, value), options.flushThreshold);
      UseIs();
      ghost var written := Use();
      SpentByWrite(use, written);
      if |memtable| >= options.flushThreshold {
        ghost var appended, soFar := disk, states;
        ok := Flush();
        if !overflowed {
          AllWrittenThrough(soFar, states, |old(states)|, old(disk), appended, key, value, added, |old(memtable)| + 1,
                            format);
        }
        SpentInTurn(use, written, 1, 0, ok);
        LeavesAfter(old(disk), appended, added, |old(memtable)| + 1);
        UpdatedThrough(old(disk), appended, key, value);
      }
    }

    /** One thing done, then another. */
    lemma SpentInTurn(before: Usage, between: Usage, writes: nat, fulls: nat, ok: bool)
      requires Spent(before, between, writes, fulls)
      requires Uses(between, nextSstId, 0, 0) && (ok ==> Spent(between, Use(), 0, 0))
      ensures Uses(before, nextSstId, writes, fulls) && (ok ==> Spent(before, Use(), writes, fulls))
    {
      hide *;
      UsesThrough(before, between, nextSstId, writes, fulls, 0, 0);
      if ok {
        SpentThrough(before, between, Use(), writes, fulls, 0, 0);
      }
    }

    lemma NothingSpent()
      requires Valid()
      ensures Uses(Use(), nextSstId, 0, 0) && Spent(Use(), Use(), 0, 0)
    {
      hide Recover, Coherent, WellFormed, Storable, Mirrors, Uses, Spent;
      UsesEntries(Use(), nextSstId, 0, 0);
      SpentNone(Use(), Use());
    }

    /** Nothing written yet, or nothing that counts. */
    lemma NothingAppended(before: Disk, added: set<Record>)
      requires Readable(before) && Unharmed(before, disk, format)
      ensures forall n | n >= LogEntries(before) :: Left(before, disk, added, n, format)
    {
      hide RecordsOn, Storable, Sound, Lookup, LogEntries;
    }

    lemma TooLargeIs(memtable: seq<Record>, written: Record)
      ensures With(memtable, written) == Insert(memtable, written.key, written.entry)
      ensures TooLarge(memtable, written) <==>
                || !Wal.Fits(Blocks.AsLogged(written))
                || (|With(memtable, written)| >= options.flushThreshold && !format.Fits(With(memtable, written)))
      ensures With(memtable, written) != []
    {
      hide Format.Fits;
      InsertMembers(memtable, written.key, written.entry);
    }

    /** The record does not fit in the log. */
    lemma NotLogged(before: Disk, r: WalRecord, added: set<Record>, entries: nat)
      requires Readable(before) && AsRecord(r) in added && !Wal.Fits(r)
      ensures Full(before, added, entries, options.targetFileSize)
    {
      hide RecordsOn, Room;
      RecordTooLong(format, RecordsOn(before) + added, r, entries, options.targetFileSize);
    }

    lemma LoggedSoFar()
      requires Valid()
      ensures |memtable| == LogEntries(disk) && Recover(disk.wal).value.length == |disk.wal|
    {
      hide Recover, Coherent, WellFormed, Storable, Mirrors;
    }

    /** The append was cut off. */
    lemma TornWrite(before: Disk, r: WalRecord, added: set<Record>)
      requires Sound(before) && Readable(before) && Recover(before.wal).value.length == |before.wal| && Wal.Fits(r)
      requires Storable(before, format)
      requires exists n: nat :: n < |Encode(r)| && disk == before.(wal := before.wal + Encode(r)[..n])
      ensures Readable(disk) && SameView(before, disk)
      ensures forall n | n >= LogEntries(before) :: Left(before, disk, added, n, format)
    {
      hide Recover, Encode, Storable, RecordsOn, Coherent, WellFormed, Lookup, LogEntries;
      var n: nat :| n < |Encode(r)| && disk == before.(wal := before.wal + Encode(r)[..n]);
      TornAppendIsNothing(before, disk, r, Encode(r)[..n]);
      TornAppendContents(before, disk, format, r, Encode(r)[..n]);
    }

    /** The append was not cut off. */
    lemma AppendIsKept(before: Disk, key: Key, value: Option<Bytes>, added: set<Record>)
      requires Sound(before) && Readable(before) && Recover(before.wal).value.length == |before.wal|
      requires Storable(before, format) && Wal.Fits(RecordOf(key, value)) && added == {Written(key, value)}
      requires disk == before.(wal := before.wal + Encode(RecordOf(key, value)))
      ensures Sound(disk) && Storable(disk, format)
      ensures Readable(disk) && Updated(before, disk, key, value) && Recover(disk.wal).value.length == |disk.wal|
      ensures RecordsOn(disk) == RecordsOn(before) + added && LogEntries(disk) <= LogEntries(before) + 1
      ensures forall n | n >= LogEntries(before) + 1 :: Left(before, disk, added, n, format)
      ensures Replay(Recover(disk.wal).value.items)
           == Insert(Replay(Recover(before.wal).value.items), key, EntryOf(RecordOf(key, value)))
    {
      hide Recover, Encode, Storable, RecordsOn, Coherent, WellFormed, Lookup, LogEntries, Replay;
      WrittenIs(key, value);
      AppendIsWrite(before, disk, key, value);
      AppendAddsOne(before, disk, RecordOf(key, value));
      StorablePart(before, disk, format);
    }

    lemma AppendedIsValid(before: Disk)
      requires options.Valid() && !overflowed && Sound(disk) && Storable(disk, format)
      requires disk == before.(wal := disk.wal) && before.marker == None && Traced() && stopped == None
      requires Readable(disk) && Recover(disk.wal).value.length == |disk.wal|
      requires memtable == Replay(Recover(disk.wal).value.items)
      requires |levels| >= 1 && Mirrors(levels, before.files) && forall id | id in before.files :: id < nextSstId
      ensures Valid()
      ensures Readable(disk) && WellFormed(disk.files) && |memtable| == LogEntries(disk)
    {
      hide Recover, Coherent, WellFormed, Storable, Mirrors;
    }

    lemma UpdatedThrough(before: Disk, between: Disk, key: Key, value: Option<Bytes>)
      requires Readable(before) && Readable(between) && Updated(before, between, key, value)
      ensures Unharmed(between, disk, format) ==> Updated(before, disk, key, value)
    {
      hide Lookup, RecordsOn, Storable, LogEntries;
    }

    method Set(key: Key, value: Bytes) returns (ok: bool)
      requires Valid()
      modifies this
      ensures overflowed ==>
                !ok && Full(old(disk), {Record(key, Value(value))}, |old(memtable)| + 1, options.targetFileSize)
      ensures old(budget).None? && TooLarge(old(memtable), Record(key, Value(value))) ==>
                && overflowed
                && (Fits(Blocks.AsLogged(Record(key, Value(value)))) ==>
                      disk.files
                      == old(disk).files[old(nextSstId) := Table(0, With(old(memtable), Record(key, Value(value))))])
      ensures !overflowed ==> Left(old(disk), disk, {Record(key, Value(value))}, |old(memtable)| + 1, format)
      ensures ok ==> Valid() && Updated(old(disk), disk, key, Some(value))
      ensures ok ==> memtable == AfterWrite(old(memtable), Record(key, Value(value)), options.flushThreshold)
      ensures ok && memtable != [] ==> disk.files == old(disk).files
      ensures ok && memtable == [] ==> disk.wal == [] && forall l | 0 <= l < |levels| :: !Needs(levels, l)
      ensures !ok && !overflowed ==> SameView(old(disk), disk) || Updated(old(disk), disk, key, Some(value))
      ensures old(budget).None? ==> budget.None? && (ok || overflowed)
      ensures nextSstId >= old(nextSstId)
      ensures ok && old(DisjointLevels(disk.files)) ==> DisjointLevels(disk.files)
      ensures Uses(old(Use()), nextSstId, 1, 0) && (ok ==> Spent(old(Use()), Use(), 1, 0))
      ensures Traced() && old(states) <= states && old(passed) <= passed && (!ok && !overflowed ==> stopped.Some?)
      ensures !overflowed ==>
                && EachLeft(states, |old(states)|, old(disk), {Record(key, Value(value))}, |old(memtable)| + 1, format)
                && (|| AllUpdated(states, |old(states)|, old(disk), key, Some(value))
                    || AllSame(states, |old(states)|, old(disk)))
      ensures ok ==> AllUpdated(states, |old(states)|, old(disk), key, Some(value))
    {
      hide *;
      WrittenIs(key, Some(value));
      ok := Write(key, Some(value));
    }

    method Delete(key: Key) returns (ok: bool, existed: bool)
      requires Valid()
      modifies this
      ensures overflowed ==>
                !ok && Full(old(disk), {Record(key, Tombstone)}, |old(memtable)| + 1, options.targetFileSize)
      ensures !overflowed ==> Left(old(disk), disk, {Record(key, Tombstone)}, |old(memtable)| + 1, format)
      ensures ok ==> Valid() && Updated(old(disk), disk, key, None)
      ensures ok ==> memtable == AfterWrite(old(memtable), Record(key, Tombstone), options.flushThreshold)
      ensures ok && memtable != [] ==> disk.files == old(disk).files
      ensures ok && memtable == [] ==> disk.wal == [] && forall l | 0 <= l < |levels| :: !Needs(levels, l)
      ensures !ok && !overflowed ==> SameView(old(disk), disk) || Updated(old(disk), disk, key, None)
      ensures existed <==> old(Lookup(disk, key)).Some?
      ensures old(budget).None? ==> budget.None? && (ok || overflowed)
      ensures nextSstId >= old(nextSstId)
      ensures ok && old(DisjointLevels(disk.files)) ==> DisjointLevels(disk.files)
      ensures Uses(old(Use()), nextSstId, 1, 0) && (ok ==> Spent(old(Use()), Use(), 1, 0))
      ensures Traced() && old(states) <= states && old(passed) <= passed && (!ok && !overflowed ==> stopped.Some?)
      ensures !overflowed ==>
                && EachLeft(states, |old(states)|, old(disk), {Record(key, Tombstone)}, |old(memtable)| + 1, format)
                && (|| AllUpdated(states, |old(states)|, old(disk), key, None)
                    || AllSame(states, |old(states)|, old(disk)))
      ensures ok ==> AllUpdated(states, |old(states)|, old(disk), key, None)
    {
      hide *;
      WrittenIs(key, None);
      var before := Get(key);
      existed := before.Some?;
      ok := Write(key, None);
    }

    // ---------- reading ----------

    /** The memtable, then the levels in order, each from its newest file. */
    method Get(key: Key) returns (value: Option<Bytes>)
      requires Valid()
      ensures value == Lookup(disk, key)
    {
      hide Recover, Top, RecordsOf, ReadOrder, NewestFirst, Mirrors, Coherent, WellFormed, Newest;
      var entry := Find(memtable, key);
      if entry.Some? {
        return Visible(entry);
      }
      ReadOrderLists(levels, disk.files);
      FirstFindIsNewest(ReadOrder(levels, 0), disk.files, key);
      var level := 0;
      while level < |levels|
        invariant 0 <= level <= |levels|
        invariant FirstFind(RecordsOf(ReadOrder(levels, level)), key) == Newest(disk.files, key)
      {
        var files := levels[level];
        var i := |files|;
        SplitFirst(levels, level);
        while i > 0
          invariant 0 <= i <= |files|
          invariant FirstFind(RecordsOf(NewestFirst(files[..i], level) + ReadOrder(levels, level + 1)), key)
                 == Newest(disk.files, key)
        {
          i := i - 1;
          var found := Find(files[i].records, key);
          NewestFirstStep(files, level, i, ReadOrder(levels, level + 1));
          FirstOfCons(Source(level, files[i]), NewestFirst(files[..i], level) + ReadOrder(levels, level + 1), key);
          if found.Some? {
            return Visible(found);
          }
        }
        LevelDone(files, level, ReadOrder(levels, level + 1));
        level := level + 1;
      }
      NothingBelow(levels, key);
      return None;
    }

    /** The merge of the memtable and every table, newest first, within bounds. */
    method Range(start: Bound, end: Bound) returns (iter: RangeIterator)
      requires Valid()
      ensures iter.Valid() && fresh(iter) && fresh(iter.merged)
      ensures Records.Sorted(iter.Remaining())
      ensures forall k :: Find(iter.Remaining(), k)
                       == if && (start.Unbounded? || Less(start.key, k) || (start.Included? && k == start.key))
                             && (end.Unbounded? || Less(k, end.key) || (end.Included? && k == end.key))
                             && Lookup(disk, k).Some?
                          then Some(Value(Lookup(disk, k).value)) else None
    {
      hide Recover, Top, Lookup, MergeAll, Shown;
      var children := Children();
      ReadOrderLists(levels, disk.files);
      ViewIsMerge(disk, memtable, ReadOrder(levels, 0));
      var merged := new MergeIterator(children, false);
      iter := new RangeIterator(merged, start, end);
      RangeFinds(Shown(MergeAll([memtable] + RecordsOf(ReadOrder(levels, 0))), false), start, end);
      forall k
        ensures AfterStart(k, start)
           <==> start.Unbounded? || Less(start.key, k) || (start.Included? && k == start.key)
        ensures BeforeEnd(k, end) <==> end.Unbounded? || Less(k, end.key) || (end.Included? && k == end.key)
      {
        BoundsMean(k, start, end);
      }
    }

    /** Every live pair, in key order. */
    method Scan() returns (items: seq<(Key, Bytes)>)
      requires Valid()
      ensures forall k, v :: (k, v) in items <==> Lookup(disk, k) == Some(v)
      ensures forall i, j | 0 <= i < j < |items| :: Less(items[i].0, items[j].0)
    {
      hide Recover, Top, Lookup, MergeAll, Shown, Sound;
      var iter := Range(Unbounded, Unbounded);
      ghost var all := iter.Remaining();
      items := iter.Collect();
      forall k, v
        ensures (k, v) in items <==> Find(all, k) == Some(Value(v))
      {
        PairsFind(all, k, v);
      }
    }

    /** The memtable, then the levels in order, each from its newest file. */
    method Children() returns (children: seq<Cursor>)
      ensures Sources(children) == [memtable] + RecordsOf(ReadOrder(levels, 0))
    {
      hide *;
      children := [Cursor(memtable, None)];
      var level := 0;
      ghost var listed: seq<Source> := [];
      MemtableFirst(memtable);
      assert listed + ReadOrder(levels, 0) == ReadOrder(levels, 0);
      while level < |levels|
        invariant 0 <= level <= |levels|
        invariant listed + ReadOrder(levels, level) == ReadOrder(levels, 0)
        invariant Sources(children) == [memtable] + RecordsOf(listed)
      {
        var files := levels[level];
        var i := |files|;
        SplitFirst(levels, level);
        while i > 0
          invariant 0 <= i <= |files|
          invariant listed + (NewestFirst(files[..i], level) + ReadOrder(levels, level + 1)) == ReadOrder(levels, 0)
          invariant Sources(children) == [memtable] + RecordsOf(listed)
        {
          i := i - 1;
          ghost var older := NewestFirst(files[..i], level) + ReadOrder(levels, level + 1);
          NewestFirstStep(files, level, i, ReadOrder(levels, level + 1));
          assert listed + ([Source(level, files[i])] + older) == listed + [Source(level, files[i])] + older;
          assert [memtable] + (RecordsOf(listed) + [files[i].records])
              == [memtable] + RecordsOf(listed) + [files[i].records];
          SourcesMore(children, Cursor(files[i].records, None));
          RecordsOfMore(listed, Source(level, files[i]));
          children := children + [Cursor(files[i].records, None)];
          listed := listed + [Source(level, files[i])];
        }
        LevelDone(files, level, ReadOrder(levels, level + 1));
        level := level + 1;
      }
      NothingBelow(levels, []);
      assert listed + [] == listed;
    }

    // ---------- files ----------

    /** Writes a table to a temporary file, renames it into place and loads it. */
    method WriteLevelFile(level: nat, records: seq<Record>) returns (ok: bool, sst: Sst)
      requires !overflowed && Records.Sorted(records) && level < U32_MODULUS && Traced() && stopped == None
      modifies this`disk, this`nextSstId, this`budget, this`stopped, this`overflowed, this`states, this`passed
      ensures disk.wal == old(disk).wal && disk.marker == old(disk).marker
      ensures disk.files == old(disk).files || disk.files == old(disk).files[old(nextSstId) := Table(level, records)]
      ensures nextSstId == old(nextSstId) + 1
      ensures overflowed ==> !ok && (!format.Fits(records) || old(nextSstId) >= U64_MODULUS)
      ensures overflowed ==> disk.files == old(disk).files[old(nextSstId) := Table(level, records)]
      ensures !overflowed ==> disk.files == old(disk).files || TableFits(format, old(nextSstId), Table(level, records))
      ensures ok ==> disk.files == old(disk).files[old(nextSstId) := Table(level, records)]
      ensures ok ==> TableFits(format, old(nextSstId), Table(level, records))
      ensures ok ==> sst == Sst(old(nextSstId), records)
      ensures old(budget).None? ==> budget.None? && (ok <==> !overflowed)
      ensures old(budget).None? ==> (overflowed <==> !format.Fits(records) || old(nextSstId) >= U64_MODULUS)
      ensures Traced() && old(states) <= states && old(passed) <= passed && (ok ==> stopped == None)
      ensures !ok && !overflowed ==> stopped.Some?
      ensures FileSteps(old(states), states, old(disk), old(nextSstId), Table(level, records))
      ensures |states| <= |old(states)| + 1 ==> disk.files == old(disk).files
      ensures |states| > |old(states)| + 1 ==>
                disk.files == old(disk).files[old(nextSstId) := Table(level, records)]
      ensures !overflowed && |states| > |old(states)| + 1 ==>
                TableFits(format, old(nextSstId), Table(level, records))
    {
      hide *;
      LastState();
      TableFitsIs(format, nextSstId, Table(level, records));
      NoStep(states, disk, nextSstId, Table(level, records));
      LevelsAreSmall();
      var id := nextSstId;
      nextSstId := nextSstId + 1;
      sst := Sst(id, []);
      ok := Hit(BeforeSstableCreation);
      if !ok { return; }
      var file := WriteSsTable(records, format.blockSize, format.sizing);
      EffectIs(disk, TmpWritten(id));
      Do(TmpWritten(id));
      ghost var written := Moment(disk, passed);
      FirstStep(old(states), written, old(disk), id, Table(level, records));
      ok := Hit(AfterSstableWrite);
      if !ok { return; }
      ok := Hit(BeforeAtomicRename);
      if !ok { return; }
      EffectIs(disk, TmpRenamed(id, Table(level, records)));
      Do(TmpRenamed(id, Table(level, records)));
      SecondStep(old(states), written, Moment(disk, passed), old(disk), id, Table(level, records));
      if !format.Fits(records) || id >= U64_MODULUS {
        overflowed := true;
        return false, sst;
      }
      ok := Hit(AfterAtomicRename);
      if !ok { return; }
      FileOfIs(format, records);
      FittingTableLoads(format, records);
      var loaded := SsTableReader.Load(file);
      var entries := loaded.value.Entries();
      sst := Sst(id, entries);
    }

    /** The memtable becomes an L0 file; a log that is no longer needed is emptied. */
    method Flush() returns (ok: bool)
      requires Valid()
      modifies this
      ensures overflowed ==> !ok && Full(old(disk), {}, |old(memtable)|, options.targetFileSize)
      ensures old(budget).None? && old(memtable) != [] && !format.Fits(old(memtable)) ==>
                overflowed && disk.files == old(disk).files[old(nextSstId) := Table(0, old(memtable))]
      ensures !overflowed ==> Unharmed(old(disk), disk, format)
      ensures ok ==> Valid() && memtable == []
      ensures ok && old(memtable) == [] ==> disk == old(disk)
      ensures ok && old(memtable) != [] ==>
                && disk.wal == []
                && Settled(Metas(levels, |levels|, format.FileSize()), options.LevelConfig())
      ensures old(budget).None? ==> budget.None? && (ok || overflowed)
      ensures nextSstId >= old(nextSstId)
      ensures ok && old(DisjointLevels(disk.files)) ==> DisjointLevels(disk.files)
      ensures Uses(old(Use()), nextSstId, 0, 0) && (ok ==> Spent(old(Use()), Use(), 0, 0))
      ensures Traced() && old(states) <= states && old(passed) <= passed && (!ok && !overflowed ==> stopped.Some?)
      ensures !overflowed ==> AllKept(states, |old(states)|, old(disk), format)
      ensures ok && old(memtable) != [] ==> |levels| >= 1 && |levels[0]| < Max(1, options.l0Threshold)
      ensures ok && old(memtable) != [] ==>
                forall l | 1 <= l < |levels| ::
                  BytesIn(levels[l], format) % U64_MODULUS
                  <= Max(1, options.targetLevelSize) * Power(Max(2, options.multiplier), l - 1)
      ensures ok && old(memtable) != [] ==> forall l | 0 <= l < |levels| :: !Needs(levels, l)
    {
      hide *;
      KeptFromTheStart();
      NothingSpent();
      if memtable == [] {
        return true;
      }
      ok := FlushMemtable();
      if ok {
        ghost var flushed, use, soFar := disk, Use(), states;
        KeptParts(old(disk));
        ok := CompactPending();
        if !overflowed {
          AllKeptThrough(soFar, |old(states)|, old(disk), states, flushed, format);
        }
        SpentInTurn(old(Use()), use, 0, 0, ok);
        if !overflowed {
          UnharmedThrough(old(disk), flushed, disk, format);
        }
        FullThrough(old(disk), flushed, 0, |old(memtable)|, options.targetFileSize);
      }
    }

    /** The first part of a flush: table, log, metadata. */
    method FlushMemtable() returns (ok: bool)
      requires Valid() && memtable != []
      modifies this
      ensures overflowed ==> !ok && Full(old(disk), {}, |old(memtable)|, options.targetFileSize)
      ensures old(budget).None? && !format.Fits(old(memtable)) ==>
                overflowed && disk.files == old(disk).files[old(nextSstId) := Table(0, old(memtable))]
      ensures !overflowed ==> Unharmed(old(disk), disk, format)
      ensures ok ==> Valid() && memtable == [] && disk.wal == []
      ensures ok ==> disk.files == old(disk).files[old(nextSstId) := Table(0, old(memtable))]
      ensures old(budget).None? ==> budget.None? && (ok || overflowed)
      ensures nextSstId == old(nextSstId) + 1
      ensures ok && old(DisjointLevels(disk.files)) ==> DisjointLevels(disk.files)
      ensures Uses(old(Use()), nextSstId, 0, 0) && (ok ==> Spent(old(Use()), Use(), 0, 0))
      ensures Traced() && old(states) <= states && old(passed) <= passed && (!ok && !overflowed ==> stopped.Some?)
      ensures !overflowed ==> AllKept(states, |old(states)|, old(disk), format)
    {
      hide *;
      KeptFromTheStart();
      MemtableToFlush();
      LevelsAreSmall();
      UseIs();
      UsesEntries(Use(), nextSstId + 1, 0, 0);
      SpentByFlush(disk.files, nextSstId, memtable);
      var sst;
      ok, sst := WriteLevelFile(0, memtable);
      if overflowed {
        MemtableTooLarge(old(disk), old(memtable));
        return;
      }
      TableSteps(old(disk), old(states), old(nextSstId), memtable);
      if !ok { return; }
      ghost var soFar := states;
      ok := InstallTable(sst, old(disk));
      AllKeptJoin(soFar, |old(states)|, states, old(disk), format);
      if ok {
        UseIs();
      }
    }

    /** The second part of a flush: the log is emptied, and the table takes the place of the memtable. */
    method InstallTable(sst: Sst, ghost d: Disk) returns (ok: bool)
      requires options.Valid() && !overflowed && Traced() && stopped == None && |levels| >= 1
      requires Sound(d) && Readable(d) && Storable(d, format) && d.marker == None && WellFormed(d.files)
      requires memtable != [] && memtable == Replay(Recover(d.wal).value.items) && Mirrors(levels, d.files)
      requires (forall id | id in d.files :: id < sst.id) && sst.records == memtable && nextSstId == sst.id + 1
      requires TableFits(format, sst.id, Table(0, memtable)) && Unharmed(d, disk, format)
      requires disk.files == d.files[sst.id := Table(0, memtable)] && disk.wal == d.wal && disk.marker == None
      modifies this`disk, this`memtable, this`levels, this`budget, this`stopped, this`states, this`passed
      ensures Unharmed(d, disk, format) && AllKept(states, |old(states)|, d, format)
      ensures ok ==> Valid() && memtable == [] && disk.wal == [] && disk.files == old(disk).files
      ensures ok && DisjointLevels(d.files) ==> WellFormed(disk.files) && DisjointLevels(disk.files)
      ensures old(budget).None? ==> ok && budget.None?
      ensures Traced() && old(states) <= states && old(passed) <= passed
      ensures if ok then stopped == None else stopped.Some?
    {
      hide *;
      AllKeptNone(states, d, format);
      ok := Hit(BeforeWalTruncation);
      if !ok { return; }
      EffectIs(disk, LogCut(0));
      Do(LogCut(0));
      FlushContents(d, disk, format, sst.id, memtable);
      UnharmedIs(d, disk, format);
      AllKeptMore(old(states), |old(states)|, d, Moment(disk, passed), format);
      ok := Hit(AfterWalTruncation);
      if !ok { return; }
      ok := Hit(BeforeMetadataUpdate);
      if !ok { return; }
      levels := levels[0 := levels[0] + [sst]];
      memtable := [];
      PushMirrors(old(levels), d.files, sst);
      ok := Hit(AfterMetadataUpdate);
      if !ok { return; }
      FlushedIsValid();
      FlushedDisjoint(d, disk, sst);
    }

    /** The memtable's table on its way into place. */
    lemma TableSteps(before: Disk, soFar: seq<Moment>, id: nat, mem: seq<Record>)
      requires Sound(before) && Readable(before) && before.marker == None && mem != []
      requires mem == Replay(Recover(before.wal).value.items)
      requires (forall o | o in before.files :: o < id) && Storable(before, format)
      requires soFar != [] && soFar[|soFar| - 1].disk == before && Traced()
      requires FileSteps(soFar, states, before, id, Table(0, mem))
      requires |states| > |soFar| + 1 ==> TableFits(format, id, Table(0, mem))
      ensures AllKept(states, |soFar|, before, format) && Unharmed(before, disk, format)
    {
      hide Recover, Lookup, Coherent, WellFormed, Storable, RecordsOn, LogEntries, TableFits, OneByOne, Unharmed;
      var tmp := before.(tmps := before.tmps + {id});
      TmpsContents(before, tmp, format);
      UnharmedIs(before, tmp, format);
      if |states| > |soFar| + 1 {
        var renamed := before.(files := before.files[id := Table(0, mem)], tmps := tmp.tmps - {id});
        FlushContents(before, renamed, format, id, mem);
        UnharmedIs(before, renamed, format);
      }
      FileStepsKept(soFar, states, before, before, id, Table(0, mem), format);
      UnharmedItself(before, format);
      LastOf(before, before, soFar);
    }

    lemma MemtableToFlush()
      requires Valid()
      ensures Readable(disk) && Sound(disk) && Storable(disk, format) && Records.Sorted(memtable)
      ensures memtable == Replay(Recover(disk.wal).value.items)
      ensures forall r | r in memtable :: r in RecordsOn(disk)
      ensures WellFormed(disk.files) && Mirrors(levels, disk.files) && |levels| >= 1 && options.Valid()
      ensures disk.marker == None && forall id | id in disk.files :: id < nextSstId
      ensures Recover(disk.wal).value.length == |disk.wal| && Traced() && stopped == None
      ensures states != [] && states[|states| - 1].disk == disk
    {
      hide Recover, Lookup, Coherent, WellFormed, Storable, RecordsOn, Mirrors, OneByOne;
      MemtableIsLogged(disk, memtable);
    }

    /** With the log empty and the levels in step, the handle can be used on. */
    lemma FlushedIsValid()
      requires options.Valid() && !overflowed && Storable(disk, format) && Sound(disk) && disk.marker == None
      requires disk.wal == [] && memtable == [] && Recover(disk.wal) == Ok(Frames.Parsed([], 0))
      requires |levels| >= 1 && Mirrors(levels, disk.files) && forall id | id in disk.files :: id < nextSstId
      requires Traced() && stopped == None
      ensures Valid()
    {
      hide Recover, Coherent, WellFormed, Storable, Mirrors, OneByOne;
    }

    lemma MemtableTooLarge(before: Disk, records: seq<Record>)
      requires Readable(before) && Records.Sorted(records) && records != []
      requires forall r | r in records :: r in RecordsOn(before)
      requires nextSstId > U64_MODULUS || !format.Fits(records)
      ensures Full(before, {}, |records|, options.targetFileSize)
    {
      hide Room, Format.Fits, RecordsOn;
      if !format.Fits(records) {
        TableTooLarge(format, RecordsOn(before) + {}, records, |records|, options.targetFileSize);
      }
    }

    /** What is full for what was left is full for what was there. */
    lemma FullThrough(before: Disk, between: Disk, entries: nat, more: nat, target: nat)
      requires Readable(before) && Readable(between) && NoneNew(before, between) && entries <= more
      ensures Full(between, {}, entries, target) ==> Full(before, {}, more, target)
    {
      hide Room, RecordsOn, LogEntries;
      if Room(format, RecordsOn(before) + {}, more, target) {
        RoomForLess(format, RecordsOn(between) + {}, entries, target, RecordsOn(before) + {}, more, target);
      }
    }

    /** The same after a write was logged. */
    lemma LeavesAfter(before: Disk, logged: Disk, added: set<Record>, entries: nat)
      requires Readable(before) && Readable(logged) && RecordsOn(logged) == RecordsOn(before) + added
      requires LogEntries(logged) <= entries
      ensures Unharmed(logged, disk, format) ==> Left(before, disk, added, entries, format)
      ensures Full(logged, {}, LogEntries(logged), options.targetFileSize) ==>
                Full(before, added, entries, options.targetFileSize)
    {
      hide Room, RecordsOn, Storable, Sound, Lookup;
      assert RecordsOn(logged) + {} == RecordsOn(before) + added;
      var target := options.targetFileSize;
      if Room(format, RecordsOn(before) + added, entries, target) {
        RoomForLess(format, RecordsOn(logged) + {}, LogEntries(logged), target,
                    RecordsOn(before) + added, entries, target);
      }
    }

    // ---------- compaction ----------

    method CompactPending() returns (ok: bool)
      requires Valid()
      modifies this
      ensures overflowed ==> !ok && Full(old(disk), {}, 0, options.targetFileSize)
      ensures !overflowed ==> Unharmed(old(disk), disk, format)
      ensures ok ==> Valid() && Settled(Metas(levels, |levels|, format.FileSize()), options.LevelConfig())
      ensures ok ==> disk.wal == old(disk).wal && memtable == old(memtable)
      ensures old(budget).None? ==> budget.None? && (ok || overflowed)
      ensures nextSstId >= old(nextSstId)
      ensures ok && old(DisjointLevels(disk.files)) ==> DisjointLevels(disk.files)
      ensures Uses(old(Use()), nextSstId, 0, 0) && (ok ==> Spent(old(Use()), Use(), 0, 0))
      ensures Traced() && old(states) <= states && old(passed) <= passed && (!ok && !overflowed ==> stopped.Some?)
      ensures !overflowed ==> AllKept(states, |old(states)|, old(disk), format)
      ensures ok ==> |levels| >= 1 && |levels[0]| < Max(1, options.l0Threshold)
      ensures ok ==>
                forall l | 1 <= l < |levels| ::
                  BytesIn(levels[l], format) % U64_MODULUS
                  <= Max(1, options.targetLevelSize) * Power(Max(2, options.multiplier), l - 1)
      ensures ok ==> forall l | 0 <= l < |levels| :: !Needs(levels, l)
      ensures old(&& |levels[0]| < Max(1, options.l0Threshold)
                  && forall l | 1 <= l < |levels| ::
                       BytesIn(levels[l], format) % U64_MODULUS
                       <= Max(1, options.targetLevelSize) * Power(Max(2, options.multiplier), l - 1)) ==>
                ok && disk == old(disk)
    {
      hide *;
      KeptFromTheStart();
      NothingSpent();
      WithinBudgets();
      ghost var idle := forall l | 0 <= l < |levels| :: !Needs(levels, l);
      while true
        invariant idle ==> disk == old(disk) && levels == old(levels)
        invariant Uses(old(Use()), nextSstId, 0, 0) && Spent(old(Use()), Use(), 0, 0)
        invariant Traced() && old(states) <= states && old(passed) <= passed
        invariant AllKept(states, |old(states)|, old(disk), format)
        invariant Unharmed(old(disk), disk, format)
        invariant Valid() && Readable(disk) && WellFormed(disk.files) && NoneNew(old(disk), disk)
        invariant Readable(old(disk)) && WellFormed(old(disk).files) && SameView(old(disk), disk)
        invariant disk.wal == old(disk).wal && memtable == old(memtable)
        invariant old(budget).None? ==> budget.None?
        invariant nextSstId >= old(nextSstId)
        invariant old(DisjointLevels(disk.files)) ==> DisjointLevels(disk.files)
        decreases Energy(disk.files, nextSstId)
      {
        ghost var d, use, soFar := disk, Use(), states;
        var settled;
        ok, settled := CompactOnce();
        if !overflowed {
          AllKeptThrough(soFar, |old(states)|, old(disk), states, d, format);
        }
        SpentInTurn(old(Use()), use, 0, 0, ok);
        if !overflowed {
          UnharmedThrough(old(disk), d, disk, format);
        }
        FullThrough(old(disk), d, 0, 0, options.targetFileSize);
        if !ok || settled {
          if ok {
            WithinBudgets();
          }
          return;
        }
        KeptParts(old(disk));
      }
    }

    lemma KeptParts(before: Disk)
      requires Valid() && Readable(before) && Unharmed(before, disk, format)
      ensures Readable(disk) && WellFormed(disk.files) && NoneNew(before, disk) && SameView(before, disk)
    {
      hide Recover, Lookup, Storable, RecordsOn, Mirrors, WellFormed, Coherent;
    }

    /** No level needs work exactly when every level is within its budget. */
    lemma WithinBudgets()
      requires Valid()
      ensures |levels| >= 1
      ensures (forall l | 0 <= l < |levels| :: !Needs(levels, l))
         <==> && |levels[0]| < Max(1, options.l0Threshold)
              && forall l | 1 <= l < |levels| ::
                   BytesIn(levels[l], format) % U64_MODULUS
                   <= Max(1, options.targetLevelSize) * Power(Max(2, options.multiplier), l - 1)
    {
      hide Recover, Coherent, WellFormed, Storable, Mirrors, OneByOne, BytesIn, Power;
      if forall l | 0 <= l < |levels| :: !Needs(levels, l) {
        assert !Needs(levels, 0);
        forall l | 1 <= l < |levels|
          ensures BytesIn(levels[l], format) % U64_MODULUS
               <= Max(1, options.targetLevelSize) * Power(Max(2, options.multiplier), l - 1)
        {
          assert !Needs(levels, l);
        }
      }
    }

    lemma NeedsIs()
      ensures forall l | 0 <= l < |levels| ::
                Needs(levels, l) <==> NeedsWork(levels, options.l0Threshold, options.multiplier,
                                                options.targetLevelSize, format, l)
    {
      hide NeedsWork;
    }

    lemma FirstMovedIs(before: Levels, fs: Files, gs: Files, l: nat, taken: set<nat>)
      requires WellFormed(fs) && Needs(before, l) && (forall k | 0 <= k < l :: !Needs(before, k))
      requires MovedDown(fs, gs, l, taken)
      ensures FirstMoved(before, fs, gs)
    {
      hide MovedDown, Needs;
    }

    /** The scheduler finds nothing to do exactly when no level needs work, or takes the first that does. */
    lemma NeedsAre(metas: seq<FileMeta>)
      requires Valid() && metas == Metas(levels, |levels|, format.FileSize())
      ensures Settled(metas, options.LevelConfig()) <==> forall l | 0 <= l < |levels| :: !Needs(levels, l)
      ensures forall l: nat, upper | Chosen(metas, options.LevelConfig(), l, upper) ::
                Needs(levels, l) && forall k | 0 <= k < l :: !Needs(levels, k)
    {
      NeedsIs();
      hide Recover, Coherent, WellFormed, Storable, Mirrors, OneByOne, NeedsWork, Settled, L0Full, OverBudget;
      KeptFromTheStart();
      SettledIff(levels, disk.files, options.l0Threshold, options.multiplier, options.targetLevelSize, format);
      forall l: nat, upper | Chosen(metas, options.LevelConfig(), l, upper)
        ensures Needs(levels, l) && forall k | 0 <= k < l :: !Needs(levels, k)
      {
        forall k: nat | k <= l
          ensures Needs(levels, k) <==> if k == 0 then L0Full(metas, options.LevelConfig())
                                        else OverBudget(metas, options.LevelConfig(), k)
        {
          NeedsWorkIff(levels, disk.files, options.l0Threshold, options.multiplier, options.targetLevelSize, format, k);
        }
      }
    }

    /** One turn of the loop: the job that some level needs next, if any does. */
    method CompactOnce() returns (ok: bool, settled: bool)
      requires Valid()
      modifies this
      ensures overflowed ==> !ok && Full(old(disk), {}, 0, options.targetFileSize)
      ensures !overflowed ==> Unharmed(old(disk), disk, format)
      ensures ok ==> Valid() && disk.wal == old(disk).wal && memtable == old(memtable)
      ensures ok && settled ==>
                && disk == old(disk) && nextSstId == old(nextSstId)
                && Settled(Metas(levels, |levels|, format.FileSize()), options.LevelConfig())
      ensures ok && !settled ==> Energy(disk.files, nextSstId) < Energy(old(disk).files, old(nextSstId))
      ensures old(budget).None? ==> budget.None? && (ok || overflowed)
      ensures nextSstId >= old(nextSstId)
      ensures ok && old(DisjointLevels(disk.files)) ==> DisjointLevels(disk.files)
      ensures Uses(old(Use()), nextSstId, 0, 0) && (ok ==> Spent(old(Use()), Use(), 0, 0))
      ensures Traced() && old(states) <= states && old(passed) <= passed && (!ok && !overflowed ==> stopped.Some?)
      ensures !overflowed ==> AllKept(states, |old(states)|, old(disk), format)
      ensures ok && settled ==> forall l | 0 <= l < |levels| :: !Needs(levels, l)
      ensures old(forall l | 0 <= l < |levels| :: !Needs(levels, l)) ==> ok && settled
      ensures ok && !settled ==> FirstMoved(old(levels), old(disk).files, disk.files)
    {
      hide *;
      KeptFromTheStart();
      NothingSpent();
      MemtableToFlush();
      ghost var level, top, lo, hi;
      var next;
      next, level, top, lo, hi := NextJob();
      if next.None? {
        return true, true;
      }
      var job := next.value;
      PlannedJobDone(levels, disk.files, job, level, top, lo, hi, nextSstId, nextSstId + |OutputPieces(job)|);
      JobUses(levels, disk.files, job, nextSstId);
      UseIs();
      settled := false;
      ok := ExecuteJob(job);
      UsesInJob(old(Use()), nextSstId);
      if ok {
        DoneIs(old(disk), disk, job, old(nextSstId));
        FirstMovedIs(old(levels), old(disk).files, disk.files, level, top);
        UseIs();
        SpentByJob(old(Use()), Use());
      }
    }

    /** What the scheduler plans, and the tables for it. */
    method NextJob() returns (next: Option<CompactionJob>, ghost level: nat, ghost top: set<nat>, ghost lo: Key,
                              ghost hi: Key)
      requires Valid()
      ensures next.None? ==>
                && (forall l | 0 <= l < |levels| :: !Needs(levels, l))
                && Settled(Metas(levels, |levels|, format.FileSize()), options.LevelConfig())
      ensures next.Some? ==>
                && Needs(levels, level) && (forall k | 0 <= k < level :: !Needs(levels, k)) && level < |levels|
                && level < FLOOR
                && InputsFrom(next.value.inputs, levels) && Ready(levels, disk, next.value, nextSstId)
                && next.value.outputLevel < U32_MODULUS
                && next.value.targetFileSize == options.targetFileSize
                && Takes(disk.files, AsJob(next.value), level, top, lo, hi)
                && MovedDown(disk.files, (disk.files - IdsOf(next.value.inputs)) + OutputFiles(next.value, nextSstId),
                             level, top)
    {
      hide *;
      MemtableToFlush();
      level, top, lo, hi := 0, {}, [], [];
      var config := options.LevelConfig();
      var metas := FileMetas();
      ghost var upper: seq<FileMeta>;
      var plan;
      plan, upper := PickCompaction(metas, config);
      NeedsAre(metas);
      if plan.None? {
        return None, level, top, lo, hi;
      }
      level, top := plan.value.level, set id | id in plan.value.inputs;
      lo, hi := UnionRange(upper).0, UnionRange(upper).1;
      MetasDescribe(levels, disk.files, format.FileSize());
      PlanTakes(metas, disk.files, config, plan.value, upper);
      PlanLevels(metas, disk.files, config, plan.value, upper);
      ChosenAboveFloor(metas, config, level, upper);
      var job := PlanJob(plan.value);
      PlannedLevel(job, plan.value);
      PlanIsSafe(disk.files, AsJob(job), level, top, lo, hi);
      ReadyFor(job);
      OutputsAre(levels, disk.files, job, nextSstId);
      JobIs(job, plan.value);
      PlannedMoves(metas, disk.files, config, plan.value, upper, OutputFiles(job, nextSstId));
      NeedsLevel(level);
      next := Some(job);
    }

    lemma NeedsLevel(l: nat)
      requires Needs(levels, l)
      ensures l < |levels|
    {
    }

    lemma ReadyFor(job: CompactionJob)
      requires Valid() && InputsFrom(job.inputs, levels) && Safe(disk.files, AsJob(job))
      ensures Ready(levels, disk, job, nextSstId)
    {
      hide Recover, Coherent, WellFormed, Storable, Mirrors, Safe, InputsFrom;
    }

    /** `file_metas`. */
    method FileMetas() returns (metas: seq<FileMeta>)
      ensures metas == Metas(levels, |levels|, format.FileSize())
    {
      hide Format.FileOf, Format.FileSize, MetaOf;
      metas := [];
      var level := 0;
      while level < |levels|
        invariant 0 <= level <= |levels|
        invariant metas == Metas(levels, level, format.FileSize())
      {
        var files := levels[level];
        ghost var before := metas;
        var i := 0;
        while i < |files|
          invariant 0 <= i <= |files|
          invariant metas == before + LevelMetas(files[..i], level, format.FileSize())
        {
          assert files[..i + 1][..i] == files[..i];
          metas := metas + MetaOf(files[i], level, format.FileSize());
          i := i + 1;
        }
        assert files[..i] == files;
        level := level + 1;
      }
    }

    /** `plan_job`: the tables a plan names, from their two levels. */
    method PlanJob(plan: CompactionPlan) returns (job: CompactionJob)
      requires Valid()
      requires forall i | i in plan.inputs :: i in disk.files && disk.files[i].level == plan.level
      requires forall i | i in plan.overlaps :: i in disk.files && disk.files[i].level == plan.level + 1
      ensures InputsFrom(job.inputs, levels) && AsJob(job) == JobOf(plan)
      ensures job.targetFileSize == options.targetFileSize
    {
      hide Recover, Coherent, WellFormed, Storable, Sound, Mirrors, Replay;
      var inputs: seq<Source> := [];
      var level := 0;
      while level < |levels|
        invariant 0 <= level <= |levels|
        invariant Distinct(inputs)
        invariant forall s :: s in inputs <==>
                    s.level < level && InLevels(levels, s.level, s.sst) && Wanted(plan, s.level, s.sst.id)
      {
        var files := levels[level];
        var i := 0;
        while i < |files|
          invariant 0 <= i <= |files|
          invariant Distinct(inputs)
          invariant forall s :: s in inputs <==>
                      && Wanted(plan, s.level, s.sst.id)
                      && (|| (s.level < level && InLevels(levels, s.level, s.sst))
                          || (s.level == level && s.sst in files[..i]))
        {
          EachOnce(levels, disk.files, level, i);
          assert files[..i + 1] == files[..i] + [files[i]];
          if Wanted(plan, level, files[i].id) {
            inputs := inputs + [Source(level, files[i])];
          }
          i := i + 1;
        }
        assert files[..i] == files;
        level := level + 1;
      }
      job := CompactionJob(inputs, plan.level + 1, plan.dropTombstones, options.targetFileSize);
      PlannedInputs(levels, disk.files, plan, inputs);
    }

    /** Merges the inputs into new files, then lets the inputs go. */
    method ExecuteJob(job: CompactionJob) returns (ok: bool)
      requires Valid() && Ready(levels, disk, job, nextSstId) && job.outputLevel < U32_MODULUS
      modifies this
      ensures overflowed ==> !ok && Full(old(disk), {}, 0, job.targetFileSize)
      ensures !overflowed ==> Unharmed(old(disk), disk, format)
      ensures ok ==> Valid() && nextSstId == old(nextSstId) + |OutputPieces(job)|
      ensures ok ==> Done(old(disk), disk, job, old(nextSstId)) && memtable == old(memtable)
      ensures old(budget).None? ==> budget.None? && (ok || overflowed)
      ensures nextSstId >= old(nextSstId)
      ensures nextSstId <= old(nextSstId) + |OutputPieces(job)|
      ensures Traced() && old(states) <= states && old(passed) <= passed && (!ok && !overflowed ==> stopped.Some?)
      ensures !overflowed ==> AllKept(states, |old(states)|, old(disk), format)
    {
      hide *;
      KeptFromTheStart();
      MemtableToFlush();
      var outputs;
      ok, outputs := WriteOutputs(job);
      if !ok { return; }
      UnharmedParts(old(disk), disk, format);
      CountTables(outputs, OutputPieces(job), old(nextSstId));
      ok := Hit(AfterCompactionOutputCreation);
      if !ok { return; }
      ghost var soFar := states;
      ok := DropInputs(job, outputs, old(disk), old(nextSstId));
      AllKeptJoin(soFar, |old(states)|, states, old(disk), format);
      if ok {
        DoneIs(old(disk), disk, job, old(nextSstId));
        DoneIsValid(old(disk));
      }
    }

    /** With the levels in step again, the handle can be used on. */
    lemma DoneIsValid(before: Disk)
      requires Traced() && stopped == None && options.Valid() && !overflowed
      requires Readable(before) && Unharmed(before, disk, format) && disk.marker == None && disk.wal == before.wal
      requires Recover(before.wal).value.length == |before.wal| && memtable == Replay(Recover(before.wal).value.items)
      requires |levels| >= 1 && Mirrors(levels, disk.files) && forall id | id in disk.files :: id < nextSstId
      ensures Valid()
    {
      hide Recover, Coherent, WellFormed, Storable, Mirrors, OneByOne, RecordsOn, LogEntries, Lookup;
    }

    /** The merge, written out piece by piece. */
    method WriteOutputs(job: CompactionJob) returns (ok: bool, outputs: seq<Sst>)
      requires Valid() && Ready(levels, disk, job, nextSstId) && job.outputLevel < U32_MODULUS
      modifies this`disk, this`nextSstId, this`budget, this`stopped, this`overflowed, this`states, this`passed
      ensures overflowed ==> !ok && Full(old(disk), {}, 0, job.targetFileSize)
      ensures !overflowed ==> Unharmed(old(disk), disk, format)
      ensures nextSstId >= old(nextSstId)
      ensures ok ==> Writing(old(disk), disk, job, old(nextSstId), OutputPieces(job))
      ensures ok ==> TablesFor(outputs, OutputPieces(job), old(nextSstId)) && nextSstId == old(nextSstId) + |outputs|
      ensures old(budget).None? ==> budget.None? && (ok || overflowed)
      ensures nextSstId <= old(nextSstId) + |OutputPieces(job)|
      ensures Traced() && old(states) <= states && old(passed) <= passed && (!ok && !overflowed ==> stopped.Some?)
      ensures !overflowed ==> AllKept(states, |old(states)|, old(disk), format)
      ensures ok ==> stopped == None && !overflowed && disk.wal == old(disk).wal && disk.marker == None
    {
      hide *;
      KeptFromTheStart();
      ReadyToMerge(levels, disk, job, nextSstId);
      var merged := MergeInputs(job.inputs);
      outputs := [];
      var current: seq<Record> := [];
      var currentBytes := 0;
      ghost var pieces: seq<seq<Record>> := [];
      ghost var d, id0, drop, target := disk, nextSstId, job.dropTombstones, job.targetFileSize;
      NothingWritten(d, job, id0);
      MemtableToFlush();
      AllKeptNone(states, d, format);
      ghost var from := |states|;
      while merged.IsValid()
        invariant merged.Valid() && merged.keepTombstones && fresh(merged)
        invariant pieces + Cut(current, Surviving(merged.Remaining(), drop), target) == OutputPieces(job)
        invariant currentBytes == SizeOf(current)
        invariant Ready(levels, d, job, id0) && Writing(d, disk, job, id0, pieces)
        invariant TablesFor(outputs, pieces, id0) && nextSstId == id0 + |pieces| && |outputs| == |pieces|
        invariant !overflowed && Readable(d) && Unharmed(d, disk, format) && Storable(disk, format)
        invariant Traced() && old(states) <= states && old(passed) <= passed && stopped == None
        invariant AllKept(states, from, d, format)
        invariant old(budget).None? ==> budget.None?
        decreases |merged.Remaining()|
      {
        var key := merged.Key().value;
        var value := merged.Value();
        var entry := if value.Some? then Value(value.value) else Tombstone;
        SurvivingStep(merged.Remaining(), drop);
        VisibleEntry(merged.Remaining()[0].entry);
        merged.Advance();
        if job.dropTombstones && entry == Tombstone {
          continue;
        }
        CutOn(pieces, current, Record(key, entry), Surviving(merged.Remaining(), drop), target, OutputPieces(job));
        currentBytes := currentBytes + RecordSize(Record(key, entry));
        current := current + [Record(key, entry)];
        if currentBytes >= job.targetFileSize {
          var sst;
          ok, sst := WritePiece(job, d, from, id0, pieces, outputs, current,
                                Cut([], Surviving(merged.Remaining(), drop), target));
          if !ok { return; }
          pieces := pieces + [current];
          outputs := outputs + [sst];
          current := [];
          currentBytes := 0;
        }
      }
      SurvivingStep(merged.Remaining(), drop);
      CutEnd(current, target);
      if current != [] {
        var sst;
        ok, sst := WritePiece(job, d, from, id0, pieces, outputs, current, []);
        if !ok { return; }
        pieces := pieces + [current];
        outputs := outputs + [sst];
      }
      assert pieces == OutputPieces(job);
      WritingIs(d, disk, job, id0, pieces);
      ok := true;
    }

    /** The inputs in reading order, merged with their tombstones. */
    method MergeInputs(inputs: seq<Source>) returns (merged: MergeIterator)
      requires AllSorted(RecordsOf(Sort(inputs, ReadBefore())))
      ensures merged.Valid() && merged.keepTombstones && fresh(merged)
      ensures merged.Remaining() == MergedRecords(inputs)
    {
      var sources := Sort(inputs, ReadBefore());
      var children := seq(|sources|, i requires 0 <= i < |sources| => Cursor(sources[i].sst.records, None));
      assert Sources(children) == RecordsOf(sources);
      merged := new MergeIterator(children, true);
      ShownMembers(MergeAll(RecordsOf(sources)), true);
    }

    /** One output file. */
    method WritePiece(job: CompactionJob, ghost d: Disk, ghost from: nat, ghost first: nat,
                      ghost pieces: seq<seq<Record>>, ghost outputs: seq<Sst>, piece: seq<Record>,
                      ghost rest: seq<seq<Record>>)
      returns (ok: bool, sst: Sst)
      requires Ready(levels, d, job, first) && Writing(d, disk, job, first, pieces)
      requires pieces + [piece] + rest == OutputPieces(job) && nextSstId == first + |pieces|
      requires TablesFor(outputs, pieces, first)
      requires !overflowed && Storable(disk, format) && job.outputLevel < U32_MODULUS && Traced() && stopped == None
      requires Readable(d) && AllKept(states, from, d, format)
      modifies this`disk, this`nextSstId, this`budget, this`stopped, this`overflowed, this`states, this`passed
      ensures overflowed ==> !ok && Full(d, {}, 0, job.targetFileSize)
      ensures !overflowed ==> Unharmed(d, disk, format) && Storable(disk, format)
      ensures nextSstId == first + |pieces| + 1
      ensures ok ==> Writing(d, disk, job, first, pieces + [piece]) && sst == Sst(first + |pieces|, piece)
      ensures ok ==> TablesFor(outputs + [sst], pieces + [piece], first)
      ensures old(budget).None? ==> budget.None? && (ok || overflowed)
      ensures Traced() && old(states) <= states && old(passed) <= passed && (ok ==> stopped == None && !overflowed)
      ensures !ok && !overflowed ==> stopped.Some?
      ensures !overflowed ==> AllKept(states, from, d, format)
    {
      hide *;
      assert pieces + ([piece] + rest) == pieces + [piece] + rest;
      PieceIsDrawn(levels, d, job, first, pieces, piece, rest);
      PieceIsSorted(piece, RecordsOn(d));
      LastState();
      ok, sst := WriteLevelFile(job.outputLevel, piece);
      if overflowed {
        PieceTooLarge(d, piece, job.targetFileSize);
        return;
      }
      PieceSteps(job, d, first, pieces, piece, rest, old(disk), old(states));
      AllKeptJoin(old(states), from, states, d, format);
      if ok {
        WritingMore(d, old(disk), disk, job, first, pieces, piece);
        TablesForMore(outputs, pieces, first, piece);
      }
    }

    lemma LastState()
      requires Traced()
      ensures states != [] && states[|states| - 1].disk == disk
    {
      hide OneByOne;
    }

    lemma PieceIsSorted(piece: seq<Record>, some: set<Record>)
      requires DrawnFrom(piece, some)
      ensures Records.Sorted(piece) && piece != []
    {
    }

    lemma PieceTooLarge(before: Disk, piece: seq<Record>, target: nat)
      requires Readable(before) && DrawnFrom(piece, RecordsOn(before)) && Bounded(piece, 0, target)
      requires nextSstId > U64_MODULUS || !format.Fits(piece)
      ensures Full(before, {}, 0, target)
    {
      hide Room, Format.Fits, RecordsOn, Bounded;
      if !format.Fits(piece) {
        TableTooLarge(format, RecordsOn(before) + {}, piece, 0, target);
      }
    }

    /** An output file on its way into place. */
    lemma PieceSteps(job: CompactionJob, d: Disk, first: nat, pieces: seq<seq<Record>>, piece: seq<Record>,
                     rest: seq<seq<Record>>, before: Disk, soFar: seq<Moment>)
      requires Ready(levels, d, job, first) && Writing(d, before, job, first, pieces)
      requires pieces + [piece] + rest == OutputPieces(job) && Storable(before, format)
      requires soFar != [] && soFar[|soFar| - 1].disk == before && Traced()
      requires FileSteps(soFar, states, before, first + |pieces|, Table(job.outputLevel, piece))
      requires |states| > |soFar| + 1 ==> TableFits(format, first + |pieces|, Table(job.outputLevel, piece))
      ensures Readable(d) && AllKept(states, |soFar|, d, format) && Unharmed(d, disk, format) && Storable(disk, format)
    {
      hide Recover, Lookup, Coherent, WellFormed, Mirrors, InputsFrom, Safe, OutputPieces, FilesOf, Storable, TableFits,
        RecordsOn, LogEntries, Ready, OneByOne, Unharmed;
      var id, t := first + |pieces|, Table(job.outputLevel, piece);
      var tmp := before.(tmps := before.tmps + {id});
      assert pieces + ([piece] + rest) == pieces + [piece] + rest;
      OneMorePiece(job, d, first, pieces, [piece] + rest, before, before);
      OneMorePiece(job, d, first, pieces, [piece] + rest, before, tmp);
      if |states| > |soFar| + 1 {
        var renamed := before.(files := before.files[id := t], tmps := tmp.tmps - {id});
        WritingMore(d, before, renamed, job, first, pieces, piece);
        StorableTable(before, renamed, format, id, t);
        OneMorePiece(job, d, first, pieces + [piece], rest, renamed, renamed);
      }
      FileStepsKept(soFar, states, d, before, id, t, format);
      LastOf(d, before, soFar);
      UnharmedParts(d, disk, format);
    }

    lemma OneMorePiece(job: CompactionJob, d: Disk, first: nat, pieces: seq<seq<Record>>, rest: seq<seq<Record>>,
                       e: Disk, f: Disk)
      requires Ready(levels, d, job, first) && Writing(d, e, job, first, pieces) && pieces + rest == OutputPieces(job)
      requires Storable(e, format) && f == e.(tmps := f.tmps)
      ensures Readable(d) && Unharmed(d, f, format)
    {
      hide Recover, Lookup, Coherent, WellFormed, Mirrors, InputsFrom, Safe, OutputPieces, FilesOf, Storable, RecordsOn,
        LogEntries, Ready, Unharmed;
      WritingIsNothing(levels, d, f, job, first, pieces, rest);
      WritingAddsNone(levels, d, f, job, first, pieces, rest);
      StorablePart(e, f, format);
      SoundParts(f);
      UnharmedIs(d, f, format);
    }

    /** The present state is the last of them, if it is not the one before. */
    lemma LastOf(d: Disk, before: Disk, soFar: seq<Moment>)
      requires Traced() && Readable(d) && Unharmed(d, before, format)
      requires soFar != [] && soFar[|soFar| - 1].disk == before && soFar <= states
      requires AllKept(states, |soFar|, d, format)
      ensures Unharmed(d, disk, format)
    {
      hide Unharmed, OneByOne;
      if |states| == |soFar| {
        assert states == soFar;
      }
    }

    /** The second half of a job: marker, deletions, metadata, marker gone. */
    method DropInputs(job: CompactionJob, outputs: seq<Sst>, ghost d: Disk, ghost first: nat) returns (ok: bool)
      requires Ready(levels, d, job, first) && Writing(d, disk, job, first, OutputPieces(job))
      requires TablesFor(outputs, OutputPieces(job), first) && Storable(disk, format)
      requires Traced() && stopped == None && states[|states| - 1].passed < passed && |levels| >= 1
      modifies this`disk, this`levels, this`budget, this`stopped, this`states, this`passed
      ensures Readable(d) && Unharmed(d, disk, format)
      ensures ok ==> Done(d, disk, job, first)
      ensures ok ==> |levels| >= |old(levels)| && Mirrors(levels, disk.files)
      ensures ok ==> forall id | id in disk.files :: id < first + |outputs|
      ensures old(budget).None? ==> ok && budget.None?
      ensures Traced() && old(states) <= states && old(passed) <= passed
      ensures if ok then stopped == None else stopped.Some?
      ensures AllKept(states, |old(states)|, d, format)
      ensures ok ==> disk.wal == d.wal && disk.marker == None
    {
      hide *;
      ghost var e, w, from := disk, disk, |states|;
      var marker := Marker(OutputIds(outputs), InputIds(job.inputs));
      EffectIs(disk, Marked(marker));
      ReadyToMerge(levels, d, job, first);
      AllKeptNone(states, d, format);
      Do(Marked(marker));
      DroppingStarts(d, e, disk, job, outputs, first);
      DroppingIsKept(d, w, job, first, {});
      AllKeptMore(old(states), from, d, Moment(disk, passed), format);
      ok := Hit(AfterMarkerWrite);
      if !ok { return; }
      var i := 0;
      NoInputs(job.inputs);
      while i < |job.inputs|
        invariant 0 <= i <= |job.inputs| && levels == old(levels)
        invariant Dropping(d, disk, job, first, IdsOf(job.inputs[..i]))
        invariant Unharmed(d, disk, format) && AllKept(states, from, d, format)
        invariant Traced() && old(states) <= states && old(passed) <= passed && stopped == None
        invariant old(budget).None? ==> budget.None?
      {
        ok := Hit(BeforeObsoleteFileDelete);
        if !ok { return; }
        e := disk;
        ghost var soFar := states;
        EffectIs(disk, FileDeleted(job.inputs[i].sst.id));
        Do(FileDeleted(job.inputs[i].sst.id));
        DroppingMore(d, e, disk, job, first, i);
        DroppingIsKept(d, w, job, first, IdsOf(job.inputs[..i + 1]));
        AllKeptMore(soFar, from, d, Moment(disk, passed), format);
        i := i + 1;
      }
      assert job.inputs[..i] == job.inputs;
      ok := Hit(AfterObsoleteFileDelete);
      if !ok { return; }
      ok := Hit(BeforeMetadataUpdate);
      if !ok { return; }
      Retain(job.inputs);
      EnsureLevel(job.outputLevel);
      levels := Extended(levels, job.outputLevel, outputs);
      ok := Hit(AfterMetadataUpdate);
      if !ok { return; }
      e := disk;
      ghost var soFar := states;
      EffectIs(disk, Unmarked);
      Do(Unmarked);
      DroppingEnds(old(levels), d, e, disk, job, first);
      DoneIsKept(old(levels), d, w, job, first);
      AllKeptMore(soFar, from, d, Moment(disk, passed), format);
      DoneIs(d, disk, job, first);
      DoneMirrors(old(levels), d, disk, job, outputs, first);
      ExtendedHas(old(levels), IdsOf(job.inputs), job.outputLevel, outputs);
    }

    lemma DroppingIsKept(d: Disk, w: Disk, job: CompactionJob, first: nat, gone: set<nat>)
      requires Ready(levels, d, job, first) && Writing(d, w, job, first, OutputPieces(job))
      requires Dropping(d, disk, job, first, gone) && Storable(w, format)
      ensures Readable(d) && Unharmed(d, disk, format)
    {
      hide Recover, Lookup, Coherent, WellFormed, Storable, RecordsOn, LogEntries, Ready, Dropping, Writing,
        OutputPieces, Unharmed;
      DroppingIsNothing(levels, d, disk, job, first, gone);
      DroppingContents(levels, d, w, disk, job, first, gone, format);
      UnharmedIs(d, disk, format);
    }

    lemma DoneIsKept(levels0: Levels, d: Disk, w: Disk, job: CompactionJob, first: nat)
      requires Ready(levels0, d, job, first) && Writing(d, w, job, first, OutputPieces(job))
      requires Done(d, disk, job, first) && Storable(w, format)
      ensures Readable(d) && Unharmed(d, disk, format)
    {
      hide Recover, Lookup, Coherent, WellFormed, Storable, RecordsOn, LogEntries, Ready, Done, Writing, OutputPieces,
        Unharmed;
      DoneIsNothing(levels0, d, disk, job, first);
      DoneContents(levels0, d, w, disk, job, first, format);
      UnharmedIs(d, disk, format);
    }

    /** Drops the inputs from every level. */
    method Retain(inputs: seq<Source>)
      modifies this`levels
      ensures levels == Retained(old(levels), IdsOf(inputs))
    {
      var gone := IdsOf(inputs);
      var l := 0;
      while l < |levels|
        invariant 0 <= l <= |levels| == |old(levels)|
        invariant forall i | 0 <= i < l :: levels[i] == Without(old(levels)[i], gone)
        invariant forall i | l <= i < |levels| :: levels[i] == old(levels)[i]
      {
        levels := levels[l := Without(levels[l], gone)];
        l := l + 1;
      }
    }

    /** `ensure_level`. */
    method EnsureLevel(level: nat)
      modifies this`levels
      ensures levels == Padded(old(levels), level)
    {
      while |levels| <= level
        invariant Padded(levels, level) == Padded(old(levels), level)
        decreases level + 1 - |levels|
      {
        levels := levels + [[]];
      }
    }

    // ---------- recovery ----------

    /** `open_with_options`, after the directory was found: the state it leaves is the state it found. */
    method OpenDirectory() returns (ok: bool)
      requires options.Valid() && !overflowed && Sound(disk) && Storable(disk, format) && Traced() && stopped == None
      modifies this`disk, this`memtable, this`levels, this`nextSstId, this`budget, this`stopped, this`states,
               this`passed
      ensures Unharmed(old(disk), disk, format) && RecoveredFiles(disk) == RecoveredFiles(old(disk))
      ensures ok ==> Valid() && disk.tmps == {}
      ensures ok && nextSstId > 0 ==> nextSstId - 1 in disk.files
      ensures old(budget).None? ==> ok && budget.None?
      ensures Traced() && old(states) <= states && old(passed) <= passed
      ensures if ok then stopped == None else stopped.Some?
      ensures AllKept(states, |old(states)|, old(disk), format)
    {
      hide *;
      ok := RemoveTmps();
      if !ok { return; }
      ghost var e, soFar := disk, states;
      UnharmedParts(old(disk), disk, format);
      ok := FinishPendingMerge();
      UnharmedThrough(old(disk), e, disk, format);
      AllKeptThrough(soFar, |old(states)|, old(disk), states, e, format);
      if !ok { return; }
      UnharmedParts(old(disk), disk, format);
      LoadLevels();
      e, soFar := disk, states;
      ok := ReplayLog();
      UnharmedThrough(old(disk), e, disk, format);
      AllKeptThrough(soFar, |old(states)|, old(disk), states, e, format);
      RecoveredIs(e, disk);
      if ok {
        UnharmedParts(old(disk), disk, format);
        OpenedIsValid();
      }
    }

    /** With the log whole and the levels and the memtable loaded, the handle can be used. */
    lemma OpenedIsValid()
      requires Traced() && stopped == None && options.Valid() && !overflowed
      requires Readable(disk) && Sound(disk) && Storable(disk, format) && disk.marker == None
      requires Recover(disk.wal).value.length == |disk.wal| && memtable == Replay(Recover(disk.wal).value.items)
      requires |levels| >= 1 && Mirrors(levels, disk.files) && forall id | id in disk.files :: id < nextSstId
      ensures Valid()
    {
      hide Recover, Coherent, WellFormed, Storable, Mirrors, OneByOne;
    }

    method RemoveTmps() returns (ok: bool)
      requires Sound(disk) && Storable(disk, format) && Traced() && stopped == None
      modifies this`disk, this`budget, this`stopped, this`states, this`passed
      ensures Readable(old(disk)) && Unharmed(old(disk), disk, format)
      ensures disk == old(disk).(tmps := disk.tmps) && RecoveredFiles(disk) == RecoveredFiles(old(disk))
      ensures ok ==> disk.tmps == {}
      ensures old(budget).None? ==> ok && budget.None?
      ensures Traced() && old(states) <= states && old(passed) <= passed
      ensures if ok then stopped == None else stopped.Some?
      ensures AllKept(states, |old(states)|, old(disk), format)
    {
      hide *;
      UnharmedItself(disk, format);
      AllKeptNone(states, disk, format);
      ok := true;
      while disk.tmps != {}
        invariant ok && disk == old(disk).(tmps := disk.tmps)
        invariant Unharmed(old(disk), disk, format) && AllKept(states, |old(states)|, old(disk), format)
        invariant Traced() && old(states) <= states && old(passed) <= passed && stopped == None
        invariant old(budget).None? ==> budget.None?
        decreases disk.tmps
      {
        ok := Hit(InsideRecovery);
        if !ok { break; }
        var id :| id in disk.tmps;
        ghost var soFar := states;
        EffectIs(disk, TmpRemoved(id));
        Do(TmpRemoved(id));
        TmpsContents(old(disk), disk, format);
        UnharmedIs(old(disk), disk, format);
        AllKeptMore(soFar, |old(states)|, old(disk), Moment(disk, passed), format);
      }
      RecoveredIs(old(disk), disk);
    }

    /** `finish_pending_merge`: with every output there, the inputs go; then the marker. */
    method FinishPendingMerge() returns (ok: bool)
      requires Sound(disk) && Storable(disk, format) && Traced() && stopped == None
      modifies this`disk, this`budget, this`stopped, this`states, this`passed
      ensures Readable(old(disk)) && Unharmed(old(disk), disk, format)
      ensures RecoveredFiles(disk) == RecoveredFiles(old(disk))
      ensures ok ==> disk.marker == None && disk.files == RecoveredFiles(old(disk)) && disk.wal == old(disk).wal
      ensures disk.tmps == old(disk).tmps
      ensures old(budget).None? ==> ok && budget.None?
      ensures Traced() && old(states) <= states && old(passed) <= passed
      ensures if ok then stopped == None else stopped.Some?
      ensures AllKept(states, |old(states)|, old(disk), format)
    {
      hide *;
      UnharmedItself(disk, format);
      AllKeptNone(states, disk, format);
      NoMarker(disk);
      ok := true;
      if disk.marker == None {
        return;
      }
      var marker := disk.marker.value;
      ghost var gone: set<nat> := {};
      ghost var soFar := states;
      assert disk.files - gone == disk.files;
      OutputsThere(marker.outputs, disk.files);
      NamesOf(marker.inputs);
      if forall id | id in marker.outputs :: id in disk.files {
        var names := disk.files.Keys;
        while names != {}
          invariant ok && names <= old(disk).files.Keys && gone <= IdSet(marker.inputs)
          invariant disk == old(disk).(files := old(disk).files - gone)
          invariant forall id | id in old(disk).files && id !in names && id in marker.inputs :: id in gone
          invariant Unharmed(old(disk), disk, format) && RecoveredFiles(disk) == RecoveredFiles(old(disk))
          invariant AllKept(states, |old(states)|, old(disk), format)
          invariant Traced() && old(states) <= states && old(passed) <= passed && stopped == None
          invariant old(budget).None? ==> budget.None?
          decreases names
        {
          var id :| id in names;
          names := names - {id};
          if id in marker.inputs {
            ok := Hit(InsideRecovery);
            if !ok { return; }
            soFar := states;
            EffectIs(disk, FileDeleted(id));
            Do(FileDeleted(id));
            gone := gone + {id};
            assert disk.files == old(disk).files - gone;
            FinishingIsKept(old(disk), gone);
            AllKeptMore(soFar, |old(states)|, old(disk), Moment(disk, passed), format);
          }
        }
        ok := Hit(InsideRecovery);
        if !ok { return; }
        soFar := states;
        EffectIs(disk, Unmarked);
        Do(Unmarked);
        InputsAreGone(old(disk), gone);
        FinishingIsKept(old(disk), gone);
      } else {
        ok := Hit(InsideRecovery);
        if !ok { return; }
        soFar := states;
        EffectIs(disk, Unmarked);
        Do(Unmarked);
        StaleMarkerIsNothing(old(disk), disk);
        SoundParts(disk);
        PartContents(old(disk), disk, format);
        UnharmedIs(old(disk), disk, format);
      }
      AllKeptMore(soFar, |old(states)|, old(disk), Moment(disk, passed), format);
      NoMarker(disk);
    }

    lemma FinishingIsKept(before: Disk, gone: set<nat>)
      requires Sound(before) && Storable(before, format) && before.marker.Some?
      requires IdSet(before.marker.value.outputs) <= before.files.Keys && gone <= IdSet(before.marker.value.inputs)
      requires disk == before.(files := before.files - gone, marker := disk.marker)
      requires disk.marker == before.marker
               || (disk.marker == None && IdSet(before.marker.value.inputs) !! disk.files.Keys)
      ensures Readable(before) && Unharmed(before, disk, format) && RecoveredFiles(disk) == RecoveredFiles(before)
    {
      hide Recover, Lookup, Coherent, WellFormed, Storable, RecordsOn, LogEntries, Unharmed;
      FinishingIsNothing(before, disk, gone);
      PartContents(before, disk, format);
      UnharmedIs(before, disk, format);
    }

    /** `discover_sstables` and the loop over it: levels in id order, and an id above all others. */
    method LoadLevels()
      requires options.Valid() && Sound(disk) && disk.marker == None
      modifies this`levels, this`nextSstId
      ensures |levels| >= 1 && Mirrors(levels, disk.files)
      ensures forall id | id in disk.files :: id < nextSstId
      ensures nextSstId > 0 ==> nextSstId - 1 in disk.files
    {
      hide *;
      var ids := ListIds(disk.files.Keys);
      levels := [[]];
      nextSstId := 0;
      var i := 0;
      assert ids[..i] == [];
      NothingLoaded(disk.files);
      while i < |ids|
        invariant 0 <= i <= |ids|
        invariant Loaded(levels, disk.files, ids[..i])
        invariant forall id | id in ids[..i] :: id < nextSstId
        invariant nextSstId == if i == 0 then 0 else ids[i - 1] + 1
      {
        var id := ids[i];
        var t := disk.files[id];
        assert ids[..i + 1] == ids[..i] + [id];
        assert id in ids;
        LoadMore(levels, disk.files, ids[..i], id);
        PaddedHas(levels, t.level);
        EnsureLevel(t.level);
        levels := levels[t.level := levels[t.level] + [Sst(id, t.records)]];
        nextSstId := (if id > nextSstId then id else nextSstId) + 1;
        i := i + 1;
      }
      assert ids[..i] == ids;
      assert i > 0 ==> ids[i - 1] in disk.files;
      AllLoaded(levels, disk.files, ids);
    }

    /** The log into the memtable, and a torn tail off the log. */
    method ReplayLog() returns (ok: bool)
      requires Sound(disk) && Storable(disk, format) && Traced() && stopped == None
      modifies this`disk, this`memtable, this`budget, this`stopped, this`states, this`passed
      ensures Readable(old(disk)) && Unharmed(old(disk), disk, format) && disk == old(disk).(wal := disk.wal)
      ensures ok ==> Readable(disk) && Recover(disk.wal).value.length == |disk.wal|
      ensures ok ==> memtable == Replay(Recover(disk.wal).value.items)
      ensures old(budget).None? ==> ok && budget.None?
      ensures Traced() && old(states) <= states && old(passed) <= passed
      ensures if ok then stopped == None else stopped.Some?
      ensures AllKept(states, |old(states)|, old(disk), format)
    {
      hide *;
      UnharmedItself(disk, format);
      UnharmedParts(disk, disk, format);
      AllKeptNone(states, disk, format);
      var table := BuildTable();
      var recovery := ReadRecords(table, disk.wal, true);
      LogIsRead(disk, recovery);
      var records := recovery.value.items;
      memtable := [];
      var i := 0;
      assert records[..0] == [];
      ReplayNothing();
      while i < |records|
        invariant 0 <= i <= |records|
        invariant disk == old(disk) && states == old(states) && passed == old(passed) && Traced()
        invariant stopped == None && budget == old(budget)
        invariant memtable == Replay(records[..i])
      {
        ReplayOneMore(records[..i], records[i]);
        assert records[..i + 1] == records[..i] + [records[i]];
        memtable := Insert(memtable, records[i].key, EntryOf(records[i]));
        i := i + 1;
      }
      assert records[..i] == records;
      ok := true;
      if recovery.value.length < |disk.wal| {
        ok := Hit(InsideRecovery);
        if !ok { return; }
        EffectIs(disk, LogCut(recovery.value.length));
        Do(LogCut(recovery.value.length));
        TruncationIsNothing(old(disk), disk);
        SoundParts(disk);
        PartContents(old(disk), disk, format);
        UnharmedIs(old(disk), disk, format);
        AllKeptMore(old(states), |old(states)|, old(disk), Moment(disk, passed), format);
        CutLength(old(disk).wal, disk.wal, recovery.value.length);
      }
    }

    /** Merges every table into level 1 and forgets the tombstones. */
    method CompactFull() returns (ok: bool)
      requires Valid()
      modifies this
      ensures overflowed ==> !ok && Full(old(disk), {}, 0, USIZE_MAX)
      ensures !overflowed ==> Unharmed(old(disk), disk, format)
      ensures ok ==> Valid() && disk.wal == old(disk).wal && memtable == old(memtable)
      ensures old(budget).None? ==> budget.None? && (ok || overflowed)
      ensures nextSstId >= old(nextSstId)
      ensures ok && old(DisjointLevels(disk.files)) ==> DisjointLevels(disk.files)
      ensures ok && |old(disk).files| <= 1 ==> disk == old(disk)
      ensures ok && |old(disk).files| > 1 ==> |disk.files| <= 1
      ensures ok && |old(disk).files| > 1 ==>
                forall id | id in disk.files ::
                  disk.files[id].level == 1 && forall r | r in disk.files[id].records :: r.entry.Value?
      ensures Uses(old(Use()), nextSstId, 0, 1) && (ok ==> Spent(old(Use()), Use(), 0, 1))
      ensures Traced() && old(states) <= states && old(passed) <= passed && (!ok && !overflowed ==> stopped.Some?)
      ensures !overflowed ==> AllKept(states, |old(states)|, old(disk), format)
    {
      hide *;
      KeptFromTheStart();
      NothingSpent();
      MemtableToFlush();
      UseIs();
      UsesEntries(Use(), nextSstId, 0, 1);
      FullNotNeeded(Use());
      CountIsFiles(levels, disk.files);
      if SstCount(levels) <= 1 {
        return true;
      }
      ok := MergeTables();
    }

    /** The job over all tables. */
    method MergeTables() returns (ok: bool)
      requires Valid()
      modifies this
      ensures overflowed ==> !ok && Full(old(disk), {}, 0, USIZE_MAX)
      ensures !overflowed ==> Unharmed(old(disk), disk, format)
      ensures ok ==> Valid() && disk.wal == old(disk).wal && memtable == old(memtable)
      ensures old(budget).None? ==> budget.None? && (ok || overflowed)
      ensures nextSstId >= old(nextSstId)
      ensures ok ==> DisjointLevels(disk.files) && |disk.files| <= 1
      ensures ok ==>
                forall id | id in disk.files ::
                  disk.files[id].level == 1 && forall r | r in disk.files[id].records :: r.entry.Value?
      ensures Uses(old(Use()), nextSstId, 0, 1) && (ok ==> Spent(old(Use()), Use(), 0, 1))
      ensures Traced() && old(states) <= states && old(passed) <= passed && (!ok && !overflowed ==> stopped.Some?)
      ensures !overflowed ==> AllKept(states, |old(states)|, old(disk), format)
    {
      hide *;
      KeptFromTheStart();
      MemtableToFlush();
      UseIs();
      var inputs := AllTables();
      var job := CompactionJob(inputs, 1, true, USIZE_MAX);
      FullJobIs(job, disk.files);
      FullJobIsSafe(disk.files);
      FullJobDone(levels, disk.files, job, nextSstId);
      JobUses(levels, disk.files, job, nextSstId);
      ReadyFor(job);
      ok := ExecuteJob(job);
      UsesInFull(old(Use()), nextSstId);
      if ok {
        DoneIs(old(disk), disk, job, old(nextSstId));
        MemtableToFlush();
        FullJobIsSingle(job, old(nextSstId), disk, format);
        UseIs();
        SpentByFull(old(Use()), Use());
      }
    }

    method AllTables() returns (inputs: seq<Source>)
      requires Valid()
      ensures InputsFrom(inputs, levels) && IdsOf(inputs) == disk.files.Keys
    {
      inputs := [];
      var level := 0;
      while level < |levels|
        invariant 0 <= level <= |levels|
        invariant Distinct(inputs)
        invariant forall s :: s in inputs <==> s.level < level && InLevels(levels, s.level, s.sst)
      {
        var files := levels[level];
        var i := 0;
        while i < |files|
          invariant 0 <= i <= |files|
          invariant Distinct(inputs)
          invariant forall s :: s in inputs <==>
                      (s.level < level && InLevels(levels, s.level, s.sst)) || (s.level == level && s.sst in files[..i])
        {
          EachOnce(levels, disk.files, level, i);
          assert files[..i + 1] == files[..i] + [files[i]];
          inputs := inputs + [Source(level, files[i])];
          i := i + 1;
        }
        assert files[..i] == files;
        level := level + 1;
      }
      EveryTable(levels, disk.files, inputs);
    }
  }

  /** Everything that stays as it is when the memtable's file is in place. */
  lemma FlushContents(d: Disk, e: Disk, format: Format, id: nat, mem: seq<Record>)
    requires Sound(d) && d.marker == None && mem != [] && mem == Replay(Recover(d.wal).value.items)
    requires (forall o | o in d.files :: o < id) && Storable(d, format) && TableFits(format, id, Table(0, mem))
    requires e.files == d.files[id := Table(0, mem)] && e.marker == None && (e.wal == d.wal || e.wal == [])
    ensures Sound(e) && Readable(e) && SameView(d, e) && NoneNew(d, e) && Storable(e, format) && WellFormed(e.files)
    ensures e.wal == [] ==> Recover(e.wal) == Ok(Frames.Parsed([], 0))
  {
    hide Recover, Lookup, WellFormed, Coherent, Storable, TableFits, RecordsOn;
    FlushIsNothing(d, e, id, mem);
    SoundParts(e);
    FlushAddsNone(d, e, id, mem);
    StorableTable(d, e, format, id, Table(0, mem));
  }

  lemma FullJobIs(job: CompactionJob, fs: Files)
    requires job.outputLevel == 1 && job.dropTombstones && IdsOf(job.inputs) == fs.Keys
    ensures AsJob(job) == Job(fs.Keys, 1, true) && 1 < U32_MODULUS <= USIZE_MAX
  {
  }

  lemma LevelsAreSmall()
    ensures 0 < FLOOR + 1 < U32_MODULUS
  {
  }

  lemma JobIs(job: CompactionJob, plan: CompactionPlan)
    requires AsJob(job) == JobOf(plan)
    ensures IdsOf(job.inputs) == JobOf(plan).inputs && job.outputLevel == plan.level + 1
    ensures job.dropTombstones == plan.dropTombstones
  {
  }

  lemma PlannedLevel(job: CompactionJob, plan: CompactionPlan)
    requires AsJob(job) == JobOf(plan) && plan.level < FLOOR
    ensures job.outputLevel < U32_MODULUS
  {
  }

  /** A temporary file more or less. */
  lemma TmpsContents(d: Disk, e: Disk, format: Format)
    requires Sound(d) && Storable(d, format) && e.wal == d.wal && e.files == d.files && e.marker == d.marker
    ensures Sound(e) && Readable(e) && SameView(d, e) && NoneNew(d, e) && Storable(e, format)
  {
    hide Recover, Lookup, WellFormed, Coherent, Storable, RecordsOn;
    TmpsAreNothing(d, e);
    PartContents(d, e, format);
  }

  /** A table in L0 leaves the levels as disjoint as they were. */
  lemma FlushedDisjoint(d: Disk, e: Disk, sst: Sst)
    requires WellFormed(d.files) && WellFormed(e.files) && e.files == d.files[sst.id := Table(0, sst.records)]
    ensures DisjointLevels(d.files) ==> DisjointLevels(e.files)
  {
  }

  lemma CountTables(outputs: seq<Sst>, pieces: seq<seq<Record>>, first: nat)
    requires TablesFor(outputs, pieces, first)
    ensures |outputs| == |pieces|
  {
  }

  lemma WritingIs(d: Disk, e: Disk, job: CompactionJob, first: nat, pieces: seq<seq<Record>>)
    requires Writing(d, e, job, first, pieces)
    ensures e.wal == d.wal && e.marker == None
  {
  }

  lemma NoStep(states: seq<Moment>, d: Disk, id: nat, t: Table)
    ensures FileSteps(states, states, d, id, t)
  {
  }

  lemma FirstStep(states: seq<Moment>, m: Moment, d: Disk, id: nat, t: Table)
    requires m.disk == d.(tmps := d.tmps + {id})
    ensures FileSteps(states, states + [m], d, id, t)
  {
  }

  lemma SecondStep(states: seq<Moment>, m: Moment, n: Moment, d: Disk, id: nat, t: Table)
    requires m.disk == d.(tmps := d.tmps + {id}) && n.disk == d.(files := d.files[id := t], tmps := m.disk.tmps - {id})
    ensures FileSteps(states, states + [m] + [n], d, id, t)
  {
  }

  lemma TableFitsIs(format: Format, id: nat, t: Table)
    ensures TableFits(format, id, t) <==>
              id < U64_MODULUS && t.level < U32_MODULUS && Records.Sorted(t.records) && format.Fits(t.records)
  {
    hide Format.Fits;
  }

  lemma NoInputs(inputs: seq<Source>)
    ensures IdsOf(inputs[..0]) == {}
  {
  }

  lemma ExtendedHas(levels: Levels, gone: set<nat>, level: nat, outputs: seq<Sst>)
    requires |levels| >= 1
    ensures |Extended(Padded(Retained(levels, gone), level), level, outputs)| >= |levels|
  {
  }

  lemma NoMarker(d: Disk)
    ensures d.marker == None ==> RecoveredFiles(d) == d.files
  {
  }

  lemma RecoveredIs(d: Disk, e: Disk)
    requires e.files == d.files && e.marker == d.marker
    ensures RecoveredFiles(e) == RecoveredFiles(d)
  {
  }

  lemma OutputsThere(ids: seq<nat>, fs: Files)
    ensures (forall id | id in ids :: id in fs) <==> IdSet(ids) <= fs.Keys
  {
    if IdSet(ids) <= fs.Keys {
      forall id | id in ids
        ensures id in fs
      {
        assert id in IdSet(ids);
      }
    }
  }

  lemma NamesOf(ids: seq<nat>)
    ensures forall id :: id in IdSet(ids) <==> id in ids
  {
  }

  lemma InputsAreGone(d: Disk, gone: set<nat>)
    requires d.marker.Some? && forall id | id in d.files && id in d.marker.value.inputs :: id in gone
    ensures IdSet(d.marker.value.inputs) !! (d.files - gone).Keys
  {
  }

  lemma LogIsRead(d: Disk, recovery: Result<Recovery, WalError>)
    requires Readable(d) && recovery == Read(d.wal, true)
    ensures recovery.Ok? && recovery == Recover(d.wal) && recovery.value.length <= |d.wal|
  {
    hide Read;
    RecoverTwice(d.wal);
  }

  lemma CutLength(log: Bytes, cut: Bytes, length: nat)
    requires length <= |log| && cut == log[..length]
    requires Recover(cut).Ok? && Recover(cut).value.length == length
    ensures Recover(cut).value.length == |cut|
  {
    hide Recover;
  }

  lemma ReplayNothing()
    ensures Replay([]) == []
  {
  }

  lemma MemtableFirst(memtable: seq<Record>)
    ensures Sources([Cursor(memtable, None)]) == [memtable] + RecordsOf([])
  {
  }

  /** The merge of everything, newest first and without tombstones, is what point reads see. */
  lemma ViewIsMerge(d: Disk, mem: seq<Record>, listed: seq<Source>)
    requires Sound(d) && d.marker == None && mem == Replay(Recover(d.wal).value.items) && ListsInOrder(listed, d.files)
    ensures AllSorted([mem] + RecordsOf(listed))
    ensures Records.Sorted(Shown(MergeAll([mem] + RecordsOf(listed)), false))
    ensures forall k :: Find(Shown(MergeAll([mem] + RecordsOf(listed)), false), k)
                     == if Lookup(d, k).Some? then Some(Value(Lookup(d, k).value)) else None
  {
    hide Recover, Top;
    var sources := [mem] + RecordsOf(listed);
    ReplaySorted(Recover(d.wal).value.items);
    SourcesSorted(listed, d.files);
    MergeAllSorted(sources);
    ShownSorted(MergeAll(sources), false);
    forall k
      ensures Find(Shown(MergeAll(sources), false), k)
           == if Lookup(d, k).Some? then Some(Value(Lookup(d, k).value)) else None
    {
      ShownFinds(MergeAll(sources), false, k);
      MergeAllFinds(sources, k);
      assert sources[1..] == RecordsOf(listed);
      FirstFindIsNewest(listed, d.files, k);
    }
  }

  lemma EveryTable(levels: Levels, fs: Files, inputs: seq<Source>)
    requires Mirrors(levels, fs)
    requires forall s :: s in inputs <==> InLevels(levels, s.level, s.sst)
    ensures IdsOf(inputs) == fs.Keys
  {
    forall id | id in fs
      ensures id in IdsOf(inputs)
    {
      assert Source(fs[id].level, Sst(id, fs[id].records)) in inputs;
    }
  }

  lemma Least(ids: set<nat>) returns (least: nat)
    requires ids != {}
    ensures least in ids && forall id | id in ids :: least <= id
    decreases |ids|
  {
    var pick :| pick in ids;
    assert ids == (ids - {pick}) + {pick};
    if ids == {pick} {
      least := pick;
    } else {
      var rest := Least(ids - {pick});
      least := if rest < pick then rest else pick;
    }
  }

  /** The ids of a directory listing, in ascending order. */
  method ListIds(ids: set<nat>) returns (list: seq<nat>)
    ensures forall i, j | 0 <= i < j < |list| :: list[i] < list[j]
    ensures forall id :: id in list <==> id in ids
  {
    list := [];
    var left := ids;
    while left != {}
      invariant left <= ids
      invariant forall id :: id in list <==> id in ids - left
      invariant forall i, j | 0 <= i < j < |list| :: list[i] < list[j]
      invariant forall i, o | 0 <= i < |list| && o in left :: list[i] < o
      decreases left
    {
      var _ := Least(left);
      var id :| id in left && forall o | o in left :: id <= o;
      list := list + [id];
      left := left - {id};
    }
  }
}
