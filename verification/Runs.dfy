/**
 Whole runs: any number of processes on one directory, each doing any
 operations and each dying at any boundary, recovery included.
 */
module Runs {
  import opened Bytes
  import opened Records
  import opened Wal
  import opened SsTable
  import opened Formats
  import opened Contents
  import opened Ids
  import opened Lsm
  import opened Disk
  import opened Iter
  import opened Planning
  import opened Levels
  import opened Db
  import opened Names
  import Blocks
  import SsTableReader
  import SsTableRoundTrip
  import SsTableSize
  import Directory
  import Opening

  datatype Op =
    | Put(key: Key, value: Bytes) | Remove(key: Key)
    | Read(key: Key) | ReadRange(start: Bound, end: Bound)
    | Flush | Compact | CompactFull

  datatype Answer = NoAnswer | Found(value: Option<Bytes>) | Existed(existed: bool) | Listed(items: seq<(Key, Bytes)>)

  /** One process: its settings, what it is asked to do, and where it dies. */
  datatype Session = Session(options: DbOptions, ops: seq<Op>, budget: Option<nat>, torn: nat)

  // ---------- the specification: a plain map ----------

  type Model = map<Key, Bytes>

  function Apply(op: Op, m: Model): Model
  {
    match op
    case Put(k, v) => m[k := v]
    case Remove(k) => m - {k}
    case _ => m
  }

  function Play(ops: seq<Op>, m: Model): Model
    decreases |ops|
  {
    if ops == [] then m else Apply(ops[|ops| - 1], Play(ops[..|ops| - 1], m))
  }

  predicate Played(sessions: seq<Session>, applied: seq<nat>)
  {
    |applied| == |sessions| && forall i | 0 <= i < |sessions| :: applied[i] <= |sessions[i].ops|
  }

  /** The map after each session applied its first `applied` operations. */
  function PlayAll(sessions: seq<Session>, applied: seq<nat>): Model
    requires Played(sessions, applied)
    decreases |sessions|
  {
    if sessions == [] then map[]
    else
      var last := |sessions| - 1;
      Play(sessions[last].ops[..applied[last]], PlayAll(sessions[..last], applied[..last]))
  }

  function Seen(m: Model, k: Key): Option<Bytes>
  {
    if k in m then Some(m[k]) else None
  }

  predicate Ascending(items: seq<(Key, Bytes)>)
  {
    forall i, j | 0 <= i < j < |items| :: Less(items[i].0, items[j].0)
  }

  /** What an operation is to answer when the map is `m`. */
  ghost predicate Answers(op: Op, answer: Answer, m: Model)
  {
    match op
    case Read(k) => answer == Found(Seen(m, k))
    case Remove(k) => answer == Existed(Seen(m, k).Some?)
    case ReadRange(start, end) =>
      && answer.Listed? && Ascending(answer.items)
      && forall k, v :: (k, v) in answer.items <==>
           && (start.Unbounded? || Less(start.key, k) || (start.Included? && k == start.key))
           && (end.Unbounded? || Less(k, end.key) || (end.Included? && k == end.key))
           && Seen(m, k) == Some(v)
    case _ => true
  }

  ghost predicate Represents(d: Disk, m: Model)
    requires Readable(d)
  {
    forall k :: Lookup(d, k) == Seen(m, k)
  }

  /** Every acknowledged operation was applied, and at most the next one besides. */
  ghost predicate Explains(sessions: seq<Session>, acknowledged: seq<nat>, applied: seq<nat>)
  {
    && |acknowledged| == |applied| == |sessions|
    && forall i | 0 <= i < |sessions| ::
         acknowledged[i] <= applied[i] <= |sessions[i].ops| && applied[i] <= acknowledged[i] + 1
  }

  // ---------- what is written ----------

  /** The record that an operation writes, if it writes one. */
  function Writes(op: Op): seq<Record>
  {
    match op
    case Put(k, v) => [Record(k, Value(v))]
    case Remove(k) => [Record(k, Tombstone)]
    case _ => []
  }

  function WrittenBy(ops: seq<Op>): seq<Record>
    decreases |ops|
  {
    if ops == [] then [] else WrittenBy(ops[..|ops| - 1]) + Writes(ops[|ops| - 1])
  }

  function AllWritten(sessions: seq<Session>): seq<Record>
    decreases |sessions|
  {
    if sessions == [] then [] else AllWritten(sessions[..|sessions| - 1]) + WrittenBy(sessions[|sessions| - 1].ops)
  }

  function Fulls(op: Op): nat
  {
    if op == CompactFull then 1 else 0
  }

  function FullsIn(ops: seq<Op>): nat
    decreases |ops|
  {
    if ops == [] then 0 else FullsIn(ops[..|ops| - 1]) + Fulls(ops[|ops| - 1])
  }

  function AllFulls(sessions: seq<Session>): nat
    decreases |sessions|
  {
    if sessions == [] then 0 else AllFulls(sessions[..|sessions| - 1]) + FullsIn(sessions[|sessions| - 1].ops)
  }

  // ---------- what a caller can check beforehand ----------

  /** The size at which an operation closes an output file. */
  function TargetOf(op: Op, options: DbOptions): nat
  {
    if op == CompactFull then Max(USIZE_MAX, options.targetFileSize) else options.targetFileSize
  }

  function TargetIn(s: Session): nat
  {
    if CompactFull in s.ops then Max(USIZE_MAX, s.options.targetFileSize) else s.options.targetFileSize
  }

  function LargestTarget(sessions: seq<Session>): nat
    decreases |sessions|
  {
    if sessions == [] then 0 else Max(TargetIn(sessions[0]), LargestTarget(sessions[1..]))
  }

  function LargestThreshold(sessions: seq<Session>): nat
    decreases |sessions|
  {
    if sessions == [] then 0 else Max(sessions[0].options.flushThreshold, LargestThreshold(sessions[1..]))
  }

  /** How many of the processes may die. */
  function Deaths(sessions: seq<Session>): nat
    decreases |sessions|
  {
    if sessions == [] then 0
    else Deaths(sessions[..|sessions| - 1]) + (if sessions[|sessions| - 1].budget.Some? then 1 else 0)
  }

  /** How many entries a memtable can have: a process that dies may leave one more than it found. */
  function FullestMemtable(sessions: seq<Session>): nat
  {
    LargestThreshold(sessions) + Deaths(sessions) + 1
  }

  /**
   No table can be too large: either the heaviest record of every key fits into
   one, or the settings bound each table, however much is written in all.
   */
  predicate WithinLimits(format: Format, sessions: seq<Session>)
  {
    var written := AllWritten(sessions);
    || OneTableHolds(format, written)
    || EveryTableHolds(format, HeaviestWeight(written), FullestMemtable(sessions), LargestTarget(sessions))
  }

  lemma {:induction false} LargestAreLargest(sessions: seq<Session>)
    ensures forall s | s in sessions :: s.options.flushThreshold <= LargestThreshold(sessions)
    ensures forall s | s in sessions :: TargetIn(s) <= LargestTarget(sessions)
    decreases |sessions|
  {
    hide TargetIn;
    if sessions != [] {
      LargestAreLargest(sessions[1..]);
      assert sessions == [sessions[0]] + sessions[1..];
    }
  }

  lemma {:induction false} WritesOfOne(ops: seq<Op>, i: nat)
    requires i < |ops|
    ensures Elements(Writes(ops[i])) <= Elements(WrittenBy(ops))
    decreases |ops|
  {
    hide Writes;
    if i < |ops| - 1 {
      WritesOfOne(ops[..|ops| - 1], i);
    }
  }

  lemma {:induction false} WritesOfSome(ops: seq<Op>, n: nat)
    requires n <= |ops|
    ensures |WrittenBy(ops[..n])| <= |WrittenBy(ops)| && FullsIn(ops[..n]) <= FullsIn(ops)
    decreases |ops|
  {
    hide Writes, Fulls;
    if n < |ops| {
      var front := ops[..|ops| - 1];
      assert front[..n] == ops[..n];
      WritesOfSome(front, n);
    } else {
      assert ops[..n] == ops;
    }
  }

  lemma WritesOneMore(ops: seq<Op>, n: nat)
    requires n < |ops|
    ensures |WrittenBy(ops[..n + 1])| == |WrittenBy(ops[..n])| + |Writes(ops[n])|
    ensures FullsIn(ops[..n + 1]) == FullsIn(ops[..n]) + Fulls(ops[n])
  {
    hide Writes, Fulls;
    assert ops[..n + 1][..n] == ops[..n];
  }

  lemma {:induction false} WrittenGrows(sessions: seq<Session>, n: nat)
    requires n <= |sessions|
    ensures Elements(AllWritten(sessions[..n])) <= Elements(AllWritten(sessions))
    ensures |AllWritten(sessions[..n])| <= |AllWritten(sessions)| && AllFulls(sessions[..n]) <= AllFulls(sessions)
    ensures Deaths(sessions[..n]) <= Deaths(sessions)
    decreases |sessions|
  {
    hide WrittenBy, FullsIn;
    if n < |sessions| {
      var front := sessions[..|sessions| - 1];
      assert front[..n] == sessions[..n];
      WrittenGrows(front, n);
    } else {
      assert sessions[..n] == sessions;
    }
  }

  lemma WrittenOneMore(sessions: seq<Session>, n: nat)
    requires n < |sessions|
    ensures Elements(AllWritten(sessions[..n + 1]))
         == Elements(AllWritten(sessions[..n])) + Elements(WrittenBy(sessions[n].ops))
    ensures |AllWritten(sessions[..n + 1])| == |AllWritten(sessions[..n])| + |WrittenBy(sessions[n].ops)|
    ensures AllFulls(sessions[..n + 1]) == AllFulls(sessions[..n]) + FullsIn(sessions[n].ops)
    ensures Deaths(sessions[..n + 1]) == Deaths(sessions[..n]) + (if sessions[n].budget.Some? then 1 else 0)
  {
    hide WrittenBy, FullsIn;
    assert sessions[..n + 1][..n] == sessions[..n];
  }

  /** Within the limits there is room for every table of what was written so far. */
  lemma LimitsGiveRoom(format: Format, sessions: seq<Session>, n: nat)
    requires n <= |sessions| && WithinLimits(format, sessions)
    ensures Room(format, Elements(AllWritten(sessions[..n])), FullestMemtable(sessions), LargestTarget(sessions))
  {
    hide *;
    var written := AllWritten(sessions);
    var entries, target := FullestMemtable(sessions), LargestTarget(sessions);
    WithinLimitsIs(format, sessions);
    if OneTableHolds(format, written) {
      RoomForOneTable(format, written, entries, target);
    } else {
      RoomForEveryTable(format, written, entries, target);
    }
    WrittenGrows(sessions, n);
    RoomForLess(format, Elements(AllWritten(sessions[..n])), entries, target, Elements(written), entries, target);
  }

  lemma WithinLimitsIs(format: Format, sessions: seq<Session>)
    ensures var written := AllWritten(sessions);
            WithinLimits(format, sessions) <==>
              || OneTableHolds(format, written)
              || EveryTableHolds(format, HeaviestWeight(written), FullestMemtable(sessions), LargestTarget(sessions))
  {
  }

  /**
   With the default flush threshold and target size and no full compaction, the
   limits say nothing about how much is written: only records of more than a
   mebibyte, or more than two thousand processes that die, can pass them.
   */
  lemma DefaultsAreWithinLimits(format: Format, sessions: seq<Session>)
    requires forall s | s in sessions ::
               && s.options.flushThreshold <= 1024
               && s.options.targetFileSize <= 2 * 1024 * 1024 && CompactFull !in s.ops
    requires forall r | r in AllWritten(sessions) :: Weight(r) <= 1024 * 1024
    requires Deaths(sessions) <= 2000 && forall n: nat | n <= 1024 * 1024 :: format.sizing(n).0 <= 1024 * n
    ensures WithinLimits(format, sessions)
  {
    hide AllWritten, Weight, HeaviestWeight, OneTableHolds, Deaths;
    var heaviest := HeaviestWeight(AllWritten(sessions));
    HeaviestIsAtMost(AllWritten(sessions), 1024 * 1024);
    LargestAtMost(sessions);
    Times(FullestMemtable(sessions), 3025, heaviest);
  }

  lemma {:induction false} HeaviestIsAtMost(rs: seq<Record>, bound: nat)
    requires forall r | r in rs :: Weight(r) <= bound
    ensures HeaviestWeight(rs) <= bound
    decreases |rs|
  {
    hide Weight;
    if rs != [] {
      HeaviestIsAtMost(rs[1..], bound);
      assert rs[0] in rs;
    }
  }

  lemma {:induction false} LargestAtMost(sessions: seq<Session>)
    requires forall s | s in sessions ::
               && s.options.flushThreshold <= 1024
               && s.options.targetFileSize <= 2 * 1024 * 1024 && CompactFull !in s.ops
    ensures LargestThreshold(sessions) <= 1024
    ensures LargestTarget(sessions) <= 2 * 1024 * 1024
    decreases |sessions|
  {
    if sessions != [] {
      LargestAtMost(sessions[1..]);
      assert sessions[0] in sessions;
    }
  }

  // ---------- one operation ----------

  method Perform(db: DbInner, op: Op) returns (ok: bool, answer: Answer, ghost done: bool)
    requires db.Valid()
    modifies db
    ensures db.overflowed ==>
              && !ok
              && db.Full(old(db.disk), Elements(Writes(op)), old(db.MostEntries()) + 1, TargetOf(op, db.options))
    ensures !db.overflowed ==>
              && Left(old(db.disk), db.disk, Elements(Writes(op)), old(db.MostEntries()) + 1, db.format)
              && Performed(old(db.disk), db.disk, op, done)
    ensures !db.overflowed ==>
              && EachLeft(db.states, |old(db.states)|, old(db.disk), Elements(Writes(op)), old(db.MostEntries()) + 1,
                         db.format)
              && AllPerformed(db.states, |old(db.states)|, old(db.disk), op, done)
    ensures db.Traced() && old(db.states) <= db.states && old(db.passed) <= db.passed
    ensures !ok && !db.overflowed ==> db.stopped.Some?
    ensures ok ==> |db.memtable| <= old(db.MostEntries())
    ensures Uses(old(db.Use()), db.nextSstId, |Writes(op)|, Fulls(op))
    ensures ok ==> Spent(old(db.Use()), db.Use(), |Writes(op)|, Fulls(op))
    ensures ok ==> done && db.Valid()
    ensures ok ==> forall m :: old(Represents(db.disk, m)) ==> Answers(op, answer, m)
    ensures old(db.budget).None? ==> db.budget.None? && (ok || db.overflowed)
    ensures db.nextSstId >= old(db.nextSstId)
    ensures ok && old(DisjointLevels(db.disk.files)) ==> DisjointLevels(db.disk.files)
    ensures ok && op.Flush? ==> db.memtable == [] && (old(db.memtable) != [] ==> db.disk.wal == [])
    ensures ok && (op.Compact? || (op.Flush? && old(db.memtable) != [])) ==>
              forall l | 0 <= l < |db.levels| :: !db.Needs(db.levels, l)
    ensures ok && op.CompactFull? && |old(db.disk).files| > 1 ==> |db.disk.files| <= 1
    ensures ok && (op.Read? || op.ReadRange?) ==> db.disk == old(db.disk) && db.memtable == old(db.memtable)
  {
    hide *;
    done := true;
    answer := NoAnswer;
    WhatOpsAre(op, db.options);
    ValidIsReadable(db);
    MostEntriesIs(db);
    db.NothingSpent();
    db.KeptFromTheStart();
    ghost var d, from, target := db.disk, |db.states|, db.options.targetFileSize;
    ghost var held, entries := |db.memtable|, db.MostEntries() + 1;
    match op {
      case Put(k, v) =>
        AfterWriteIsShort(db.memtable, Record(k, Value(v)), db.options.flushThreshold);
        ok := db.Set(k, v);
        FullWithMore(db, d, {Record(k, Value(v))}, held + 1, target, entries, target);
        if !db.overflowed {
          LeftReadable(d, db.disk, Elements(Writes(op)), held + 1, db.format);
          done := WritePerformed(db, d, from, op, k, Some(v), held + 1, entries, ok);
        }
      case Remove(k) =>
        AfterWriteIsShort(db.memtable, Record(k, Tombstone), db.options.flushThreshold);
        var existed;
        ok, existed := db.Delete(k);
        answer := Existed(existed);
        RemoveAnswers(d, k, existed);
        FullWithMore(db, d, {Record(k, Tombstone)}, held + 1, target, entries, target);
        if !db.overflowed {
          LeftReadable(d, db.disk, Elements(Writes(op)), held + 1, db.format);
          done := WritePerformed(db, d, from, op, k, None, held + 1, entries, ok);
        }
      case Read(k) =>
        var value := db.Get(k);
        answer := Found(value);
        ok := true;
        ReadAnswers(d, k, value);
        NothingPerformed(db, d, from, op, entries);
      case ReadRange(start, end) =>
        answer := List(db, start, end);
        ok := true;
        NothingPerformed(db, d, from, op, entries);
      case Flush =>
        ok := db.Flush();
        FlushIsShort(db);
        FullWithMore(db, d, {}, held, target, entries, target);
        if !db.overflowed {
          NothingPerformed(db, d, from, op, entries);
        }
      case Compact =>
        ok := db.CompactPending();
        FullWithMore(db, d, {}, 0, target, entries, target);
        if !db.overflowed {
          NothingPerformed(db, d, from, op, entries);
        }
      case CompactFull =>
        ok := db.CompactFull();
        FullWithMore(db, d, {}, 0, USIZE_MAX, entries, TargetOf(op, db.options));
        if !db.overflowed {
          NothingPerformed(db, d, from, op, entries);
        }
    }
  }

  /** The operation was performed, or nothing was, and the map says so. */
  ghost predicate Performed(d: Disk, e: Disk, op: Op, done: bool)
    requires Readable(d)
  {
    Readable(e) && forall m :: Represents(d, m) ==> Represents(e, if done then Apply(op, m) else m)
  }

  ghost predicate AllPerformed(states: seq<Moment>, from: nat, d: Disk, op: Op, done: bool)
    requires Readable(d)
  {
    forall i | from <= i < |states| :: Performed(d, states[i].disk, op, done)
  }

  lemma WhatOpsAre(op: Op, options: DbOptions)
    ensures Elements(Writes(op)) == match op
                                    case Put(k, v) => {Record(k, Value(v))}
                                    case Remove(k) => {Record(k, Tombstone)}
                                    case _ => {}
    ensures |Writes(op)| == if op.Put? || op.Remove? then 1 else 0
    ensures Fulls(op) == if op.CompactFull? then 1 else 0
    ensures TargetOf(op, options) == if op.CompactFull? then Max(USIZE_MAX, options.targetFileSize)
                                     else options.targetFileSize
    ensures USIZE_MAX <= Max(USIZE_MAX, options.targetFileSize)
    ensures !op.Read? && !op.ReadRange? && !op.Remove? ==> forall answer, m :: Answers(op, answer, m)
  {
  }

  lemma FlushIsShort(db: DbInner)
    ensures db.memtable == [] ==> |db.memtable| == 0
  {
  }

  lemma ReadAnswers(d: Disk, k: Key, value: Option<Bytes>)
    requires Readable(d) && value == Lookup(d, k)
    ensures forall m :: Represents(d, m) ==> Answers(Read(k), Found(value), m)
  {
    hide Lookup;
  }

  lemma RemoveAnswers(d: Disk, k: Key, existed: bool)
    requires Readable(d) && (existed <==> Lookup(d, k).Some?)
    ensures forall m :: Represents(d, m) ==> Answers(Remove(k), Existed(existed), m)
  {
    hide Lookup;
  }

  /** What was full is full for larger bounds. */
  lemma FullWithMore(db: DbInner, d: Disk, added: set<Record>, entries: nat, target: nat, more: nat, moreTarget: nat)
    requires Readable(d) && entries <= more && target <= moreTarget
    ensures db.Full(d, added, entries, target) ==> db.Full(d, added, more, moreTarget)
  {
    hide RecordsOn, Room;
    if Room(db.format, RecordsOn(d) + added, more, moreTarget) {
      RoomForLess(db.format, RecordsOn(d) + added, entries, target, RecordsOn(d) + added, more, moreTarget);
    }
  }

  /** A write: every state from the first new one on has it, or none has. */
  lemma WritePerformed(db: DbInner, d: Disk, from: nat, op: Op, key: Key, value: Option<Bytes>, held: nat, entries: nat,
                       ok: bool)
    returns (done: bool)
    requires Readable(d) && db.Traced() && 0 < from <= |db.states| && db.states[from - 1].disk == d && held <= entries
    requires op == match value case Some(v) => Put(key, v) case None => Remove(key)
    requires Left(d, db.disk, Elements(Writes(op)), held, db.format)
    requires EachLeft(db.states, from, d, Elements(Writes(op)), held, db.format)
    requires AllUpdated(db.states, from, d, key, value) || AllSame(db.states, from, d)
    requires ok ==> AllUpdated(db.states, from, d, key, value) && Readable(db.disk) && Updated(d, db.disk, key, value)
    ensures Left(d, db.disk, Elements(Writes(op)), entries, db.format)
    ensures EachLeft(db.states, from, d, Elements(Writes(op)), entries, db.format)
    ensures Performed(d, db.disk, op, done) && AllPerformed(db.states, from, d, op, done) && (ok ==> done)
  {
    hide Recover, Lookup, RecordsOn, LogEntries, Storable, OneByOne, Sound, Writes, Updated, SameView;
    done := ok || (|db.states| > from && AllUpdated(db.states, from, d, key, value));
    LeftReadable(d, db.disk, Elements(Writes(op)), held, db.format);
    if done && |db.states| > from {
      assert Updated(d, db.states[|db.states| - 1].disk, key, value);
    }
    if Updated(d, db.disk, key, value) {
      UpdatedIsPerformed(d, db.disk, op, key, value);
    }
    SamePerformed(d, d, op);
    if !done && |db.states| > from {
      SamePerformed(d, db.disk, op);
    }
    forall i | from <= i < |db.states|
      ensures Performed(d, db.states[i].disk, op, done)
    {
      if done {
        UpdatedIsPerformed(d, db.states[i].disk, op, key, value);
      } else {
        SamePerformed(d, db.states[i].disk, op);
      }
    }
  }

  lemma LeftReadable(d: Disk, e: Disk, added: set<Record>, entries: nat, format: Format)
    requires Readable(d) && Left(d, e, added, entries, format)
    ensures Readable(e) && Sound(e) && Storable(e, format)
  {
    hide Recover, RecordsOn, LogEntries, Storable;
  }

  lemma UpdatedIsPerformed(d: Disk, e: Disk, op: Op, key: Key, value: Option<Bytes>)
    requires Readable(d) && Readable(e) && Updated(d, e, key, value)
    requires op == match value case Some(v) => Put(key, v) case None => Remove(key)
    ensures Performed(d, e, op, true)
  {
    hide Lookup;
  }

  lemma SamePerformed(d: Disk, e: Disk, op: Op)
    requires Readable(d) && Readable(e)
    ensures SameView(d, e) ==> Performed(d, e, op, false)
    ensures SameView(d, e) && !op.Put? && !op.Remove? ==> Performed(d, e, op, true)
    ensures SameView(d, d)
  {
    hide Lookup;
  }

  /** Everything but a write leaves the map as it was, in every state. */
  lemma NothingPerformed(db: DbInner, d: Disk, from: nat, op: Op, entries: nat)
    requires Readable(d) && !op.Put? && !op.Remove? && LogEntries(d) <= entries
    requires Unharmed(d, db.disk, db.format) && AllKept(db.states, from, d, db.format)
    ensures Left(d, db.disk, Elements(Writes(op)), entries, db.format)
    ensures EachLeft(db.states, from, d, Elements(Writes(op)), entries, db.format)
    ensures Performed(d, db.disk, op, true) && AllPerformed(db.states, from, d, op, true)
  {
    hide Unharmed, RecordsOn, LogEntries, Left, Performed;
    UnharmedIsPerformed(d, db.disk, op, entries, db.format);
    forall i | from <= i < |db.states|
      ensures Performed(d, db.states[i].disk, op, true)
      ensures Left(d, db.states[i].disk, Elements(Writes(op)), entries, db.format)
    {
      UnharmedIsPerformed(d, db.states[i].disk, op, entries, db.format);
    }
  }

  lemma UnharmedIsPerformed(d: Disk, e: Disk, op: Op, entries: nat, format: Format)
    requires Readable(d) && !op.Put? && !op.Remove? && LogEntries(d) <= entries && Unharmed(d, e, format)
    ensures Left(d, e, Elements(Writes(op)), entries, format) && Performed(d, e, op, true)
  {
    hide RecordsOn, LogEntries, Performed, Sound, Storable, Lookup;
    UnharmedParts(d, e, format);
    SamePerformed(d, e, op);
  }

  /** A range, read to its end. */
  method List(db: DbInner, start: Bound, end: Bound) returns (answer: Answer)
    requires db.Valid()
    ensures forall m :: Represents(db.disk, m) ==> Answers(ReadRange(start, end), answer, m)
  {
    hide Recover, Lookup, DbInner.Valid, MergeAll, Shown, MergeIterator.Valid, Within, Sound, Less, AfterStart,
      BeforeEnd, Find, Storable;
    ValidIsReadable(db);
    var iter := db.Range(start, end);
    ghost var all := iter.Remaining();
    var items := iter.Collect();
    answer := Listed(items);
    forall k, v
      ensures (k, v) in items <==> Find(all, k) == Some(Value(v))
    {
      PairsFind(all, k, v);
    }
  }

  lemma ValidIsReadable(db: DbInner)
    requires db.Valid()
    ensures Readable(db.disk) && Sound(db.disk) && Storable(db.disk, db.format) && !db.overflowed
    ensures db.options.Valid() && WellFormed(db.disk.files) && LogEntries(db.disk) == |db.memtable|
    ensures db.Traced() && db.stopped == None && db.states != [] && db.states[|db.states| - 1].disk == db.disk
  {
    hide Recover, Lookup, Coherent, WellFormed, Mirrors, Storable, OneByOne;
  }

  /** A range is a snapshot: it yields what was there when it was made, whatever is done before it is read. */
  method RangeThenWrite(db: DbInner, start: Bound, end: Bound, ops: seq<Op>) returns (items: seq<(Key, Bytes)>)
    requires db.Valid()
    modifies db
    ensures forall k, v ::
              (k, v) in items <==>
                && (start.Unbounded? || Less(start.key, k) || (start.Included? && k == start.key))
                && (end.Unbounded? || Less(k, end.key) || (end.Included? && k == end.key))
                && old(Lookup(db.disk, k)) == Some(v)
    ensures Ascending(items)
  {
    hide Recover, Lookup, DbInner.Valid, MergeAll, Shown, MergeIterator.Valid, Within, Sound, Less, AfterStart,
      BeforeEnd, Find, Storable, RecordsOn, Room;
    ValidIsReadable(db);
    var iter := db.Range(start, end);
    ghost var all := iter.Remaining();
    var ok := true;
    var n := 0;
    while ok && n < |ops|
      invariant 0 <= n <= |ops| && (ok ==> db.Valid())
      invariant fresh(iter) && fresh(iter.merged) && iter.Valid() && iter.Remaining() == all
      decreases ok, |ops| - n
    {
      var answer;
      ghost var done;
      ok, answer, done := Perform(db, ops[n]);
      n := n + 1;
    }
    items := iter.Collect();
    forall k, v
      ensures (k, v) in items <==> Find(all, k) == Some(Value(v))
    {
      PairsFind(all, k, v);
    }
  }

  /**
   The failing input: the log takes this record, and the flush that follows writes
   a file which nobody can load. It stays, so the directory cannot be opened again.
   */
  method LongSetOverflows(db: DbInner, k: Key, v: Bytes) returns (ok: bool)
    requires db.Valid() && db.memtable == [] && db.budget.None? && db.options.flushThreshold <= 1
    requires 1 <= |k| < 0x1_0000 && RecordSize(Record(k, Value(v))) == U32_MODULUS - 1
    modifies db
    ensures !ok && db.overflowed && Fits(Set(k, v))
    ensures SsTableReader.LoadedFrom(db.format.FileOf([Record(k, Value(v))])) == Err(Blocks.TruncatedIndexKey)
    ensures db.disk.files == old(db.disk).files[old(db.nextSstId) := Table(0, [Record(k, Value(v))])]
    ensures old(db.nextSstId) < U64_MODULUS ==>
              forall dir | Directory.Stores(dir, db.disk, db.format) :: !Opening.AllLoad(dir)
  {
    hide *;
    SsTableSize.LongRecordIsNotLoaded(k, v, db.format.blockSize, FilterFor([Record(k, Value(v))], db.format.sizing));
    FileOfIs(db.format, [Record(k, Value(v))]);
    LongMemtable(db, k, v);
    ok := db.Set(k, v);
    if old(db.nextSstId) < U64_MODULUS {
      forall dir | Directory.Stores(dir, db.disk, db.format)
        ensures !Opening.AllLoad(dir)
      {
        Opening.LongTableStopsOpening(dir, db.disk, db.format, old(db.nextSstId), k, v);
      }
    }
  }

  lemma LongMemtable(db: DbInner, k: Key, v: Bytes)
    requires db.options.flushThreshold <= 1
    requires !SsTableRoundTrip.FileFits([Record(k, Value(v))], db.format.blockSize,
                                        FilterFor([Record(k, Value(v))], db.format.sizing))
    ensures db.TooLarge([], Record(k, Value(v))) && With([], Record(k, Value(v))) == [Record(k, Value(v))]
    ensures Blocks.AsLogged(Record(k, Value(v))) == Set(k, v) && 0 < U32_MODULUS
  {
    hide SsTableRoundTrip.FileFits, FilterFor;
    assert Insert([], k, Value(v)) == [Record(k, Value(v))];
  }

  // ---------- one process ----------

  /** Whatever map the first directory stood for, the second stands for it after `ops`. */
  ghost predicate Tracks(d: Disk, e: Disk, ops: seq<Op>)
    requires Readable(d) && Readable(e)
  {
    forall m :: Represents(d, m) ==> Represents(e, Play(ops, m))
  }

  lemma TracksNothing(d: Disk, e: Disk)
    requires Readable(d) && Readable(e) && SameView(d, e)
    ensures Tracks(d, e, [])
  {
    hide Lookup, Readable;
  }

  /** Every answer was what the map said at that point. */
  ghost predicate Answered(ops: seq<Op>, answers: seq<Answer>, m: Model)
  {
    && |answers| <= |ops|
    && forall i | 0 <= i < |answers| :: Answers(ops[i], answers[i], Play(ops[..i], m))
  }

  ghost predicate AnswersTrack(d: Disk, ops: seq<Op>, answers: seq<Answer>)
    requires Readable(d)
  {
    forall m :: Represents(d, m) ==> Answered(ops, answers, m)
  }

  lemma NoAnswers(d: Disk, ops: seq<Op>)
    requires Readable(d)
    ensures AnswersTrack(d, ops, [])
  {
  }

  lemma AnswersMore(d: Disk, e: Disk, ops: seq<Op>, answers: seq<Answer>, answer: Answer)
    requires Readable(d) && Readable(e) && |answers| < |ops|
    requires Tracks(d, e, ops[..|answers|]) && AnswersTrack(d, ops, answers)
    requires forall m :: Represents(e, m) ==> Answers(ops[|answers|], answer, m)
    ensures AnswersTrack(d, ops, answers + [answer])
  {
    hide Represents, Readable, Play, Answers;
    forall m | Represents(d, m)
      ensures Answered(ops, answers + [answer], m)
    {
      assert Answered(ops, answers, m);
    }
  }

  lemma TracksMore(d: Disk, e: Disk, f: Disk, ops: seq<Op>, n: nat, done: bool)
    requires Readable(d) && Readable(e) && n < |ops| && Tracks(d, e, ops[..n]) && Performed(e, f, ops[n], done)
    ensures Readable(f) && Tracks(d, f, if done then ops[..n + 1] else ops[..n])
  {
    hide Represents, Readable, Apply;
    assert ops[..n + 1][..n] == ops[..n];
  }

  // ---------- all the states of a process ----------

  /**
   What became of a directory while a process ran: its states, how many operations
   were acknowledged when each came about and when it passed, and how many
   boundaries were hit in all.
   */
  datatype Life = Life(states: seq<Moment>, entered: seq<nat>, leaving: seq<nat>, passed: nat)

  /** A state stands for the acknowledged operations, and perhaps for the next one. */
  ghost predicate Stands(d: Disk, e: Disk, ops: seq<Op>, acknowledged: nat)
    requires Readable(d)
  {
    && Readable(e) && acknowledged <= |ops|
    && (|| Tracks(d, e, ops[..acknowledged])
        || (acknowledged < |ops| && Tracks(d, e, ops[..acknowledged + 1])))
  }

  /** Whenever a process may have died, what it left stands for what it had acknowledged by then. */
  ghost predicate Lived(d: Disk, ops: seq<Op>, life: Life, format: Format)
    requires Readable(d)
  {
    && life.states != [] && life.states[0].disk == d && OneByOne(life.states)
    && |life.entered| == |life.leaving| == |life.states| && life.entered[0] == 0
    && (forall i | 0 <= i < |life.states| :: Sound(life.states[i].disk) && Storable(life.states[i].disk, format))
    && (forall i | 0 <= i < |life.states| :: life.entered[i] <= life.leaving[i])
    && (forall i | 0 <= i < |life.states| - 1 :: life.leaving[i] == life.entered[i + 1])
    && (forall i, n | 0 <= i < |life.states| && life.entered[i] <= n <= life.leaving[i] ::
          Stands(d, life.states[i].disk, ops, n))
  }

  /** A process dies at the boundary whose number it was given, or it does not die. */
  predicate Died(s: Session, acknowledged: nat, life: Life)
  {
    && life.states != [] && life.states[|life.states| - 1].passed <= life.passed
    && (s.budget.Some? ==>
          && life.passed <= s.budget.value + 1
          && (acknowledged < |s.ops| ==> life.passed == s.budget.value + 1))
  }

  lemma BornLife(d: Disk, e: Disk, ops: seq<Op>, states: seq<Moment>, passed: nat, format: Format) returns (life: Life)
    requires Readable(d) && Unharmed(d, e, format) && Sound(d) && Storable(d, format)
    requires states != [] && states[0].disk == d && OneByOne(states) && AllKept(states, 1, d, format)
    ensures life.states == states && life.passed == passed && Lived(d, ops, life, format)
    ensures |life.leaving| == |states| && life.leaving[|states| - 1] == 0
  {
    hide Unharmed, OneByOne, Sound, Storable, Tracks;
    life := Life(states, seq(|states|, _ => 0), seq(|states|, _ => 0), passed);
    UnharmedItself(d, format);
    assert ops[..0] == [];
    forall i | 0 <= i < |states|
      ensures Sound(states[i].disk) && Storable(states[i].disk, format) && Readable(states[i].disk)
      ensures Tracks(d, states[i].disk, ops[..0])
    {
      assert Unharmed(d, states[i].disk, format);
      UnharmedParts(d, states[i].disk, format);
      TracksNothing(d, states[i].disk);
    }
  }

  /** The states of one operation more, which is acknowledged in the end, or not. */
  lemma LifeMore(d: Disk, ops: seq<Op>, life: Life, states: seq<Moment>, passed: nat, n: nat, done: bool, ok: bool,
                 entries: nat, format: Format)
    returns (more: Life)
    requires Readable(d) && Lived(d, ops, life, format) && n < |ops|
    requires |life.leaving| == |life.states| > 0 && life.leaving[|life.states| - 1] == n
    requires var e := life.states[|life.states| - 1].disk;
             && Readable(e) && Tracks(d, e, ops[..n])
             && EachLeft(states, |life.states|, e, Elements(Writes(ops[n])), entries, format)
             && AllPerformed(states, |life.states|, e, ops[n], done)
             && states != [] && (ok ==> done && Performed(e, states[|states| - 1].disk, ops[n], done))
    requires life.states <= states && OneByOne(states)
    ensures more.states == states && more.passed == passed && Lived(d, ops, more, format)
    ensures |more.leaving| == |states| && more.leaving[|states| - 1] == if ok then n + 1 else n
  {
    hide OneByOne, Sound, Storable, Tracks, Left, Performed;
    var old_, last := |life.states|, |states| - 1;
    var e := life.states[old_ - 1].disk;
    var fresh_ := seq(|states| - old_, _ => n);
    var entered := life.entered + fresh_;
    var leaving := (life.leaving + fresh_)[last := if ok then n + 1 else n];
    more := Life(states, entered, leaving, passed);
    assert forall i | 0 <= i < old_ :: states[i] == life.states[i];
    forall i | old_ <= i < |states|
      ensures Sound(states[i].disk) && Storable(states[i].disk, format) && Stands(d, states[i].disk, ops, n)
    {
      LeftReadable(e, states[i].disk, Elements(Writes(ops[n])), entries, format);
      TracksMore(d, e, states[i].disk, ops, n, done);
    }
    if ok {
      TracksMore(d, e, states[last].disk, ops, n, true);
    }
    forall i, c | 0 <= i < |states| && entered[i] <= c <= leaving[i]
      ensures Stands(d, states[i].disk, ops, c)
    {
      if i < old_ && c <= life.leaving[i] {
        assert Stands(d, life.states[i].disk, ops, c);
      }
    }
  }

  /** What a session may have on its directory: what was there, and what it was asked to write. */
  ghost predicate Within(d: Disk, e: Disk, ops: seq<Op>)
    requires Readable(d) && Readable(e)
  {
    RecordsOn(e) <= RecordsOn(d) + Elements(WrittenBy(ops))
  }

  /** The fullest memtable of a session. */
  ghost function EntriesIn(d: Disk, s: Session): nat
    requires Readable(d)
  {
    Max(LogEntries(d), s.options.flushThreshold) + 1
  }

  lemma WithinOnce(d: Disk, s: Session, e: Disk)
    requires Readable(d) && Readable(e) && NoneNew(d, e)
    ensures Within(d, e, s.ops) && LogEntries(e) <= EntriesIn(d, s)
  {
    hide RecordsOn, WrittenBy, LogEntries;
  }

  /** There is no room for all that a session may have on its directory. */
  ghost predicate NoRoomIn(d: Disk, s: Session, format: Format)
    requires Readable(d)
  {
    !Room(format, RecordsOn(d) + Elements(WrittenBy(s.ops)), EntriesIn(d, s), TargetIn(s))
  }

  /** An operation of the session stays within what the session writes, or there was no room for that. */
  lemma WithinMore(db: DbInner, d: Disk, e: Disk, s: Session, n: nat, entries: nat)
    requires Readable(d) && Readable(e) && n < |s.ops| && Within(d, e, s.ops) && entries <= EntriesIn(d, s)
    ensures Left(e, db.disk, Elements(Writes(s.ops[n])), entries, db.format) ==>
              Readable(db.disk) && Within(d, db.disk, s.ops) && LogEntries(db.disk) <= EntriesIn(d, s)
    ensures db.Full(e, Elements(Writes(s.ops[n])), entries, TargetOf(s.ops[n], s.options)) ==>
              NoRoomIn(d, s, db.format) || db.nextSstId > U64_MODULUS
  {
    hide RecordsOn, WrittenBy, Writes, Room, Storable, Recover, Coherent, WellFormed, LogEntries, EntriesIn;
    WritesOfOne(s.ops, n);
    var more, some := RecordsOn(d) + Elements(WrittenBy(s.ops)), RecordsOn(e) + Elements(Writes(s.ops[n]));
    assert some <= more;
    if Room(db.format, more, EntriesIn(d, s), TargetIn(s)) {
      RoomForLess(db.format, some, entries, TargetOf(s.ops[n], s.options), more, EntriesIn(d, s), TargetIn(s));
    }
  }

  predicate IdsBelow(fs: Files, n: nat)
  {
    forall id | id in fs :: id < n
  }

  /** What a directory may still use of the ids from `next` on. */
  ghost function UseOf(d: Disk, next: nat): Usage
    requires Readable(d)
  {
    Usage(RecoveredFiles(d), next, LogEntries(d))
  }

  method RunSession(d: Disk, s: Session, format: Format, ghost next: nat)
    returns (e: Disk, acknowledged: nat, answers: seq<Answer>, overflowed: bool, lastId: nat, ghost applied: nat,
             ghost life: Life)
    requires Sound(d) && Storable(d, format) && s.options.Valid()
    ensures overflowed ==> NoRoomIn(d, s, format) || lastId > U64_MODULUS
    ensures !overflowed ==> Sound(e) && Storable(e, format) && Within(d, e, s.ops) && LogEntries(e) <= EntriesIn(d, s)
    ensures acknowledged <= applied <= |s.ops| && applied <= acknowledged + 1
    ensures |answers| == acknowledged
    ensures !overflowed ==> forall m :: Represents(d, m) ==>
                                          Represents(e, Play(s.ops[..applied], m)) && Answered(s.ops, answers, m)
    ensures !overflowed && s.budget.None? ==> acknowledged == |s.ops| && LogEntries(e) < EntriesIn(d, s)
    ensures !overflowed && s.budget.None? && DisjointLevels(RecoveredFiles(d)) ==> DisjointLevels(RecoveredFiles(e))
    ensures s.budget.None? && IdsBelow(RecoveredFiles(d), next) ==>
              Uses(UseOf(d, next), lastId, |WrittenBy(s.ops)|, FullsIn(s.ops))
    ensures !overflowed && s.budget.None? && IdsBelow(RecoveredFiles(d), next) ==>
              && IdsBelow(RecoveredFiles(e), lastId)
              && Spent(UseOf(d, next), UseOf(e, lastId), |WrittenBy(s.ops)|, FullsIn(s.ops))
    ensures !overflowed ==>
              && Readable(d) && Lived(d, s.ops, life, format) && Died(s, acknowledged, life)
              && life.states != [] && |life.leaving| == |life.states|
              && life.states[|life.states| - 1].disk == e && life.leaving[|life.states| - 1] == acknowledged
  {
    hide *;
    var db := new DbInner(d, s.options, format, s.budget, s.torn);
    SoundParts(d);
    LifeOf(db, d, s);
    var ok := db.OpenDirectory();
    LifeOf(db, d, s);
    life := BornLife(d, db.disk, s.ops, db.states, db.passed, format);
    acknowledged := 0;
    applied := 0;
    answers := [];
    NoAnswers(d, s.ops);
    KeptParts(db, d);
    TracksNothing(d, db.disk);
    WithinOnce(d, s, db.disk);
    assert s.ops[..0] == [];
    ghost var counted, use := s.budget.None? && IdsBelow(RecoveredFiles(d), next), UseOf(d, next);
    if ok {
      Opened(db, d, s, next);
    }
    while ok && acknowledged < |s.ops|
      invariant 0 <= acknowledged <= |s.ops| && acknowledged <= applied <= |s.ops| && applied <= acknowledged + 1
      invariant db.format == format && db.options == s.options && db.start == s.budget && db.Traced()
      invariant ok ==> db.stopped == None
      invariant !ok && !db.overflowed ==> db.stopped.Some?
      invariant !db.overflowed ==>
                  && Lived(d, s.ops, life, format) && life.states == db.states && life.passed == db.passed
                  && life.states != [] && |life.leaving| == |life.states|
                  && life.leaving[|life.states| - 1] == acknowledged
      invariant db.overflowed ==> !ok
      invariant db.overflowed ==> NoRoomIn(d, s, format) || db.nextSstId > U64_MODULUS
      invariant !db.overflowed ==>
                  && Sound(db.disk) && Readable(db.disk) && WellFormed(RecoveredFiles(db.disk))
                  && Storable(db.disk, format) && Within(d, db.disk, s.ops) && LogEntries(db.disk) <= EntriesIn(d, s)
                  && Tracks(d, db.disk, s.ops[..applied])
      invariant ok ==> db.Valid() && applied == acknowledged && db.MostEntries() + 1 <= EntriesIn(d, s)
      invariant counted ==> Uses(use, db.nextSstId, |WrittenBy(s.ops)|, FullsIn(s.ops))
      invariant counted && ok ==>
                  Spent(use, db.Use(), |WrittenBy(s.ops[..acknowledged])|, FullsIn(s.ops[..acknowledged]))
      invariant |answers| == acknowledged && AnswersTrack(d, s.ops, answers)
      invariant s.budget.None? ==> db.budget.None? && (ok || db.overflowed)
      invariant !db.overflowed && s.budget.None? && DisjointLevels(RecoveredFiles(d)) ==>
                  DisjointLevels(RecoveredFiles(db.disk))
      decreases ok, |s.ops| - acknowledged
    {
      ghost var done;
      ghost var before, so, entries := db.disk, db.Use(), db.MostEntries();
      ValidIsReadable(db);
      NoMarkerToRecover(db);
      MostEntriesIs(db);
      var answer;
      ok, answer, done := Perform(db, s.ops[acknowledged]);
      WithinMore(db, d, before, s, acknowledged, entries + 1);
      if counted {
        CountOne(use, so, db, s.ops, acknowledged, ok);
      }
      if !db.overflowed {
        LeftParts(db, before, Elements(Writes(s.ops[acknowledged])), entries + 1);
        TracksMore(d, before, db.disk, s.ops, acknowledged, done);
        LifeOf(db, d, s);
        life := LifeMore(d, s.ops, life, db.states, db.passed, acknowledged, done, ok, entries + 1, format);
        if done {
          applied := applied + 1;
        }
      }
      if ok {
        ValidIsReadable(db);
        NoMarkerToRecover(db);
        MostEntriesAtMost(db, entries);
        AnswersMore(d, before, s.ops, answers, answer);
        answers := answers + [answer];
        acknowledged := acknowledged + 1;
      }
    }
    LifeOf(db, d, s);
    e := db.disk;
    overflowed := db.overflowed;
    lastId := db.nextSstId;
    assert s.ops[..|s.ops|] == s.ops;
    if ok {
      Ended(db);
      MostEntriesIs(db);
    }
    if !overflowed {
      PlayedThrough(d, e, s.ops, applied, answers);
    }
  }

  lemma KeptParts(db: DbInner, d: Disk)
    requires Readable(d) && Unharmed(d, db.disk, db.format)
    ensures Sound(db.disk) && Readable(db.disk) && WellFormed(RecoveredFiles(db.disk)) && Storable(db.disk, db.format)
    ensures NoneNew(d, db.disk) && SameView(d, db.disk)
  {
    hide Recover, Lookup, Coherent, WellFormed, Storable, RecordsOn;
  }

  lemma MostEntriesIs(db: DbInner)
    ensures |db.memtable| <= db.MostEntries() && db.options.flushThreshold <= db.MostEntries()
  {
  }

  lemma MostEntriesAtMost(db: DbInner, entries: nat)
    requires |db.memtable| <= entries && db.options.flushThreshold <= entries
    ensures db.MostEntries() <= entries
  {
  }

  /** A handle that was just opened has used none of the ids that its directory had left. */
  lemma Opened(db: DbInner, d: Disk, s: Session, next: nat)
    requires db.Valid() && Readable(d) && Unharmed(d, db.disk, db.format)
    requires RecoveredFiles(db.disk) == RecoveredFiles(d)
    requires db.options == s.options && (db.nextSstId > 0 ==> db.nextSstId - 1 in db.disk.files)
    ensures db.MostEntries() + 1 <= EntriesIn(d, s)
    ensures IdsBelow(RecoveredFiles(d), next) ==> Spent(UseOf(d, next), db.Use(), |WrittenBy([])|, FullsIn([]))
    ensures IdsBelow(RecoveredFiles(d), next) ==>
              Uses(UseOf(d, next), db.nextSstId, |WrittenBy(s.ops)|, FullsIn(s.ops))
  {
    hide Recover, Lookup, Coherent, WellFormed, Mirrors, Storable, RecordsOn, Spent, Uses, WrittenBy, FullsIn;
    assert |WrittenBy([])| == 0 && FullsIn([]) == 0 by {
      NothingDone();
    }
    if IdsBelow(RecoveredFiles(d), next) {
      SpentNone(UseOf(d, next), db.Use());
      UsesEntries(UseOf(d, next), db.nextSstId, |WrittenBy(s.ops)|, FullsIn(s.ops));
    }
  }

  lemma NothingDone()
    ensures WrittenBy([]) == [] && FullsIn([]) == 0
  {
  }

  /** One operation more is counted. */
  lemma CountOne(use: Usage, so: Usage, db: DbInner, ops: seq<Op>, n: nat, ok: bool)
    requires n < |ops| && Spent(use, so, |WrittenBy(ops[..n])|, FullsIn(ops[..n]))
    requires Uses(so, db.nextSstId, |Writes(ops[n])|, Fulls(ops[n]))
    requires ok ==> Spent(so, db.Use(), |Writes(ops[n])|, Fulls(ops[n]))
    ensures Uses(use, db.nextSstId, |WrittenBy(ops)|, FullsIn(ops))
    ensures ok ==> Spent(use, db.Use(), |WrittenBy(ops[..n + 1])|, FullsIn(ops[..n + 1]))
  {
    hide *;
    var writes, fulls := |WrittenBy(ops[..n])|, FullsIn(ops[..n]);
    WritesOneMore(ops, n);
    WritesOfSome(ops, n + 1);
    UsesThrough(use, so, db.nextSstId, writes, fulls, |Writes(ops[n])|, Fulls(ops[n]));
    UsesMore(use, db.nextSstId, |WrittenBy(ops[..n + 1])|, FullsIn(ops[..n + 1]), |WrittenBy(ops)|, FullsIn(ops));
    if ok {
      SpentThrough(use, so, db.Use(), writes, fulls, |Writes(ops[n])|, Fulls(ops[n]));
    }
  }

  /** What the next process finds. */
  lemma Ended(db: DbInner)
    requires db.Valid()
    ensures Readable(db.disk) && UseOf(db.disk, db.nextSstId) == db.Use() && LogEntries(db.disk) == |db.memtable|
    ensures IdsBelow(RecoveredFiles(db.disk), db.nextSstId)
  {
    hide Recover, Lookup, Coherent, WellFormed, Mirrors, Storable;
  }

  lemma LifeOf(db: DbInner, d: Disk, s: Session)
    requires db.Traced() && db.start == s.budget
    ensures db.states != [] && db.states[|db.states| - 1].disk == db.disk && OneByOne(db.states)
    ensures db.states[|db.states| - 1].passed <= db.passed
    ensures s.budget.Some? ==> db.passed <= s.budget.value + 1
    ensures s.budget.Some? && db.stopped.Some? ==> db.passed == s.budget.value + 1
    ensures s.budget.None? ==> db.stopped == None
    ensures forall life: Life, n: nat | life.states == db.states && life.passed == db.passed
              && (n < |s.ops| ==> db.stopped.Some?) :: Died(s, n, life)
  {
    hide OneByOne;
  }

  lemma LeftParts(db: DbInner, d: Disk, added: set<Record>, entries: nat)
    requires Readable(d) && Left(d, db.disk, added, entries, db.format)
    ensures Sound(db.disk) && Readable(db.disk) && WellFormed(RecoveredFiles(db.disk)) && Storable(db.disk, db.format)
  {
    hide Recover, Lookup, Coherent, WellFormed, Storable, RecordsOn;
  }

  lemma NoMarkerToRecover(db: DbInner)
    requires db.Valid()
    ensures RecoveredFiles(db.disk) == db.disk.files
  {
    hide Recover, Lookup, Coherent, WellFormed, Mirrors, Storable;
  }

  lemma PlayedThrough(d: Disk, e: Disk, ops: seq<Op>, applied: nat, answers: seq<Answer>)
    requires Readable(d) && Readable(e) && applied <= |ops|
    requires Tracks(d, e, ops[..applied]) && AnswersTrack(d, ops, answers)
    ensures forall m :: Represents(d, m) ==> Represents(e, Play(ops[..applied], m)) && Answered(ops, answers, m)
  {
    hide Represents, Answered, Play;
  }

  // ---------- any number of processes ----------

  /** In every session, every answer was what the map said at that point. */
  ghost predicate AllAnswered(sessions: seq<Session>, applied: seq<nat>, answers: seq<seq<Answer>>)
  {
    && |answers| == |sessions| && Played(sessions, applied)
    && forall n | 0 <= n < |sessions| :: Answered(sessions[n].ops, answers[n], PlayAll(sessions[..n], applied[..n]))
  }

  /** Every session left a directory that stands for the map, and can be stored and read as files. */
  ghost predicate AllLeft(sessions: seq<Session>, applied: seq<nat>, left: seq<Disk>, format: Format)
  {
    && |left| == |sessions| && Played(sessions, applied)
    && forall n | 0 <= n < |sessions| ::
         && Sound(left[n]) && Storable(left[n], format)
         && Represents(left[n], PlayAll(sessions[..n + 1], applied[..n + 1]))
  }

  /** The directory that a process found. */
  function StartOf(left: seq<Disk>, n: nat): Disk
    requires n <= |left|
  {
    if n == 0 then EMPTY else left[n - 1]
  }

  /**
   One state of a process. It is sound and can be read, and it stands for the
   operations acknowledged so far, and perhaps for the next one, on top of the map
   that the process found.
   */
  ghost predicate StateStands(e: Disk, ops: seq<Op>, acknowledged: nat, m: Model, format: Format)
  {
    && Sound(e) && Storable(e, format) && acknowledged <= |ops|
    && (|| Represents(e, Play(ops[..acknowledged], m))
        || (acknowledged < |ops| && Represents(e, Play(ops[..acknowledged + 1], m))))
  }

  /**
   All that became of the directory in every session. States follow each other by
   one atomic effect, with a boundary in between at which the process may die; and
   a process that was given `b` boundaries and did not finish died at boundary `b`.
   */
  ghost predicate AllLived(sessions: seq<Session>, acknowledged: seq<nat>, applied: seq<nat>, left: seq<Disk>,
                           lives: seq<Life>, format: Format)
  {
    && |lives| == |left| == |acknowledged| == |sessions| && Played(sessions, applied)
    && forall n | 0 <= n < |sessions| ::
         LivedOn(sessions[n], acknowledged[n], StartOf(left, n), left[n], PlayAll(sessions[..n], applied[..n]),
                 lives[n], format)
  }

  ghost predicate LivedOn(s: Session, acknowledged: nat, d: Disk, e: Disk, m: Model, life: Life, format: Format)
  {
    && life.states != [] && |life.entered| == |life.leaving| == |life.states|
    && life.states[0].disk == d && life.states[|life.states| - 1].disk == e
    && OneByOne(life.states) && Died(s, acknowledged, life)
    && life.entered[0] == 0 && life.leaving[|life.states| - 1] == acknowledged
    && (forall i | 0 <= i < |life.states| - 1 :: life.leaving[i] == life.entered[i + 1])
    && (forall i | 0 <= i < |life.states| :: life.entered[i] <= life.leaving[i])
    && forall i, n | 0 <= i < |life.states| && life.entered[i] <= n <= life.leaving[i] ::
         StateStands(life.states[i].disk, s.ops, n, m, format)
  }

  lemma LivedIsLivedOn(s: Session, acknowledged: nat, d: Disk, e: Disk, m: Model, life: Life, format: Format)
    requires Readable(d) && Lived(d, s.ops, life, format) && Represents(d, m) && Died(s, acknowledged, life)
    requires life.states != [] && |life.leaving| == |life.states|
    requires life.states[|life.states| - 1].disk == e && life.leaving[|life.states| - 1] == acknowledged
    ensures LivedOn(s, acknowledged, d, e, m, life, format)
  {
    hide OneByOne, Sound, Storable, Represents, Died;
    forall i, n | 0 <= i < |life.states| && life.entered[i] <= n <= life.leaving[i]
      ensures StateStands(life.states[i].disk, s.ops, n, m, format)
    {
      assert Stands(d, life.states[i].disk, s.ops, n);
    }
  }

  lemma OneMoreLife(sessions: seq<Session>, n: nat, acknowledged: seq<nat>, acks: nat, applied: seq<nat>, count: nat,
                    left: seq<Disk>, e: Disk, lives: seq<Life>, life: Life, format: Format)
    requires n < |sessions| && AllLived(sessions[..n], acknowledged, applied, left, lives, format)
    requires count <= |sessions[n].ops|
    requires LivedOn(sessions[n], acks, StartOf(left, n), e, PlayAll(sessions[..n], applied), life, format)
    ensures AllLived(sessions[..n + 1], acknowledged + [acks], applied + [count], left + [e], lives + [life], format)
  {
    hide LivedOn, PlayAll;
    var more, played := sessions[..n + 1], applied + [count];
    forall j | 0 <= j <= n
      ensures LivedOn(more[j], (acknowledged + [acks])[j], StartOf(left + [e], j), (left + [e])[j],
                      PlayAll(more[..j], played[..j]), (lives + [life])[j], format)
    {
      assert more[..j] == sessions[..j] && played[..j] == applied[..j];
      if j < n {
        assert sessions[..n][..j] == sessions[..j] && sessions[..n][j] == more[j];
      } else {
        assert applied[..n] == applied;
      }
    }
  }

  const EMPTY: Disk := Disk([], map[], {}, None)

  lemma EmptyIsSound(format: Format)
    ensures Sound(EMPTY) && Represents(EMPTY, map[]) && DisjointLevels(RecoveredFiles(EMPTY))
    ensures Storable(EMPTY, format) && RecordsOn(EMPTY) == {}
    ensures UseOf(EMPTY, 0) == Usage(map[], 0, 0) && IdsBelow(RecoveredFiles(EMPTY), 0) && LogEntries(EMPTY) == 0
  {
    NothingRead([], true);
    forall k
      ensures Lookup(EMPTY, k) == None
      ensures CoherentColumn(ColumnOf(map[], k))
    {
      assert ColumnOf(map[], k) == map[];
      TopOfEmpty(map[]);
    }
  }

  /**
   Whatever is asked of the processes, every state of the directory stands for
   exactly the operations acknowledged so far, with the one in flight wholly there
   or wholly not, and a process may die in each of them; and every answer on the way
   is the map's. This holds until something outgrows its fields. Within the limits
   no table does, however much is written, and ids reach 2^64 in no run without a
   crash whose writes and full compactions are few enough for `IdsFor`.
   */
  method Run(sessions: seq<Session>, format: Format)
    returns (acknowledged: seq<nat>, answers: seq<seq<Answer>>, left: seq<Disk>, overflowed: bool, lastId: nat,
             ghost lives: seq<Life>)
    requires forall s | s in sessions :: s.options.Valid()
    ensures !overflowed ==> |acknowledged| == |answers| == |left| == |sessions|
    ensures !overflowed ==> forall i | 0 <= i < |sessions| :: |answers[i]| == acknowledged[i]
    ensures !overflowed ==>
              forall i | 0 <= i < |sessions| && sessions[i].budget.None? :: acknowledged[i] == |sessions[i].ops|
    ensures !overflowed ==> forall d | d in left :: WellFormed(RecoveredFiles(d))
    ensures !overflowed && (forall s | s in sessions :: s.budget.None?) ==>
              forall d | d in left :: DisjointLevels(RecoveredFiles(d))
    ensures overflowed ==> !WithinLimits(format, sessions) || lastId > U64_MODULUS
    ensures (forall s | s in sessions :: s.budget.None?) ==>
              lastId <= IdsFor(|AllWritten(sessions)|, AllFulls(sessions))
    ensures !overflowed ==> exists applied ::
                              && Explains(sessions, acknowledged, applied)
                              && AllAnswered(sessions, applied, answers)
                              && AllLeft(sessions, applied, left, format)
                              && AllLived(sessions, acknowledged, applied, left, lives, format)
  {
    hide *;
    EmptyIsSound(format);
    var d := EMPTY;
    acknowledged, answers, left, lives := [], [], [], [];
    overflowed, lastId := false, 0;
    ghost var applied: seq<nat> := [];
    SoundParts(d);
    NothingToExplain(format);
    assert sessions[..0] == [];
    ghost var counted, use := forall s | s in sessions :: s.budget.None?, Usage(map[], 0, 0);
    CountNothing(use, |AllWritten(sessions)|, AllFulls(sessions));
    var n := 0;
    while n < |sessions| && !overflowed
      invariant 0 <= n <= |sessions|
      invariant counted ==> Uses(use, lastId, |AllWritten(sessions)|, AllFulls(sessions))
      invariant counted && !overflowed ==>
                  && Readable(d) && IdsBelow(RecoveredFiles(d), lastId)
                  && Spent(use, UseOf(d, lastId), |AllWritten(sessions[..n])|, AllFulls(sessions[..n]))
      invariant overflowed ==> !WithinLimits(format, sessions) || lastId > U64_MODULUS
      invariant !overflowed ==>
                  && |acknowledged| == |answers| == |left| == n
                  && (forall i | 0 <= i < n :: |answers[i]| == acknowledged[i])
                  && (forall i | 0 <= i < n && sessions[i].budget.None? :: acknowledged[i] == |sessions[i].ops|)
                  && Sound(d) && Readable(d) && WellFormed(RecoveredFiles(d)) && Storable(d, format)
                  && RecordsOn(d) <= Elements(AllWritten(sessions[..n]))
                  && LogEntries(d) <= LargestThreshold(sessions) + Deaths(sessions[..n])
                  && Explains(sessions[..n], acknowledged, applied) && Played(sessions[..n], applied)
                  && AllAnswered(sessions[..n], applied, answers) && AllLeft(sessions[..n], applied, left, format)
                  && AllLived(sessions[..n], acknowledged, applied, left, lives, format)
                  && Represents(d, PlayAll(sessions[..n], applied)) && d == StartOf(left, n)
                  && (forall e | e in left :: Sound(e) && WellFormed(RecoveredFiles(e)))
      invariant !overflowed && (forall s | s in sessions :: s.budget.None?) ==>
                  && DisjointLevels(RecoveredFiles(d))
                  && forall e | e in left :: DisjointLevels(RecoveredFiles(e))
    {
      var e, acks, seen;
      ghost var count, life;
      ghost var next := lastId;
      e, acks, seen, overflowed, lastId, count, life := RunSession(d, sessions[n], format, next);
      if counted {
        CountSession(use, sessions, n, d, next, lastId);
      }
      if overflowed {
        NoRoom(format, sessions, n, d, lastId);
      } else {
        SoundParts(e);
        if counted {
          SpentSession(use, sessions, n, d, next, e, lastId);
        }
        LivedIsLivedOn(sessions[n], acks, d, e, PlayAll(sessions[..n], applied), life, format);
        OneMoreLife(sessions, n, acknowledged, acks, applied, count, left, e, lives, life, format);
        FoundIs(left, e);
        OneMoreSession(sessions, n, acknowledged, applied, acks, count);
        OneMoreAnswered(sessions, n, applied, count, answers, seen);
        OneMoreLeft(sessions, n, applied, count, left, e, format);
        WrittenStill(sessions, n, d, e);
        d := e;
        acknowledged := acknowledged + [acks];
        answers := answers + [seen];
        left := left + [e];
        lives := lives + [life];
        applied := applied + [count];
      }
      n := n + 1;
    }
    assert !overflowed ==> sessions[..n] == sessions;
    if counted {
      IdsAreFew(use, lastId, |AllWritten(sessions)|, AllFulls(sessions));
    }
    LeftAreSound(left);
  }

  /**
   The files of a directory that a run left are read as what it stands for: the
   tables are discovered, each loads and answers like its records, and a marker
   says what was written.
   */
  lemma LeftDirectoryIsRead(sessions: seq<Session>, applied: seq<nat>, left: seq<Disk>, format: Format, n: nat,
                            dir: map<string, Directory.Content>)
    requires AllLeft(sessions, applied, left, format) && n < |sessions| && Directory.Stores(dir, left[n], format)
    ensures Directory.Discovered(dir) == Directory.TableFiles(dir, left[n].files)
    ensures forall id | id in left[n].files ::
              var name := Directory.TableName(dir, left[n].files, id);
              && name in dir && dir[name].Data? && SsTableReader.LoadedFrom(dir[name].bytes).Ok?
              && forall key :: SsTableReader.LoadedFrom(dir[name].bytes).value.Lookup(key)
                               == Ok(Find(left[n].files[id].records, key))
    ensures left[n].marker.Some? ==>
              && Directory.MERGE_PENDING_FILE in dir && dir[Directory.MERGE_PENDING_FILE].Text?
              && AfterLines(Lines(dir[Directory.MERGE_PENDING_FILE].text))
                 == MarkerIds(left[n].marker.value.outputs, left[n].marker.value.inputs)
  {
    LeftIsStorable(sessions, applied, left, format, n);
    hide *;
    Directory.TablesAreDiscovered(dir, left[n], format);
    forall id | id in left[n].files
      ensures var name := Directory.TableName(dir, left[n].files, id);
              && name in dir && dir[name].Data? && SsTableReader.LoadedFrom(dir[name].bytes).Ok?
              && forall key :: SsTableReader.LoadedFrom(dir[name].bytes).value.Lookup(key)
                               == Ok(Find(left[n].files[id].records, key))
    {
      Directory.TableLoads(dir, left[n], format, id);
    }
    if left[n].marker.Some? {
      Directory.MarkerIsRead(dir, left[n], format);
    }
  }

  /** And it can be opened: names and bytes become those of the recovered directory, and every table is loaded. */
  method OpenLeft(ghost sessions: seq<Session>, ghost applied: seq<nat>, ghost left: seq<Disk>, ghost format: Format,
                  ghost n: nat, folder: Opening.Folder)
    returns (levels: Levels, next: nat)
    requires AllLeft(sessions, applied, left, format) && n < |sessions|
    requires Directory.Stores(folder.dir, left[n], format)
    modifies folder
    ensures Directory.Stores(folder.dir, Disk(left[n].wal, RecoveredFiles(left[n]), {}, None), format)
    ensures |levels| >= 1 && Mirrors(levels, RecoveredFiles(left[n]))
    ensures forall id | id in RecoveredFiles(left[n]) :: id < next
  {
    hide *;
    LeftIsStorable(sessions, applied, left, format, n);
    var ok;
    ok, levels, next := folder.Open(left[n], format);
  }

  lemma LeftIsStorable(sessions: seq<Session>, applied: seq<nat>, left: seq<Disk>, format: Format, n: nat)
    requires AllLeft(sessions, applied, left, format) && n < |sessions|
    ensures n < |left| && Storable(left[n], format)
  {
    hide Storable, Sound, Represents;
  }

  lemma LeftAreSound(left: seq<Disk>)
    ensures (forall d | d in left :: Sound(d)) ==> forall d | d in left :: WellFormed(RecoveredFiles(d))
  {
    hide WellFormed, Coherent, Readable;
  }

  lemma FoundIs(left: seq<Disk>, e: Disk)
    ensures StartOf(left + [e], |left| + 1) == e
  {
  }

  lemma NothingToExplain(format: Format)
    ensures Explains([], [], []) && Played([], []) && PlayAll([], []) == map[]
    ensures AllAnswered([], [], []) && AllLeft([], [], [], format) && AllWritten([]) == [] && Elements([]) == {}
    ensures Deaths([]) == 0 && AllLived([], [], [], [], [], format) && StartOf([], 0) == EMPTY
  {
  }

  /** A session that ran out of room ran out of what the limits allow. */
  lemma NoRoom(format: Format, sessions: seq<Session>, n: nat, d: Disk, lastId: nat)
    requires n < |sessions| && Readable(d) && RecordsOn(d) <= Elements(AllWritten(sessions[..n]))
    requires LogEntries(d) <= LargestThreshold(sessions) + Deaths(sessions[..n])
    requires NoRoomIn(d, sessions[n], format) || lastId > U64_MODULUS
    ensures !WithinLimits(format, sessions) || lastId > U64_MODULUS
  {
    hide *;
    if WithinLimits(format, sessions) {
      LimitsGiveRoom(format, sessions, n + 1);
      WrittenOneMore(sessions, n);
      BoundsOf(sessions, n, d);
      if lastId <= U64_MODULUS {
        RoomForLess(format, RecordsOn(d) + Elements(WrittenBy(sessions[n].ops)), EntriesIn(d, sessions[n]),
                    TargetIn(sessions[n]), Elements(AllWritten(sessions[..n + 1])), FullestMemtable(sessions),
                    LargestTarget(sessions));
        NoRoomIs(d, sessions[n], format);
      }
    }
  }

  lemma NoRoomIs(d: Disk, s: Session, format: Format)
    requires Readable(d)
    ensures NoRoomIn(d, s, format)
       <==> !Room(format, RecordsOn(d) + Elements(WrittenBy(s.ops)), EntriesIn(d, s), TargetIn(s))
  {
    hide Room, RecordsOn, WrittenBy, EntriesIn, TargetIn;
  }

  lemma BoundsOf(sessions: seq<Session>, n: nat, d: Disk)
    requires n < |sessions| && Readable(d) && LogEntries(d) <= LargestThreshold(sessions) + Deaths(sessions[..n])
    ensures EntriesIn(d, sessions[n]) <= LargestThreshold(sessions) + Deaths(sessions[..n]) + 1
    ensures EntriesIn(d, sessions[n]) <= FullestMemtable(sessions)
    ensures TargetIn(sessions[n]) <= LargestTarget(sessions)
  {
    hide LogEntries, TargetIn, LargestThreshold, LargestTarget, Deaths, AllWritten, AllFulls;
    LargestAreLargest(sessions);
    WrittenGrows(sessions, n);
  }

  lemma CountNothing(use: Usage, writes: nat, fulls: nat)
    requires use == Usage(map[], 0, 0)
    ensures Uses(use, 0, writes, fulls) && Spent(use, use, |AllWritten([])|, AllFulls([]))
  {
    hide Uses, Spent;
    UsesEntries(use, 0, writes, fulls);
    SpentNone(use, use);
  }

  lemma CountSession(use: Usage, sessions: seq<Session>, n: nat, d: Disk, next: nat, lastId: nat)
    requires n < |sessions| && Readable(d)
    requires Spent(use, UseOf(d, next), |AllWritten(sessions[..n])|, AllFulls(sessions[..n]))
    requires Uses(UseOf(d, next), lastId, |WrittenBy(sessions[n].ops)|, FullsIn(sessions[n].ops))
    ensures Uses(use, lastId, |AllWritten(sessions)|, AllFulls(sessions))
  {
    hide *;
    WrittenOneMore(sessions, n);
    WrittenGrows(sessions, n + 1);
    UsesThrough(use, UseOf(d, next), lastId, |AllWritten(sessions[..n])|, AllFulls(sessions[..n]),
                |WrittenBy(sessions[n].ops)|, FullsIn(sessions[n].ops));
    UsesMore(use, lastId, |AllWritten(sessions[..n + 1])|, AllFulls(sessions[..n + 1]),
             |AllWritten(sessions)|, AllFulls(sessions));
  }

  lemma SpentSession(use: Usage, sessions: seq<Session>, n: nat, d: Disk, next: nat, e: Disk, lastId: nat)
    requires n < |sessions| && Readable(d) && Readable(e)
    requires Spent(use, UseOf(d, next), |AllWritten(sessions[..n])|, AllFulls(sessions[..n]))
    requires Spent(UseOf(d, next), UseOf(e, lastId), |WrittenBy(sessions[n].ops)|, FullsIn(sessions[n].ops))
    ensures Spent(use, UseOf(e, lastId), |AllWritten(sessions[..n + 1])|, AllFulls(sessions[..n + 1]))
  {
    hide *;
    WrittenOneMore(sessions, n);
    SpentThrough(use, UseOf(d, next), UseOf(e, lastId), |AllWritten(sessions[..n])|, AllFulls(sessions[..n]),
                 |WrittenBy(sessions[n].ops)|, FullsIn(sessions[n].ops));
  }

  lemma WrittenStill(sessions: seq<Session>, n: nat, d: Disk, e: Disk)
    requires n < |sessions| && Readable(d) && Readable(e) && RecordsOn(d) <= Elements(AllWritten(sessions[..n]))
    requires Within(d, e, sessions[n].ops)
    requires LogEntries(d) <= LargestThreshold(sessions) + Deaths(sessions[..n])
    requires LogEntries(e) <= EntriesIn(d, sessions[n])
    requires sessions[n].budget.None? ==> LogEntries(e) < EntriesIn(d, sessions[n])
    ensures RecordsOn(e) <= Elements(AllWritten(sessions[..n + 1]))
    ensures LogEntries(e) <= LargestThreshold(sessions) + Deaths(sessions[..n + 1])
  {
    hide RecordsOn, AllWritten, WrittenBy, LogEntries, EntriesIn, LargestThreshold, AllFulls, FullsIn, Deaths;
    WrittenOneMore(sessions, n);
    BoundsOf(sessions, n, d);
  }

  lemma OneMoreSession(sessions: seq<Session>, n: nat, acknowledged: seq<nat>, applied: seq<nat>, acks: nat, count: nat)
    requires n < |sessions| && Explains(sessions[..n], acknowledged, applied) && Played(sessions[..n], applied)
    requires acks <= count <= |sessions[n].ops| && count <= acks + 1
    ensures Explains(sessions[..n + 1], acknowledged + [acks], applied + [count])
    ensures Played(sessions[..n + 1], applied + [count])
    ensures PlayAll(sessions[..n + 1], applied + [count])
         == Play(sessions[n].ops[..count], PlayAll(sessions[..n], applied))
  {
    assert sessions[..n + 1][..n] == sessions[..n];
    assert (applied + [count])[..n] == applied;
  }

  lemma OneMoreAnswered(sessions: seq<Session>, n: nat, applied: seq<nat>, count: nat,
                        answers: seq<seq<Answer>>, seen: seq<Answer>)
    requires n < |sessions| && AllAnswered(sessions[..n], applied, answers) && count <= |sessions[n].ops|
    requires Answered(sessions[n].ops, seen, PlayAll(sessions[..n], applied))
    ensures AllAnswered(sessions[..n + 1], applied + [count], answers + [seen])
  {
    hide Answered, PlayAll;
    var more, played := sessions[..n + 1], applied + [count];
    forall j | 0 <= j <= n
      ensures Answered(more[j].ops, (answers + [seen])[j], PlayAll(more[..j], played[..j]))
    {
      assert more[..j] == sessions[..j] && played[..j] == applied[..j];
      if j < n {
        assert sessions[..n][..j] == sessions[..j] && sessions[..n][j] == more[j];
      } else {
        assert applied[..n] == applied;
      }
    }
  }

  lemma OneMoreLeft(sessions: seq<Session>, n: nat, applied: seq<nat>, count: nat, left: seq<Disk>, e: Disk,
                    format: Format)
    requires n < |sessions| && AllLeft(sessions[..n], applied, left, format) && count <= |sessions[n].ops|
    requires Played(sessions[..n + 1], applied + [count])
    requires Sound(e) && Storable(e, format) && Represents(e, PlayAll(sessions[..n + 1], applied + [count]))
    ensures AllLeft(sessions[..n + 1], applied + [count], left + [e], format)
  {
    hide PlayAll, Represents, Storable, Coherent, WellFormed, Recover;
    var more, played := sessions[..n + 1], applied + [count];
    forall j | 0 <= j <= n
      ensures Sound((left + [e])[j]) && Storable((left + [e])[j], format)
      ensures Represents((left + [e])[j], PlayAll(more[..j + 1], played[..j + 1]))
    {
      if j < n {
        assert more[..j + 1] == sessions[..n][..j + 1] && played[..j + 1] == applied[..j + 1];
      } else {
        assert more[..j + 1] == more && played[..j + 1] == played;
      }
    }
  }
}
