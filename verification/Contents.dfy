/**
 Which records a directory holds, and whether its tables can be written and read.
 No step of the protocol invents a record, and tables of few enough records fit.
 */
module Contents {
  import opened Bytes
  import opened Records
  import opened Wal
  import opened Lsm
  import opened Disk
  import opened Merging
  import opened Levels
  import opened Jobs
  import Blocks
  import SsTable
  import SsTableSize
  import SsTableRoundTrip
  import opened Formats

  // ---------- the records of a directory ----------

  function AsRecord(w: WalRecord): Record
  {
    Record(w.key, EntryOf(w))
  }

  function FileRecords(fs: Files): set<Record>
  {
    set id, r | id in fs && r in fs[id].records :: r
  }

  ghost function LogRecords(d: Disk): set<Record>
    requires Readable(d)
  {
    set w | w in Recover(d.wal).value.items :: AsRecord(w)
  }

  ghost function RecordsOn(d: Disk): set<Record>
    requires Readable(d)
  {
    FileRecords(d.files) + LogRecords(d)
  }

  /** How many entries the memtable has that the log rebuilds. */
  ghost function LogEntries(d: Disk): nat
    requires Readable(d)
  {
    |Replay(Recover(d.wal).value.items)|
  }

  /** No record is on the second directory that was not on the first, and its log rebuilds no larger memtable. */
  ghost predicate NoneNew(d: Disk, e: Disk)
    requires Readable(d) && Readable(e)
  {
    RecordsOn(e) <= RecordsOn(d) && LogEntries(e) <= LogEntries(d)
  }

  /** Still sound, its tables can be read, nothing new, and no key reads differently. */
  ghost predicate Unharmed(d: Disk, e: Disk, format: Format)
    requires Readable(d)
  {
    Sound(e) && Storable(e, format) && NoneNew(d, e) && SameView(d, e)
  }

  /** Sound, its tables can be read, no record but those before and those added, and so many entries logged at most. */
  ghost predicate Left(d: Disk, e: Disk, added: set<Record>, entries: nat, format: Format)
    requires Readable(d)
  {
    && Sound(e) && Storable(e, format)
    && RecordsOn(e) <= RecordsOn(d) + added && LogEntries(e) <= entries
  }

  // ---------- the states that a process goes through ----------

  ghost predicate AllKept(states: seq<Moment>, from: nat, d: Disk, format: Format)
    requires Readable(d)
  {
    forall i | from <= i < |states| :: Unharmed(d, states[i].disk, format)
  }

  ghost predicate EachLeft(states: seq<Moment>, from: nat, d: Disk, added: set<Record>, entries: nat, format: Format)
    requires Readable(d)
  {
    forall i | from <= i < |states| :: Left(d, states[i].disk, added, entries, format)
  }

  /** One key reads as written in each of them, every other as before. */
  ghost predicate AllUpdated(states: seq<Moment>, from: nat, d: Disk, key: Key, value: Option<Bytes>)
    requires Readable(d)
  {
    forall i | from <= i < |states| :: Readable(states[i].disk) && Updated(d, states[i].disk, key, value)
  }

  ghost predicate AllSame(states: seq<Moment>, from: nat, d: Disk)
    requires Readable(d)
  {
    forall i | from <= i < |states| :: Readable(states[i].disk) && SameView(d, states[i].disk)
  }

  lemma AllKeptNone(states: seq<Moment>, d: Disk, format: Format)
    requires Readable(d)
    ensures AllKept(states, |states|, d, format)
  {
  }

  lemma AllKeptMore(states: seq<Moment>, from: nat, d: Disk, e: Moment, format: Format)
    requires Readable(d) && AllKept(states, from, d, format) && Unharmed(d, e.disk, format)
    ensures AllKept(states + [e], from, d, format)
  {
    hide Unharmed;
  }

  /** Kept from a state that was kept. */
  lemma AllKeptThrough(states: seq<Moment>, from: nat, d: Disk, more: seq<Moment>, e: Disk, format: Format)
    requires Readable(d) && Readable(e) && Unharmed(d, e, format)
    requires states <= more && AllKept(states, from, d, format) && AllKept(more, |states|, e, format)
    ensures AllKept(more, from, d, format)
  {
    hide Unharmed;
    forall i | from <= i < |more|
      ensures Unharmed(d, more[i].disk, format)
    {
      if i < |states| {
        assert more[i] == states[i];
      } else {
        UnharmedThrough(d, e, more[i].disk, format);
      }
    }
  }

  lemma AllKeptJoin(states: seq<Moment>, from: nat, more: seq<Moment>, d: Disk, format: Format)
    requires Readable(d) && states <= more && AllKept(states, from, d, format)
    requires AllKept(more, |states|, d, format)
    ensures AllKept(more, from, d, format)
  {
    hide Unharmed;
    assert forall i | 0 <= i < |states| :: more[i] == states[i];
  }

  lemma UnharmedThrough(d: Disk, e: Disk, f: Disk, format: Format)
    requires Readable(d) && Readable(e) && Unharmed(d, e, format) && Unharmed(e, f, format)
    ensures Unharmed(d, f, format)
  {
    hide Recover, RecordsOn, LogEntries, Lookup, WellFormed, Coherent, Storable;
  }

  lemma UnharmedIs(d: Disk, e: Disk, format: Format)
    requires Sound(e) && Storable(e, format) && Readable(d) && Readable(e) && NoneNew(d, e) && SameView(d, e)
    ensures Unharmed(d, e, format)
  {
    hide Recover, RecordsOn, LogEntries, Lookup, WellFormed, Coherent, Storable;
  }

  lemma UnharmedParts(d: Disk, e: Disk, format: Format)
    requires Readable(d) && Unharmed(d, e, format)
    ensures Sound(e) && Readable(e) && Storable(e, format) && NoneNew(d, e) && SameView(d, e)
    ensures WellFormed(RecoveredFiles(e))
  {
    hide Recover, RecordsOn, LogEntries, Lookup, WellFormed, Coherent, Storable;
  }

  lemma UnharmedItself(d: Disk, format: Format)
    requires Sound(d) && Storable(d, format)
    ensures Readable(d) && Unharmed(d, d, format)
  {
    hide Recover, RecordsOn, LogEntries, Lookup, WellFormed, Coherent, Storable;
  }

  /** Kept from a state with one write more. */
  lemma AllWrittenThrough(states: seq<Moment>, more: seq<Moment>, from: nat, d: Disk, e: Disk, key: Key,
                          value: Option<Bytes>, added: set<Record>, entries: nat, format: Format)
    requires Readable(d) && Readable(e) && Updated(d, e, key, value)
    requires RecordsOn(e) == RecordsOn(d) + added && LogEntries(e) <= entries
    requires from <= |states| && states <= more && AllKept(more, |states|, e, format)
    requires AllUpdated(states, from, d, key, value) && EachLeft(states, from, d, added, entries, format)
    ensures AllUpdated(more, from, d, key, value) && EachLeft(more, from, d, added, entries, format)
  {
    hide Unharmed, Left, Updated;
    forall i | from <= i < |more|
      ensures Readable(more[i].disk) && Updated(d, more[i].disk, key, value)
      ensures Left(d, more[i].disk, added, entries, format)
    {
      if i < |states| {
        assert more[i] == states[i];
      } else {
        WrittenThrough(d, e, more[i].disk, key, value, added, entries, format);
      }
    }
  }

  lemma WrittenThrough(d: Disk, e: Disk, f: Disk, key: Key, value: Option<Bytes>, added: set<Record>, entries: nat,
                       format: Format)
    requires Readable(d) && Readable(e) && Updated(d, e, key, value) && Unharmed(e, f, format)
    requires RecordsOn(e) == RecordsOn(d) + added && LogEntries(e) <= entries
    ensures Readable(f) && Updated(d, f, key, value) && Left(d, f, added, entries, format)
  {
    hide Recover, RecordsOn, LogEntries, Lookup, WellFormed, Coherent, Storable;
  }

  lemma OneState(states: seq<Moment>, m: Moment, d: Disk, key: Key, value: Option<Bytes>, added: set<Record>,
                 entries: nat, format: Format)
    requires Readable(d) && Readable(m.disk) && Left(d, m.disk, added, entries, format)
    ensures EachLeft(states, |states|, d, added, entries, format) && AllUpdated(states, |states|, d, key, value)
    ensures EachLeft(states + [m], |states|, d, added, entries, format)
    ensures Updated(d, m.disk, key, value) ==> AllUpdated(states + [m], |states|, d, key, value)
    ensures SameView(d, m.disk) ==> AllSame(states + [m], |states|, d)
  {
    hide Left, Updated, SameView;
  }

  /** What is on disk while a table is written to a temporary file and renamed. */
  ghost predicate FileSteps(states: seq<Moment>, more: seq<Moment>, d: Disk, id: nat, t: Table)
  {
    && states <= more && |more| <= |states| + 2
    && (|more| > |states| ==> more[|states|].disk == d.(tmps := d.tmps + {id}))
    && (|more| > |states| + 1 ==>
          more[|states| + 1].disk == d.(files := d.files[id := t], tmps := d.tmps + {id} - {id}))
  }

  lemma FileStepsKept(states: seq<Moment>, more: seq<Moment>, d: Disk, before: Disk, id: nat, t: Table, format: Format)
    requires Readable(d) && FileSteps(states, more, before, id, t)
    requires |more| > |states| ==> Unharmed(d, before.(tmps := before.tmps + {id}), format)
    requires |more| > |states| + 1 ==>
               Unharmed(d, before.(files := before.files[id := t], tmps := before.tmps + {id} - {id}), format)
    ensures AllKept(more, |states|, d, format)
  {
    hide Unharmed;
  }

  lemma SameLogNoneNew(d: Disk, e: Disk)
    requires Readable(d) && Readable(e) && Recover(e.wal) == Recover(d.wal)
    requires FileRecords(e.files) <= FileRecords(d.files)
    ensures NoneNew(d, e)
  {
    hide Recover, FileRecords;
  }

  lemma FewerFiles(fs: Files, gs: Files)
    requires forall id | id in gs :: id in fs && gs[id] == fs[id]
    ensures FileRecords(gs) <= FileRecords(fs)
  {
  }

  lemma OneMoreFile(fs: Files, id: nat, t: Table)
    ensures FileRecords(fs[id := t]) <= FileRecords(fs) + Elements(t.records)
  {
  }

  /** A whole record at the end of a clean log is one record more. */
  lemma AppendAddsOne(d: Disk, e: Disk, w: WalRecord)
    requires Readable(d) && Recover(d.wal).value.length == |d.wal| && Fits(w)
    requires e == d.(wal := d.wal + Encode(w))
    ensures Readable(e) && RecordsOn(e) == RecordsOn(d) + {AsRecord(w)} && LogEntries(e) <= LogEntries(d) + 1
  {
    hide Recover, Encode, FileRecords;
    AppendAfterRecovery(d.wal, w);
    assert d.wal[..|d.wal|] == d.wal;
    var items := Recover(d.wal).value.items;
    ReplayOneMore(items, w);
    InsertLength(Replay(items), w.key, EntryOf(w));
    assert Recover(e.wal).value.items == items + [w];
    assert forall x :: x in items + [w] <==> x in items || x == w;
  }

  lemma {:induction false} InsertLength(rs: seq<Record>, k: Key, e: Entry)
    ensures |rs| <= |Insert(rs, k, e)| <= |rs| + 1
    decreases |rs|
  {
    if rs != [] {
      InsertLength(rs[1..], k, e);
    }
  }

  /** What a log rebuilds is what it records. */
  lemma {:induction false} ReplayedIsLogged(ws: seq<WalRecord>)
    ensures forall r | r in Replay(ws) :: exists w :: w in ws && r == AsRecord(w)
    decreases |ws|
  {
    if ws != [] {
      var front, last := ws[..|ws| - 1], ws[|ws| - 1];
      ReplayedIsLogged(front);
      InsertMembers(Replay(front), last.key, EntryOf(last));
      assert last in ws && forall w | w in front :: w in ws;
    }
  }

  lemma MemtableIsLogged(d: Disk, mem: seq<Record>)
    requires Readable(d) && mem == Replay(Recover(d.wal).value.items)
    ensures Sorted(mem) && forall r | r in mem :: r in RecordsOn(d)
  {
    hide Recover, FileRecords;
    ReplaySorted(Recover(d.wal).value.items);
    ReplayedIsLogged(Recover(d.wal).value.items);
  }

  /** The memtable's file in place, with or without the log: nothing new. */
  lemma FlushAddsNone(d: Disk, e: Disk, id: nat, mem: seq<Record>)
    requires Readable(d) && mem == Replay(Recover(d.wal).value.items)
    requires e.files == d.files[id := Table(0, mem)] && (e.wal == d.wal || e.wal == [])
    ensures Readable(e) && NoneNew(d, e)
  {
    MemtableIsLogged(d, mem);
    NothingRead([], true);
    hide Recover, FileRecords;
    OneMoreFile(d.files, id, Table(0, mem));
  }

  /** A key that can be read is the key of a record on the directory. */
  lemma LiveIsHeld(d: Disk, k: Key)
    requires Readable(d) && Lookup(d, k).Some?
    ensures exists r :: r in RecordsOn(d) && r.key == k
  {
    hide Recover, Top;
    var mem := Replay(Recover(d.wal).value.items);
    if Find(mem, k).Some? {
      MemtableIsLogged(d, mem);
      FindIndex(mem, k);
      assert Record(k, Find(mem, k).value) in RecordsOn(d);
    } else {
      var fs := RecoveredFiles(d);
      TopOfEmpty(ColumnOf(fs, k));
      var id :| id in ColumnOf(fs, k);
      FindIndex(fs[id].records, k);
      assert Record(k, Find(fs[id].records, k).value) in FileRecords(d.files);
    }
  }

  // ---------- the records of a job ----------

  /** Every record of a job's outputs is in one of its inputs. */
  lemma OutputsHoldInputs(fs: Files, job: Job, outs: Files)
    requires WellFormed(fs) && WellFormed(outs) && OutputsOf(fs, job, outs)
    ensures FileRecords(outs) <= FileRecords(fs)
  {
    forall r | r in FileRecords(outs)
      ensures r in FileRecords(fs)
    {
      var p :| p in outs && r in outs[p].records;
      OutputRecord(fs, job, outs, p, r);
    }
  }

  lemma OutputRecord(fs: Files, job: Job, outs: Files, p: nat, r: Record)
    requires WellFormed(fs) && WellFormed(outs) && OutputsOf(fs, job, outs) && p in outs && r in outs[p].records
    ensures r in FileRecords(fs)
  {
    hide Top;
    var i :| 0 <= i < |outs[p].records| && outs[p].records[i] == r;
    FindAt(outs[p].records, i);
    assert p in ColumnOf(outs, r.key) && ColumnOf(outs, r.key)[p].entry == r.entry;
    assert OutputColumn(ColumnOf(fs, r.key), job, ColumnOf(outs, r.key));
    var ins := Restrict(ColumnOf(fs, r.key), job.inputs);
    TopOfEmpty(ins);
    var id := FirstExists(ins);
    FindIndex(fs[id].records, r.key);
    assert r in fs[id].records;
  }

  /** Outputs written so far hold nothing new. */
  lemma WritingAddsNone(levels: Levels, d: Disk, e: Disk, job: CompactionJob, first: nat, pieces: seq<seq<Record>>,
                        rest: seq<seq<Record>>)
    requires Ready(levels, d, job, first) && Writing(d, e, job, first, pieces) && pieces + rest == OutputPieces(job)
    ensures Readable(d) && Readable(e) && NoneNew(d, e)
  {
    hide Recover, Top, FileRecords, OutputPieces, FilesOf, Coherent;
    var outs := FilesOf(pieces, first, job.outputLevel);
    PiecesFromMerge(levels, d.files, job, pieces, rest);
    PiecesAreOutputs(d.files, AsJob(job), MergedRecords(job.inputs), pieces, first);
    OutputsHoldInputs(d.files, AsJob(job), outs);
    FilesTogether(d.files, outs);
    SameLogNoneNew(d, e);
  }

  lemma FilesTogether(fs: Files, outs: Files)
    ensures FileRecords(fs + outs) <= FileRecords(fs) + FileRecords(outs)
  {
  }

  /** A piece about to be written is ascending and holds nothing new. */
  lemma PieceIsDrawn(levels: Levels, d: Disk, job: CompactionJob, first: nat, pieces: seq<seq<Record>>,
                     piece: seq<Record>, rest: seq<seq<Record>>)
    requires Ready(levels, d, job, first) && pieces + [piece] + rest == OutputPieces(job)
    ensures Readable(d) && DrawnFrom(piece, RecordsOn(d)) && Bounded(piece, 0, job.targetFileSize)
  {
    PieceIsBounded(job, pieces, piece, rest);
    hide Recover, Top, OutputPieces, Coherent, Bounded;
    var all := pieces + [piece];
    var outs := FilesOf(all, first, job.outputLevel);
    PiecesFromMerge(levels, d.files, job, all, rest);
    PiecesAreOutputs(d.files, AsJob(job), MergedRecords(job.inputs), all, first);
    OutputsHoldInputs(d.files, AsJob(job), outs);
    var id := first + |pieces|;
    assert id in outs && outs[id] == Table(job.outputLevel, piece);
    hide FilesOf;
    forall r | r in piece
      ensures r in RecordsOn(d)
    {
      assert r in outs[id].records;
      assert r in FileRecords(outs);
    }
  }

  lemma PieceIsBounded(job: CompactionJob, pieces: seq<seq<Record>>, piece: seq<Record>, rest: seq<seq<Record>>)
    requires pieces + [piece] + rest == OutputPieces(job)
    ensures Bounded(piece, 0, job.targetFileSize)
  {
    hide Cut, Surviving, MergedRecords, SizeOf;
    CutPieces([], Surviving(MergedRecords(job.inputs), job.dropTombstones), job.targetFileSize);
    assert (pieces + [piece] + rest)[|pieces|] == piece;
    assert piece in OutputPieces(job);
  }

  lemma DroppingAddsNone(levels: Levels, d: Disk, e: Disk, job: CompactionJob, first: nat)
    requires Ready(levels, d, job, first) && Readable(e) && e.wal == d.wal
    requires forall id | id in e.files :: id in d.files + OutputFiles(job, first)
                                          && e.files[id] == (d.files + OutputFiles(job, first))[id]
    ensures Readable(d) && NoneNew(d, e)
  {
    hide Recover, Top, FileRecords, OutputFiles, OutputPieces, Coherent;
    var outs := OutputFiles(job, first);
    OutputsComplete(levels, d.files, job, first);
    OutputsHoldInputs(d.files, AsJob(job), outs);
    FilesTogether(d.files, outs);
    FewerFiles(d.files + outs, e.files);
    SameLogNoneNew(d, e);
  }

  // ---------- tables that can be stored ----------

  ghost predicate TableFits(format: Format, id: nat, t: Table)
  {
    id < U64_MODULUS && t.level < U32_MODULUS && Sorted(t.records) && format.Fits(t.records)
  }

  /** Every table has a name and a file that can be read, and so has every table that the marker names. */
  ghost predicate Storable(d: Disk, format: Format)
  {
    && (forall id | id in d.files :: TableFits(format, id, d.files[id]))
    && (d.marker.Some? ==> forall id | id in d.marker.value.outputs || id in d.marker.value.inputs :: id < U64_MODULUS)
  }

  lemma StorableTable(d: Disk, e: Disk, format: Format, id: nat, t: Table)
    requires Storable(d, format) && TableFits(format, id, t)
    requires e.files == d.files[id := t] && e.marker == d.marker
    ensures Storable(e, format)
  {
    hide TableFits;
  }

  lemma StorablePart(d: Disk, e: Disk, format: Format)
    requires Storable(d, format) && (e.marker == None || e.marker == d.marker)
    requires forall id | id in e.files :: id in d.files && e.files[id] == d.files[id]
    ensures Storable(e, format)
  {
    hide TableFits;
  }

  lemma StorableIds(d: Disk, format: Format, id: nat)
    requires Storable(d, format) && id in d.files
    ensures id < U64_MODULUS && d.files[id].level < U32_MODULUS && Sorted(d.files[id].records)
    ensures format.Fits(d.files[id].records)
  {
    hide Format.Fits;
  }

  // ---------- a job in progress ----------

  /** With the outputs in place, whatever of the inputs is gone: nothing new, and every table can be read. */
  lemma DroppingContents(levels: Levels, d: Disk, w: Disk, e: Disk, job: CompactionJob, first: nat, gone: set<nat>,
                         format: Format)
    requires Ready(levels, d, job, first) && Writing(d, w, job, first, OutputPieces(job))
    requires Dropping(d, e, job, first, gone) && Storable(w, format)
    ensures Readable(d) && Readable(e) && NoneNew(d, e) && Storable(e, format)
  {
    hide Recover, Top, FileRecords, Coherent, WellFormed, OutputPieces, FilesOf, TableFits;
    assert w.files == d.files + OutputFiles(job, first);
    SortedInputsList(job.inputs, levels, d.files);
    forall id | id in e.marker.value.outputs || id in e.marker.value.inputs
      ensures id < U64_MODULUS
    {
      assert id in IdSet(e.marker.value.outputs) || id in IdSet(e.marker.value.inputs);
      StorableIds(w, format, id);
    }
    DroppingAddsNone(levels, d, e, job, first);
  }

  lemma DoneContents(levels: Levels, d: Disk, w: Disk, e: Disk, job: CompactionJob, first: nat, format: Format)
    requires Ready(levels, d, job, first) && Writing(d, w, job, first, OutputPieces(job))
    requires Done(d, e, job, first) && Storable(w, format)
    ensures Readable(d) && Readable(e) && NoneNew(d, e) && Storable(e, format)
  {
    hide Recover, Top, FileRecords, Coherent, WellFormed, OutputPieces, FilesOf, TableFits;
    assert w.files == d.files + OutputFiles(job, first);
    DroppingAddsNone(levels, d, e, job, first);
  }

  // ---------- what fits ----------

  /** A record that does not fit in the log leaves no room. */
  lemma RecordTooLong(format: Format, some: set<Record>, w: WalRecord, entries: nat, target: nat)
    requires AsRecord(w) in some && !Fits(w)
    ensures !Room(format, some, entries, target)
  {
    hide Format.Fits;
    var r := AsRecord(w);
    assert Blocks.AsLogged(r) == w;
    if format.Fits([r]) {
      FittingRecordIsLogged(format, r);
    }
    assert DrawnFrom([r], some) && Bounded([r], entries, target);
  }

  /** A table of some records that does not fit leaves no room for them. */
  lemma TableTooLarge(format: Format, some: set<Record>, rs: seq<Record>, entries: nat, target: nat)
    requires DrawnFrom(rs, some) && Bounded(rs, entries, target) && !format.Fits(rs)
    ensures !Room(format, some, entries, target)
  {
    hide Format.Fits, DrawnFrom, Bounded;
  }

  lemma FileOfIs(format: Format, rs: seq<Record>)
    ensures format.FileOf(rs) == SsTable.FileOf(rs, format.blockSize, SsTable.FilterFor(rs, format.sizing))
  {
    hide SsTable.FileOf, SsTable.FilterFor;
  }

  // ---------- the log ----------

  lemma TornAppendContents(d: Disk, e: Disk, format: Format, w: WalRecord, torn: Bytes)
    requires Readable(d) && Recover(d.wal).value.length == |d.wal| && Fits(w) && torn < Encode(w)
    requires e == d.(wal := d.wal + torn) && Storable(d, format)
    ensures Readable(e) && NoneNew(d, e) && Storable(e, format)
  {
    hide Recover, Encode, FileRecords, TableFits;
    TornAfterRecovery(d.wal, w, torn);
    assert d.wal[..|d.wal|] == d.wal;
  }

  /** The same log and some of the files: nothing new, and what is left can be read. */
  lemma PartContents(d: Disk, e: Disk, format: Format)
    requires Storable(d, format) && Readable(d) && Readable(e) && Recover(e.wal) == Recover(d.wal)
    requires e.marker == None || e.marker == d.marker
    requires forall id | id in e.files :: id in d.files && e.files[id] == d.files[id]
    ensures Storable(e, format) && NoneNew(d, e)
  {
    hide Recover, FileRecords, Storable;
    StorablePart(d, e, format);
    FewerFiles(d.files, e.files);
    SameLogNoneNew(d, e);
  }

  /** A full compaction whose files can be stored made one, or none. */
  lemma FullJobIsSingle(job: CompactionJob, first: nat, e: Disk, format: Format)
    requires e.files == OutputFiles(job, first) && Storable(e, format) && job.targetFileSize >= U32_MODULUS
    ensures |e.files| <= 1
  {
    hide Format.Fits, MergedRecords, Surviving, Cut, SizeOf, FilesOf;
    var pieces := OutputPieces(job);
    CutPieces([], Surviving(MergedRecords(job.inputs), job.dropTombstones), job.targetFileSize);
    if |pieces| > 1 {
      assert first in e.files && e.files[first].records == pieces[0];
      StorableIds(e, format, first);
      FittingIsShort(format, pieces[0]);
    } else {
      assert forall id | id in e.files :: id == first;
      assert e.files.Keys <= {first};
      Cardinal(e.files.Keys, first);
      SameCount(e.files);
    }
  }

  lemma SameCount(fs: Files)
    ensures |fs| == |fs.Keys|
  {
  }

  lemma Cardinal(ids: set<nat>, id: nat)
    requires ids <= {id}
    ensures |ids| <= 1
  {
    assert ids == {} || ids == {id};
  }

  lemma FittingIsShort(format: Format, rs: seq<Record>)
    requires format.Fits(rs)
    ensures SizeOf(rs) < U32_MODULUS
  {
    hide SizeOf, SsTableSize.IndexLength, SsTableRoundTrip.BloomOffset;
    SsTableSize.BloomOffsetIs(rs, format.blockSize);
  }
}
