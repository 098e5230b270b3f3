/**
 What is on disk, what a reader would find there after recovery, and the lemmas
 that say which changes to it are harmless.
 */
module Disk {
  import opened Bytes
  import opened Records
  import opened Frames
  import opened Wal
  import opened Lsm

  /** `merge.pending`. */
  datatype Marker = Marker(outputs: seq<nat>, inputs: seq<nat>)

  /** The database directory: the log, the SSTables, the ids of unfinished `.tmp` files, the marker. */
  datatype Disk = Disk(wal: Bytes, files: Files, tmps: set<nat>, marker: Option<Marker>)

  function IdSet(ids: seq<nat>): set<nat>
  {
    set id | id in ids
  }

  /** The files left when recovery has dealt with the marker. */
  function RecoveredFiles(d: Disk): Files
  {
    if d.marker.Some? && IdSet(d.marker.value.outputs) <= d.files.Keys then
      d.files - IdSet(d.marker.value.inputs)
    else
      d.files
  }

  // ---------- atomic effects ----------

  /** What a process does to a directory without ever being interrupted inside. An append may be a part of a record. */
  datatype Effect =
    | TmpWritten(id: nat) | TmpRenamed(id: nat, table: Table) | TmpRemoved(id: nat) | FileDeleted(id: nat)
    | Marked(marker: Marker) | Unmarked
    | Appended(record: WalRecord, length: nat) | LogCut(length: nat)

  predicate Possible(d: Disk, f: Effect)
  {
    match f
    case TmpRenamed(id, _) => id in d.tmps
    case Appended(r, length) => length <= |Encode(r)|
    case LogCut(length) => length <= |d.wal|
    case _ => true
  }

  function After(d: Disk, f: Effect): Disk
    requires Possible(d, f)
  {
    match f
    case TmpWritten(id) => d.(tmps := d.tmps + {id})
    case TmpRenamed(id, t) => d.(files := d.files[id := t], tmps := d.tmps - {id})
    case TmpRemoved(id) => d.(tmps := d.tmps - {id})
    case FileDeleted(id) => d.(files := d.files - {id})
    case Marked(marker) => d.(marker := Some(marker))
    case Unmarked => d.(marker := None)
    case Appended(r, length) => d.(wal := d.wal + Encode(r)[..length])
    case LogCut(length) => d.(wal := d.wal[..length])
  }

  lemma EffectIs(d: Disk, f: Effect)
    ensures match f
            case TmpWritten(id) => Possible(d, f) && After(d, f) == d.(tmps := d.tmps + {id})
            case TmpRenamed(id, t) =>
              id in d.tmps ==> Possible(d, f) && After(d, f) == d.(files := d.files[id := t], tmps := d.tmps - {id})
            case TmpRemoved(id) => Possible(d, f) && After(d, f) == d.(tmps := d.tmps - {id})
            case FileDeleted(id) => Possible(d, f) && After(d, f) == d.(files := d.files - {id})
            case Marked(marker) => Possible(d, f) && After(d, f) == d.(marker := Some(marker))
            case Unmarked => Possible(d, f) && After(d, f) == d.(marker := None)
            case Appended(r, length) =>
              length <= |Encode(r)| ==> Possible(d, f) && After(d, f) == d.(wal := d.wal + Encode(r)[..length])
            case LogCut(length) =>
              length <= |d.wal| ==> Possible(d, f) && After(d, f) == d.(wal := d.wal[..length])
  {
    hide Encode;
  }

  ghost predicate OneEffect(d: Disk, e: Disk)
  {
    exists f :: Possible(d, f) && e == After(d, f)
  }

  /** A state of the directory, and how many boundaries the process had passed when it came about. */
  datatype Moment = Moment(disk: Disk, passed: nat)

  /** From each state to the next by one atomic effect, with a boundary before it. */
  ghost predicate OneByOne(states: seq<Moment>)
  {
    forall i | 0 <= i < |states| - 1 ::
      OneEffect(states[i].disk, states[i + 1].disk) && states[i].passed < states[i + 1].passed
  }

  lemma OneMoreEffect(states: seq<Moment>, m: Moment, f: Effect)
    requires states != [] && OneByOne(states) && states[|states| - 1].passed < m.passed
    requires Possible(states[|states| - 1].disk, f) && m.disk == After(states[|states| - 1].disk, f)
    ensures OneByOne(states + [m])
  {
    hide Possible, After;
    assert OneEffect(states[|states| - 1].disk, m.disk);
  }

  // ---------- the memtable ----------

  function EntryOf(r: WalRecord): Entry
  {
    if r.Set? then Value(r.value) else Tombstone
  }

  /** The memtable that a log rebuilds. */
  function Replay(rs: seq<WalRecord>): seq<Record>
    decreases |rs|
  {
    if rs == [] then []
    else
      var last := rs[|rs| - 1];
      Insert(Replay(rs[..|rs| - 1]), last.key, EntryOf(last))
  }

  lemma {:induction false} ReplaySorted(rs: seq<WalRecord>)
    ensures Sorted(Replay(rs))
    decreases |rs|
  {
    if rs != [] {
      ReplaySorted(rs[..|rs| - 1]);
      InsertSorted(Replay(rs[..|rs| - 1]), rs[|rs| - 1].key, EntryOf(rs[|rs| - 1]));
    }
  }

  lemma ReplayOneMore(rs: seq<WalRecord>, r: WalRecord)
    ensures Replay(rs + [r]) == Insert(Replay(rs), r.key, EntryOf(r))
  {
    assert (rs + [r])[..|rs|] == rs;
  }

  // ---------- what a reader finds ----------

  /** The memtable first, then the files. */
  ghost function Overlay(mem: seq<Record>, fs: Files, k: Key): Option<Bytes>
  {
    Visible(if Find(mem, k).Some? then Find(mem, k) else Newest(fs, k))
  }

  ghost predicate Readable(d: Disk)
  {
    Recover(d.wal).Ok?
  }

  /** The value of `k` once the directory has been opened. */
  ghost function Lookup(d: Disk, k: Key): Option<Bytes>
    requires Readable(d)
  {
    Overlay(Replay(Recover(d.wal).value.items), RecoveredFiles(d), k)
  }

  /** The invariant of every directory a run can leave behind. */
  ghost predicate Sound(d: Disk)
  {
    && Readable(d) && WellFormed(RecoveredFiles(d)) && Coherent(RecoveredFiles(d))
    && (d.marker.Some? ==> IdSet(d.marker.value.outputs) !! IdSet(d.marker.value.inputs))
  }

  lemma SoundParts(d: Disk)
    requires Sound(d)
    ensures Readable(d) && WellFormed(RecoveredFiles(d))
  {
    hide Readable, WellFormed, Coherent;
  }

  /** No key reads differently. */
  ghost predicate SameView(d: Disk, e: Disk)
    requires Readable(d) && Readable(e)
  {
    forall k :: Lookup(e, k) == Lookup(d, k)
  }

  /** One key reads as written, every other as before. */
  ghost predicate Updated(d: Disk, e: Disk, key: Key, value: Option<Bytes>)
    requires Readable(d) && Readable(e)
  {
    forall k :: Lookup(e, k) == if k == key then value else Lookup(d, k)
  }

  /** Temporary files are never read. */
  lemma TmpsAreNothing(d: Disk, e: Disk)
    requires Sound(d) && e.wal == d.wal && e.files == d.files && e.marker == d.marker
    ensures Sound(e) && SameView(d, e)
  {
    hide Recover, Top;
  }

  // ---------- writes ----------

  function RecordOf(key: Key, value: Option<Bytes>): WalRecord
  {
    if value.Some? then Set(key, value.value) else Delete(key)
  }

  /** A complete record at the end of a clean log is a write. */
  lemma AppendIsWrite(d: Disk, e: Disk, key: Key, value: Option<Bytes>)
    requires Sound(d) && Recover(d.wal).value.length == |d.wal| && Fits(RecordOf(key, value))
    requires e == d.(wal := d.wal + Encode(RecordOf(key, value)))
    ensures Sound(e) && Updated(d, e, key, value)
    ensures Recover(e.wal).value.length == |e.wal|
    ensures Replay(Recover(e.wal).value.items)
              == Insert(Replay(Recover(d.wal).value.items), key, EntryOf(RecordOf(key, value)))
  {
    hide Recover, Encode;
    var r := RecordOf(key, value);
    AppendAfterRecovery(d.wal, r);
    assert d.wal[..|d.wal|] == d.wal;
    var rs := Recover(d.wal).value.items;
    ReplayOneMore(rs, r);
    forall k
      ensures Lookup(e, k) == if k == key then value else Lookup(d, k)
    {
      InsertFinds(Replay(rs), key, EntryOf(r), k);
    }
  }

  /** A torn record at the end of a clean log is nothing. */
  lemma TornAppendIsNothing(d: Disk, e: Disk, r: WalRecord, torn: Bytes)
    requires Sound(d) && Recover(d.wal).value.length == |d.wal| && Fits(r) && torn < Encode(r)
    requires e == d.(wal := d.wal + torn)
    ensures Sound(e) && SameView(d, e)
  {
    hide Recover, Encode;
    TornAfterRecovery(d.wal, r, torn);
    assert d.wal[..|d.wal|] == d.wal;
  }

  /** Truncating the log to its whole records changes nothing. */
  lemma TruncationIsNothing(d: Disk, e: Disk)
    requires Sound(d) && Recover(d.wal).value.length <= |d.wal|
    requires e == d.(wal := d.wal[..Recover(d.wal).value.length])
    ensures Sound(e) && SameView(d, e) && Recover(e.wal) == Recover(d.wal)
  {
    hide Recover;
    RecoverTwice(d.wal);
  }

  // ---------- flushing ----------

  lemma NewTableOnTop(c: Column, id: nat, e: Entry)
    requires CoherentColumn(c) && forall o | o in c :: o < id
    ensures Top(c[id := Cell(0, e)]) == Some(e) && CoherentColumn(c[id := Cell(0, e)])
  {
    var d := c[id := Cell(0, e)];
    assert IsFirst(d, id);
    TopIs(d, id);
    assert forall a | a in d && d[a].level > 0 :: HeldAbove(d, d[a].level);
  }

  /** A new L0 file with the highest id is read before every other file. */
  lemma FlushedFile(fs: Files, id: nat, mem: seq<Record>)
    requires Coherent(fs) && WellFormed(fs) && Records.Sorted(mem) && mem != []
    requires forall o | o in fs :: o < id
    ensures WellFormed(fs[id := Table(0, mem)]) && Coherent(fs[id := Table(0, mem)])
    ensures forall k :: Newest(fs[id := Table(0, mem)], k) == if Find(mem, k).Some? then Find(mem, k) else Newest(fs, k)
  {
    var gs := fs[id := Table(0, mem)];
    forall k
      ensures CoherentColumn(ColumnOf(gs, k))
      ensures Newest(gs, k) == if Find(mem, k).Some? then Find(mem, k) else Newest(fs, k)
    {
      assert CoherentColumn(ColumnOf(fs, k));
      if Find(mem, k).Some? {
        assert ColumnOf(gs, k) == ColumnOf(fs, k)[id := Cell(0, Find(mem, k).value)];
        NewTableOnTop(ColumnOf(fs, k), id, Find(mem, k).value);
      } else {
        assert ColumnOf(gs, k) == ColumnOf(fs, k);
      }
    }
  }

  /** The memtable's file in place, with or without the log that it came from. */
  lemma FlushIsNothing(d: Disk, e: Disk, id: nat, mem: seq<Record>)
    requires Sound(d) && d.marker == None && mem != []
    requires mem == Replay(Recover(d.wal).value.items)
    requires forall o | o in d.files :: o < id
    requires e.files == d.files[id := Table(0, mem)] && e.marker == None && (e.wal == d.wal || e.wal == [])
    ensures Sound(e) && SameView(d, e)
    ensures e.wal == [] ==> Recover(e.wal) == Ok(Parsed([], 0))
  {
    hide FirstRecord;
    ReplaySorted(Recover(d.wal).value.items);
    FlushedFile(d.files, id, mem);
    NothingRead([], true);
    hide Recover;
    var gs := d.files[id := Table(0, mem)];
    assert forall k :: Overlay(mem, gs, k) == Overlay(mem, d.files, k) == Overlay([], gs, k);
  }

  // ---------- compacting ----------

  /** Any part of a job's outputs in place, no marker yet. */
  lemma OutputsAreNothing(d: Disk, e: Disk, job: Job, outs: Files)
    requires Sound(d) && d.marker == None && Safe(d.files, job) && OutputsOf(d.files, job, outs) && WellFormed(outs)
    requires e.wal == d.wal && e.marker == None && e.files == d.files + outs
    ensures Sound(e) && SameView(d, e)
  {
    hide Recover;
    SomeOutputsHarmless(d.files, job, outs);
  }

  /** The marker makes the inputs disappear together, however many of them are still there. */
  lemma MarkedIsFinished(d: Disk, e: Disk, job: Job, outs: Files, gone: set<nat>)
    requires Sound(d) && d.marker == None && Safe(d.files, job) && AllOutputsOf(d.files, job, outs) && WellFormed(outs)
    requires e.wal == d.wal && e.files == (d.files + outs) - gone && gone <= job.inputs
    requires e.marker.Some? && IdSet(e.marker.value.outputs) == outs.Keys && IdSet(e.marker.value.inputs) == job.inputs
    ensures RecoveredFiles(e) == (d.files - job.inputs) + outs
    ensures Sound(e) && SameView(d, e)
  {
    hide Recover;
    FinishedJobKeepsReads(d.files, job, outs);
    assert ((d.files + outs) - gone) - job.inputs == (d.files - job.inputs) + outs;
  }

  /** What is left when every input is gone. */
  lemma FinishedIsNothing(d: Disk, e: Disk, job: Job, outs: Files)
    requires Sound(d) && d.marker == None && Safe(d.files, job) && AllOutputsOf(d.files, job, outs) && WellFormed(outs)
    requires e.wal == d.wal && e.files == (d.files - job.inputs) + outs && e.marker == None
    ensures Sound(e) && SameView(d, e)
  {
    hide Recover;
    FinishedJobKeepsReads(d.files, job, outs);
  }

  // ---------- recovering ----------

  /** Recovery may remove any of the marker's inputs, and at the end the marker. */
  lemma FinishingIsNothing(d: Disk, e: Disk, gone: set<nat>)
    requires Sound(d) && d.marker.Some? && e.wal == d.wal
    requires IdSet(d.marker.value.outputs) <= d.files.Keys && gone <= IdSet(d.marker.value.inputs)
    requires e.files == d.files - gone
    requires e.marker == d.marker || (e.marker == None && IdSet(d.marker.value.inputs) !! e.files.Keys)
    ensures RecoveredFiles(e) == RecoveredFiles(d) && Sound(e) && SameView(d, e)
  {
    hide Recover;
    var inputs := IdSet(d.marker.value.inputs);
    assert (d.files - gone) - inputs == d.files - inputs;
    if e.marker == None {
      assert forall id | id in e.files :: id !in inputs;
      assert d.files - gone == d.files - inputs;
    } else {
      assert IdSet(d.marker.value.outputs) <= e.files.Keys;
    }
  }

  /** A marker that misses an output says nothing about the inputs. */
  lemma StaleMarkerIsNothing(d: Disk, e: Disk)
    requires Sound(d) && d.marker.Some? && !(IdSet(d.marker.value.outputs) <= d.files.Keys)
    requires e == d.(marker := None)
    ensures RecoveredFiles(e) == RecoveredFiles(d) && Sound(e) && SameView(d, e)
  {
    hide Recover;
  }
}
