/**
 A compaction job over the live levels, and what its files mean at every point
 of its execution.
 */
module Jobs {
  import opened Records
  import opened Lsm
  import opened Disk
  import opened Iter
  import opened Sorting
  import opened Planning
  import opened Merging
  import opened Levels
  import opened Wal

  datatype CompactionJob =
    CompactionJob(inputs: seq<Source>, outputLevel: nat, dropTombstones: bool, targetFileSize: nat)

  function AsJob(job: CompactionJob): Job
  {
    Job(IdsOf(job.inputs), job.outputLevel, job.dropTombstones)
  }

  /** The merge of the inputs, newest first. */
  function MergedRecords(inputs: seq<Source>): seq<Record>
  {
    MergeAll(RecordsOf(Sort(inputs, ReadBefore())))
  }

  /** The output files of a job, as lists of records. */
  function OutputPieces(job: CompactionJob): seq<seq<Record>>
  {
    Cut([], Surviving(MergedRecords(job.inputs), job.dropTombstones), job.targetFileSize)
  }

  function OutputFiles(job: CompactionJob, first: nat): Files
  {
    FilesOf(OutputPieces(job), first, job.outputLevel)
  }

  lemma SourcesSorted(list: seq<Source>, fs: Files)
    requires ListsInOrder(list, fs) && WellFormed(fs)
    ensures AllSorted(RecordsOf(list))
  {
    forall rs | rs in RecordsOf(list)
      ensures Sorted(rs)
    {
      var i :| 0 <= i < |list| && rs == list[i].sst.records;
      assert list[i] in list;
    }
  }

  lemma RestrictWellFormed(fs: Files, ids: set<nat>)
    requires WellFormed(fs)
    ensures WellFormed(Restrict(fs, ids))
  {
  }

  /** What the job reads is what a reader would find in its input files. */
  lemma JobMerge(levels: Levels, fs: Files, job: CompactionJob)
    requires Mirrors(levels, fs) && WellFormed(fs) && InputsFrom(job.inputs, levels)
    ensures AllSorted(RecordsOf(Sort(job.inputs, ReadBefore())))
    ensures Sorted(MergedRecords(job.inputs))
    ensures forall k :: Find(MergedRecords(job.inputs), k) == Merged(fs, AsJob(job), k)
  {
    hide Top;
    var list := Sort(job.inputs, ReadBefore());
    var ins := Restrict(fs, IdsOf(job.inputs));
    SortedInputsList(job.inputs, levels, fs);
    RestrictWellFormed(fs, IdsOf(job.inputs));
    SourcesSorted(list, ins);
    MergeAllSorted(RecordsOf(list));
    forall k
      ensures Find(MergedRecords(job.inputs), k) == Merged(fs, AsJob(job), k)
    {
      MergeAllFinds(RecordsOf(list), k);
      FirstFindIsNewest(list, ins, k);
    }
  }

  /** A job writes no more records than its input files hold. */
  lemma JobShrinks(levels: Levels, fs: Files, job: CompactionJob, first: nat, n: nat)
    requires Mirrors(levels, fs) && InputsFrom(job.inputs, levels)
    requires forall id | id in fs :: id < first
    requires n >= first + |OutputPieces(job)|
    ensures Sum(OutputFiles(job, first), Length, n) <= Sum(Restrict(fs, IdsOf(job.inputs)), Length, n)
  {
    var list := Sort(job.inputs, ReadBefore());
    var merged := MergedRecords(job.inputs);
    SortedInputsList(job.inputs, levels, fs);
    TotalIsSum(list, Restrict(fs, IdsOf(job.inputs)), n);
    MergeAllLength(RecordsOf(list));
    SurvivingMembers(merged, job.dropTombstones);
    CutFlat([], Surviving(merged, job.dropTombstones), job.targetFileSize);
    FlatLength(OutputPieces(job), first, job.outputLevel, n);
  }

  lemma FirstPieces(surviving: seq<Record>, target: nat, pieces: seq<seq<Record>>, rest: seq<seq<Record>>)
    requires Sorted(surviving) && pieces + rest == Cut([], surviving, target)
    ensures forall i | 0 <= i < |pieces| :: pieces[i] != []
    ensures Sorted(Flat(pieces)) && forall r | r in Flat(pieces) :: r in surviving
  {
    CutFlat([], surviving, target);
    FlatConcat(pieces, rest);
    assert Flat(pieces) + Flat(rest) == surviving;
    SortedConcat(Flat(pieces), Flat(rest));
    CutPieces([], surviving, target);
    forall i | 0 <= i < |pieces|
      ensures pieces[i] != []
    {
      assert (pieces + rest)[i] == pieces[i];
      assert pieces[i] in Cut([], surviving, target);
    }
  }

  /** The first pieces of a job, however many, come from the merge of its inputs. */
  lemma PiecesFromMerge(levels: Levels, fs: Files, job: CompactionJob, pieces: seq<seq<Record>>, rest: seq<seq<Record>>)
    requires Mirrors(levels, fs) && WellFormed(fs) && InputsFrom(job.inputs, levels)
    requires pieces + rest == OutputPieces(job)
    ensures FromMerge(fs, AsJob(job), MergedRecords(job.inputs), pieces)
  {
    hide Top, Cut, Flat, Surviving, MergedRecords;
    var merged := MergedRecords(job.inputs);
    JobMerge(levels, fs, job);
    SurvivingSorted(merged, job.dropTombstones);
    SurvivingMembers(merged, job.dropTombstones);
    FirstPieces(Surviving(merged, job.dropTombstones), job.targetFileSize, pieces, rest);
  }

  /** All the pieces make all the outputs. */
  lemma OutputsComplete(levels: Levels, fs: Files, job: CompactionJob, first: nat)
    requires Mirrors(levels, fs) && WellFormed(fs) && InputsFrom(job.inputs, levels)
    requires forall id | id in fs :: id < first
    ensures AllOutputsOf(fs, AsJob(job), OutputFiles(job, first))
    ensures CutApart(OutputFiles(job, first))
  {
    hide Top;
    assert OutputPieces(job) + [] == OutputPieces(job);
    PiecesFromMerge(levels, fs, job, OutputPieces(job), []);
    CutFlat([], Surviving(MergedRecords(job.inputs), job.dropTombstones), job.targetFileSize);
    AllPiecesAreAllOutputs(fs, AsJob(job), MergedRecords(job.inputs), OutputPieces(job), first);
    PiecesAreApart(fs, AsJob(job), MergedRecords(job.inputs), OutputPieces(job), first);
  }

  // ---------- a job in progress ----------

  /** A directory `d` in which a job is about to run, with fresh ids from `first` on. */
  ghost predicate Ready(levels: Levels, d: Disk, job: CompactionJob, first: nat)
  {
    && Sound(d) && d.marker == None
    && Mirrors(levels, d.files) && InputsFrom(job.inputs, levels) && Safe(d.files, AsJob(job))
    && forall id | id in d.files :: id < first
  }

  /** Some of the outputs are in place. */
  ghost predicate Writing(d: Disk, e: Disk, job: CompactionJob, first: nat, pieces: seq<seq<Record>>)
  {
    e.wal == d.wal && e.marker == None && e.files == d.files + FilesOf(pieces, first, job.outputLevel)
  }

  /** The marker is in place and some of the inputs are gone. */
  ghost predicate Dropping(d: Disk, e: Disk, job: CompactionJob, first: nat, gone: set<nat>)
  {
    && e.wal == d.wal && e.files == (d.files + OutputFiles(job, first)) - gone && gone <= IdsOf(job.inputs)
    && e.marker.Some? && IdSet(e.marker.value.outputs) == OutputFiles(job, first).Keys
    && IdSet(e.marker.value.inputs) == IdsOf(job.inputs)
  }

  /** The job is done. */
  ghost predicate Done(d: Disk, e: Disk, job: CompactionJob, first: nat)
  {
    e.wal == d.wal && e.files == (d.files - IdsOf(job.inputs)) + OutputFiles(job, first) && e.marker == None
  }

  lemma DoneIs(d: Disk, e: Disk, job: CompactionJob, first: nat)
    requires Done(d, e, job, first)
    ensures e.wal == d.wal && e.files == (d.files - IdsOf(job.inputs)) + OutputFiles(job, first) && e.marker == None
  {
  }

  /** A crash after some of the outputs were renamed. */
  lemma WritingIsNothing(levels: Levels, d: Disk, e: Disk, job: CompactionJob, first: nat, pieces: seq<seq<Record>>,
          rest: seq<seq<Record>>)
    requires Ready(levels, d, job, first) && Writing(d, e, job, first, pieces) && pieces + rest == OutputPieces(job)
    ensures Sound(e) && SameView(d, e)
  {
    hide Recover, Top;
    PiecesFromMerge(levels, d.files, job, pieces, rest);
    PiecesAreOutputs(d.files, AsJob(job), MergedRecords(job.inputs), pieces, first);
    OutputsAreNothing(d, e, AsJob(job), FilesOf(pieces, first, job.outputLevel));
  }

  /** A crash after the marker was written and any of the inputs deleted. */
  lemma DroppingIsNothing(levels: Levels, d: Disk, e: Disk, job: CompactionJob, first: nat, gone: set<nat>)
    requires Ready(levels, d, job, first) && Dropping(d, e, job, first, gone)
    ensures RecoveredFiles(e) == (d.files - IdsOf(job.inputs)) + OutputFiles(job, first)
    ensures Sound(e) && SameView(d, e)
  {
    hide Recover, Top;
    OutputsComplete(levels, d.files, job, first);
    MarkedIsFinished(d, e, AsJob(job), OutputFiles(job, first), gone);
  }

  /** The job done and the marker cleared. */
  lemma DoneIsNothing(levels: Levels, d: Disk, e: Disk, job: CompactionJob, first: nat)
    requires Ready(levels, d, job, first) && Done(d, e, job, first)
    ensures Sound(e) && SameView(d, e)
  {
    hide Recover, Top;
    OutputsComplete(levels, d.files, job, first);
    FinishedIsNothing(d, e, AsJob(job), OutputFiles(job, first));
  }

  lemma WritingStarts(d: Disk, job: CompactionJob, first: nat)
    requires d.marker == None
    ensures Writing(d, d, job, first, [])
  {
    assert d.files + FilesOf([], first, job.outputLevel) == d.files;
  }

  lemma NothingWritten(d: Disk, job: CompactionJob, first: nat)
    requires d.marker == None
    ensures Writing(d, d, job, first, []) && TablesFor([], [], first) && SizeOf([]) == 0
    ensures [] + Cut([], Surviving(MergedRecords(job.inputs), job.dropTombstones), job.targetFileSize)
              == OutputPieces(job)
  {
    WritingStarts(d, job, first);
  }

  lemma ReadyToMerge(levels: Levels, d: Disk, job: CompactionJob, first: nat)
    requires Ready(levels, d, job, first)
    ensures AllSorted(RecordsOf(Sort(job.inputs, ReadBefore())))
    ensures Readable(d) && Sound(d) && d.marker == None
  {
    hide Recover, Coherent, Top;
    JobMerge(levels, d.files, job);
  }

  lemma WritingMore(d: Disk, e: Disk, f: Disk, job: CompactionJob, first: nat, pieces: seq<seq<Record>>,
          piece: seq<Record>)
    requires Writing(d, e, job, first, pieces)
    requires f.wal == e.wal && f.marker == e.marker
    requires f.files == e.files[first + |pieces| := Table(job.outputLevel, piece)]
    ensures Writing(d, f, job, first, pieces + [piece])
  {
    hide FilesOf;
    FilesOfMore(pieces, piece, first, job.outputLevel);
  }

  lemma DroppingStarts(d: Disk, e: Disk, f: Disk, job: CompactionJob, outputs: seq<Sst>, first: nat)
    requires Writing(d, e, job, first, OutputPieces(job)) && TablesFor(outputs, OutputPieces(job), first)
    requires f == e.(marker := Some(Marker(OutputIds(outputs), InputIds(job.inputs))))
    ensures Dropping(d, f, job, first, {})
  {
    hide OutputPieces;
    MarkerIds(job, outputs, first);
    assert e.files - {} == e.files;
  }

  lemma DroppingMore(d: Disk, e: Disk, f: Disk, job: CompactionJob, first: nat, i: nat)
    requires i < |job.inputs| && Dropping(d, e, job, first, IdsOf(job.inputs[..i]))
    requires f == e.(files := e.files - {job.inputs[i].sst.id})
    ensures Dropping(d, f, job, first, IdsOf(job.inputs[..i + 1]))
  {
    hide OutputFiles;
    assert job.inputs[..i + 1] == job.inputs[..i] + [job.inputs[i]];
    assert IdsOf(job.inputs[..i + 1]) == IdsOf(job.inputs[..i]) + {job.inputs[i].sst.id};
  }

  lemma OutputIdsFresh(d: Disk, job: CompactionJob, first: nat)
    requires forall id | id in d.files :: id < first
    ensures OutputFiles(job, first).Keys !! d.files.Keys
  {
    hide OutputPieces;
  }

  lemma DroppingEnds(levels: Levels, d: Disk, e: Disk, f: Disk, job: CompactionJob, first: nat)
    requires Ready(levels, d, job, first) && Dropping(d, e, job, first, IdsOf(job.inputs)) && f == e.(marker := None)
    ensures Done(d, f, job, first)
  {
    hide OutputFiles, Sound, Safe;
    OutputIdsFresh(d, job, first);
    SortedInputsList(job.inputs, levels, d.files);
    var outs, gone := OutputFiles(job, first), IdsOf(job.inputs);
    assert (d.files + outs) - gone == (d.files - gone) + outs;
  }

  lemma DoneMirrors(levels: Levels, d: Disk, e: Disk, job: CompactionJob, outputs: seq<Sst>, first: nat)
    requires Ready(levels, d, job, first) && Done(d, e, job, first) && TablesFor(outputs, OutputPieces(job), first)
    ensures var kept := Padded(Retained(levels, IdsOf(job.inputs)), job.outputLevel);
            Mirrors(Extended(kept, job.outputLevel, outputs), e.files)
    ensures forall id | id in e.files :: id < first + |outputs|
  {
    hide OutputPieces;
    JobMirrors(levels, d.files, IdsOf(job.inputs), outputs, OutputPieces(job), first, job.outputLevel);
  }

  function OutputIds(outputs: seq<Sst>): seq<nat>
  {
    seq(|outputs|, i requires 0 <= i < |outputs| => outputs[i].id)
  }

  function InputIds(inputs: seq<Source>): seq<nat>
  {
    seq(|inputs|, i requires 0 <= i < |inputs| => inputs[i].sst.id)
  }

  lemma MarkerIds(job: CompactionJob, outputs: seq<Sst>, first: nat)
    requires TablesFor(outputs, OutputPieces(job), first)
    ensures IdSet(OutputIds(outputs)) == OutputFiles(job, first).Keys
    ensures IdSet(InputIds(job.inputs)) == IdsOf(job.inputs)
  {
    hide OutputPieces;
    forall id | id in OutputFiles(job, first)
      ensures id in OutputIds(outputs)
    {
      assert OutputIds(outputs)[id - first] == id;
    }
    forall id | id in IdsOf(job.inputs)
      ensures id in InputIds(job.inputs)
    {
      var s :| s in job.inputs && s.sst.id == id;
      var i :| 0 <= i < |job.inputs| && job.inputs[i] == s;
      assert InputIds(job.inputs)[i] == id;
    }
  }

  /** What a planned job achieves once it is done: less energy, and levels as disjoint as before. */
  lemma PlannedJobDone(levels: Levels, before: Files, job: CompactionJob, level: nat, top: set<nat>, lo: Key,
          hi: Key, m: nat, n: nat)
    requires Mirrors(levels, before) && InputsFrom(job.inputs, levels)
    requires Takes(before, AsJob(job), level, top, lo, hi) && level < FLOOR
    requires (forall id | id in before :: id < m) && n == m + |OutputPieces(job)|
    ensures Energy((before - IdsOf(job.inputs)) + OutputFiles(job, m), n) < Energy(before, m)
    ensures WellFormed((before - IdsOf(job.inputs)) + OutputFiles(job, m))
    ensures DisjointLevels(before) ==> DisjointLevels((before - IdsOf(job.inputs)) + OutputFiles(job, m))
  {
    hide Top, OutputPieces, Energy;
    OutputsComplete(levels, before, job, m);
    JobShrinks(levels, before, job, m, n);
    JobLosesEnergy(before, AsJob(job), OutputFiles(job, m), level, top, lo, hi, m, n);
    if DisjointLevels(before) {
      forall o | o in before && o !in AsJob(job).inputs && before[o].level == AsJob(job).outputLevel
        ensures Beside(before, AsJob(job).inputs, o)
      {
        PlanLeavesBeside(before, AsJob(job), level, top, lo, hi, o);
      }
      PlanIsSafe(before, AsJob(job), level, top, lo, hi);
      FinishedJobKeepsDisjoint(before, AsJob(job), OutputFiles(job, m));
    }
  }

  /** A full compaction leaves one level, of live records only, in disjoint files. */
  lemma FullJobDone(levels: Levels, before: Files, job: CompactionJob, m: nat)
    requires Mirrors(levels, before) && WellFormed(before) && InputsFrom(job.inputs, levels)
    requires (forall id | id in before :: id < m)
    requires AsJob(job) == Job(before.Keys, 1, true)
    ensures (before - IdsOf(job.inputs)) + OutputFiles(job, m) == OutputFiles(job, m)
    ensures WellFormed(OutputFiles(job, m)) && DisjointLevels(OutputFiles(job, m))
    ensures forall id | id in OutputFiles(job, m) ::
              && OutputFiles(job, m)[id].level == 1
              && forall r | r in OutputFiles(job, m)[id].records :: r.entry.Value?
  {
    hide Top, OutputPieces, FilesOf, FromMerge, DisjointLevels;
    var outs, pieces := OutputFiles(job, m), OutputPieces(job);
    OutputsComplete(levels, before, job, m);
    CutApartIsDisjoint(outs);
    assert pieces + [] == pieces;
    PiecesFromMerge(levels, before, job, pieces, []);
    FlatMembers(pieces);
    forall id | id in outs
      ensures forall r | r in outs[id].records :: r.entry.Value?
    {
      PieceIsLive(before, job, pieces, id - m);
    }
  }

  /** The output files of a job, of live records only if it drops tombstones. */
  lemma OutputsAre(levels: Levels, fs: Files, job: CompactionJob, first: nat)
    requires Mirrors(levels, fs) && WellFormed(fs) && InputsFrom(job.inputs, levels)
    requires forall id | id in fs :: id < first
    ensures forall id | id in OutputFiles(job, first) ::
              id !in fs && OutputFiles(job, first)[id].level == job.outputLevel
    ensures job.dropTombstones ==>
              forall id, r | id in OutputFiles(job, first) && r in OutputFiles(job, first)[id].records ::
                r.entry != Tombstone
  {
    hide Top, OutputPieces, FromMerge, Mirrors;
    var outs, pieces := OutputFiles(job, first), OutputPieces(job);
    assert pieces + [] == pieces;
    PiecesFromMerge(levels, fs, job, pieces, []);
    if job.dropTombstones {
      forall id | id in outs
        ensures forall r | r in outs[id].records :: r.entry.Value?
      {
        PieceIsLive(fs, job, pieces, id - first);
      }
    }
  }

  lemma CutApartIsDisjoint(outs: Files)
    requires CutApart(outs)
    ensures WellFormed(outs) && DisjointLevels(outs)
  {
  }

  lemma PieceIsLive(fs: Files, job: CompactionJob, pieces: seq<seq<Record>>, i: nat)
    requires FromMerge(fs, AsJob(job), MergedRecords(job.inputs), pieces) && i < |pieces| && job.dropTombstones
    ensures forall r | r in pieces[i] :: r.entry.Value?
  {
    hide Top, MergedRecords;
    FlatMembers(pieces);
    forall r | r in pieces[i]
      ensures r.entry.Value?
    {
      assert r in Flat(pieces);
      assert Kept(AsJob(job), r.entry);
    }
  }
}
