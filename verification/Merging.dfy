/**
 From the inputs of a job to its output files: the merge of the inputs is what
 the files hold, and the outputs are that merge cut into pieces.
 */
module Merging {
  import opened Bytes
  import opened Records
  import opened Lsm
  import opened Iter
  import opened Planning

  /** A loaded table: an id and its records. */
  datatype Sst = Sst(id: nat, records: seq<Record>)

  // ---------- sources, newest first ----------

  datatype Source = Source(level: nat, sst: Sst)

  function RecordsOf(list: seq<Source>): (r: seq<seq<Record>>)
    ensures |r| == |list|
  {
    seq(|list|, i requires 0 <= i < |list| => list[i].sst.records)
  }

  lemma RecordsOfMore(list: seq<Source>, s: Source)
    ensures RecordsOf(list + [s]) == RecordsOf(list) + [s.sst.records]
  {
  }

  function IdsOf(list: seq<Source>): set<nat>
  {
    set s | s in list :: s.sst.id
  }

  /** Some files, listed in the order in which they are read. */
  ghost predicate ListsInOrder(list: seq<Source>, fs: Files)
  {
    && (forall s | s in list :: s.sst.id in fs && fs[s.sst.id] == Table(s.level, s.sst.records))
    && (forall i, j | 0 <= i < j < |list| :: Before(list[i].level, list[i].sst.id, list[j].level, list[j].sst.id))
    && (forall id | id in fs :: Source(fs[id].level, Sst(id, fs[id].records)) in list)
  }

  /** The first source that holds a key, in reading order, has what a reader finds. */
  lemma {:induction false} FirstFindIsNewest(list: seq<Source>, fs: Files, k: Key)
    requires ListsInOrder(list, fs)
    ensures FirstFind(RecordsOf(list), k) == Newest(fs, k)
    decreases |list|
  {
    hide Top, ColumnOf, ListsInOrder, Newest;
    if list == [] {
      NothingListed(list, fs, k);
    } else if Find(list[0].sst.records, k).Some? {
      HeadIsFirst(list, fs, k);
    } else {
      ListTail(list, fs);
      FirstFindIsNewest(list[1..], fs - {list[0].sst.id}, k);
      HeadHasNone(list, fs, k);
      assert RecordsOf(list)[1..] == RecordsOf(list[1..]);
    }
  }

  lemma NothingListed(list: seq<Source>, fs: Files, k: Key)
    requires ListsInOrder(list, fs) && list == []
    ensures Newest(fs, k) == None
  {
    assert fs.Keys == {};
    TopOfEmpty(ColumnOf(fs, k));
  }

  lemma HeadHasNone(list: seq<Source>, fs: Files, k: Key)
    requires ListsInOrder(list, fs) && list != [] && Find(list[0].sst.records, k).None?
    ensures Newest(fs - {list[0].sst.id}, k) == Newest(fs, k)
  {
    assert list[0] in list;
    assert ColumnOf(fs - {list[0].sst.id}, k) == ColumnOf(fs, k);
  }

  lemma HeadIsFirst(list: seq<Source>, fs: Files, k: Key)
    requires ListsInOrder(list, fs) && list != [] && Find(list[0].sst.records, k).Some?
    ensures Newest(fs, k) == Find(list[0].sst.records, k)
  {
    var c, head := ColumnOf(fs, k), list[0];
    assert head in list;
    forall o | o in c
      ensures o == head.sst.id || Before(c[head.sst.id].level, head.sst.id, c[o].level, o)
    {
      var s := Source(fs[o].level, Sst(o, fs[o].records));
      assert s in list;
      var j :| 0 <= j < |list| && list[j] == s;
    }
    TopIs(c, head.sst.id);
  }

  lemma ListTail(list: seq<Source>, fs: Files)
    requires ListsInOrder(list, fs) && list != []
    ensures ListsInOrder(list[1..], fs - {list[0].sst.id})
  {
    var rest := fs - {list[0].sst.id};
    assert list[0] in list;
    forall s | s in list[1..]
      ensures s.sst.id in rest && rest[s.sst.id] == Table(s.level, s.sst.records)
    {
      var j :| 1 <= j < |list| && list[j] == s;
      assert Before(list[0].level, list[0].sst.id, list[j].level, list[j].sst.id);
      assert s in list;
      assert s.sst.id != list[0].sst.id;
    }
    forall id | id in rest
      ensures Source(rest[id].level, Sst(id, rest[id].records)) in list[1..]
    {
      var s := Source(fs[id].level, Sst(id, fs[id].records));
      assert s in list && s != list[0];
    }
  }

  // ---------- cutting ----------

  /** The records that are written: all of them, or the live ones. */
  function Surviving(rs: seq<Record>, drop: bool): seq<Record>
    decreases |rs|
  {
    if rs == [] then []
    else if drop && rs[0].entry == Tombstone then Surviving(rs[1..], drop)
    else [rs[0]] + Surviving(rs[1..], drop)
  }

  /** A file is closed by the record that takes it to the target. */
  function Cut(current: seq<Record>, rest: seq<Record>, target: nat): seq<seq<Record>>
    decreases |rest|
  {
    if rest == [] then (if current == [] then [] else [current])
    else if SizeOf(current + [rest[0]]) >= target then [current + [rest[0]]] + Cut([], rest[1..], target)
    else Cut(current + [rest[0]], rest[1..], target)
  }

  /** Nothing is lost, added or moved by cutting. */
  lemma {:induction false} CutFlat(current: seq<Record>, rest: seq<Record>, target: nat)
    ensures Flat(Cut(current, rest, target)) == current + rest
    decreases |rest|
  {
    if rest == [] {
      if current != [] {
        assert [current][1..] == [];
      }
    } else {
      var next := current + [rest[0]];
      assert current + rest == next + rest[1..];
      if SizeOf(next) >= target {
        CutFlat([], rest[1..], target);
        assert Cut(current, rest, target)[1..] == Cut([], rest[1..], target);
        assert [] + rest[1..] == rest[1..];
      } else {
        CutFlat(next, rest[1..], target);
      }
    }
  }

  /** Every piece has a record, and only its last record takes it to the target. */
  lemma {:induction false} CutPieces(current: seq<Record>, rest: seq<Record>, target: nat)
    requires current == [] || SizeOf(current) < target
    ensures forall p | p in Cut(current, rest, target) :: p != [] && (|p| == 1 || SizeOf(p[..|p| - 1]) < target)
    ensures forall i | 0 <= i < |Cut(current, rest, target)| - 1 :: SizeOf(Cut(current, rest, target)[i]) >= target
    decreases |rest|
  {
    if rest == [] {
      if current != [] {
        assert SizeOf(current[..|current| - 1]) <= SizeOf(current);
      }
    } else {
      var next := current + [rest[0]];
      assert next[..|next| - 1] == current;
      if SizeOf(next) >= target {
        CutPieces([], rest[1..], target);
      } else {
        CutPieces(next, rest[1..], target);
      }
    }
  }

  /** Below the target there is one file, or none. */
  lemma {:induction false} OnePiece(current: seq<Record>, rest: seq<Record>, target: nat)
    requires SizeOf(current + rest) < target
    ensures Cut(current, rest, target) == if current + rest == [] then [] else [current + rest]
    decreases |rest|
  {
    if rest == [] {
      assert current + rest == current;
    } else {
      var next := current + [rest[0]];
      assert next + rest[1..] == current + rest;
      SizeOfPrefix(next, rest[1..]);
      OnePiece(next, rest[1..], target);
    }
  }

  /** One turn of the writing loop closes at most one piece. */
  lemma CutStep(current: seq<Record>, r: Record, rest: seq<Record>, target: nat)
    ensures Cut(current, [r] + rest, target)
         == if SizeOf(current + [r]) >= target then [current + [r]] + Cut([], rest, target)
            else Cut(current + [r], rest, target)
  {
    assert ([r] + rest)[1..] == rest;
  }

  /** The same for a cut whose first pieces are already written. */
  lemma CutOn(pieces: seq<seq<Record>>, current: seq<Record>, r: Record, rest: seq<Record>, target: nat,
          all: seq<seq<Record>>)
    requires pieces + Cut(current, [r] + rest, target) == all
    ensures SizeOf(current + [r]) == SizeOf(current) + RecordSize(r)
    ensures if SizeOf(current + [r]) >= target then pieces + [current + [r]] + Cut([], rest, target) == all
            else pieces + Cut(current + [r], rest, target) == all
  {
    hide Cut;
    CutStep(current, r, rest, target);
    SizeOfMore(current, r);
    if SizeOf(current + [r]) >= target {
      assert pieces + ([current + [r]] + Cut([], rest, target)) == pieces + [current + [r]] + Cut([], rest, target);
    }
  }

  lemma CutEnd(current: seq<Record>, target: nat)
    ensures Cut(current, [], target) == if current == [] then [] else [current]
  {
  }

  lemma SurvivingStep(rs: seq<Record>, drop: bool)
    ensures rs == [] ==> Surviving(rs, drop) == []
    ensures rs != [] && drop && rs[0].entry == Tombstone ==> Surviving(rs, drop) == Surviving(rs[1..], drop)
    ensures rs != [] && !(drop && rs[0].entry == Tombstone) ==>
              Surviving(rs, drop) == [rs[0]] + Surviving(rs[1..], drop)
  {
  }

  lemma {:induction false} SurvivingMembers(rs: seq<Record>, drop: bool)
    ensures forall r :: r in Surviving(rs, drop) <==> r in rs && !(drop && r.entry == Tombstone)
    ensures |Surviving(rs, drop)| <= |rs|
    decreases |rs|
  {
    if rs != [] {
      SurvivingMembers(rs[1..], drop);
      assert rs == [rs[0]] + rs[1..];
    }
  }

  lemma {:induction false} SurvivingSorted(rs: seq<Record>, drop: bool)
    requires Sorted(rs)
    ensures Sorted(Surviving(rs, drop))
    decreases |rs|
  {
    if rs != [] {
      SortedTail(rs);
      SurvivingSorted(rs[1..], drop);
      SurvivingMembers(rs[1..], drop);
      if !(drop && rs[0].entry == Tombstone) {
        SortedCons(rs[0], Surviving(rs[1..], drop));
      }
    }
  }

  // ---------- output files ----------

  /** Pieces written one after another, with ids from `first` on. */
  function FilesOf(pieces: seq<seq<Record>>, first: nat, level: nat): (fs: Files)
    ensures forall id :: id in fs <==> first <= id < first + |pieces|
    ensures forall id | id in fs :: fs[id] == Table(level, pieces[id - first])
    decreases |pieces|
  {
    if pieces == [] then map[]
    else
      var last := |pieces| - 1;
      FilesOf(pieces[..last], first, level)[first + last := Table(level, pieces[last])]
  }

  lemma FilesOfMore(pieces: seq<seq<Record>>, piece: seq<Record>, first: nat, level: nat)
    ensures FilesOf(pieces + [piece], first, level)
              == FilesOf(pieces, first, level)[first + |pieces| := Table(level, piece)]
  {
    assert (pieces + [piece])[..|pieces|] == pieces;
  }

  /** The pieces are cut from the merge of the job's inputs. */
  ghost predicate FromMerge(fs: Files, job: Job, merged: seq<Record>, pieces: seq<seq<Record>>)
  {
    && Sorted(merged)
    && (forall k :: Find(merged, k) == Merged(fs, job, k))
    && (forall i | 0 <= i < |pieces| :: pieces[i] != [])
    && Sorted(Flat(pieces))
    && forall r | r in Flat(pieces) :: r in merged && Kept(job, r.entry)
  }

  lemma PieceRecord(fs: Files, job: Job, merged: seq<Record>, pieces: seq<seq<Record>>, i: nat, k: Key)
    requires FromMerge(fs, job, merged, pieces) && i < |pieces| && Find(pieces[i], k).Some?
    ensures Merged(fs, job, k) == Find(pieces[i], k) && Kept(job, Find(pieces[i], k).value)
  {
    FindIndex(pieces[i], k);
    FlatMembers(pieces);
    var r := Record(k, Find(pieces[i], k).value);
    assert r in pieces[i];
    var j :| 0 <= j < |merged| && merged[j] == r;
    FindAt(merged, j);
  }

  /** Files cut from the merge are outputs of the job, however many of them there are. */
  lemma PiecesAreOutputs(fs: Files, job: Job, merged: seq<Record>, pieces: seq<seq<Record>>, first: nat)
    requires FromMerge(fs, job, merged, pieces)
    requires forall id | id in fs :: id < first
    ensures OutputsOf(fs, job, FilesOf(pieces, first, job.outputLevel))
    ensures WellFormed(FilesOf(pieces, first, job.outputLevel))
  {
    hide Top, FilesOf, Flat, Find, Sorted, Less;
    var outs := FilesOf(pieces, first, job.outputLevel);
    forall k
      ensures OutputColumn(ColumnOf(fs, k), job, ColumnOf(outs, k))
    {
      ColumnOfRestrict(fs, job.inputs, k);
      forall o | o in ColumnOf(outs, k)
        ensures Top(Restrict(ColumnOf(fs, k), job.inputs)) == Some(ColumnOf(outs, k)[o].entry)
        ensures Kept(job, ColumnOf(outs, k)[o].entry)
      {
        PieceRecord(fs, job, merged, pieces, o - first, k);
      }
    }
    PiecesWellFormed(pieces, first, job.outputLevel);
  }

  lemma PiecesWellFormed(pieces: seq<seq<Record>>, first: nat, level: nat)
    requires Sorted(Flat(pieces)) && forall i | 0 <= i < |pieces| :: pieces[i] != []
    ensures WellFormed(FilesOf(pieces, first, level))
  {
    hide FilesOf, Flat;
    PiecesAscend(pieces);
    forall id | id in FilesOf(pieces, first, level)
      ensures Sorted(FilesOf(pieces, first, level)[id].records) && FilesOf(pieces, first, level)[id].records != []
    {
      assert FilesOf(pieces, first, level)[id].records == pieces[id - first];
    }
  }

  /** With every surviving record in a piece, they are all the outputs. */
  lemma AllPiecesAreAllOutputs(fs: Files, job: Job, merged: seq<Record>, pieces: seq<seq<Record>>, first: nat)
    requires FromMerge(fs, job, merged, pieces) && Flat(pieces) == Surviving(merged, job.dropTombstones)
    requires forall id | id in fs :: id < first
    ensures AllOutputsOf(fs, job, FilesOf(pieces, first, job.outputLevel))
  {
    hide Top, FilesOf, Cut, Surviving, Flat;
    var outs := FilesOf(pieces, first, job.outputLevel);
    PiecesAreOutputs(fs, job, merged, pieces, first);
    forall k | Merged(fs, job, k).Some? && Kept(job, Merged(fs, job, k).value)
      ensures ColumnOf(outs, k).Keys != {}
    {
      FindIndex(merged, k);
      SurvivingMembers(merged, job.dropTombstones);
      var i := PieceWith(pieces, Record(k, Find(merged, k).value));
      assert outs[first + i].records == pieces[i];
      assert first + i in ColumnOf(outs, k);
    }
  }

  lemma PieceWith(pieces: seq<seq<Record>>, r: Record) returns (i: nat)
    requires Sorted(Flat(pieces)) && r in Flat(pieces)
    ensures i < |pieces| && Find(pieces[i], r.key) == Some(r.entry)
  {
    FlatMembers(pieces);
    PiecesAscend(pieces);
    i :| 0 <= i < |pieces| && r in pieces[i];
    var j :| 0 <= j < |pieces[i]| && pieces[i][j] == r;
    FindAt(pieces[i], j);
  }

  /** Output files never share a key, nor overlap. */
  lemma PiecesAreApart(fs: Files, job: Job, merged: seq<Record>, pieces: seq<seq<Record>>, first: nat)
    requires FromMerge(fs, job, merged, pieces)
    ensures CutApart(FilesOf(pieces, first, job.outputLevel))
  {
    hide FilesOf, Flat, Top;
    var outs := FilesOf(pieces, first, job.outputLevel);
    PiecesWellFormed(pieces, first, job.outputLevel);
    PiecesAscend(pieces);
    forall a, b | a in outs && b in outs && a < b
      ensures Less(LastKey(outs[a]), FirstKey(outs[b]))
    {
      var p, q := pieces[a - first], pieces[b - first];
      assert outs[a].records == p && outs[b].records == q;
      assert p[|p| - 1] in p && q[0] in q;
    }
  }

  lemma FilesOfSplit(pieces: seq<seq<Record>>, first: nat, level: nat)
    requires pieces != []
    ensures FilesOf(pieces, first, level)
              == map[first := Table(level, pieces[0])] + FilesOf(pieces[1..], first + 1, level)
    ensures first !in FilesOf(pieces[1..], first + 1, level)
  {
    hide FilesOf;
  }

  lemma {:induction false} FlatLength(pieces: seq<seq<Record>>, first: nat, level: nat, n: nat)
    requires n >= first + |pieces|
    ensures Sum(FilesOf(pieces, first, level), Length, n) == |Flat(pieces)|
    decreases |pieces|
  {
    hide FilesOf, Sum;
    if pieces == [] {
      assert FilesOf(pieces, first, level).Keys == {};
      SumOfNone(FilesOf(pieces, first, level), n);
    } else {
      FilesOfSplit(pieces, first, level);
      SumDisjoint(map[first := Table(level, pieces[0])], FilesOf(pieces[1..], first + 1, level), Length, n);
      FlatLength(pieces[1..], first + 1, level, n);
      SumOfOne(first, Table(level, pieces[0]), n);
    }
  }

  lemma SumOfNone(fs: Files, n: nat)
    requires fs.Keys == {}
    ensures Sum(fs, Length, n) == 0
  {
    SumBeyond(fs, Length, 0, n);
  }

  lemma {:induction false} SumOfOne(id: nat, t: Table, n: nat)
    requires id < n
    ensures Sum(map[id := t], Length, n) == Length(t)
    decreases n
  {
    if n - 1 > id {
      SumOfOne(id, t, n - 1);
    } else {
      SumBefore(id, t, n - 1);
    }
  }

  lemma {:induction false} SumBefore(id: nat, t: Table, n: nat)
    requires n <= id
    ensures Sum(map[id := t], Length, n) == 0
    decreases n
  {
    if n > 0 {
      SumBefore(id, t, n - 1);
    }
  }

  /** The sources of a job hold as many records as its input files. */
  lemma {:induction false} TotalIsSum(list: seq<Source>, fs: Files, n: nat)
    requires ListsInOrder(list, fs) && forall id | id in fs :: id < n
    ensures Total(RecordsOf(list)) == Sum(fs, Length, n)
    decreases |list|
  {
    if list == [] {
      assert fs.Keys == {};
      SumBeyond(fs, Length, 0, n);
    } else {
      var id := list[0].sst.id;
      HeadSplit(list, fs);
      ListTail(list, fs);
      hide ListsInOrder, Sum, Length;
      TotalIsSum(list[1..], fs - {id}, n);
      SumDisjoint(fs - {id}, map[id := fs[id]], Length, n);
      SumOfOne(id, fs[id], n);
      LengthIs(fs[id]);
      assert RecordsOf(list)[1..] == RecordsOf(list[1..]);
    }
  }

  lemma LengthIs(t: Table)
    ensures Length(t) == |t.records|
  {
  }

  lemma HeadSplit(list: seq<Source>, fs: Files)
    requires ListsInOrder(list, fs) && list != []
    ensures var id := list[0].sst.id;
            id in fs && fs[id].records == list[0].sst.records && fs == (fs - {id}) + map[id := fs[id]]
  {
    assert list[0] in list;
  }
}
