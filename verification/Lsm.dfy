/**
 The level-tagged files of a store, the order in which they are read, and the
 invariant that makes every half-finished compaction harmless.

 All reasoning about reads is per key: a column lists, for one key, the files
 that hold it.
 */
module Lsm {
  import opened Records

  datatype Table = Table(level: nat, records: seq<Record>)

  /** The SSTable files on disk, by id. */
  type Files = map<nat, Table>

  datatype Cell = Cell(level: nat, entry: Entry)

  /** The files that hold one key, with the entry each has for it. */
  type Column = map<nat, Cell>

  function ColumnOf(fs: Files, k: Key): Column
  {
    map id | id in fs && Find(fs[id].records, k).Some? :: Cell(fs[id].level, Find(fs[id].records, k).value)
  }

  // ---------- reading ----------

  /** Reads visit levels in ascending order and, within a level, ids in descending order. */
  predicate Before(levelA: nat, a: nat, levelB: nat, b: nat)
  {
    levelA < levelB || (levelA == levelB && a > b)
  }

  predicate IsFirst(c: Column, id: nat)
  {
    id in c && forall o | o in c :: o == id || Before(c[id].level, id, c[o].level, o)
  }

  ghost function Top(c: Column): Option<Entry>
  {
    if exists id | id in c :: IsFirst(c, id) then
      var id :| id in c && IsFirst(c, id);
      Some(c[id].entry)
    else
      None
  }

  /** The entry a reader finds for `k`, a tombstone included. */
  ghost function Newest(fs: Files, k: Key): Option<Entry>
  {
    Top(ColumnOf(fs, k))
  }

  lemma TopIs(c: Column, id: nat)
    requires IsFirst(c, id)
    ensures Top(c) == Some(c[id].entry)
  {
  }

  lemma {:induction false} FirstOfSet(c: Column, ids: set<nat>) returns (first: nat)
    requires ids != {} && ids <= c.Keys
    ensures first in ids && forall o | o in ids :: o == first || Before(c[first].level, first, c[o].level, o)
    decreases |ids|
  {
    var id :| id in ids;
    if ids == {id} {
      first := id;
    } else {
      var rest := FirstOfSet(c, ids - {id});
      first := if Before(c[id].level, id, c[rest].level, rest) then id else rest;
    }
  }

  lemma FirstExists(c: Column) returns (first: nat)
    requires c.Keys != {}
    ensures IsFirst(c, first) && Top(c) == Some(c[first].entry)
  {
    first := FirstOfSet(c, c.Keys);
    TopIs(c, first);
  }

  lemma TopOfEmpty(c: Column)
    ensures Top(c).None? <==> c.Keys == {}
  {
    if c.Keys != {} {
      var _ := FirstExists(c);
    }
  }

  // ---------- the invariant ----------

  predicate HeldAbove(c: Column, level: nat)
  {
    exists id | id in c :: c[id].level < level
  }

  /**
   Two files of one level below L0 that hold the same key either agree on its
   entry or are both shadowed by a shallower level.
   */
  predicate CoherentColumn(c: Column)
  {
    forall a, b | a in c && b in c && c[a].level == c[b].level && c[a].level > 0 ::
      c[a].entry == c[b].entry || HeldAbove(c, c[a].level)
  }

  ghost predicate Coherent(fs: Files)
  {
    forall k :: CoherentColumn(ColumnOf(fs, k))
  }

  ghost predicate WellFormed(fs: Files)
  {
    forall id | id in fs :: Sorted(fs[id].records) && fs[id].records != []
  }

  /** Below L0, any holder in the shallowest holding level answers the read. */
  lemma TopBelowL0(c: Column, id: nat)
    requires CoherentColumn(c) && id in c && c[id].level > 0 && !HeldAbove(c, c[id].level)
    ensures Top(c) == Some(c[id].entry)
  {
    var first := FirstExists(c);
    assert c[first].level == c[id].level;
  }

  // ---------- the highest id ----------

  /** The file with the highest id answers a read exactly when no shallower level holds the key. */
  lemma HighestIdIsFirstIff(c: Column, h: nat)
    requires h in c && forall o | o in c :: o <= h
    ensures IsFirst(c, h) <==> !HeldAbove(c, c[h].level)
  {
    if HeldAbove(c, c[h].level) {
      var o :| o in c && c[o].level < c[h].level;
      assert !Before(c[h].level, h, c[o].level, o);
    }
  }

  /** Its record is the newest if no shallower level holds the key; only then, if no other file has the same record. */
  lemma HighestIdWinsIff(fs: Files, k: Key, h: nat)
    requires h in ColumnOf(fs, k) && forall o | o in ColumnOf(fs, k) :: o <= h
    ensures var c := ColumnOf(fs, k);
            && (!HeldAbove(c, c[h].level) ==> Newest(fs, k) == Some(c[h].entry))
            && ((forall o | o in c && o != h :: c[o].entry != c[h].entry) ==>
                  (Newest(fs, k) == Some(c[h].entry) <==> !HeldAbove(c, c[h].level)))
  {
    var c := ColumnOf(fs, k);
    HighestIdIsFirstIff(c, h);
    var first := FirstExists(c);
    assert forall o | IsFirst(c, o) :: o == first;
  }

  // ---------- compaction jobs ----------

  datatype Job = Job(inputs: set<nat>, outputLevel: nat, dropTombstones: bool)

  function Restrict<T>(m: map<nat, T>, ids: set<nat>): map<nat, T>
  {
    map id | id in m && id in ids :: m[id]
  }

  /** What the merge of the inputs, newest first, has for `k`. */
  ghost function Merged(fs: Files, job: Job, k: Key): Option<Entry>
  {
    Newest(Restrict(fs, job.inputs), k)
  }

  predicate Kept(job: Job, e: Entry)
  {
    !(job.dropTombstones && e == Tombstone)
  }

  /**
   What makes a job safe for one key. A planned job takes its inputs from two
   adjacent levels; a full compaction takes every file.
   */
  predicate SafeColumn(c: Column, job: Job)
  {
    && job.outputLevel > 0
    && (forall i | i in c && i in job.inputs :: c[i].level + 1 >= job.outputLevel)
    && (c.Keys <= job.inputs || forall i | i in c && i in job.inputs :: c[i].level <= job.outputLevel)
    && (forall o | o in c && o !in job.inputs :: job.outputLevel == 1 ==> c[o].level > 0)
    && (forall o | o in c && o !in job.inputs :: job.dropTombstones ==> c[o].level <= job.outputLevel)
    && (forall i, o | i in c && i in job.inputs && o in c && o !in job.inputs ::
          c[i].level < job.outputLevel ==> c[o].level != job.outputLevel)
  }

  ghost predicate Safe(fs: Files, job: Job)
  {
    job.inputs <= fs.Keys && forall k :: SafeColumn(ColumnOf(fs, k), job)
  }

  /** Output cells of a job: fresh ids, in the output level, with the merged entry. */
  ghost predicate OutputColumn(c: Column, job: Job, outs: Column)
  {
    forall o | o in outs ::
      o !in c && outs[o].level == job.outputLevel
      && Top(Restrict(c, job.inputs)) == Some(outs[o].entry) && Kept(job, outs[o].entry)
  }

  /** Any number of the job's output files. */
  ghost predicate OutputsOf(fs: Files, job: Job, outs: Files)
  {
    && outs.Keys !! fs.Keys
    && forall k :: OutputColumn(ColumnOf(fs, k), job, ColumnOf(outs, k))
  }

  /** All of the job's output files: every surviving record is in one. */
  ghost predicate AllOutputsOf(fs: Files, job: Job, outs: Files)
  {
    && OutputsOf(fs, job, outs)
    && forall k :: Merged(fs, job, k).Some? && Kept(job, Merged(fs, job, k).value) ==> ColumnOf(outs, k).Keys != {}
  }

  /** The same for a merge: of a job's inputs, the one with the highest id wins exactly under the same condition. */
  lemma HighestIdWinsMergeIff(fs: Files, job: Job, k: Key, h: nat)
    requires h in ColumnOf(fs, k) && h in job.inputs
    requires forall o | o in ColumnOf(fs, k) && o in job.inputs :: o <= h
    ensures var ins := Restrict(ColumnOf(fs, k), job.inputs);
            && (IsFirst(ins, h) <==> !HeldAbove(ins, ins[h].level))
            && (!HeldAbove(ins, ins[h].level) ==> Merged(fs, job, k) == Some(ins[h].entry))
            && ((forall o | o in ins && o != h :: ins[o].entry != ins[h].entry) ==>
                  (Merged(fs, job, k) == Some(ins[h].entry) <==> !HeldAbove(ins, ins[h].level)))
  {
    ColumnOfRestrict(fs, job.inputs, k);
    var ins := Restrict(ColumnOf(fs, k), job.inputs);
    HighestIdIsFirstIff(ins, h);
    HighestIdWinsIff(Restrict(fs, job.inputs), k, h);
  }

  lemma ColumnOfSum(fs: Files, outs: Files, k: Key)
    requires fs.Keys !! outs.Keys
    ensures ColumnOf(fs + outs, k) == ColumnOf(fs, k) + ColumnOf(outs, k)
  {
  }

  lemma ColumnOfRest(fs: Files, ids: set<nat>, k: Key)
    ensures ColumnOf(fs - ids, k) == ColumnOf(fs, k) - ids
  {
  }

  lemma ColumnOfRestrict(fs: Files, ids: set<nat>, k: Key)
    ensures ColumnOf(Restrict(fs, ids), k) == Restrict(ColumnOf(fs, k), ids)
  {
  }

  // ---------- outputs renamed, no marker yet ----------

  lemma AddOutputs(c: Column, job: Job, outs: Column)
    requires CoherentColumn(c) && SafeColumn(c, job) && OutputColumn(c, job, outs)
    ensures Top(c + outs) == Top(c) && CoherentColumn(c + outs)
  {
    hide Top, CoherentColumn;
    if o :| o in outs {
      TopOfEmpty(Restrict(c, job.inputs));
      var m := FirstExists(Restrict(c, job.inputs));
      var a := FirstExists(c);
      if c[a].level < job.outputLevel {
        AddBelowTop(c, outs, a);
      } else {
        TopFromInputs(c, job, m, a);
        AddAtTop(c, outs, o);
      }
    } else {
      assert c + outs == c;
    }
  }

  /** With nothing above the output level, the inputs alone answer the read. */
  lemma TopFromInputs(c: Column, job: Job, m: nat, a: nat)
    requires CoherentColumn(c) && SafeColumn(c, job)
    requires IsFirst(Restrict(c, job.inputs), m) && IsFirst(c, a) && c[a].level >= job.outputLevel
    ensures Top(c) == Some(c[m].entry)
  {
    if c.Keys <= job.inputs {
      assert Restrict(c, job.inputs) == c;
      TopIs(c, m);
    } else {
      TopBelowL0(c, m);
    }
  }

  /** Cells put below the top change nothing. */
  lemma AddBelowTop(c: Column, outs: Column, a: nat)
    requires CoherentColumn(c) && c.Keys !! outs.Keys && IsFirst(c, a)
    requires forall p | p in outs :: outs[p].level > c[a].level
    ensures Top(c + outs) == Top(c) && CoherentColumn(c + outs)
  {
    var all := c + outs;
    assert IsFirst(all, a);
    TopIs(all, a);
    TopIs(c, a);
    assert forall id | id in all && all[id].level > c[a].level :: HeldAbove(all, all[id].level);
  }

  /** Cells that agree with the top, put at or above it, change nothing. */
  lemma AddAtTop(c: Column, outs: Column, o: nat)
    requires CoherentColumn(c) && c.Keys !! outs.Keys && o in outs && outs[o].level > 0
    requires !HeldAbove(c, outs[o].level)
    requires forall p | p in outs :: outs[p].level == outs[o].level && Top(c) == Some(outs[p].entry)
    ensures Top(c + outs) == Top(c) && CoherentColumn(c + outs)
  {
    var all := c + outs;
    forall id | id in c && c[id].level == outs[o].level
      ensures Top(c) == Some(c[id].entry)
    {
      TopBelowL0(c, id);
    }
    assert forall id | id in c && c[id].level > outs[o].level :: HeldAbove(all, c[id].level) by {
      assert o in all;
    }
    assert CoherentColumn(all);
    TopBelowL0(all, o);
  }

  /** Renaming any part of a job's outputs into place changes no read and keeps the invariant. */
  lemma SomeOutputsHarmless(fs: Files, job: Job, outs: Files)
    requires Coherent(fs) && Safe(fs, job) && OutputsOf(fs, job, outs)
    ensures Coherent(fs + outs)
    ensures forall k :: Newest(fs + outs, k) == Newest(fs, k)
  {
    forall k
      ensures CoherentColumn(ColumnOf(fs + outs, k)) && Newest(fs + outs, k) == Newest(fs, k)
    {
      ColumnOfSum(fs, outs, k);
      AddOutputs(ColumnOf(fs, k), job, ColumnOf(outs, k));
    }
  }

  // ---------- outputs in place, inputs gone ----------

  lemma ReplaceInputs(c: Column, job: Job, outs: Column)
    requires CoherentColumn(c) && SafeColumn(c, job) && OutputColumn(c, job, outs)
    requires Top(Restrict(c, job.inputs)).Some? && Kept(job, Top(Restrict(c, job.inputs)).value) ==> outs.Keys != {}
    ensures Visible(Top((c - job.inputs) + outs)) == Visible(Top(c)) && CoherentColumn((c - job.inputs) + outs)
  {
    var rest, ins := c - job.inputs, Restrict(c, job.inputs);
    TopOfEmpty(ins);
    if ins.Keys == {} {
      assert rest + outs == c;
    } else {
      var m := FirstExists(ins);
      var a := FirstExists(c);
      ReplaceCoherent(c, job, outs, m);
      FirstAmongInputs(c, job, m, a);
      if a !in job.inputs && c[a].level < job.outputLevel {
        TopStays(c, job.inputs, outs, a);
      } else if c[m].level < job.outputLevel {
        LevelAgrees(c, m);
        ReplaceUpper(c, job, outs, m);
      } else {
        TopFromInputs(c, job, m, a);
        ReplaceLower(c, job, outs, m, a);
      }
    }
  }

  lemma FirstAmongInputs(c: Column, job: Job, m: nat, a: nat)
    requires IsFirst(Restrict(c, job.inputs), m) && IsFirst(c, a)
    ensures a in job.inputs ==> a == m
    ensures a == m || Before(c[a].level, a, c[m].level, m)
  {
    assert m in c;
    if a in job.inputs {
      assert a in Restrict(c, job.inputs);
    }
  }

  lemma ReplaceCoherent(c: Column, job: Job, outs: Column, m: nat)
    requires CoherentColumn(c) && SafeColumn(c, job) && OutputColumn(c, job, outs)
    requires IsFirst(Restrict(c, job.inputs), m) && Top(Restrict(c, job.inputs)) == Some(c[m].entry)
    requires Kept(job, c[m].entry) ==> outs.Keys != {}
    ensures CoherentColumn((c - job.inputs) + outs)
  {
  }

  /** A top cell outside the job, above its output level, stays the top. */
  lemma TopStays(c: Column, inputs: set<nat>, outs: Column, a: nat)
    requires IsFirst(c, a) && a !in inputs && c.Keys !! outs.Keys
    requires forall p | p in outs :: outs[p].level > c[a].level
    ensures Top((c - inputs) + outs) == Top(c)
  {
    assert IsFirst((c - inputs) + outs, a);
    TopIs((c - inputs) + outs, a);
    TopIs(c, a);
  }

  /** The cells of the shallowest level agree, if it is below L0. */
  lemma LevelAgrees(c: Column, a: nat)
    requires CoherentColumn(c) && IsFirst(c, a)
    ensures forall o | o in c && c[o].level == c[a].level > 0 :: c[o].entry == c[a].entry
  {
  }

  /** The newest record of the key comes down from the upper level. */
  lemma ReplaceUpper(c: Column, job: Job, outs: Column, m: nat)
    requires SafeColumn(c, job) && OutputColumn(c, job, outs)
    requires IsFirst(Restrict(c, job.inputs), m) && Top(Restrict(c, job.inputs)) == Some(c[m].entry)
    requires Kept(job, c[m].entry) ==> outs.Keys != {}
    requires CoherentColumn((c - job.inputs) + outs)
    requires IsFirst(c, m) && c[m].level < job.outputLevel
    requires forall o | o in c && c[o].level == c[m].level > 0 :: c[o].entry == c[m].entry
    ensures Visible(Top((c - job.inputs) + outs)) == Visible(Some(c[m].entry))
  {
    var all := (c - job.inputs) + outs;
    if o :| o in c && o !in job.inputs && c[o].level == c[m].level {
      TopBelowL0(all, o);
    } else if p :| p in outs {
      TopBelowL0(all, p);
    } else {
      TopOfEmpty(all);
    }
  }

  /** The newest record of the key is already in the output level, or deeper. */
  lemma ReplaceLower(c: Column, job: Job, outs: Column, m: nat, a: nat)
    requires CoherentColumn(c) && SafeColumn(c, job) && OutputColumn(c, job, outs)
    requires IsFirst(Restrict(c, job.inputs), m) && Top(Restrict(c, job.inputs)) == Some(c[m].entry)
    requires Kept(job, c[m].entry) ==> outs.Keys != {}
    requires CoherentColumn((c - job.inputs) + outs)
    requires IsFirst(c, a) && c[a].level >= job.outputLevel && Top(c) == Some(c[m].entry)
    ensures Visible(Top((c - job.inputs) + outs)) == Visible(Some(c[m].entry))
  {
    hide Top, CoherentColumn;
    var all := (c - job.inputs) + outs;
    if p :| p in outs {
      NothingAbove(c, job, outs, a);
      TopBelowL0(all, p);
    } else if Kept(job, c[m].entry) {
      assert false;
    } else {
      ReplaceDropped(c, job, m, a);
      assert all == c - job.inputs;
    }
  }

  lemma NothingAbove(c: Column, job: Job, outs: Column, a: nat)
    requires IsFirst(c, a) && c[a].level >= job.outputLevel && OutputColumn(c, job, outs)
    ensures !HeldAbove((c - job.inputs) + outs, job.outputLevel)
  {
  }

  lemma ReplaceDropped(c: Column, job: Job, m: nat, a: nat)
    requires CoherentColumn(c) && SafeColumn(c, job) && job.dropTombstones
    requires IsFirst(c, a) && c[a].level >= job.outputLevel && Top(c) == Some(Tombstone)
    ensures Visible(Top(c - job.inputs)) == None
  {
    var rest := c - job.inputs;
    if rest.Keys == {} {
      TopOfEmpty(rest);
    } else {
      var o := FirstExists(rest);
      TopBelowL0(c, o);
    }
  }

  /**
   The whole of a job: outputs in, inputs out. Every key reads as before, a
   dropped tombstone and an absent key being the same to a reader.
   */
  lemma FinishedJobKeepsReads(fs: Files, job: Job, outs: Files)
    requires Coherent(fs) && Safe(fs, job) && AllOutputsOf(fs, job, outs)
    ensures Coherent((fs - job.inputs) + outs)
    ensures forall k :: Visible(Newest((fs - job.inputs) + outs, k)) == Visible(Newest(fs, k))
  {
    var after := (fs - job.inputs) + outs;
    forall k
      ensures CoherentColumn(ColumnOf(after, k)) && Visible(Newest(after, k)) == Visible(Newest(fs, k))
    {
      ColumnOfSum(fs - job.inputs, outs, k);
      ColumnOfRest(fs, job.inputs, k);
      ColumnOfRestrict(fs, job.inputs, k);
      ReplaceInputs(ColumnOf(fs, k), job, ColumnOf(outs, k));
    }
  }
}
