/**
 What the scheduler's choice means for the files: every planned job is safe,
 keeps levels disjoint when they were, and brings the loop nearer its end.
 */
module Planning {
  import opened Bytes
  import opened Records
  import opened Lsm
  import opened Compaction

  // ---------- plans are safe ----------

  function FirstKey(t: Table): Key
    requires t.records != []
  {
    t.records[0].key
  }

  function LastKey(t: Table): Key
    requires t.records != []
  {
    t.records[|t.records| - 1].key
  }

  /** The metadata lists every file, with its true level and key range. */
  ghost predicate Describes(files: seq<FileMeta>, fs: Files)
  {
    && WellFormed(fs)
    && (forall m | m in files ::
          && m.id in fs && m.level == fs[m.id].level
          && m.smallest == FirstKey(fs[m.id]) && m.largest == LastKey(fs[m.id]))
    && (forall id | id in fs :: exists m :: m in files && m.id == id)
  }

  function JobOf(plan: CompactionPlan): Job
  {
    Job((set id | id in plan.inputs) + (set id | id in plan.overlaps), plan.level + 1, plan.dropTombstones)
  }

  /**
   A planned job in terms of the files alone: `top` comes from level `level` and
   lies within [lo, hi]; the rest is exactly what meets [lo, hi] one level down.
   */
  ghost predicate Takes(fs: Files, job: Job, level: nat, top: set<nat>, lo: Key, hi: Key)
  {
    && WellFormed(fs)
    && top != {} && top <= job.inputs <= fs.Keys && job.outputLevel == level + 1
    && (forall i | i in top :: fs[i].level == level && AtMost(lo, FirstKey(fs[i])) && AtMost(LastKey(fs[i]), hi))
    && (forall i | i in job.inputs && i !in top :: fs[i].level == level + 1)
    && (forall o | o in fs && fs[o].level == level + 1 ::
          o in job.inputs <==> AtMost(FirstKey(fs[o]), hi) && AtMost(lo, LastKey(fs[o])))
    && (level == 0 ==> forall o | o in fs && fs[o].level == 0 :: o in top)
    && (job.dropTombstones <==> forall o | o in fs :: fs[o].level <= level + 1)
  }

  lemma PlanTakes(files: seq<FileMeta>, fs: Files, config: LevelConfig, plan: CompactionPlan, upper: seq<FileMeta>)
    requires Describes(files, fs) && Chosen(files, config, plan.level, upper) && PlanFor(files, plan, upper)
    ensures Takes(fs, JobOf(plan), plan.level, (set id | id in plan.inputs), UnionRange(upper).0, UnionRange(upper).1)
  {
    ChosenUpper(files, config, plan.level, upper);
    PlanInputsTaken(files, fs, plan, upper);
    PlanOverlapsTaken(files, fs, plan, upper);
    PlanDrops(files, fs, plan, upper);
    AssembleTakes(fs, plan, UnionRange(upper).0, UnionRange(upper).1);
  }

  /** A plan names files of its level and of the next one only. */
  lemma PlanLevels(files: seq<FileMeta>, fs: Files, config: LevelConfig, plan: CompactionPlan, upper: seq<FileMeta>)
    requires Describes(files, fs) && Chosen(files, config, plan.level, upper) && PlanFor(files, plan, upper)
    ensures forall i | i in plan.inputs :: i in fs && fs[i].level == plan.level
    ensures forall i | i in plan.overlaps :: i in fs && fs[i].level == plan.level + 1
  {
    ChosenUpper(files, config, plan.level, upper);
    PlanInputsTaken(files, fs, plan, upper);
    PlanOverlapsTaken(files, fs, plan, upper);
  }

  lemma AssembleTakes(fs: Files, plan: CompactionPlan, lo: Key, hi: Key)
    requires WellFormed(fs) && plan.inputs != []
    requires forall i | i in plan.inputs ::
               i in fs && fs[i].level == plan.level && AtMost(lo, FirstKey(fs[i])) && AtMost(LastKey(fs[i]), hi)
    requires plan.level == 0 ==> forall o | o in fs && fs[o].level == 0 :: o in plan.inputs
    requires forall i | i in plan.overlaps :: i in fs && fs[i].level == plan.level + 1
    requires forall o | o in fs && fs[o].level == plan.level + 1 ::
               o in plan.overlaps <==> AtMost(FirstKey(fs[o]), hi) && AtMost(lo, LastKey(fs[o]))
    requires plan.dropTombstones <==> forall o | o in fs :: fs[o].level <= plan.level + 1
    ensures Takes(fs, JobOf(plan), plan.level, (set id | id in plan.inputs), lo, hi)
  {
    var job := JobOf(plan);
    var top := set id | id in plan.inputs;
    assert plan.inputs[0] in top;
    assert forall i :: i in job.inputs <==> i in plan.inputs || i in plan.overlaps;
    assert forall i :: i in top <==> i in plan.inputs;
    assert top <= job.inputs <= fs.Keys;
  }

  lemma ChosenUpper(files: seq<FileMeta>, config: LevelConfig, level: nat, upper: seq<FileMeta>)
    requires Chosen(files, config, level, upper)
    ensures forall m | m in upper :: m in files && m.level == level
    ensures level == 0 ==> forall m | m in files && m.level == 0 :: m in upper
  {
  }

  lemma PlanInputsTaken(files: seq<FileMeta>, fs: Files, plan: CompactionPlan, upper: seq<FileMeta>)
    requires Describes(files, fs) && upper != [] && PlanFor(files, plan, upper)
    requires forall m | m in upper :: m in files && m.level == plan.level
    requires plan.level == 0 ==> forall m | m in files && m.level == 0 :: m in upper
    ensures forall i | i in plan.inputs ::
              && i in fs && fs[i].level == plan.level
              && AtMost(UnionRange(upper).0, FirstKey(fs[i])) && AtMost(LastKey(fs[i]), UnionRange(upper).1)
    ensures plan.level == 0 ==> forall o | o in fs && fs[o].level == 0 :: o in plan.inputs
    ensures plan.inputs != []
  {
    assert upper[0] in upper && upper[0].id in plan.inputs;
    UnionRangeCovers(upper);
    forall i | i in plan.inputs
      ensures i in fs && fs[i].level == plan.level
      ensures AtMost(UnionRange(upper).0, FirstKey(fs[i])) && AtMost(LastKey(fs[i]), UnionRange(upper).1)
    {
      var m :| m in upper && m.id == i;
    }
    if plan.level == 0 {
      forall o | o in fs && fs[o].level == 0
        ensures o in plan.inputs
      {
        var m :| m in files && m.id == o;
        assert m in upper;
      }
    }
  }

  lemma PlanOverlapsTaken(files: seq<FileMeta>, fs: Files, plan: CompactionPlan, upper: seq<FileMeta>)
    requires Describes(files, fs) && upper != [] && PlanFor(files, plan, upper)
    ensures forall i | i in plan.overlaps :: i in fs && fs[i].level == plan.level + 1
    ensures forall o | o in fs && fs[o].level == plan.level + 1 ::
              o in plan.overlaps <==>
                AtMost(FirstKey(fs[o]), UnionRange(upper).1) && AtMost(UnionRange(upper).0, LastKey(fs[o]))
  {
    var (lo, hi) := UnionRange(upper);
    forall i | i in plan.overlaps
      ensures i in fs && fs[i].level == plan.level + 1
      ensures AtMost(FirstKey(fs[i]), hi) && AtMost(lo, LastKey(fs[i]))
    {
      var m :| m in Overlapping(files, plan.level + 1, lo, hi) && m.id == i;
    }
    forall o | o in fs && fs[o].level == plan.level + 1 && AtMost(FirstKey(fs[o]), hi) && AtMost(lo, LastKey(fs[o]))
      ensures o in plan.overlaps
    {
      var m :| m in files && m.id == o;
      assert m in Overlapping(files, plan.level + 1, lo, hi);
    }
  }

  lemma PlanDrops(files: seq<FileMeta>, fs: Files, plan: CompactionPlan, upper: seq<FileMeta>)
    requires Describes(files, fs) && upper != [] && PlanFor(files, plan, upper)
    ensures plan.dropTombstones <==> forall o | o in fs :: fs[o].level <= plan.level + 1
  {
    forall o | o in fs
      ensures plan.dropTombstones ==> fs[o].level <= plan.level + 1
    {
      var m :| m in files && m.id == o;
    }
  }

  /** The overlap set and the tombstone rule make every planned job safe, for live and deleted keys alike. */
  lemma PlanIsSafe(fs: Files, job: Job, level: nat, top: set<nat>, lo: Key, hi: Key)
    requires Takes(fs, job, level, top, lo, hi)
    ensures Safe(fs, job)
  {
    forall k
      ensures SafeColumn(ColumnOf(fs, k), job)
    {
      forall i, o | i in ColumnOf(fs, k) && i in top && o in ColumnOf(fs, k) && fs[o].level == level + 1
        ensures o in job.inputs
      {
        FindWithin(fs[i].records, k);
        FindWithin(fs[o].records, k);
        HullHolds(lo, hi, fs[i], fs[o], k);
      }
    }
  }

  lemma HullHolds(lo: Key, hi: Key, i: Table, o: Table, k: Key)
    requires i.records != [] && AtMost(lo, FirstKey(i)) && AtMost(LastKey(i), hi)
    requires AtMost(FirstKey(i), k) && AtMost(k, LastKey(i))
    requires o.records != [] && AtMost(FirstKey(o), k) && AtMost(k, LastKey(o))
    ensures AtMost(FirstKey(o), hi) && AtMost(lo, LastKey(o))
  {
    AtMostTransitive(lo, FirstKey(i), k);
    AtMostTransitive(lo, k, LastKey(o));
    AtMostTransitive(k, LastKey(i), hi);
    AtMostTransitive(FirstKey(o), k, hi);
  }

  /** A full compaction takes every file, so it is safe whatever it drops. */
  lemma FullJobIsSafe(fs: Files)
    ensures Safe(fs, Job(fs.Keys, 1, true))
  {
  }

  // ---------- disjoint levels ----------

  predicate Apart(t: Table, u: Table)
    requires t.records != [] && u.records != []
  {
    Less(LastKey(t), FirstKey(u)) || Less(LastKey(u), FirstKey(t))
  }

  /** Within each level below L0, key ranges do not meet. */
  ghost predicate DisjointLevels(fs: Files)
    requires WellFormed(fs)
  {
    forall a, b | a in fs && b in fs && a != b && fs[a].level == fs[b].level && fs[a].level > 0 :: Apart(fs[a], fs[b])
  }

  /** In disjoint levels at most one file per level holds a key. */
  lemma OneHolderPerLevel(fs: Files, k: Key, a: nat, b: nat)
    requires WellFormed(fs) && DisjointLevels(fs)
    requires a in ColumnOf(fs, k) && b in ColumnOf(fs, k) && fs[a].level == fs[b].level && fs[a].level > 0
    ensures a == b
  {
    if a != b {
      FindWithin(fs[a].records, k);
      FindWithin(fs[b].records, k);
      AtMostTransitive(FirstKey(fs[b]), k, LastKey(fs[a]));
      AtMostTransitive(FirstKey(fs[a]), k, LastKey(fs[b]));
    }
  }

  /** Disjoint levels are coherent. */
  lemma DisjointIsCoherent(fs: Files)
    requires WellFormed(fs) && DisjointLevels(fs)
    ensures Coherent(fs)
  {
    forall k
      ensures CoherentColumn(ColumnOf(fs, k))
    {
      forall a, b | a in ColumnOf(fs, k) && b in ColumnOf(fs, k) && fs[a].level == fs[b].level && fs[a].level > 0
        ensures a == b
      {
        OneHolderPerLevel(fs, k, a, b);
      }
    }
  }

  /** `o` lies to one side of every input. */
  ghost predicate Beside(fs: Files, inputs: set<nat>, o: nat)
    requires WellFormed(fs) && inputs <= fs.Keys && o in fs
  {
    || (forall i | i in inputs :: Less(LastKey(fs[o]), FirstKey(fs[i])))
    || (forall i | i in inputs :: Less(LastKey(fs[i]), FirstKey(fs[o])))
  }

  lemma PlanLeavesBeside(fs: Files, job: Job, level: nat, top: set<nat>, lo: Key, hi: Key, o: nat)
    requires Takes(fs, job, level, top, lo, hi) && DisjointLevels(fs)
    requires o in fs && fs[o].level == level + 1 && o !in job.inputs
    ensures Beside(fs, job.inputs, o)
  {
    if Less(LastKey(fs[o]), lo) {
      forall i | i in job.inputs
        ensures Less(LastKey(fs[o]), FirstKey(fs[i]))
      {
        if i in top {
          LessAtMost(LastKey(fs[o]), lo, FirstKey(fs[i]));
        } else {
          assert Apart(fs[i], fs[o]);
          BelowMeansBelow(fs[o], fs[i], lo);
        }
      }
    } else {
      forall i | i in job.inputs
        ensures Less(LastKey(fs[i]), FirstKey(fs[o]))
      {
        if i in top {
          AtMostLess(LastKey(fs[i]), hi, FirstKey(fs[o]));
        } else {
          assert Apart(fs[i], fs[o]);
          AboveMeansAbove(fs[o], fs[i], hi);
        }
      }
    }
  }

  lemma BelowMeansBelow(o: Table, i: Table, lo: Key)
    requires Sorted(o.records) && o.records != [] && i.records != [] && Apart(i, o)
    requires Less(LastKey(o), lo) && AtMost(lo, LastKey(i))
    ensures Less(LastKey(o), FirstKey(i))
  {
    if Less(LastKey(i), FirstKey(o)) {
      FirstBeforeLast(o.records);
      LessAtMost(LastKey(i), FirstKey(o), LastKey(o));
      LessTransitive(LastKey(i), LastKey(o), lo);
    }
  }

  lemma AboveMeansAbove(o: Table, i: Table, hi: Key)
    requires Sorted(o.records) && o.records != [] && i.records != [] && Apart(i, o)
    requires Less(hi, FirstKey(o)) && AtMost(FirstKey(i), hi)
    ensures Less(LastKey(i), FirstKey(o))
  {
    if Less(LastKey(o), FirstKey(i)) {
      FirstBeforeLast(o.records);
      AtMostLess(FirstKey(o), LastKey(o), FirstKey(i));
      LessTransitive(hi, FirstKey(o), FirstKey(i));
    }
  }

  lemma FirstBeforeLast(rs: seq<Record>)
    requires Sorted(rs) && rs != []
    ensures AtMost(rs[0].key, rs[|rs| - 1].key)
  {
    LessIrreflexive(rs[0].key);
    if |rs| > 1 {
      LessAsymmetric(rs[0].key, rs[|rs| - 1].key);
    }
  }

  /** The outputs of one job, cut from one ascending merge. */
  ghost predicate CutApart(outs: Files)
  {
    WellFormed(outs) && forall a, b | a in outs && b in outs && a != b :: Apart(outs[a], outs[b])
  }

  lemma OutputKeysFromInputs(fs: Files, job: Job, outs: Files, p: nat)
    requires WellFormed(outs) && Safe(fs, job) && OutputsOf(fs, job, outs) && p in outs && WellFormed(fs)
    ensures exists i :: i in job.inputs && i in fs && AtMost(FirstKey(fs[i]), FirstKey(outs[p]))
    ensures exists i :: i in job.inputs && i in fs && AtMost(LastKey(outs[p]), LastKey(fs[i]))
  {
    var rs := outs[p].records;
    var i := InputOf(fs, job, outs, p, 0);
    var j := InputOf(fs, job, outs, p, |rs| - 1);
    assert AtMost(FirstKey(fs[i]), FirstKey(outs[p]));
    assert AtMost(LastKey(outs[p]), LastKey(fs[j]));
  }

  lemma InputOf(fs: Files, job: Job, outs: Files, p: nat, n: nat) returns (i: nat)
    requires WellFormed(outs) && OutputsOf(fs, job, outs) && p in outs && WellFormed(fs) && n < |outs[p].records|
    ensures i in job.inputs && i in fs
    ensures AtMost(FirstKey(fs[i]), outs[p].records[n].key) && AtMost(outs[p].records[n].key, LastKey(fs[i]))
  {
    var k := outs[p].records[n].key;
    FindAt(outs[p].records, n);
    assert p in ColumnOf(outs, k);
    TopOfEmpty(Restrict(ColumnOf(fs, k), job.inputs));
    i :| i in Restrict(ColumnOf(fs, k), job.inputs);
    FindWithin(fs[i].records, k);
  }

  lemma BesideOutput(fs: Files, job: Job, outs: Files, o: nat, p: nat)
    requires WellFormed(fs) && WellFormed(outs) && Safe(fs, job) && OutputsOf(fs, job, outs)
    requires o in fs && p in outs && Beside(fs, job.inputs, o)
    ensures Apart(fs[o], outs[p])
  {
    OutputKeysFromInputs(fs, job, outs, p);
    var i :| i in job.inputs && i in fs && AtMost(FirstKey(fs[i]), FirstKey(outs[p]));
    var j :| j in job.inputs && j in fs && AtMost(LastKey(outs[p]), LastKey(fs[j]));
    if Less(LastKey(fs[o]), FirstKey(fs[i])) {
      LessAtMost(LastKey(fs[o]), FirstKey(fs[i]), FirstKey(outs[p]));
    } else {
      AtMostLess(LastKey(outs[p]), LastKey(fs[j]), FirstKey(fs[o]));
    }
  }

  /** A job whose left-out neighbours are beside it keeps every level disjoint. */
  lemma FinishedJobKeepsDisjoint(fs: Files, job: Job, outs: Files)
    requires WellFormed(fs) && DisjointLevels(fs) && Safe(fs, job) && OutputsOf(fs, job, outs) && CutApart(outs)
    requires forall p | p in outs :: outs[p].level == job.outputLevel
    requires forall o | o in fs && o !in job.inputs && fs[o].level == job.outputLevel :: Beside(fs, job.inputs, o)
    ensures WellFormed((fs - job.inputs) + outs) && DisjointLevels((fs - job.inputs) + outs)
  {
    forall o, p | o in fs && o !in job.inputs && p in outs && fs[o].level == outs[p].level
      ensures Apart(fs[o], outs[p])
    {
      BesideOutput(fs, job, outs, o, p);
    }
  }

  // ---------- outputs beside their inputs ----------

  /**
   When a planned job is cut short after some outputs, the levels are disjoint
   exactly when every input from the output level lies apart from each of them.
   */
  lemma CutShortIsDisjointIff(fs: Files, job: Job, outs: Files, level: nat, top: set<nat>, lo: Key, hi: Key)
    requires Takes(fs, job, level, top, lo, hi) && DisjointLevels(fs) && OutputsOf(fs, job, outs) && CutApart(outs)
    requires forall p | p in outs :: outs[p].level == job.outputLevel
    ensures WellFormed(fs + outs)
    ensures DisjointLevels(fs + outs)
       <==> forall i, p | i in job.inputs && i !in top && p in outs :: Apart(fs[i], outs[p])
  {
    hide OutputsOf, Less;
    PlanIsSafe(fs, job, level, top, lo, hi);
    forall o, p | o in fs && o !in job.inputs && p in outs && fs[o].level == job.outputLevel
      ensures Apart(fs[o], outs[p])
    {
      PlanLeavesBeside(fs, job, level, top, lo, hi, o);
      BesideOutput(fs, job, outs, o, p);
    }
    OutputsAreNew(fs, job, outs);
    if DisjointLevels(fs + outs) {
      forall i, p | i in job.inputs && i !in top && p in outs
        ensures Apart(fs[i], outs[p])
      {
        assert (fs + outs)[i] == fs[i] && (fs + outs)[p] == outs[p];
      }
    }
  }

  lemma OutputsAreNew(fs: Files, job: Job, outs: Files)
    requires OutputsOf(fs, job, outs)
    ensures outs.Keys !! fs.Keys
  {
  }

  /** With all outputs there and no tombstone dropped, exactly when the plan has no overlaps one level down. */
  lemma AllOutputsDisjointIff(fs: Files, job: Job, outs: Files, level: nat, top: set<nat>, lo: Key, hi: Key)
    requires Takes(fs, job, level, top, lo, hi) && DisjointLevels(fs) && AllOutputsOf(fs, job, outs) && CutApart(outs)
    requires forall p | p in outs :: outs[p].level == job.outputLevel
    requires job.dropTombstones ==> forall i, r | i in job.inputs && r in fs[i].records :: r.entry != Tombstone
    ensures WellFormed(fs + outs)
    ensures DisjointLevels(fs + outs) <==> job.inputs == top
  {
    hide OutputsOf, Less;
    CutShortIsDisjointIff(fs, job, outs, level, top, lo, hi);
    if i :| i in job.inputs && i !in top {
      var p := OutputOf(fs, job, outs, i);
      assert !Apart(fs[i], outs[p]);
    }
  }

  /** Every input meets an output. */
  lemma OutputOf(fs: Files, job: Job, outs: Files, i: nat) returns (p: nat)
    requires WellFormed(fs) && WellFormed(outs) && AllOutputsOf(fs, job, outs) && i in job.inputs && i in fs
    requires job.dropTombstones ==>
               forall i, r | i in job.inputs && i in fs && r in fs[i].records :: r.entry != Tombstone
    ensures p in outs && !Apart(fs[i], outs[p])
  {
    hide Less;
    var k := FirstKey(fs[i]);
    FindAt(fs[i].records, 0);
    ColumnOfRestrict(fs, job.inputs, k);
    var ins := Restrict(ColumnOf(fs, k), job.inputs);
    assert i in ins;
    var first := FirstExists(ins);
    FindIndex(fs[first].records, k);
    assert Merged(fs, job, k) == Some(ins[first].entry);
    assert Record(k, ins[first].entry) in fs[first].records;
    p :| p in ColumnOf(outs, k);
    FindWithin(fs[i].records, k);
    FindWithin(outs[p].records, k);
    if Less(LastKey(fs[i]), FirstKey(outs[p])) {
      AtMostLess(k, LastKey(fs[i]), FirstKey(outs[p]));
    }
  }

  // ---------- the loop ends ----------

  /** The sum of a weight over the files with ids below `n`. */
  function Sum(fs: Files, w: Table -> nat, n: nat): nat
  {
    if n == 0 then 0 else Sum(fs, w, n - 1) + (if n - 1 in fs then w(fs[n - 1]) else 0)
  }

  lemma {:induction false} SumDisjoint(a: Files, b: Files, w: Table -> nat, n: nat)
    requires a.Keys !! b.Keys
    ensures Sum(a + b, w, n) == Sum(a, w, n) + Sum(b, w, n)
  {
    if n > 0 {
      SumDisjoint(a, b, w, n - 1);
    }
  }

  lemma {:induction false} SumBeyond(fs: Files, w: Table -> nat, m: nat, n: nat)
    requires m <= n && forall id | id in fs :: id < m
    ensures Sum(fs, w, n) == Sum(fs, w, m)
    decreases n
  {
    if m < n {
      SumBeyond(fs, w, m, n - 1);
    }
  }

  /** No level from here on is ever over budget, so no record sinks deeper. */
  const FLOOR: nat := 65

  function Length(t: Table): nat
  {
    |t.records|
  }

  /** How far the records of a file can still sink. */
  function Height(t: Table): nat
  {
    if t.level < FLOOR then (FLOOR - t.level) * |t.records| else 0
  }

  function Energy(fs: Files, n: nat): nat
  {
    Sum(fs, Height, n)
  }

  lemma {:induction false} EnergyAtLevel(fs: Files, level: nat, n: nat)
    requires level <= FLOOR
    requires forall id | id in fs :: fs[id].level == level
    ensures Energy(fs, n) == (FLOOR - level) * Sum(fs, Length, n)
  {
    if n > 0 {
      EnergyAtLevel(fs, level, n - 1);
      if n - 1 in fs {
        Distribute(FLOOR - level, Sum(fs, Length, n - 1), Length(fs[n - 1]));
      }
    }
  }

  lemma Distribute(a: nat, b: nat, c: nat)
    ensures a * (b + c) == a * b + a * c
  {
  }

  lemma HeightAbove(t: Table, level: nat)
    requires level < FLOOR && level <= t.level <= level + 1 && t.records != []
    ensures Height(t) >= (FLOOR - (level + 1)) * Length(t)
    ensures t.level == level ==> Height(t) > (FLOOR - (level + 1)) * Length(t)
  {
    Distribute(Length(t), FLOOR - (level + 1), 1);
  }

  lemma {:induction false} EnergyAbove(fs: Files, level: nat, n: nat)
    requires level < FLOOR
    requires forall id | id in fs :: level <= fs[id].level <= level + 1 && fs[id].records != []
    ensures Energy(fs, n) >= (FLOOR - (level + 1)) * Sum(fs, Length, n)
    ensures (exists id :: id in fs && id < n && fs[id].level == level) ==>
              Energy(fs, n) > (FLOOR - (level + 1)) * Sum(fs, Length, n)
  {
    if n > 0 {
      EnergyAbove(fs, level, n - 1);
      if n - 1 in fs {
        Distribute(FLOOR - (level + 1), Sum(fs, Length, n - 1), Length(fs[n - 1]));
        HeightAbove(fs[n - 1], level);
      }
    }
  }

  /** Records of a planned job only move one level down or vanish, so the files lose energy. */
  lemma JobLosesEnergy(fs: Files, job: Job, outs: Files, level: nat, top: set<nat>, lo: Key, hi: Key, m: nat, n: nat)
    requires Takes(fs, job, level, top, lo, hi) && level < FLOOR
    requires outs.Keys !! fs.Keys && m <= n && forall id | id in fs :: id < m
    requires forall p | p in outs :: outs[p].level == level + 1
    requires Sum(outs, Length, n) <= Sum(Restrict(fs, job.inputs), Length, n)
    ensures Energy((fs - job.inputs) + outs, n) < Energy(fs, m)
  {
    var ins, rest := Restrict(fs, job.inputs), fs - job.inputs;
    assert fs == rest + ins;
    SumBeyond(fs, Height, m, n);
    SumDisjoint(rest, ins, Height, n);
    SumDisjoint(rest, outs, Height, n);
    EnergyAtLevel(outs, level + 1, n);
    EnergyAbove(ins, level, n);
    var id :| id in top;
    assert id in ins && ins[id].level == level && id < n;
    Monotone(FLOOR - (level + 1), Sum(outs, Length, n), Sum(ins, Length, n));
  }

  lemma Monotone(a: nat, b: nat, c: nat)
    requires b <= c
    ensures a * b <= a * c
  {
  }

  /** Only levels above the floor are ever chosen, whatever the settings and the sizes. */
  lemma ChosenAboveFloor(files: seq<FileMeta>, config: LevelConfig, level: nat, upper: seq<FileMeta>)
    requires config.Valid() && Chosen(files, config, level, upper)
    ensures level < FLOOR
  {
    if level >= FLOOR {
      config.DeepLevelsUnbounded(level);
    }
  }
}
