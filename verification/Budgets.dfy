/**
 What the budgets of the levels mean for the tables themselves: when a level needs
 work, and what one compaction moves.
 */
module Budgets {
  import opened Bytes
  import opened Records
  import opened Lsm
  import opened Compaction
  import opened Planning
  import opened Merging
  import opened Levels
  import opened Formats

  function Power(base: nat, n: nat): nat
  {
    if n == 0 then 1 else base * Power(base, n - 1)
  }

  /** The bytes of the files of some tables. */
  function BytesIn(files: seq<Sst>, format: Format): nat
    decreases |files|
  {
    if files == [] then 0 else BytesIn(files[..|files| - 1], format) + |format.FileOf(files[|files| - 1].records)|
  }

  /** L0 may hold fewer tables than its threshold, every other level so many bytes, counted in a u64. */
  predicate NeedsWork(levels: Levels, l0Threshold: nat, multiplier: nat, targetLevelSize: nat, format: Format, l: nat)
  {
    && l < |levels|
    && if l == 0 then |levels[0]| >= Max(1, l0Threshold)
       else BytesIn(levels[l], format) % U64_MODULUS > Max(1, targetLevelSize) * Power(Max(2, multiplier), l - 1)
  }

  // ---------- the scheduler's budgets ----------

  lemma {:induction false} CapacityIs(config: LevelConfig, level: nat)
    requires config.Valid() && level >= 1
    ensures config.Capacity(level) == Saturate(config.targetSize * Power(config.multiplier, level - 1))
  {
    if level == 1 {
      assert Power(config.multiplier, 0) == 1;
    } else {
      CapacityIs(config, level - 1);
      var p := config.targetSize * Power(config.multiplier, level - 2);
      assert config.targetSize * Power(config.multiplier, level - 1) == p * config.multiplier by {
        Reorder(config.targetSize, config.multiplier, Power(config.multiplier, level - 2));
      }
      SaturateTwice(p, config.multiplier);
    }
  }

  lemma Reorder(a: nat, b: nat, c: nat)
    ensures a * (b * c) == a * c * b
  {
  }

  lemma SaturateTwice(p: nat, m: nat)
    requires m >= 1
    ensures Saturate(Saturate(p) * m) == Saturate(p * m)
  {
    if p > U64_MAX {
      Grows(U64_MAX, m);
      Grows(p, m);
    }
  }

  lemma Grows(p: nat, m: nat)
    requires m >= 1
    ensures p * m >= p
  {
  }

  // ---------- the metadata of the levels ----------

  lemma {:induction false} AtLevelConcat(a: seq<FileMeta>, b: seq<FileMeta>, level: nat)
    ensures AtLevel(a + b, level) == AtLevel(a, level) + AtLevel(b, level)
    decreases |a|
  {
    if a == [] {
      assert a + b == b;
    } else {
      assert (a + b)[1..] == a[1..] + b;
      AtLevelConcat(a[1..], b, level);
    }
  }

  lemma {:induction false} AllAtLevel(metas: seq<FileMeta>, own: nat, level: nat)
    requires forall m | m in metas :: m.level == own
    ensures AtLevel(metas, level) == if level == own then metas else []
    decreases |metas|
  {
    if metas != [] {
      assert metas[0] in metas && forall m | m in metas[1..] :: m in metas;
      AllAtLevel(metas[1..], own, level);
      assert metas == [metas[0]] + metas[1..];
    }
  }

  lemma {:induction false} MetasAt(levels: Levels, count: nat, size: seq<Record> -> nat, level: nat)
    requires count <= |levels|
    ensures AtLevel(Metas(levels, count, size), level) == if level < count then LevelMetas(levels[level], level, size)
                                                          else []
  {
    hide *;
    MetasStep(levels, count, size, level);
    if count > 0 {
      MetasAt(levels, count - 1, size, level);
      AtLevelConcat(Metas(levels, count - 1, size), LevelMetas(levels[count - 1], count - 1, size), level);
      LevelMetasLevel(levels[count - 1], count - 1, size);
      AllAtLevel(LevelMetas(levels[count - 1], count - 1, size), count - 1, level);
    }
  }

  lemma MetasStep(levels: Levels, count: nat, size: seq<Record> -> nat, level: nat)
    requires count <= |levels|
    ensures count == 0 ==> Metas(levels, count, size) == [] && AtLevel([], level) == []
    ensures count > 0 ==>
              Metas(levels, count, size)
              == Metas(levels, count - 1, size) + LevelMetas(levels[count - 1], count - 1, size)
  {
    hide LevelMetas;
  }

  lemma LevelMetasLevel(files: seq<Sst>, level: nat, size: seq<Record> -> nat)
    ensures forall m | m in LevelMetas(files, level, size) :: m.level == level
  {
    LevelMetasMembers(files, level, size);
    hide LevelMetas;
  }

  lemma {:induction false} TotalSizeConcat(a: seq<FileMeta>, b: seq<FileMeta>)
    ensures TotalSize(a + b) == (TotalSize(a) + TotalSize(b)) % U64_MODULUS
    decreases |a|
  {
    if a == [] {
      assert a + b == b;
      SmallRemains(TotalSize(b));
    } else {
      assert (a + b)[1..] == a[1..] + b;
      TotalSizeConcat(a[1..], b);
      SumsRemain(a[0].size, TotalSize(a[1..]), TotalSize(b));
    }
  }

  lemma SmallRemains(n: nat)
    requires n <= U64_MAX
    ensures n % U64_MODULUS == n
  {
  }

  lemma SumsRemain(a: nat, b: nat, c: nat)
    ensures (a + (b + c) % U64_MODULUS) % U64_MODULUS == ((a + b) % U64_MODULUS + c) % U64_MODULUS
  {
    RemainderOfSum(a, b + c);
    RemainderOfSum(c, a + b);
  }

  lemma RemainderOfSum(a: nat, b: nat)
    ensures (a + b % U64_MODULUS) % U64_MODULUS == (a + b) % U64_MODULUS
  {
    var q := b / U64_MODULUS;
    assert b == q * U64_MODULUS + b % U64_MODULUS;
    Wraps(a + b % U64_MODULUS, q);
  }

  lemma {:induction false} Wraps(n: nat, q: nat)
    ensures (n + q * U64_MODULUS) % U64_MODULUS == n % U64_MODULUS
    decreases q
  {
    if q > 0 {
      Wraps(n, q - 1);
      assert n + q * U64_MODULUS == n + (q - 1) * U64_MODULUS + U64_MODULUS;
      OneRound(n + (q - 1) * U64_MODULUS);
    }
  }

  lemma OneRound(n: nat)
    ensures (n + U64_MODULUS) % U64_MODULUS == n % U64_MODULUS
  {
  }

  lemma {:induction false} LevelSizes(files: seq<Sst>, level: nat, format: Format)
    requires forall s | s in files :: s.records != []
    ensures |LevelMetas(files, level, format.FileSize())| == |files|
    ensures TotalSize(LevelMetas(files, level, format.FileSize())) == BytesIn(files, format) % U64_MODULUS
    decreases |files|
  {
    hide Format.FileOf;
    if files != [] {
      var front, last := files[..|files| - 1], files[|files| - 1];
      assert last in files && forall s | s in front :: s in files;
      LevelSizes(front, level, format);
      var metas, one := LevelMetas(front, level, format.FileSize()), MetaOf(last, level, format.FileSize());
      TotalSizeConcat(metas, one);
      assert one[1..] == [];
      assert TotalSize(one) == |format.FileOf(last.records)| % U64_MODULUS;
      RemainderOfSum(BytesIn(front, format) % U64_MODULUS, |format.FileOf(last.records)|);
      RemainderOfSum(|format.FileOf(last.records)|, BytesIn(front, format));
    }
  }

  lemma TablesNotEmpty(levels: Levels, fs: Files, l: nat)
    requires Mirrors(levels, fs) && WellFormed(fs) && l < |levels|
    ensures forall s | s in levels[l] :: s.records != []
  {
    forall s | s in levels[l]
      ensures s.records != []
    {
      assert InLevels(levels, l, s);
    }
  }

  /** The scheduler's test of one level, in terms of its tables. */
  lemma NeedsWorkIff(levels: Levels, fs: Files, l0Threshold: nat, multiplier: nat, targetLevelSize: nat, format: Format,
                     l: nat)
    requires Mirrors(levels, fs) && WellFormed(fs) && |levels| >= 1 && targetLevelSize <= U64_MAX
    ensures var metas := Metas(levels, |levels|, format.FileSize());
            var config := LevelConfig.New(l0Threshold, multiplier, targetLevelSize);
            NeedsWork(levels, l0Threshold, multiplier, targetLevelSize, format, l)
            <==> if l == 0 then L0Full(metas, config) else OverBudget(metas, config, l)
  {
    hide Mirrors, WellFormed, LevelMetas, Metas, BytesIn, Power, LevelConfig.Capacity;
    var config := LevelConfig.New(l0Threshold, multiplier, targetLevelSize);
    MetasAt(levels, |levels|, format.FileSize(), l);
    if l < |levels| {
      TablesNotEmpty(levels, fs, l);
      LevelSizes(levels[l], l, format);
    }
    if l > 0 {
      CapacityIs(config, l);
    }
  }

  /** Nothing is left to do exactly when no level needs work. */
  lemma SettledIff(levels: Levels, fs: Files, l0Threshold: nat, multiplier: nat, targetLevelSize: nat, format: Format)
    requires Mirrors(levels, fs) && WellFormed(fs) && |levels| >= 1 && targetLevelSize <= U64_MAX
    ensures Settled(Metas(levels, |levels|, format.FileSize()),
                    LevelConfig.New(l0Threshold, multiplier, targetLevelSize))
       <==> forall l | 0 <= l < |levels| ::
              !NeedsWork(levels, l0Threshold, multiplier, targetLevelSize, format, l)
  {
    hide Mirrors, WellFormed, Metas, L0Full, OverBudget;
    var metas := Metas(levels, |levels|, format.FileSize());
    var config := LevelConfig.New(l0Threshold, multiplier, targetLevelSize);
    NeedsWorkIff(levels, fs, l0Threshold, multiplier, targetLevelSize, format, 0);
    if forall l | 0 <= l < |levels| :: !NeedsWork(levels, l0Threshold, multiplier, targetLevelSize, format, l) {
      forall l: nat | l >= 1
        ensures !OverBudget(metas, config, l)
      {
        NeedsWorkIff(levels, fs, l0Threshold, multiplier, targetLevelSize, format, l);
      }
    }
    if Settled(metas, config) {
      forall l | 0 <= l < |levels|
        ensures !NeedsWork(levels, l0Threshold, multiplier, targetLevelSize, format, l)
      {
        NeedsWorkIff(levels, fs, l0Threshold, multiplier, targetLevelSize, format, l);
      }
    }
  }

  // ---------- what one compaction moves ----------

  /** A table lies between the least and the greatest key of some others, or meets that range. */
  ghost predicate MeetsHull(fs: Files, taken: set<nat>, o: nat)
    requires WellFormed(fs) && taken <= fs.Keys && o in fs
  {
    && (exists a :: a in taken && AtMost(FirstKey(fs[o]), LastKey(fs[a])))
    && (exists a :: a in taken && AtMost(FirstKey(fs[a]), LastKey(fs[o])))
  }

  /** All of L0, or the table of the level with the least id. */
  ghost predicate FirstToGo(fs: Files, level: nat, taken: set<nat>)
  {
    && taken != {} && (forall id | id in taken :: id in fs && fs[id].level == level)
    && if level == 0 then forall id | id in fs && fs[id].level == 0 :: id in taken
       else exists least :: taken == {least} && forall id | id in fs && fs[id].level == level :: least <= id
  }

  /**
   Some tables of a level move down by one: they go, and so does every table one
   level down that meets their range; every other table stays as it is; what is new
   is one level down, and has no tombstone if no table was deeper than that.
   */
  ghost predicate MovedDown(fs: Files, gs: Files, level: nat, taken: set<nat>)
    requires WellFormed(fs)
  {
    && FirstToGo(fs, level, taken)
    && (forall id | id in fs ::
          if id in taken || (fs[id].level == level + 1 && taken <= fs.Keys && MeetsHull(fs, taken, id)) then id !in gs
          else id in gs && gs[id] == fs[id])
    && (forall id | id in gs && id !in fs :: gs[id].level == level + 1)
    && ((forall id | id in fs :: fs[id].level <= level + 1) ==>
          forall id, r | id in gs && id !in fs && r in gs[id].records :: r.entry != Tombstone)
  }

  lemma {:induction false} UnionRangeAttained(files: seq<FileMeta>)
    requires files != []
    ensures exists m :: m in files && m.smallest == UnionRange(files).0
    ensures exists m :: m in files && m.largest == UnionRange(files).1
    decreases |files|
  {
    if |files| == 1 {
      assert files[0] in files;
    } else {
      UnionRangeAttained(files[1..]);
      var s :| s in files[1..] && s.smallest == UnionRange(files[1..]).0;
      var l :| l in files[1..] && l.largest == UnionRange(files[1..]).1;
      assert files[0] in files && s in files && l in files;
    }
  }

  lemma HullIs(metas: seq<FileMeta>, fs: Files, upper: seq<FileMeta>, taken: set<nat>, o: nat)
    requires Describes(metas, fs) && upper != [] && (forall m | m in upper :: m in metas)
    requires (forall id :: id in taken <==> exists m :: m in upper && m.id == id) && o in fs
    ensures taken <= fs.Keys
    ensures MeetsHull(fs, taken, o)
       <==> AtMost(FirstKey(fs[o]), UnionRange(upper).1) && AtMost(UnionRange(upper).0, LastKey(fs[o]))
  {
    hide Less, Sorted, UnionRange;
    UnionRangeAttained(upper);
    UnionRangeCovers(upper);
    var (lo, hi) := UnionRange(upper);
    var s :| s in upper && s.smallest == lo;
    var l :| l in upper && l.largest == hi;
    assert s.id in taken && l.id in taken;
    if MeetsHull(fs, taken, o) {
      var a :| a in taken && AtMost(FirstKey(fs[o]), LastKey(fs[a]));
      var m :| m in upper && m.id == a;
      AtMostTransitive(FirstKey(fs[o]), m.largest, hi);
      var b :| b in taken && AtMost(FirstKey(fs[b]), LastKey(fs[o]));
      var n :| n in upper && n.id == b;
      AtMostTransitive(lo, n.smallest, LastKey(fs[o]));
    }
  }

  lemma ChosenGoFirst(metas: seq<FileMeta>, fs: Files, config: LevelConfig, level: nat, upper: seq<FileMeta>,
                      taken: set<nat>)
    requires Describes(metas, fs) && Chosen(metas, config, level, upper)
    requires forall id :: id in taken <==> exists m :: m in upper && m.id == id
    ensures FirstToGo(fs, level, taken)
  {
    hide Less, Sorted, L0Full, OverBudget;
    assert upper[0] in upper && upper[0].id in taken;
    if level == 0 {
      forall id | id in fs && fs[id].level == 0
        ensures id in taken
      {
        var m :| m in metas && m.id == id;
        assert m in upper;
      }
    } else {
      assert upper == [upper[0]];
      assert taken == {upper[0].id};
      forall id | id in fs && fs[id].level == level
        ensures upper[0].id <= id
      {
        var m :| m in metas && m.id == id;
        assert m in AtLevel(metas, level);
      }
    }
  }

  /** A planned job that is done moved its tables down. */
  lemma PlannedMoves(metas: seq<FileMeta>, fs: Files, config: LevelConfig, plan: CompactionPlan, upper: seq<FileMeta>,
                     outs: Files)
    requires Describes(metas, fs) && Chosen(metas, config, plan.level, upper) && PlanFor(metas, plan, upper)
    requires (forall id | id in outs :: id !in fs && outs[id].level == plan.level + 1)
    requires plan.dropTombstones ==> forall id, r | id in outs && r in outs[id].records :: r.entry != Tombstone
    ensures WellFormed(fs)
    ensures MovedDown(fs, (fs - JobOf(plan).inputs) + outs, plan.level, set id | id in plan.inputs)
  {
    hide *;
    var taken := set id | id in plan.inputs;
    ChosenOnes(metas, fs, config, plan.level, upper);
    var lo, hi := UnionRange(upper).0, UnionRange(upper).1;
    PlanTakes(metas, fs, config, plan, upper);
    ChosenUpper(metas, config, plan.level, upper);
    PlanInputsAre(metas, plan, upper, taken);
    ChosenGoFirst(metas, fs, config, plan.level, upper, taken);
    forall id | id in fs
      ensures taken <= fs.Keys
      ensures MeetsHull(fs, taken, id) <==> AtMost(FirstKey(fs[id]), hi) && AtMost(lo, LastKey(fs[id]))
    {
      HullIs(metas, fs, upper, taken, id);
    }
    TakenMoves(fs, JobOf(plan), plan.level, taken, lo, hi, outs);
  }

  lemma ChosenOnes(metas: seq<FileMeta>, fs: Files, config: LevelConfig, level: nat, upper: seq<FileMeta>)
    requires Chosen(metas, config, level, upper) && Describes(metas, fs)
    ensures upper != [] && WellFormed(fs) && forall id | id in fs :: fs[id].records != []
  {
  }

  lemma PlanInputsAre(metas: seq<FileMeta>, plan: CompactionPlan, upper: seq<FileMeta>, taken: set<nat>)
    requires upper != [] && PlanFor(metas, plan, upper) && taken == set id | id in plan.inputs
    ensures forall id :: id in taken <==> exists m :: m in upper && m.id == id
    ensures JobOf(plan).dropTombstones == plan.dropTombstones
  {
  }

  lemma TakenMoves(fs: Files, job: Job, level: nat, taken: set<nat>, lo: Key, hi: Key, outs: Files)
    requires Takes(fs, job, level, taken, lo, hi) && FirstToGo(fs, level, taken)
    requires forall o | o in fs ::
               MeetsHull(fs, taken, o) <==> AtMost(FirstKey(fs[o]), hi) && AtMost(lo, LastKey(fs[o]))
    requires forall id | id in outs :: id !in fs && outs[id].level == level + 1
    requires job.dropTombstones ==> forall id, r | id in outs && r in outs[id].records :: r.entry != Tombstone
    ensures MovedDown(fs, (fs - job.inputs) + outs, level, taken)
  {
    hide FirstToGo, MeetsHull, Less, Sorted;
  }
}
