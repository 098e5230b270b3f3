/**
 The scheduler: which files a leveled compaction merges next, and why the
 choice is safe and the loop over it stops.
 */
module Compaction {
  import opened Bytes
  import opened Records
  import opened Sorting

  const U64_MAX: int := U64_MODULUS - 1

  // ---------- level budgets ----------

  datatype LevelConfig = LevelConfig(l0Threshold: nat, multiplier: nat, targetSize: nat) {
    predicate Valid()
    {
      l0Threshold >= 1 && multiplier >= 2 && 1 <= targetSize <= U64_MAX
    }

    /** `LevelConfig::new`: settings that would loop for ever are raised. */
    static function New(l0Threshold: nat, multiplier: nat, targetSize: nat): (c: LevelConfig)
      requires targetSize <= U64_MAX
      ensures c.Valid()
      ensures l0Threshold >= 1 && multiplier >= 2 && targetSize >= 1 ==>
                c == LevelConfig(l0Threshold, multiplier, targetSize)
    {
      LevelConfig(if l0Threshold < 1 then 1 else l0Threshold,
                  if multiplier < 2 then 2 else multiplier,
                  if targetSize < 1 then 1 else targetSize)
    }

    function Capacity(level: nat): nat
    {
      if level <= 1 then targetSize else Saturate(Capacity(level - 1) * multiplier)
    }

    method LevelCapacity(level: nat) returns (capacity: nat)
      ensures capacity == Capacity(level)
    {
      capacity := targetSize;
      var i := 1;
      while i < level
        invariant i == 1 || i <= level
        invariant i >= 1
        invariant capacity == Capacity(i)
      {
        capacity := Saturate(capacity * multiplier);
        i := i + 1;
      }
    }

    /** Budgets at least double per level until they reach the largest u64. */
    lemma {:induction false} CapacityGrows(level: nat)
      requires Valid() && level >= 1
      ensures Capacity(level) <= U64_MAX
      ensures Capacity(level) == U64_MAX || Capacity(level) >= Pow2(level - 1)
    {
      if level > 1 {
        CapacityGrows(level - 1);
        AtLeastDouble(Capacity(level - 1), multiplier);
      }
    }

    /** From level 65 on the budget is the largest u64, which no u64 size exceeds. */
    lemma DeepLevelsUnbounded(level: nat)
      requires Valid() && level >= 65
      ensures Capacity(level) == U64_MAX
    {
      CapacityGrows(level);
      Pow2Monotone(64, level - 1);
      Pow2Of64();
    }
  }

  lemma AtLeastDouble(c: nat, m: nat)
    requires m >= 2
    ensures c * m >= 2 * c
  {
  }

  function Saturate(n: nat): nat
  {
    if n > U64_MAX then U64_MAX else n
  }

  // ---------- file metadata ----------

  datatype FileMeta = FileMeta(id: nat, level: nat, smallest: Key, largest: Key, size: nat)

  datatype CompactionPlan = CompactionPlan(level: nat, inputs: seq<nat>, overlaps: seq<nat>, dropTombstones: bool)

  function AtLevel(files: seq<FileMeta>, level: nat): (r: seq<FileMeta>)
    ensures forall m :: m in r <==> m in files && m.level == level
    decreases |files|
  {
    if files == [] then []
    else (if files[0].level == level then [files[0]] else []) + AtLevel(files[1..], level)
  }

  /** `overlapping`: the files of a level whose range meets [smallest, largest]. */
  function Overlapping(files: seq<FileMeta>, level: nat, smallest: Key, largest: Key): (r: seq<FileMeta>)
    ensures forall m ::
              m in r <==> m in files && m.level == level && AtMost(m.smallest, largest) && AtMost(smallest, m.largest)
    decreases |files|
  {
    if files == [] then []
    else
      var m := files[0];
      (if m.level == level && AtMost(m.smallest, largest) && AtMost(smallest, m.largest) then [m] else [])
      + Overlapping(files[1..], level, smallest, largest)
  }

  /** The u64 sum of the sizes, wrapping as a release build does. */
  function TotalSize(files: seq<FileMeta>): (n: nat)
    ensures n <= U64_MAX
    decreases |files|
  {
    if files == [] then 0 else (files[0].size + TotalSize(files[1..])) % U64_MODULUS
  }

  function Deepest(files: seq<FileMeta>): (d: nat)
    ensures forall m | m in files :: m.level <= d
    ensures files != [] ==> exists m :: m in files && m.level == d
    decreases |files|
  {
    if files == [] then 0
    else
      var d := Deepest(files[1..]);
      assert files == [files[0]] + files[1..];
      assert files[0] in files;
      if files[1..] == [] || files[0].level > d then files[0].level else d
  }

  /** `union_range`: the least and greatest keys of some files. */
  function UnionRange(files: seq<FileMeta>): (r: (Key, Key))
    requires files != []
    decreases |files|
  {
    if |files| == 1 then (files[0].smallest, files[0].largest)
    else
      var (lo, hi) := UnionRange(files[1..]);
      (if Less(lo, files[0].smallest) then lo else files[0].smallest,
       if Less(files[0].largest, hi) then hi else files[0].largest)
  }

  lemma {:induction false} UnionRangeCovers(files: seq<FileMeta>)
    requires files != []
    ensures forall m | m in files :: AtMost(UnionRange(files).0, m.smallest) && AtMost(m.largest, UnionRange(files).1)
    decreases |files|
  {
    var (lo, hi) := UnionRange(files);
    forall m | m in files
      ensures AtMost(lo, m.smallest) && AtMost(m.largest, hi)
    {
      LessIrreflexive(m.smallest);
      LessIrreflexive(m.largest);
      if |files| > 1 {
        UnionRangeCovers(files[1..]);
        var (lo1, hi1) := UnionRange(files[1..]);
        LessIrreflexive(lo1);
        LessIrreflexive(hi1);
        if m == files[0] {
          if Less(lo1, files[0].smallest) {
            LessAsymmetric(lo1, files[0].smallest);
          }
          if Less(files[0].largest, hi1) {
            LessAsymmetric(files[0].largest, hi1);
          }
        } else {
          assert m in files[1..];
          AtMostTransitive(lo, lo1, m.smallest);
          AtMostTransitive(m.largest, hi1, hi);
        }
      }
    }
  }

  function Ids(files: seq<FileMeta>): (ids: seq<nat>)
    ensures |ids| == |files|
    ensures forall id :: id in ids <==> exists m :: m in files && m.id == id
  {
    var ids := seq(|files|, i requires 0 <= i < |files| => files[i].id);
    assert forall m | m in files :: m.id in ids by {
      forall m | m in files
        ensures m.id in ids
      {
        var i :| 0 <= i < |files| && files[i] == m;
        assert ids[i] == m.id;
      }
    }
    assert forall id | id in ids :: exists m :: m in files && m.id == id by {
      forall id | id in ids
        ensures exists m :: m in files && m.id == id
      {
        var i :| 0 <= i < |ids| && ids[i] == id;
        assert files[i] in files && files[i].id == id;
      }
    }
    ids
  }

  /** `ids`: the ids of some files, in descending order. */
  function SortedIds(files: seq<FileMeta>): (ids: seq<nat>)
    ensures forall id :: id in ids <==> exists m :: m in files && m.id == id
    ensures forall i, j | 0 <= i < j < |ids| :: ids[j] <= ids[i]
  {
    SortSpec(Ids(files), Descending());
    Sort(Ids(files), Descending())
  }

  // ---------- the choice ----------

  predicate L0Full(files: seq<FileMeta>, config: LevelConfig)
  {
    |AtLevel(files, 0)| >= config.l0Threshold
  }

  predicate OverBudget(files: seq<FileMeta>, config: LevelConfig, level: nat)
  {
    TotalSize(AtLevel(files, level)) > config.Capacity(level)
  }

  /** No level needs work. */
  ghost predicate Settled(files: seq<FileMeta>, config: LevelConfig)
  {
    !L0Full(files, config) && forall level: nat | level >= 1 :: !OverBudget(files, config, level)
  }

  /** The files of the upper level that a plan merges, for the first level that needs work. */
  ghost predicate Chosen(files: seq<FileMeta>, config: LevelConfig, level: nat, upper: seq<FileMeta>)
  {
    && upper != []
    && if level == 0 then
         L0Full(files, config) && upper == AtLevel(files, 0)
       else
         && !L0Full(files, config)
         && OverBudget(files, config, level)
         && (forall l | 1 <= l < level :: !OverBudget(files, config, l))
         && |upper| == 1 && upper[0] in AtLevel(files, level)
         && forall m | m in AtLevel(files, level) :: upper[0].id <= m.id
  }

  ghost predicate PlanFor(files: seq<FileMeta>, plan: CompactionPlan, upper: seq<FileMeta>)
    requires upper != []
  {
    var (lo, hi) := UnionRange(upper);
    && (forall id :: id in plan.inputs <==> exists m :: m in upper && m.id == id)
    && (forall id :: id in plan.overlaps <==> exists m :: m in Overlapping(files, plan.level + 1, lo, hi) && m.id == id)
    && (plan.dropTombstones <==> forall m | m in files :: m.level <= plan.level + 1)
  }

  method Oldest(files: seq<FileMeta>) returns (oldest: FileMeta)
    requires files != []
    ensures oldest in files && forall m | m in files :: oldest.id <= m.id
  {
    oldest := files[0];
    var i := 1;
    while i < |files|
      invariant 1 <= i <= |files|
      invariant oldest in files && forall j | 0 <= j < i :: oldest.id <= files[j].id
    {
      if files[i].id < oldest.id {
        oldest := files[i];
      }
      i := i + 1;
    }
  }

  method PickCompaction(files: seq<FileMeta>, config: LevelConfig)
    returns (plan: Option<CompactionPlan>, ghost upper: seq<FileMeta>)
    requires config.Valid()
    ensures plan.None? <==> Settled(files, config)
    ensures plan.Some? ==> Chosen(files, config, plan.value.level, upper) && PlanFor(files, plan.value, upper)
  {
    upper := [];
    if files == [] {
      return None, [];
    }
    var deepest := Deepest(files);
    var l0 := AtLevel(files, 0);
    if |l0| >= config.l0Threshold {
      var (smallest, largest) := UnionRange(l0);
      var overlaps := Overlapping(files, 1, smallest, largest);
      return Some(CompactionPlan(0, SortedIds(l0), SortedIds(overlaps), deepest <= 1)), l0;
    }
    var level := 1;
    while level <= deepest
      invariant 1 <= level
      invariant forall l | 1 <= l < level :: !OverBudget(files, config, l)
    {
      var levelFiles := AtLevel(files, level);
      var size := TotalSize(levelFiles);
      var capacity := config.LevelCapacity(level);
      if levelFiles != [] && size > capacity {
        var input := Oldest(levelFiles);
        var overlaps := Overlapping(files, level + 1, input.smallest, input.largest);
        var oldest := CompactionPlan(level, [input.id], SortedIds(overlaps), deepest <= level + 1);
        SingleInput(files, oldest, input);
        assert OverBudget(files, config, level);
        return Some(oldest), [input];
      }
      level := level + 1;
    }
    NothingDeeper(files, deepest);
    return None, [];
  }

  lemma SingleInput(files: seq<FileMeta>, plan: CompactionPlan, input: FileMeta)
    requires plan.inputs == [input.id]
    requires forall id :: id in plan.overlaps <==>
               exists m :: m in Overlapping(files, plan.level + 1, input.smallest, input.largest) && m.id == id
    requires plan.dropTombstones <==> forall m | m in files :: m.level <= plan.level + 1
    ensures PlanFor(files, plan, [input])
  {
    assert UnionRange([input]) == (input.smallest, input.largest);
    forall id
      ensures id in plan.inputs <==> exists m :: m in [input] && m.id == id
    {
      assert input in [input];
    }
  }

  lemma HeadIn(files: seq<FileMeta>)
    ensures files == [] || files[0] in files
  {
  }

  lemma NothingDeeper(files: seq<FileMeta>, deepest: nat)
    requires forall m | m in files :: m.level <= deepest
    ensures forall l | l > deepest :: AtLevel(files, l) == []
  {
    forall l | l > deepest
      ensures AtLevel(files, l) == []
    {
      HeadIn(AtLevel(files, l));
    }
  }
}
