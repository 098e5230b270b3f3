/**
 The in-memory levels: tables per level, oldest first, mirroring the files.
 */
module Levels {
  import opened Records
  import opened Lsm
  import opened Iter
  import opened Sorting
  import opened Compaction
  import opened Planning
  import opened Merging

  type Levels = seq<seq<Sst>>

  ghost predicate Ascending(files: seq<Sst>)
  {
    forall i, j | 0 <= i < j < |files| :: files[i].id < files[j].id
  }

  ghost predicate AllAscending(levels: Levels)
  {
    forall l | 0 <= l < |levels| :: Ascending(levels[l])
  }

  predicate InLevels(levels: Levels, level: nat, s: Sst)
  {
    level < |levels| && s in levels[level]
  }

  /** The levels hold exactly the files, each in its level. */
  ghost predicate Mirrors(levels: Levels, fs: Files)
  {
    && AllAscending(levels)
    && (forall l: nat, s | InLevels(levels, l, s) :: s.id in fs && fs[s.id] == Table(l, s.records))
    && (forall id | id in fs :: InLevels(levels, fs[id].level, Sst(id, fs[id].records)))
  }

  // ---------- reading order ----------

  /** A level from its newest file to its oldest. */
  function NewestFirst(files: seq<Sst>, level: nat): seq<Source>
    decreases |files|
  {
    if files == [] then [] else [Source(level, files[|files| - 1])] + NewestFirst(files[..|files| - 1], level)
  }

  /** Every table from level `from` on, in the order in which they are read. */
  function ReadOrder(levels: Levels, from: nat): seq<Source>
    decreases |levels| - from
  {
    if from >= |levels| then [] else NewestFirst(levels[from], from) + ReadOrder(levels, from + 1)
  }

  ghost predicate InReadingOrder(list: seq<Source>)
  {
    forall i, j | 0 <= i < j < |list| :: Before(list[i].level, list[i].sst.id, list[j].level, list[j].sst.id)
  }

  lemma {:induction false} NewestFirstSpec(files: seq<Sst>, level: nat)
    requires Ascending(files)
    ensures InReadingOrder(NewestFirst(files, level))
    ensures forall s :: s in NewestFirst(files, level) <==> s.level == level && s.sst in files
    decreases |files|
  {
    if files != [] {
      var last := files[|files| - 1];
      NewestFirstSpec(files[..|files| - 1], level);
      assert files == files[..|files| - 1] + [last];
      assert forall f | f in files[..|files| - 1] :: f.id < last.id;
    }
  }

  lemma {:induction false} ReadOrderSpec(levels: Levels, from: nat)
    requires AllAscending(levels)
    ensures InReadingOrder(ReadOrder(levels, from))
    ensures forall s :: s in ReadOrder(levels, from) <==> s.level >= from && InLevels(levels, s.level, s.sst)
    decreases |levels| - from
  {
    if from < |levels| {
      NewestFirstSpec(levels[from], from);
      ReadOrderSpec(levels, from + 1);
      var a, b := NewestFirst(levels[from], from), ReadOrder(levels, from + 1);
      OrderConcat(a, b);
    }
  }

  lemma OrderConcat(a: seq<Source>, b: seq<Source>)
    requires InReadingOrder(a) && InReadingOrder(b)
    requires forall s, t | s in a && t in b :: s.level < t.level
    ensures InReadingOrder(a + b)
  {
    var c := a + b;
    forall i, j | 0 <= i < j < |c|
      ensures Before(c[i].level, c[i].sst.id, c[j].level, c[j].sst.id)
    {
      if i < |a| <= j {
        assert c[i] in a && c[j] in b;
      }
    }
  }

  /** Reading the levels in order is reading the files. */
  lemma ReadOrderLists(levels: Levels, fs: Files)
    requires Mirrors(levels, fs)
    ensures ListsInOrder(ReadOrder(levels, 0), fs)
  {
    ReadOrderSpec(levels, 0);
  }

  /** How many tables the levels hold. */
  function SstCount(levels: Levels): nat
    decreases |levels|
  {
    if levels == [] then 0 else |levels[0]| + SstCount(levels[1..])
  }

  /** There are as many tables as files. */
  lemma CountIsFiles(levels: Levels, fs: Files)
    requires Mirrors(levels, fs)
    ensures SstCount(levels) == |fs|
  {
    var list := ReadOrder(levels, 0);
    ReadOrderLists(levels, fs);
    ReadOrderSpec(levels, 0);
    ReadOrderLength(levels, 0);
    assert levels[0..] == levels;
    forall i, j | 0 <= i < j < |list|
      ensures list[i].sst.id != list[j].sst.id
    {
      assert list[i] in list && list[j] in list;
      assert InLevels(levels, list[i].level, list[i].sst) && InLevels(levels, list[j].level, list[j].sst);
    }
    forall id | id in fs
      ensures exists s :: s in list && s.sst.id == id
    {
      assert InLevels(levels, fs[id].level, Sst(id, fs[id].records));
      assert Source(fs[id].level, Sst(id, fs[id].records)) in list;
    }
    forall s | s in list
      ensures s.sst.id in fs.Keys
    {
      assert InLevels(levels, s.level, s.sst);
    }
    CountIds(list, fs.Keys);
  }

  lemma {:induction false} CountIds(list: seq<Source>, ids: set<nat>)
    requires forall i, j | 0 <= i < j < |list| :: list[i].sst.id != list[j].sst.id
    requires forall s | s in list :: s.sst.id in ids
    requires forall id | id in ids :: exists s :: s in list && s.sst.id == id
    ensures |list| == |ids|
    decreases |list|
  {
    if list == [] {
      assert ids == {};
    } else {
      var id := list[0].sst.id;
      assert list == [list[0]] + list[1..];
      forall s | s in list[1..]
        ensures s.sst.id in ids - {id}
      {
        var i :| 0 <= i < |list[1..]| && list[1..][i] == s;
        assert list[i + 1] == s && s in list;
      }
      CountIds(list[1..], ids - {id});
    }
  }

  lemma {:induction false} ReadOrderLength(levels: Levels, from: nat)
    requires from <= |levels|
    ensures |ReadOrder(levels, from)| == SstCount(levels[from..])
    decreases |levels| - from
  {
    if from < |levels| {
      NewestFirstLength(levels[from], from);
      ReadOrderLength(levels, from + 1);
      assert levels[from..][1..] == levels[from + 1..];
    }
  }

  lemma {:induction false} NewestFirstLength(files: seq<Sst>, level: nat)
    ensures |NewestFirst(files, level)| == |files|
    decreases |files|
  {
    if files != [] {
      NewestFirstLength(files[..|files| - 1], level);
    }
  }

  lemma SplitFirst(levels: Levels, level: nat)
    requires level < |levels|
    ensures levels[level][..|levels[level]|] == levels[level]
    ensures ReadOrder(levels, level) == NewestFirst(levels[level], level) + ReadOrder(levels, level + 1)
  {
  }

  lemma FirstOfCons(head: Source, tail: seq<Source>, k: Key)
    ensures FirstFind(RecordsOf([head] + tail), k)
         == if Find(head.sst.records, k).Some? then Find(head.sst.records, k) else FirstFind(RecordsOf(tail), k)
  {
    assert RecordsOf([head] + tail)[1..] == RecordsOf(tail);
  }

  /** A level is gone through from its newest file. */
  lemma NewestFirstStep(files: seq<Sst>, level: nat, i: nat, rest: seq<Source>)
    requires i < |files|
    ensures NewestFirst(files[..i + 1], level) + rest
              == [Source(level, files[i])] + (NewestFirst(files[..i], level) + rest)
  {
    assert files[..i + 1][..i] == files[..i];
  }

  lemma LevelDone(files: seq<Sst>, level: nat, rest: seq<Source>)
    ensures NewestFirst(files[..0], level) + rest == rest
  {
  }

  lemma NothingBelow(levels: Levels, k: Key)
    ensures ReadOrder(levels, |levels|) == []
    ensures FirstFind(RecordsOf(ReadOrder(levels, |levels|)), k) == None
  {
  }

  // ---------- choosing inputs ----------

  ghost predicate Distinct(list: seq<Source>)
  {
    forall i, j | 0 <= i < j < |list| :: list[i] != list[j]
  }

  /** Inputs of a job: some of the tables, each once. */
  ghost predicate InputsFrom(list: seq<Source>, levels: Levels)
  {
    Distinct(list) && forall s | s in list :: InLevels(levels, s.level, s.sst)
  }

  /** No table is in a level twice. */
  lemma EachOnce(levels: Levels, fs: Files, level: nat, i: nat)
    requires Mirrors(levels, fs) && level < |levels| && i < |levels[level]|
    ensures levels[level][i] !in levels[level][..i]
  {
  }

  /** `a` is read no later than `b`. */
  function ReadBefore(): (Source, Source) -> bool
  {
    (a: Source, b: Source) => a.level < b.level || (a.level == b.level && a.sst.id >= b.sst.id)
  }

  /** The inputs of a job in reading order list exactly its input files. */
  lemma SortedInputsList(list: seq<Source>, levels: Levels, fs: Files)
    requires Mirrors(levels, fs) && InputsFrom(list, levels)
    ensures ListsInOrder(Sort(list, ReadBefore()), Restrict(fs, IdsOf(list)))
    ensures IdsOf(list) <= fs.Keys
  {
    var sorted := Sort(list, ReadBefore());
    SortSpec(list, ReadBefore());
    SortedDistinct(list);
    forall i, j | 0 <= i < j < |sorted|
      ensures Before(sorted[i].level, sorted[i].sst.id, sorted[j].level, sorted[j].sst.id)
    {
      assert sorted[i] in list && sorted[j] in list;
      assert ReadBefore()(sorted[i], sorted[j]);
      if sorted[i].sst.id == sorted[j].sst.id {
        assert InLevels(levels, sorted[i].level, sorted[i].sst) && InLevels(levels, sorted[j].level, sorted[j].sst);
      }
    }
    forall id | id in Restrict(fs, IdsOf(list))
      ensures Source(fs[id].level, Sst(id, fs[id].records)) in sorted
    {
      var s :| s in list && s.sst.id == id;
      assert InLevels(levels, s.level, s.sst);
    }
  }

  lemma SortedDistinct(list: seq<Source>)
    requires Distinct(list)
    ensures Distinct(Sort(list, ReadBefore()))
  {
    var sorted := Sort(list, ReadBefore());
    SortSpec(list, ReadBefore());
    forall i, j | 0 <= i < j < |sorted|
      ensures sorted[i] != sorted[j]
    {
      OnceEach(list, sorted[i]);
      if sorted[i] == sorted[j] {
        TwiceEach(sorted, i, j);
      }
    }
  }

  lemma {:induction false} OnceEach(list: seq<Source>, s: Source)
    requires Distinct(list)
    ensures multiset(list)[s] <= 1
    decreases |list|
  {
    if list != [] {
      OnceEach(list[1..], s);
      assert list == [list[0]] + list[1..];
      if s == list[0] {
        assert s !in list[1..];
        assert multiset(list[1..])[s] == 0;
      }
    }
  }

  lemma TwiceEach(list: seq<Source>, i: nat, j: nat)
    requires i < j < |list| && list[i] == list[j]
    ensures multiset(list)[list[i]] >= 2
  {
    assert list == list[..i] + [list[i]] + list[i + 1..j] + [list[j]] + list[j + 1..];
  }

  /** The tables that a plan names. */
  predicate Wanted(plan: CompactionPlan, level: nat, id: nat)
  {
    (level == plan.level && id in plan.inputs) || (level == plan.level + 1 && id in plan.overlaps)
  }

  lemma PlannedInputs(levels: Levels, fs: Files, plan: CompactionPlan, inputs: seq<Source>)
    requires Mirrors(levels, fs)
    requires forall i | i in plan.inputs :: i in fs && fs[i].level == plan.level
    requires forall i | i in plan.overlaps :: i in fs && fs[i].level == plan.level + 1
    requires forall s :: s in inputs <==> InLevels(levels, s.level, s.sst) && Wanted(plan, s.level, s.sst.id)
    ensures IdsOf(inputs) == JobOf(plan).inputs
  {
    forall id | id in JobOf(plan).inputs
      ensures id in IdsOf(inputs)
    {
      assert InLevels(levels, fs[id].level, Sst(id, fs[id].records));
      assert Source(fs[id].level, Sst(id, fs[id].records)) in inputs;
    }
  }

  // ---------- metadata ----------

  /** A table without records has no key range, and is not listed. */
  function MetaOf(s: Sst, level: nat, size: seq<Record> -> nat): seq<FileMeta>
  {
    if s.records == [] then []
    else [FileMeta(s.id, level, s.records[0].key, s.records[|s.records| - 1].key, size(s.records))]
  }

  function LevelMetas(files: seq<Sst>, level: nat, size: seq<Record> -> nat): seq<FileMeta>
    decreases |files|
  {
    if files == [] then [] else LevelMetas(files[..|files| - 1], level, size) + MetaOf(files[|files| - 1], level, size)
  }

  /** `file_metas`, up to level `count`. */
  function Metas(levels: Levels, count: nat, size: seq<Record> -> nat): seq<FileMeta>
    requires count <= |levels|
  {
    if count == 0 then [] else Metas(levels, count - 1, size) + LevelMetas(levels[count - 1], count - 1, size)
  }

  lemma {:induction false} LevelMetasMembers(files: seq<Sst>, level: nat, size: seq<Record> -> nat)
    ensures forall m :: m in LevelMetas(files, level, size) <==> exists s :: s in files && m in MetaOf(s, level, size)
    decreases |files|
  {
    if files != [] {
      var last := files[|files| - 1];
      LevelMetasMembers(files[..|files| - 1], level, size);
      assert files == files[..|files| - 1] + [last];
      assert last in files;
    }
  }

  lemma {:induction false} MetasMembers(levels: Levels, count: nat, size: seq<Record> -> nat)
    requires count <= |levels|
    ensures forall m :: m in Metas(levels, count, size)
                        <==> && m.level < count
                             && exists s :: InLevels(levels, m.level, s) && m in MetaOf(s, m.level, size)
  {
    hide LevelMetas;
    if count > 0 {
      MetasMembers(levels, count - 1, size);
      LevelMetasMembers(levels[count - 1], count - 1, size);
      forall m
        ensures m in Metas(levels, count, size)
           <==> m.level < count && exists s :: InLevels(levels, m.level, s) && m in MetaOf(s, m.level, size)
      {
        if m in LevelMetas(levels[count - 1], count - 1, size) {
          var s :| s in levels[count - 1] && m in MetaOf(s, count - 1, size);
          assert InLevels(levels, m.level, s);
        }
        if m.level == count - 1 {
          if s :| InLevels(levels, m.level, s) && m in MetaOf(s, m.level, size) {
            assert s in levels[count - 1];
          }
        }
      }
    }
  }

  /** The metadata of the levels describes the files they mirror. */
  lemma MetasDescribe(levels: Levels, fs: Files, size: seq<Record> -> nat)
    requires Mirrors(levels, fs) && WellFormed(fs)
    ensures Describes(Metas(levels, |levels|, size), fs)
  {
    hide Mirrors, Sorted, Metas, InLevels, MetaOf;
    var metas := Metas(levels, |levels|, size);
    MetasMembers(levels, |levels|, size);
    forall m | m in metas
      ensures m.id in fs && m.level == fs[m.id].level
      ensures m.smallest == FirstKey(fs[m.id]) && m.largest == LastKey(fs[m.id])
    {
      var s :| InLevels(levels, m.level, s) && m in MetaOf(s, m.level, size);
      MetaIsTrue(levels, fs, size, s, m);
    }
    forall id | id in fs
      ensures exists m :: m in metas && m.id == id
    {
      MetaOfFile(levels, fs, size, id);
    }
  }

  lemma MetaIsTrue(levels: Levels, fs: Files, size: seq<Record> -> nat, s: Sst, m: FileMeta)
    requires Mirrors(levels, fs) && InLevels(levels, m.level, s) && m in MetaOf(s, m.level, size)
    ensures m.id in fs && m.level == fs[m.id].level && fs[m.id].records != []
    ensures m.smallest == FirstKey(fs[m.id]) && m.largest == LastKey(fs[m.id])
  {
  }

  lemma MetaOfFile(levels: Levels, fs: Files, size: seq<Record> -> nat, id: nat)
    requires Mirrors(levels, fs) && id in fs && fs[id].records != []
    ensures exists m :: m in Metas(levels, |levels|, size) && m.id == id
  {
    var s := Sst(id, fs[id].records);
    MetasMembers(levels, |levels|, size);
    assert InLevels(levels, fs[id].level, s);
    hide Metas;
    var m := MetaOf(s, fs[id].level, size)[0];
    assert m in MetaOf(s, m.level, size);
  }

  // ---------- updating ----------

  /** `retain`: the tables of a level that are not among `gone`. */
  function Without(files: seq<Sst>, gone: set<nat>): (r: seq<Sst>)
    ensures forall s :: s in r <==> s in files && s.id !in gone
    decreases |files|
  {
    if files == [] then []
    else (if files[0].id in gone then [] else [files[0]]) + Without(files[1..], gone)
  }

  lemma AscendingCons(s: Sst, rest: seq<Sst>)
    requires Ascending(rest)
    ensures (forall t | t in rest :: s.id < t.id) ==> Ascending([s] + rest)
  {
  }

  lemma {:induction false} WithoutAscending(files: seq<Sst>, gone: set<nat>)
    requires Ascending(files)
    ensures Ascending(Without(files, gone))
    decreases |files|
  {
    if files != [] {
      WithoutAscending(files[1..], gone);
      AscendingCons(files[0], Without(files[1..], gone));
    }
  }

  function ById(): (Sst, Sst) -> bool
  {
    (a: Sst, b: Sst) => a.id <= b.id
  }

  /** Tables in id order are left alone by a sort. */
  lemma {:induction false} SortOfAscending(files: seq<Sst>)
    requires Ascending(files)
    ensures Sort(files, ById()) == files
    decreases |files|
  {
    if files != [] {
      SortOfAscending(files[1..]);
      assert files == [files[0]] + files[1..];
    }
  }

  lemma AppendAscending(files: seq<Sst>, more: seq<Sst>)
    requires Ascending(files) && Ascending(more)
    requires forall s, t | s in files && t in more :: s.id < t.id
    ensures Ascending(files + more)
  {
    var all := files + more;
    forall i, j | 0 <= i < j < |all|
      ensures all[i].id < all[j].id
    {
      if i < |files| <= j {
        assert all[i] in files && all[j] in more;
      }
    }
  }

  /** A new table with the highest id goes to the end of its level. */
  lemma PushMirrors(levels: Levels, fs: Files, sst: Sst)
    requires Mirrors(levels, fs) && |levels| >= 1 && forall id | id in fs :: id < sst.id
    ensures Mirrors(levels[0 := levels[0] + [sst]], fs[sst.id := Table(0, sst.records)])
  {
    var after, gs := levels[0 := levels[0] + [sst]], fs[sst.id := Table(0, sst.records)];
    forall s | s in levels[0]
      ensures s.id < sst.id
    {
      assert InLevels(levels, 0, s);
    }
    AppendAscending(levels[0], [sst]);
    forall l: nat, s | InLevels(after, l, s)
      ensures s.id in gs && gs[s.id] == Table(l, s.records)
    {
      if s != sst {
        assert InLevels(levels, l, s);
      }
    }
    forall id | id in gs
      ensures InLevels(after, gs[id].level, Sst(id, gs[id].records))
    {
      if id != sst.id {
        assert InLevels(levels, fs[id].level, Sst(id, fs[id].records));
      } else {
        assert (levels[0] + [sst])[|levels[0]|] == sst;
      }
    }
  }

  // ---------- the levels after a job ----------

  /** The tables written for some pieces. */
  ghost predicate TablesFor(outputs: seq<Sst>, pieces: seq<seq<Record>>, first: nat)
  {
    |outputs| == |pieces| && forall i | 0 <= i < |pieces| :: outputs[i] == Sst(first + i, pieces[i])
  }

  lemma TablesForMore(outputs: seq<Sst>, pieces: seq<seq<Record>>, first: nat, piece: seq<Record>)
    requires TablesFor(outputs, pieces, first)
    ensures TablesFor(outputs + [Sst(first + |pieces|, piece)], pieces + [piece], first)
  {
  }

  /** `ensure_level`. */
  function Padded(levels: Levels, level: nat): (r: Levels)
    ensures |r| > level && |r| >= |levels|
    ensures forall l | 0 <= l < |levels| :: r[l] == levels[l]
    ensures forall l | |levels| <= l < |r| :: r[l] == []
    decreases level + 1 - |levels|
  {
    if |levels| > level then levels else Padded(levels + [[]], level)
  }

  function Retained(levels: Levels, gone: set<nat>): (r: Levels)
    ensures |r| == |levels|
    ensures forall l | 0 <= l < |levels| :: r[l] == Without(levels[l], gone)
  {
    seq(|levels|, l requires 0 <= l < |levels| => Without(levels[l], gone))
  }

  function Extended(levels: Levels, level: nat, outputs: seq<Sst>): (r: Levels)
    requires level < |levels|
  {
    levels[level := Sort(levels[level] + outputs, ById())]
  }

  /** Inputs out, outputs in: the levels mirror the files again. */
  lemma JobMirrors(levels: Levels, fs: Files, gone: set<nat>, outputs: seq<Sst>, pieces: seq<seq<Record>>,
          first: nat, level: nat)
    requires Mirrors(levels, fs) && TablesFor(outputs, pieces, first) && forall id | id in fs :: id < first
    ensures var kept := Padded(Retained(levels, gone), level);
            Mirrors(Extended(kept, level, outputs), (fs - gone) + FilesOf(pieces, first, level))
  {
    var kept := Padded(Retained(levels, gone), level);
    RetainMirrors(levels, fs, gone, level);
    ExtendMirrors(kept, fs - gone, outputs, pieces, first, level);
  }

  lemma RetainMirrors(levels: Levels, fs: Files, gone: set<nat>, level: nat)
    requires Mirrors(levels, fs)
    ensures Mirrors(Padded(Retained(levels, gone), level), fs - gone)
  {
    var kept := Padded(Retained(levels, gone), level);
    forall l | 0 <= l < |kept|
      ensures Ascending(kept[l])
    {
      if l < |levels| {
        WithoutAscending(levels[l], gone);
      }
    }
    forall l: nat, s | InLevels(kept, l, s)
      ensures s.id in fs - gone && (fs - gone)[s.id] == Table(l, s.records)
    {
      assert InLevels(levels, l, s);
    }
    forall id | id in fs - gone
      ensures InLevels(kept, fs[id].level, Sst(id, fs[id].records))
    {
      assert InLevels(levels, fs[id].level, Sst(id, fs[id].records));
    }
  }

  lemma ExtendMirrors(levels: Levels, fs: Files, outputs: seq<Sst>, pieces: seq<seq<Record>>, first: nat, level: nat)
    requires Mirrors(levels, fs) && level < |levels| && TablesFor(outputs, pieces, first)
               && forall id | id in fs :: id < first
    ensures Mirrors(Extended(levels, level, outputs), fs + FilesOf(pieces, first, level))
  {
    ExtendAscending(levels, fs, outputs, pieces, first, level);
    var after, gs := Extended(levels, level, outputs), fs + FilesOf(pieces, first, level);
    hide Ascending, FilesOf, Sort, Extended;
    forall l: nat, s | InLevels(after, l, s)
      ensures s.id in gs && gs[s.id] == Table(l, s.records)
    {
      ExtendedTable(levels, fs, outputs, pieces, first, level, l, s);
    }
    forall id | id in gs
      ensures InLevels(after, gs[id].level, Sst(id, gs[id].records))
    {
      ExtendedFile(levels, fs, outputs, pieces, first, level, id);
    }
  }

  lemma ExtendedTable(levels: Levels, fs: Files, outputs: seq<Sst>, pieces: seq<seq<Record>>, first: nat, level: nat,
          l: nat, s: Sst)
    requires Mirrors(levels, fs) && level < |levels| && TablesFor(outputs, pieces, first)
               && forall id | id in fs :: id < first
    requires InLevels(levels[level := levels[level] + outputs], l, s)
    ensures s.id in fs + FilesOf(pieces, first, level)
              && (fs + FilesOf(pieces, first, level))[s.id] == Table(l, s.records)
  {
    hide Ascending, FilesOf;
    if l == level && s in outputs {
      var i :| 0 <= i < |outputs| && outputs[i] == s;
    } else {
      assert InLevels(levels, l, s);
    }
  }

  lemma ExtendedFile(levels: Levels, fs: Files, outputs: seq<Sst>, pieces: seq<seq<Record>>, first: nat, level: nat,
          id: nat)
    requires Mirrors(levels, fs) && level < |levels| && TablesFor(outputs, pieces, first)
               && forall id | id in fs :: id < first
    requires id in fs + FilesOf(pieces, first, level)
    ensures var t := (fs + FilesOf(pieces, first, level))[id];
            InLevels(levels[level := levels[level] + outputs], t.level, Sst(id, t.records))
  {
    hide Ascending, FilesOf;
    if id in FilesOf(pieces, first, level) {
      assert outputs[id - first] in levels[level] + outputs;
    } else {
      assert InLevels(levels, fs[id].level, Sst(id, fs[id].records));
    }
  }

  lemma ExtendAscending(levels: Levels, fs: Files, outputs: seq<Sst>, pieces: seq<seq<Record>>, first: nat, level: nat)
    requires Mirrors(levels, fs) && level < |levels| && TablesFor(outputs, pieces, first)
               && forall id | id in fs :: id < first
    ensures Extended(levels, level, outputs) == levels[level := levels[level] + outputs]
    ensures AllAscending(Extended(levels, level, outputs))
  {
    forall s | s in levels[level]
      ensures s.id < first
    {
      assert InLevels(levels, level, s);
    }
    AppendAscending(levels[level], outputs);
    SortOfAscending(levels[level] + outputs);
  }

  // ---------- rebuilding the levels ----------

  /** Some of the files, in ascending order of ids, loaded so far. */
  ghost predicate Loaded(levels: Levels, fs: Files, ids: seq<nat>)
  {
    && |levels| >= 1 && Mirrors(levels, Restrict(fs, set id | id in ids))
  }

  /** Loading the file with the next higher id appends it to its level. */
  lemma LoadMore(levels: Levels, fs: Files, ids: seq<nat>, id: nat)
    requires Loaded(levels, fs, ids) && id in fs && (forall o | o in ids :: o < id)
    ensures var padded := Padded(levels, fs[id].level);
            var l := fs[id].level;
            Loaded(padded[l := padded[l] + [Sst(id, fs[id].records)]], fs, ids + [id])
  {
    var t := fs[id];
    var some := Restrict(fs, set o | o in ids);
    var padded := Padded(levels, t.level);
    PadMirrors(levels, some, t.level);
    LoadedFiles(fs, ids, id);
    assert TablesFor([Sst(id, t.records)], [t.records], id);
    hide Padded, FilesOf, Mirrors, Extended;
    ExtendMirrors(padded, some, [Sst(id, t.records)], [t.records], id, t.level);
    ExtendAscending(padded, some, [Sst(id, t.records)], [t.records], id, t.level);
  }

  lemma NothingLoaded(fs: Files)
    ensures Loaded([[]], fs, [])
  {
    assert Restrict(fs, set id | id in []) == map[];
  }

  lemma AllLoaded(levels: Levels, fs: Files, ids: seq<nat>)
    requires Loaded(levels, fs, ids) && forall id :: id in ids <==> id in fs
    ensures |levels| >= 1 && Mirrors(levels, fs)
  {
    hide Mirrors;
    assert Restrict(fs, set id | id in ids) == fs;
  }

  /** There is room for a level once the list has been padded to it. */
  lemma PaddedHas(levels: Levels, level: nat)
    ensures |Padded(levels, level)| > level
  {
  }

  lemma LoadedFiles(fs: Files, ids: seq<nat>, id: nat)
    requires id in fs
    ensures Restrict(fs, set o | o in ids + [id])
              == Restrict(fs, set o | o in ids) + FilesOf([fs[id].records], id, fs[id].level)
  {
    var all, some := (set o | o in ids + [id]), (set o | o in ids);
    OneIdMore(ids, id, all, some);
    FileOfOne(fs[id], id);
    hide FilesOf, Restrict;
    RestrictMore(fs, some, id);
  }

  lemma OneIdMore(ids: seq<nat>, id: nat, all: set<nat>, some: set<nat>)
    requires (forall o :: o in all <==> o in ids + [id]) && forall o :: o in some <==> o in ids
    ensures all == some + {id}
  {
  }

  lemma FileOfOne(t: Table, id: nat)
    ensures FilesOf([t.records], id, t.level) == map[id := t]
  {
    var one := FilesOf([t.records], id, t.level);
    assert forall o :: o in one <==> o == id;
  }

  lemma RestrictMore(fs: Files, ids: set<nat>, id: nat)
    requires id in fs
    ensures Restrict(fs, ids + {id}) == Restrict(fs, ids) + map[id := fs[id]]
  {
  }

  lemma PadMirrors(levels: Levels, fs: Files, level: nat)
    requires Mirrors(levels, fs)
    ensures Mirrors(Padded(levels, level), fs)
  {
    var padded := Padded(levels, level);
    forall l: nat, s | InLevels(padded, l, s)
      ensures s.id in fs && fs[s.id] == Table(l, s.records)
    {
      assert InLevels(levels, l, s);
    }
    forall id | id in fs
      ensures InLevels(padded, fs[id].level, Sst(id, fs[id].records))
    {
      assert InLevels(levels, fs[id].level, Sst(id, fs[id].records));
    }
  }
}
