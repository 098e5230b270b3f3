/**
 How table files are written, and how much can be stored before a table file
 outgrows its u32 fields.
 */
module Formats {
  import opened Bytes
  import opened Records
  import Wal
  import opened Blocks
  import opened SsTable
  import opened SsTableReader
  import opened SsTableRoundTrip
  import opened SsTableSize

  /** The block size, and what the formulas for the filter's sizes yield for a number of keys. */
  datatype Format = Format(blockSize: nat, sizing: nat -> (nat, nat)) {
    function FileOf(rs: seq<Record>): Bytes
    {
      SsTable.FileOf(rs, blockSize, FilterFor(rs, sizing))
    }

    function FileSize(): seq<Record> -> nat
    {
      (rs: seq<Record>) => |FileOf(rs)|
    }

    /** The file of these records can say where its parts are. */
    predicate Fits(rs: seq<Record>)
    {
      FileFits(rs, blockSize, FilterFor(rs, sizing))
    }
  }

  /** A table whose file fits is loaded as it was written, and answers every lookup like its records. */
  lemma FittingTableLoads(format: Format, rs: seq<Record>)
    requires Sorted(rs) && format.Fits(rs)
    ensures LoadedFrom(format.FileOf(rs)).Ok?
    ensures var t := LoadedFrom(format.FileOf(rs)).value;
            t.Gathered(|t.index|) == rs && forall key :: t.Lookup(key) == Ok(Find(rs, key))
  {
    FilterContainsAll(rs, format.sizing);
    hide FileFits, SsTable.FileOf, FilterFor, Loaded.Holds, LoadedFrom, Loaded.Gathered, Loaded.Lookup, Packed, Flat,
      Find, Sorted;
    var filter, blocks := FilterFor(rs, format.sizing), Packed([], rs, format.blockSize);
    WrittenIsLoaded(rs, format.blockSize, filter);
    var t := LoadedFrom(format.FileOf(rs)).value;
    EntriesAreRecords(t, blocks);
    forall key
      ensures t.Lookup(key) == Ok(Find(rs, key))
    {
      LookupIsFind(t, blocks, key);
    }
  }

  // ---------- weights ----------

  /** The most that a record adds to a file, its own index entry included. */
  function Weight(r: Record): nat
  {
    RecordSize(r) + 12 + |r.key|
  }

  function TotalWeight(rs: seq<Record>): nat
    decreases |rs|
  {
    if rs == [] then 0 else Weight(rs[0]) + TotalWeight(rs[1..])
  }

  function Elements(rs: seq<Record>): set<Record>
  {
    set r | r in rs
  }

  /** Records and index of a file weigh no more than its records are taken to. */
  lemma {:induction false} BlocksWeigh(blocks: seq<seq<Record>>)
    requires forall i | 0 <= i < |blocks| :: blocks[i] != []
    ensures SizeOf(Flat(blocks)) + IndexLength(blocks) <= TotalWeight(Flat(blocks))
    decreases |blocks|
  {
    hide SizeOf, Weight;
    if blocks == [] {
      NoSize();
    } else {
      var head, rest := blocks[0], Flat(blocks[1..]);
      BlocksWeigh(blocks[1..]);
      SizeOfConcat(head, rest);
      SizeOfConcat([head[0]], head[1..]);
      SizeOfOne(head[0]);
      assert [head[0]] + head[1..] == head;
      TotalWeightConcat(head, rest);
      SizeWeighs(head[1..]);
      WeightIs(head[0]);
    }
  }

  lemma NoSize()
    ensures SizeOf([]) == 0
  {
  }

  lemma WeightIs(r: Record)
    ensures Weight(r) == RecordSize(r) + 12 + |r.key|
  {
  }

  lemma {:induction false} SizeWeighs(rs: seq<Record>)
    ensures SizeOf(rs) <= TotalWeight(rs)
    decreases |rs|
  {
    if rs != [] {
      SizeWeighs(rs[1..]);
      SizeOfConcat([rs[0]], rs[1..]);
      SizeOfOne(rs[0]);
      assert [rs[0]] + rs[1..] == rs;
    }
  }

  lemma {:induction false} TotalWeightConcat(a: seq<Record>, b: seq<Record>)
    ensures TotalWeight(a + b) == TotalWeight(a) + TotalWeight(b)
    decreases |a|
  {
    hide Weight;
    if a == [] {
      assert a + b == b;
    } else {
      assert (a + b)[1..] == a[1..] + b;
      TotalWeightConcat(a[1..], b);
    }
  }

  /** A table that is light enough, and whose filter is not too large, fits. */
  lemma LightTableFits(format: Format, rs: seq<Record>)
    requires rs != [] && HEADER_SIZE + TotalWeight(rs) < U32_MODULUS && format.sizing(|rs|).0 < U32_MODULUS
    ensures format.Fits(rs)
  {
    hide TotalWeight, SizeOf, Packed, BloomOffset, IndexLength;
    var blocks := Packed([], rs, format.blockSize);
    PackedWhole(rs, format.blockSize);
    BlocksWeigh(blocks);
    BloomOffsetIs(rs, format.blockSize);
  }

  /** A record whose table fits also fits in the log. */
  lemma FittingRecordIsLogged(format: Format, r: Record)
    requires format.Fits([r])
    ensures Wal.Fits(AsLogged(r))
  {
    hide Packed, IndexLength, BloomOffset, SizeOf;
    BloomOffsetIs([r], format.blockSize);
    SizeOfOne(r);
  }

  // ---------- room ----------

  /** A memtable of at most so many entries, or an output file that only its last record takes to the target. */
  predicate Bounded(rs: seq<Record>, entries: nat, target: nat)
  {
    |rs| <= entries || |rs| == 1 || (rs != [] && SizeOf(rs[..|rs| - 1]) < target)
  }

  /** A table that is made of some of these records. */
  ghost predicate DrawnFrom(rs: seq<Record>, some: set<Record>)
  {
    Sorted(rs) && rs != [] && forall r | r in rs :: r in some
  }

  /** Every table of these records that a flush or a compaction may write fits. */
  ghost predicate Room(format: Format, some: set<Record>, entries: nat, target: nat)
  {
    forall rs | DrawnFrom(rs, some) && Bounded(rs, entries, target) :: format.Fits(rs)
  }

  lemma RoomForLess(format: Format, some: set<Record>, entries: nat, target: nat,
                    more: set<Record>, moreEntries: nat, moreTarget: nat)
    requires some <= more && entries <= moreEntries && target <= moreTarget
    requires Room(format, more, moreEntries, moreTarget)
    ensures Room(format, some, entries, target)
  {
    hide SizeOf, Format.Fits;
    forall rs | DrawnFrom(rs, some) && Bounded(rs, entries, target)
      ensures format.Fits(rs)
    {
      assert DrawnFrom(rs, more) && Bounded(rs, moreEntries, moreTarget);
    }
  }

  // ---------- room for one table ----------

  /** Of each key the heaviest record, in key order. */
  function Heaviest(rs: seq<Record>): seq<Record>
    decreases |rs|
  {
    if rs == [] then []
    else
      var heaviest, r := Heaviest(rs[..|rs| - 1]), rs[|rs| - 1];
      if Outweighed(r, heaviest) then heaviest else Insert(heaviest, r.key, r.entry)
  }

  /** The list has a record of the same key that is at least as heavy. */
  predicate Outweighed(r: Record, rs: seq<Record>)
  {
    Find(rs, r.key).Some? && Weight(r) <= Weight(Record(r.key, Find(rs, r.key).value))
  }

  lemma {:induction false} HeaviestOutweighs(rs: seq<Record>)
    ensures Sorted(Heaviest(rs)) && forall r | r in rs :: Outweighed(r, Heaviest(rs))
    decreases |rs|
  {
    hide Weight;
    if rs != [] {
      var front, r := rs[..|rs| - 1], rs[|rs| - 1];
      HeaviestOutweighs(front);
      InsertSorted(Heaviest(front), r.key, r.entry);
      forall s | s in rs
        ensures Outweighed(s, Heaviest(rs))
      {
        InsertFinds(Heaviest(front), r.key, r.entry, s.key);
        if s != r {
          assert s in front;
        }
      }
    }
  }

  /** A table is no heavier than a list that outweighs each of its records. */
  lemma {:induction false} OutweighedTable(rs: seq<Record>, over: seq<Record>)
    requires Sorted(rs) && Sorted(over) && forall r | r in rs :: Outweighed(r, over)
    ensures TotalWeight(rs) <= TotalWeight(over) && |rs| <= |over|
    decreases |over|
  {
    hide Weight;
    if rs != [] {
      assert rs[0] in rs && Outweighed(rs[0], over);
      var rest := if rs[0].key == over[0].key then rs[1..] else rs;
      FindWithin(over, rs[0].key);
      forall r | r in rest
        ensures r in rs && r.key != over[0].key
      {
        OnlyFirst(rs, over[0].key, r);
      }
      OutweighedTable(rest, over[1..]);
    }
  }

  lemma OnlyFirst(rs: seq<Record>, k: Key, r: Record)
    requires Sorted(rs) && rs != [] && AtMost(k, rs[0].key) && r in (if rs[0].key == k then rs[1..] else rs)
    ensures r in rs && r.key != k
  {
    LessIrreflexive(k);
    if rs[0].key == k {
      assert exists j :: 1 <= j < |rs| && rs[j] == r;
    }
  }

  /** The filter of a table with at most so many records fits. */
  predicate FiltersFit(format: Format, most: nat)
  {
    forall n | 1 <= n <= most :: format.sizing(n).0 < U32_MODULUS
  }

  /** One table could hold the heaviest record of every key. */
  predicate OneTableHolds(format: Format, written: seq<Record>)
  {
    HEADER_SIZE + TotalWeight(Heaviest(written)) < U32_MODULUS && FiltersFit(format, |Heaviest(written)|)
  }

  /** A table has each key once, so what it holds of some records is no heavier than the heaviest of each key. */
  lemma RoomForOneTable(format: Format, written: seq<Record>, entries: nat, target: nat)
    requires OneTableHolds(format, written)
    ensures Room(format, Elements(written), entries, target)
  {
    hide Format.Fits, TotalWeight, Heaviest, Outweighed, Bounded;
    forall rs | DrawnFrom(rs, Elements(written)) && Bounded(rs, entries, target)
      ensures format.Fits(rs)
    {
      HeaviestOutweighs(written);
      OutweighedTable(rs, Heaviest(written));
      LightTableFits(format, rs);
    }
  }

  // ---------- room for every table ----------

  function HeaviestWeight(rs: seq<Record>): nat
    decreases |rs|
  {
    if rs == [] then 0 else Max(Weight(rs[0]), HeaviestWeight(rs[1..]))
  }

  function Max(a: nat, b: nat): nat
  {
    if a < b then b else a
  }

  /** What bounds a single table, however many are written: the fullest memtable and the target size. */
  predicate EveryTableHolds(format: Format, heaviest: nat, entries: nat, target: nat)
  {
    && HEADER_SIZE + entries * heaviest < U32_MODULUS
    && HEADER_SIZE + 3 * target + heaviest < U32_MODULUS
    && FiltersFit(format, Max(entries, target / 9 + 1))
  }

  lemma {:induction false} HeaviestIs(rs: seq<Record>)
    ensures forall r | r in rs :: Weight(r) <= HeaviestWeight(rs)
    decreases |rs|
  {
    hide Weight;
    if rs != [] {
      HeaviestIs(rs[1..]);
      assert rs == [rs[0]] + rs[1..];
    }
  }

  lemma {:induction false} ManyWeigh(rs: seq<Record>, heaviest: nat)
    requires forall r | r in rs :: Weight(r) <= heaviest
    ensures TotalWeight(rs) <= |rs| * heaviest
    decreases |rs|
  {
    hide Weight;
    if rs != [] {
      ManyWeigh(rs[1..], heaviest);
      assert rs[0] in rs;
    }
  }

  /** A record weighs at most three times its size, which is at least nine. */
  lemma {:induction false} WeightOfSize(rs: seq<Record>)
    ensures TotalWeight(rs) <= 3 * SizeOf(rs) && 9 * |rs| <= SizeOf(rs)
    decreases |rs|
  {
    if rs != [] {
      WeightOfSize(rs[1..]);
      SizeOfConcat([rs[0]], rs[1..]);
      SizeOfOne(rs[0]);
      assert [rs[0]] + rs[1..] == rs;
    }
  }

  lemma BoundedIsLight(rs: seq<Record>, heaviest: nat, entries: nat, target: nat)
    requires rs != [] && Bounded(rs, entries, target) && forall r | r in rs :: Weight(r) <= heaviest
    ensures |rs| <= Max(entries, target / 9 + 1)
    ensures TotalWeight(rs) <= entries * heaviest || TotalWeight(rs) <= 3 * target + heaviest
  {
    hide Weight, SizeOf, TotalWeight;
    ManyWeigh(rs, heaviest);
    if |rs| <= entries {
      Times(|rs|, entries, heaviest);
    } else if |rs| > 1 {
      var front := rs[..|rs| - 1];
      WeightOfSize(front);
      TotalWeightConcat(front, [rs[|rs| - 1]]);
      assert front + [rs[|rs| - 1]] == rs;
      WeightOfOne(rs[|rs| - 1]);
    }
  }

  lemma WeightOfOne(r: Record)
    ensures TotalWeight([r]) == Weight(r)
  {
    assert [r][1..] == [];
  }

  lemma Times(a: nat, b: nat, c: nat)
    requires a <= b
    ensures a * c <= b * c
  {
  }

  lemma RoomForEveryTable(format: Format, written: seq<Record>, entries: nat, target: nat)
    requires EveryTableHolds(format, HeaviestWeight(written), entries, target)
    ensures Room(format, Elements(written), entries, target)
  {
    hide Format.Fits, TotalWeight, HeaviestWeight, Weight, Bounded, Max;
    HeaviestIs(written);
    forall rs | DrawnFrom(rs, Elements(written)) && Bounded(rs, entries, target)
      ensures format.Fits(rs)
    {
      assert forall r | r in rs :: r in Elements(written);
      BoundedIsLight(rs, HeaviestWeight(written), entries, target);
      LightTableFits(format, rs);
    }
  }
}
