/**
 The cursor over an SSTable file. It decodes one block at a time, and yet moves
 exactly like a cursor over the plain list of the table's records.
 */
module SsTableIter {
  import opened Bytes
  import opened Records
  import opened Bloom
  import opened Blocks
  import opened SsTableReader
  import opened SsTableRoundTrip
  import opened Iter

  class SsTableIterator {
    const sst: Loaded
    var block: nat
    var entries: seq<Record>
    var index: nat

    /** The blocks of the table. */
    ghost const blocks: seq<seq<Record>>

    /** A block is loaded; before the first seek none is. */
    ghost predicate Sound()
      reads this
    {
      && sst.Holds(blocks)
      && entries == (if block < |blocks| then blocks[block] else [])
      && index <= |entries|
    }

    /** After a seek: at a record, or behind the last one. */
    ghost predicate Valid()
      reads this
    {
      Sound() && (index < |entries| || block + 1 >= |blocks|)
    }

    /** The records from the position on, through all later blocks. */
    ghost function Remaining(): seq<Record>
      requires Sound()
      reads this
    {
      entries[index..] + After(blocks, block)
    }

    constructor (sst: Loaded, ghost blocks: seq<seq<Record>>)
      requires sst.Holds(blocks)
      ensures this.sst == sst && this.blocks == blocks && !this.IsValid()
    {
      this.sst := sst;
      this.blocks := blocks;
      block := 0;
      entries := [];
      index := 0;
    }

    method LoadBlock(i: nat)
      requires sst.Holds(blocks)
      modifies this
      ensures Sound() && block == i && index == 0
    {
      hide Flat, Sorted, DecodedBlock, HasBit;
      block := i;
      var loaded := sst.ReadBlock(i);
      entries := if loaded.Some? then loaded.value else [];
      index := 0;
    }

    /** Goes on to the next block while this one is used up. */
    method EnsureEntry() returns (found: bool)
      requires Sound()
      modifies this
      ensures Valid() && Remaining() == old(Remaining())
      ensures found <==> index < |entries|
    {
      hide *;
      while index >= |entries|
        invariant Sound() && Remaining() == old(Remaining())
        decreases |blocks| - block
      {
        SoundParts();
        if block + 1 >= sst.blockCount {
          return false;
        }
        ghost var b := block;
        RemainingIs();
        LoadBlock(block + 1);
        SoundParts();
        RemainingIs();
        NextBlock(blocks, b);
      }
      SoundParts();
      return true;
    }

    lemma SoundParts()
      requires Sound()
      ensures sst.Holds(blocks) && sst.blockCount == |blocks| && index <= |entries|
      ensures entries == if block < |blocks| then blocks[block] else []
      ensures index < |entries| || block + 1 >= |blocks| ==> Valid()
      ensures Valid() ==> index < |entries| || block + 1 >= |blocks|
    {
      hide Flat, Sorted, DecodedBlock, HasBit;
    }

    lemma ValidIsSound()
      requires Valid()
      ensures Sound()
    {
      hide Sound;
    }

    lemma RemainingIs()
      requires Sound()
      ensures index <= |entries| && Remaining() == entries[index..] + After(blocks, block)
    {
    }

    method SeekToFirst()
      requires sst.Holds(blocks)
      modifies this
      ensures Valid() && Remaining() == Flat(blocks)
    {
      hide *;
      LoadBlock(0);
      SoundParts();
      RemainingIs();
      FirstBlock(blocks);
      var _ := EnsureEntry();
    }

    /** Lands on the first record that is not below `target`. */
    method Seek(target: Key)
      requires sst.Holds(blocks)
      modifies this
      ensures Valid() && Remaining() == From(Flat(blocks), target)
    {
      hide *;
      var b := sst.FindBlock(target);
      LoadBlock(b);
      SoundParts();
      index := PartitionPoint(entries, target);
      StillSound();
      RemainingIs();
      SeekBlock(sst, blocks, target);
      FromIs(entries, target);
      var _ := EnsureEntry();
    }

    lemma StillSound()
      requires sst.Holds(blocks) && entries == (if block < |blocks| then blocks[block] else []) && index <= |entries|
      ensures Sound()
    {
    }

    method Advance()
      requires Valid()
      modifies this
      ensures Valid() && Remaining() == if old(Remaining()) == [] then [] else old(Remaining())[1..]
    {
      hide *;
      ValidIsSound();
      SoundParts();
      RemainingIs();
      if index < |entries| {
        assert entries[index..][1..] == entries[index + 1..];
        index := index + 1;
        StillSound();
        RemainingIs();
      } else {
        NothingAfterLast(blocks, block);
      }
      var _ := EnsureEntry();
    }

    predicate IsValid()
      reads this
      ensures Valid() ==> (IsValid() <==> Remaining() != [])
    {
      AtEnd();
      index < |entries|
    }

    function Key(): (k: Option<Key>)
      reads this
      ensures Valid() ==> k == if Remaining() == [] then None else Some(Remaining()[0].key)
    {
      AtEnd();
      if index < |entries| then Some(entries[index].key) else None
    }

    function Value(): (v: Option<Bytes>)
      reads this
      ensures Valid() ==> v == if Remaining() == [] then None else Visible(Some(Remaining()[0].entry))
    {
      AtEnd();
      if index < |entries| && entries[index].entry.Value? then Some(entries[index].entry.bytes) else None
    }

    lemma AtEnd()
      ensures Valid() && index >= |entries| ==> Remaining() == []
    {
      hide Flat, Sorted, DecodedBlock, HasBit;
      if Valid() && index >= |entries| {
        NothingAfterLast(blocks, block);
      }
    }
  }

  /** The records of the blocks behind block `b`. */
  function After(blocks: seq<seq<Record>>, b: nat): seq<Record>
  {
    if b + 1 <= |blocks| then Flat(blocks[b + 1..]) else []
  }

  lemma NextBlock(blocks: seq<seq<Record>>, b: nat)
    requires b + 1 < |blocks|
    ensures After(blocks, b) == blocks[b + 1] + After(blocks, b + 1)
  {
    assert blocks[b + 1..][1..] == blocks[b + 2..];
  }

  lemma FirstBlock(blocks: seq<seq<Record>>)
    ensures (if 0 < |blocks| then blocks[0] else []) + After(blocks, 0) == Flat(blocks)
  {
  }

  lemma NothingAfterLast(blocks: seq<seq<Record>>, b: nat)
    requires b + 1 >= |blocks|
    ensures After(blocks, b) == []
  {
    NothingInNoBlocks();
  }

  lemma FromIs(rs: seq<Record>, target: Key)
    ensures From(rs, target) == rs[PartitionPoint(rs, target)..]
  {
  }

  // ---------- seeking ----------

  lemma {:induction false} FromBehind(a: seq<Record>, b: seq<Record>, target: Key)
    requires forall r | r in a :: Less(r.key, target)
    ensures From(a + b, target) == From(b, target)
    decreases |a|
  {
    if a == [] {
      assert a + b == b;
    } else {
      assert (a + b)[1..] == a[1..] + b;
      FromBehind(a[1..], b, target);
    }
  }

  lemma {:induction false} FromBefore(a: seq<Record>, b: seq<Record>, target: Key)
    requires b == [] || !Less(b[0].key, target)
    ensures From(a + b, target) == From(a, target) + b
    decreases |a|
  {
    if a == [] {
      assert a + b == b;
    } else {
      assert (a + b)[1..] == a[1..] + b;
      FromBefore(a[1..], b, target);
    }
  }

  lemma AllBelow(t: Loaded, blocks: seq<seq<Record>>, target: Key)
    requires t.Holds(blocks) && t.BlockFor(target) <= |blocks|
    ensures forall r | r in Flat(blocks[..t.BlockFor(target)]) :: Less(r.key, target)
  {
    hide *;
    var before := blocks[..t.BlockFor(target)];
    FlatMembers(before);
    forall r | r in Flat(before)
      ensures Less(r.key, target)
    {
      var i :| 0 <= i < |before| && r in before[i];
      BelowChosen(t, blocks, target, i, r);
    }
  }

  lemma NoneBelow(t: Loaded, blocks: seq<seq<Record>>, target: Key)
    requires t.Holds(blocks) && t.BlockFor(target) < |blocks|
    ensures forall r | r in After(blocks, t.BlockFor(target)) :: !Less(r.key, target)
  {
    hide DecodedBlock, HasBit, WordsFor, Sorted, Less, Loaded.Holds, Loaded.BlockFor, Flat;
    var b := t.BlockFor(target);
    var behind := blocks[b + 1..];
    FlatMembers(behind);
    forall r | r in After(blocks, b)
      ensures !Less(r.key, target)
    {
      var i :| 0 <= i < |behind| && r in behind[i];
      AboveChosen(t, blocks, target, b + 1 + i, r);
      LessAsymmetric(target, r.key);
    }
  }

  /** Seeking in the chosen block is seeking in the whole table. */
  lemma SeekBlock(t: Loaded, blocks: seq<seq<Record>>, target: Key)
    requires t.Holds(blocks)
    ensures var b := t.BlockFor(target);
            From(if b < |blocks| then blocks[b] else [], target) + After(blocks, b) == From(Flat(blocks), target)
  {
    hide *;
    var b := t.BlockFor(target);
    if blocks == [] {
      NothingAfterLast(blocks, b);
      NothingInNoBlocks();
      FromNothing(target);
    } else {
      InRange(t, blocks, target);
      AllBelow(t, blocks, target);
      NoneBelow(t, blocks, target);
      SplitAt(blocks, b);
      FromBehind(Flat(blocks[..b]), blocks[b] + After(blocks, b), target);
      FromBefore(blocks[b], After(blocks, b), target);
    }
  }

  lemma FromNothing(target: Key)
    ensures From([], target) == []
  {
  }

  lemma InRange(t: Loaded, blocks: seq<seq<Record>>, target: Key)
    requires t.Holds(blocks) && blocks != []
    ensures t.BlockFor(target) < |blocks|
  {
  }

  lemma SplitAt(blocks: seq<seq<Record>>, b: nat)
    requires b < |blocks|
    ensures Flat(blocks) == Flat(blocks[..b]) + (blocks[b] + After(blocks, b))
  {
    assert blocks == blocks[..b] + blocks[b..];
    assert blocks[b..][1..] == blocks[b + 1..];
    FlatConcat(blocks[..b], blocks[b..]);
  }
}
