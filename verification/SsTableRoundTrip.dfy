/**
 What was written is what is loaded, and every lookup in it is a lookup in the
 plain list of records.
 */
module SsTableRoundTrip {
  import opened Bytes
  import opened Records
  import opened Crc32
  import opened Bloom
  import opened Blocks
  import opened SsTable
  import opened SsTableReader

  /** Where the filter starts is the largest number the footer has to hold. */
  function BloomOffset(rs: seq<Record>, blockSize: nat): nat
  {
    var blocks := Packed([], rs, blockSize);
    HEADER_SIZE + |BlocksBytes(blocks)| + |IndexBytes(IndexOf(blocks, HEADER_SIZE))|
  }

  predicate FileFits(rs: seq<Record>, blockSize: nat, filter: Filter)
  {
    BloomOffset(rs, blockSize) < U32_MODULUS && filter.numBits < U32_MODULUS && filter.numHashes < U32_MODULUS
  }

  // ---------- where things are ----------

  lemma AssembledParts(header: Bytes, body: Bytes, index: Bytes, bloom: Bytes)
    requires |header| == HEADER_SIZE
    ensures var data := Seal(Assembled(header, body, index, bloom));
            && |data| == HEADER_SIZE + |body| + |index| + |bloom| + FOOTER_SIZE
            && data[..HEADER_SIZE + |body|] == header + body
            && Slice(data, HEADER_SIZE + |body|, |index|) == Some(index)
            && Slice(data, HEADER_SIZE + |body| + |index|, |bloom|) == Some(bloom)
  {
    hide Trailer, Footer;
    var data := Seal(Assembled(header, body, index, bloom));
    var a, b := HEADER_SIZE + |body|, HEADER_SIZE + |body| + |index|;
    assert data[a..a + |index|] == index;
    assert data[b..b + |bloom|] == bloom;
  }

  lemma FieldAt(data: Bytes, at: nat, n: nat)
    requires at + 4 <= |data| && data[at..at + 4] == U32Bytes(n)
    ensures U32At(data, at) == n % U32_MODULUS
  {
    U32RoundTrip(n);
  }

  lemma HeaderFields(recordCount: nat, blockCount: nat, blockSize: nat, rest: Bytes)
    ensures var data := Header(recordCount, blockCount, blockSize) + rest;
            && U32At(data, 0) == MAGIC && U32At(data, 4) == VERSION
            && U32At(data, 8) == recordCount % U32_MODULUS && U32At(data, 12) == blockCount % U32_MODULUS
  {
    hide U32Bytes, U32At;
    var data := Header(recordCount, blockCount, blockSize) + rest;
    FieldAt(data, 0, MAGIC);
    FieldAt(data, 4, VERSION);
    FieldAt(data, 8, recordCount);
    FieldAt(data, 12, blockCount);
  }

  lemma FooterFields(front: Bytes, a: nat, b: nat, c: nat, d: nat, last: Bytes)
    requires |last| == 4
    ensures var data := front + Footer(a, b, c, d) + last;
            && U32At(data, |data| - 20) == a % U32_MODULUS && U32At(data, |data| - 16) == b % U32_MODULUS
            && U32At(data, |data| - 12) == c % U32_MODULUS && U32At(data, |data| - 8) == d % U32_MODULUS
  {
    hide U32Bytes, U32At;
    var data, n := front + Footer(a, b, c, d) + last, |front|;
    FieldAt(data, n, a);
    FieldAt(data, n + 4, b);
    FieldAt(data, n + 8, c);
    FieldAt(data, n + 12, d);
  }

  // ---------- sizes ----------

  lemma {:induction false} BlockIsLong(rs: seq<Record>)
    ensures |Block(rs)| >= 9 * |rs|
    ensures forall r | r in rs :: RecordSize(r) <= |Block(rs)|
    decreases |rs|
  {
    if rs != [] {
      BlockIsLong(rs[1..]);
      assert rs == [rs[0]] + rs[1..];
    }
  }

  lemma {:induction false} BlocksAreLong(blocks: seq<seq<Record>>)
    requires forall i | 0 <= i < |blocks| :: blocks[i] != []
    ensures |BlocksBytes(blocks)| >= 9 * |Flat(blocks)| && |Flat(blocks)| >= |blocks|
    ensures forall r | r in Flat(blocks) :: RecordSize(r) <= |BlocksBytes(blocks)|
    decreases |blocks|
  {
    if blocks != [] {
      BlockIsLong(blocks[0]);
      BlocksAreLong(blocks[1..]);
    }
  }

  /** Every index entry points at its block. */
  lemma {:induction false} IndexPoints(front: Bytes, blocks: seq<seq<Record>>, rest: Bytes, i: nat)
    requires i < |blocks|
    ensures var e := IndexOf(blocks, |front|)[i];
            var data := front + BlocksBytes(blocks) + rest;
            && e.firstKey == SsTable.FirstKey(blocks[i]) && e.blockSize == |Block(blocks[i])|
            && e.blockOffset + e.blockSize <= |front| + |BlocksBytes(blocks)|
            && data[e.blockOffset..e.blockOffset + e.blockSize] == Block(blocks[i])
    decreases |blocks|
  {
    hide Block, SsTable.FirstKey;
    var data := front + BlocksBytes(blocks) + rest;
    var head, tail := Block(blocks[0]), BlocksBytes(blocks[1..]);
    if i == 0 {
      assert data[|front|..|front| + |head|] == head;
    } else {
      assert data == front + head + tail + rest;
      IndexPoints(front + head, blocks[1..], rest, i - 1);
      assert blocks[1..][i - 1] == blocks[i];
    }
  }

  lemma IndexEntriesFit(rs: seq<Record>, blocks: seq<seq<Record>>)
    requires Flat(blocks) == rs && forall i | 0 <= i < |blocks| :: blocks[i] != []
    requires HEADER_SIZE + |BlocksBytes(blocks)| < U32_MODULUS
    ensures forall e | e in IndexOf(blocks, HEADER_SIZE) :: EntryFits(e)
    ensures forall r | r in rs :: RecordFits(r)
    ensures |rs| < U32_MODULUS && |blocks| < U32_MODULUS
  {
    BlocksAreLong(blocks);
    hide Block, BlocksBytes, IndexOf;
    forall e | e in IndexOf(blocks, HEADER_SIZE)
      ensures EntryFits(e)
    {
      var i :| 0 <= i < |blocks| && IndexOf(blocks, HEADER_SIZE)[i] == e;
      var front: Bytes := seq(HEADER_SIZE, _ => 0);
      IndexPoints(front, blocks, [], i);
      FlatMembers(blocks);
      assert blocks[i][0] in blocks[i];
      assert blocks[i][0] in rs;
    }
  }

  // ---------- loading what was written ----------

  /** A sealed file is parsed into what lies at its offsets and lengths, cut to 32 bits. */
  lemma AssembledParsesCut(recordCount: nat, blockCount: nat, blockSize: nat, body: Bytes, index: Bytes, bloom: Bytes)
    ensures var data := Seal(Assembled(Header(recordCount, blockCount, blockSize), body, index, bloom));
            var bloomOffset := HEADER_SIZE + |body| + |index|;
            Parse(data) == ParseParts(data, recordCount % U32_MODULUS, blockCount % U32_MODULUS,
                                      Slice(data, (HEADER_SIZE + |body|) % U32_MODULUS, |index| % U32_MODULUS),
                                      Slice(data, bloomOffset % U32_MODULUS, |bloom| % U32_MODULUS))
  {
    hide Xor, Sealed, Trailer, U32At, Slice, Header, Footer, ParseParts;
    var header := Header(recordCount, blockCount, blockSize);
    var front := header + body + index + bloom;
    var asm := Assembled(header, body, index, bloom);
    var data := Seal(asm);
    AssembledParts(header, body, index, bloom);
    FooterFields(front, |header| + |body|, |index|, |header| + |body| + |index|, |bloom|, Trailer(asm));
    assert data == header + data[HEADER_SIZE..];
    HeaderFields(recordCount, blockCount, blockSize, data[HEADER_SIZE..]);
    SealIsSealed(asm);
  }

  /** A sealed file whose lengths fit is parsed into its parts. */
  lemma AssembledParses(recordCount: nat, blockCount: nat, blockSize: nat, body: Bytes, index: Bytes, bloom: Bytes)
    requires HEADER_SIZE + |body| + |index| < U32_MODULUS && |bloom| < U32_MODULUS
    requires recordCount < U32_MODULUS && blockCount < U32_MODULUS
    ensures var data := Seal(Assembled(Header(recordCount, blockCount, blockSize), body, index, bloom));
            Parse(data) == ParseParts(data, recordCount, blockCount, Some(index), Some(bloom))
  {
    hide Parse, Seal, Assembled, Slice, Header, Footer, ParseParts;
    AssembledParsesCut(recordCount, blockCount, blockSize, body, index, bloom);
    AssembledParts(Header(recordCount, blockCount, blockSize), body, index, bloom);
  }

  lemma PackedWhole(rs: seq<Record>, blockSize: nat)
    ensures Flat(Packed([], rs, blockSize)) == rs
    ensures forall i | 0 <= i < |Packed([], rs, blockSize)| :: Packed([], rs, blockSize)[i] != []
  {
    PackedFlat([], rs, blockSize);
    PackedBlocks([], rs, blockSize);
    assert [] + rs == rs;
  }

  lemma WrittenParses(rs: seq<Record>, blockSize: nat, filter: Filter)
    requires filter.Valid() && FileFits(rs, blockSize, filter)
    ensures var blocks := Packed([], rs, blockSize);
            Parse(FileOf(rs, blockSize, filter))
            == Ok(Loaded(FileOf(rs, blockSize, filter), IndexOf(blocks, HEADER_SIZE), filter, |rs|, |blocks|, None))
  {
    hide Xor, Parse, Packed, IndexOf, BlocksBytes, IndexBytes, DecodedIndex, DecodeFilter, Seal, Assembled, Block;
    var blocks := Packed([], rs, blockSize);
    var index := IndexOf(blocks, HEADER_SIZE);
    PackedWhole(rs, blockSize);
    IndexEntriesFit(rs, blocks);
    IndexRoundTrip(index);
    FilterRoundTripIffFits(filter);
    AssembledParses(|rs|, |blocks|, blockSize, BlocksBytes(blocks), IndexBytes(index), filter.Encode());
  }

  lemma {:induction false} FlatEnds(blocks: seq<seq<Record>>)
    requires blocks != [] && forall i | 0 <= i < |blocks| :: blocks[i] != []
    ensures var last := blocks[|blocks| - 1];
            && Flat(blocks) != [] && Flat(blocks)[0] == blocks[0][0]
            && Flat(blocks)[|Flat(blocks)| - 1] == last[|last| - 1]
    decreases |blocks|
  {
    if |blocks| > 1 {
      FlatEnds(blocks[1..]);
    } else {
      assert blocks[1..] == [];
    }
  }

  lemma FlatOfSome(blocks: seq<seq<Record>>, rs: seq<Record>, i: nat)
    requires Flat(blocks) == rs && i < |blocks| && forall r | r in rs :: RecordFits(r)
    ensures forall r | r in blocks[i] :: RecordFits(r)
  {
    hide RecordFits;
    FlatMembers(blocks);
  }

  lemma WrittenBlock(rs: seq<Record>, blockSize: nat, filter: Filter, i: nat)
    requires filter.Valid() && FileFits(rs, blockSize, filter) && i < |Packed([], rs, blockSize)|
    ensures var blocks, file := Packed([], rs, blockSize), FileOf(rs, blockSize, filter);
            var t := Loaded(file, IndexOf(blocks, HEADER_SIZE), filter, |rs|, |blocks|, None);
            t.BlockAt(i) == Some(blocks[i]) && blocks[i] != [] && t.index[i].firstKey == blocks[i][0].key
  {
    hide Xor, Packed, IndexOf, BlocksBytes, IndexBytes, Block, DecodedBlock, Trailer, Footer, Header;
    var blocks, file := Packed([], rs, blockSize), FileOf(rs, blockSize, filter);
    var header := Header(|rs|, |blocks|, blockSize);
    AssembledParts(header, BlocksBytes(blocks), IndexBytes(IndexOf(blocks, HEADER_SIZE)), filter.Encode());
    var rest := file[HEADER_SIZE + |BlocksBytes(blocks)|..];
    assert file == header + BlocksBytes(blocks) + rest;
    IndexPoints(header, blocks, rest, i);
    PackedWhole(rs, blockSize);
    IndexEntriesFit(rs, blocks);
    FlatOfSome(blocks, rs, i);
    BlockRoundTrip(blocks[i]);
  }

  /**
   A written file is loaded back with the same records in the same blocks, the
   same filter, the right counts and the right key range.
   */
  lemma WrittenIsLoaded(rs: seq<Record>, blockSize: nat, filter: Filter)
    requires Sorted(rs) && filter.Valid() && FileFits(rs, blockSize, filter)
    requires forall r | r in rs :: filter.MightContain(r.key)
    ensures var blocks, result := Packed([], rs, blockSize), LoadedFrom(FileOf(rs, blockSize, filter));
            && result.Ok? && result.value.Holds(blocks) && Flat(blocks) == rs
            && result.value.recordCount == |rs| && result.value.bloom == filter
            && result.value.KeyRange() == if rs == [] then None else Some((rs[0].key, rs[|rs| - 1].key))
  {
    hide Xor, Packed, IndexOf, FileOf, Parse, FileFits, DecodedBlock, Flat, Sorted;
    var blocks, file := Packed([], rs, blockSize), FileOf(rs, blockSize, filter);
    WrittenParses(rs, blockSize, filter);
    var t := Loaded(file, IndexOf(blocks, HEADER_SIZE), filter, |rs|, |blocks|, None);
    forall i | 0 <= i < |blocks|
      ensures blocks[i] != [] && t.BlockAt(i) == Some(blocks[i]) && t.index[i].firstKey == blocks[i][0].key
    {
      WrittenBlock(rs, blockSize, filter, i);
    }
    PackedWhole(rs, blockSize);
    var loaded := t.(lastKey := LastKeyOf(t));
    assert forall i :: loaded.BlockAt(i) == t.BlockAt(i);
    if blocks == [] {
      NothingInNoBlocks();
    } else {
      FlatEnds(blocks);
    }
  }

  lemma NothingInNoBlocks()
    ensures Flat([]) == []
  {
  }

  // ---------- point lookups ----------

  lemma {:induction false} ScanIsFind(rs: seq<Record>, key: Key)
    requires Sorted(rs)
    ensures Scanned(rs, key) == Find(rs, key)
    decreases |rs|
  {
    if rs != [] {
      SortedTail(rs);
      if rs[0].key != key {
        ScanIsFind(rs[1..], key);
        if Less(key, rs[0].key) {
          FindBelow(rs, key);
        }
      }
    }
  }

  /** When no other block has the key, a lookup in one block is a lookup in all. */
  lemma {:induction false} FindInOneBlock(blocks: seq<seq<Record>>, b: nat, key: Key)
    requires b < |blocks|
    requires forall i | 0 <= i < |blocks| && i != b :: Find(blocks[i], key) == None
    ensures Find(Flat(blocks), key) == Find(blocks[b], key)
    decreases |blocks|
  {
    FindConcat(blocks[0], Flat(blocks[1..]), key);
    if b == 0 {
      FindInNone(blocks[1..], key);
    } else {
      FindInOneBlock(blocks[1..], b - 1, key);
      assert Find(blocks[0], key) == None;
    }
  }

  lemma {:induction false} FindInNone(blocks: seq<seq<Record>>, key: Key)
    requires forall i | 0 <= i < |blocks| :: Find(blocks[i], key) == None
    ensures Find(Flat(blocks), key) == None
    decreases |blocks|
  {
    if blocks != [] {
      FindConcat(blocks[0], Flat(blocks[1..]), key);
      FindInNone(blocks[1..], key);
    }
  }

  /** First keys not above `key` come first, and the next one is above it. */
  lemma {:induction false} StartingByIs(index: seq<IndexEntry>, key: Key)
    ensures forall i | 0 <= i < StartingBy(index, key) :: AtMost(index[i].firstKey, key)
    ensures StartingBy(index, key) < |index| ==> Less(key, index[StartingBy(index, key)].firstKey)
    decreases |index|
  {
    if index != [] && !Less(key, index[0].firstKey) {
      StartingByIs(index[1..], key);
    }
  }

  /** Blocks before the chosen one lie below the key. */
  lemma BelowChosen(t: Loaded, blocks: seq<seq<Record>>, key: Key, i: nat, r: Record)
    requires t.Holds(blocks) && i < t.BlockFor(key) && r in blocks[i]
    ensures Less(r.key, key)
  {
    hide Flat, DecodedBlock, HasBit, WordsFor;
    var b := t.BlockFor(key);
    StartingByIs(t.index, key);
    PiecesAscend(blocks);
    assert blocks[b][0] in blocks[b];
    LessAtMost(r.key, blocks[b][0].key, key);
  }

  /** Blocks after the chosen one lie above the key. */
  lemma AboveChosen(t: Loaded, blocks: seq<seq<Record>>, key: Key, i: nat, r: Record)
    requires t.Holds(blocks) && t.BlockFor(key) < i < |blocks| && r in blocks[i]
    ensures Less(key, r.key)
  {
    hide Flat, DecodedBlock, HasBit, WordsFor;
    var n := StartingBy(t.index, key);
    StartingByIs(t.index, key);
    PiecesAscend(blocks);
    AboveFirst(blocks[i], r);
    assert blocks[n][0] in blocks[n];
    if n < i {
      LessTransitive(key, blocks[n][0].key, r.key);
    } else {
      LessAtMost(key, blocks[n][0].key, r.key);
    }
  }

  lemma AboveFirst(rs: seq<Record>, r: Record)
    requires Sorted(rs) && r in rs
    ensures AtMost(rs[0].key, r.key)
  {
    var i :| 0 <= i < |rs| && rs[i] == r;
    if i > 0 {
      LessAsymmetric(rs[0].key, r.key);
    } else {
      LessIrreflexive(r.key);
    }
  }

  lemma NotFoundUnless(rs: seq<Record>, key: Key)
    requires forall r | r in rs :: r.key != key
    ensures Find(rs, key) == None
  {
    FindIndex(rs, key);
  }

  /** The filter and the index never change an answer: a lookup in the file is a lookup in the list. */
  lemma LookupIsFind(t: Loaded, blocks: seq<seq<Record>>, key: Key)
    requires t.Holds(blocks)
    ensures t.Lookup(key) == Ok(Find(Flat(blocks), key))
  {
    hide Flat, DecodedBlock;
    if !t.bloom.MightContain(key) {
      NotFoundUnless(Flat(blocks), key);
    } else if blocks == [] {
      NothingInNoBlocks();
    } else {
      var b := t.BlockFor(key);
      LessIrreflexive(key);
      forall i, r | 0 <= i < |blocks| && i != b && r in blocks[i]
        ensures r.key != key
      {
        if i < b {
          BelowChosen(t, blocks, key, i, r);
        } else {
          AboveChosen(t, blocks, key, i, r);
        }
      }
      forall i | 0 <= i < |blocks| && i != b
        ensures Find(blocks[i], key) == None
      {
        NotFoundUnless(blocks[i], key);
      }
      FindInOneBlock(blocks, b, key);
      PiecesAscend(blocks);
      ScanIsFind(blocks[b], key);
    }
  }

  // ---------- all entries ----------

  /** `entries` gives back every record, in order. */
  lemma EntriesAreRecords(t: Loaded, blocks: seq<seq<Record>>)
    requires t.Holds(blocks)
    ensures t.Gathered(|t.index|) == Flat(blocks)
  {
    hide Flat, DecodedBlock;
    GatheredIsFlat(t, blocks, |blocks|);
    assert blocks[..|blocks|] == blocks;
  }

  lemma {:induction false} GatheredIsFlat(t: Loaded, blocks: seq<seq<Record>>, n: nat)
    requires t.Holds(blocks) && n <= |blocks|
    ensures t.Gathered(n) == Flat(blocks[..n])
    decreases n
  {
    hide DecodedBlock, HasBit, WordsFor, Sorted, InsertAll;
    if n == 0 {
      NothingInNoBlocks();
    } else {
      GatheredIsFlat(t, blocks, n - 1);
      FlatOneMore(blocks, n - 1);
      InsertAscending(Flat(blocks[..n - 1]), blocks[n - 1]);
    }
  }

  lemma FlatOneMore(blocks: seq<seq<Record>>, n: nat)
    requires n < |blocks| && Sorted(Flat(blocks))
    ensures Flat(blocks[..n + 1]) == Flat(blocks[..n]) + blocks[n]
    ensures Sorted(Flat(blocks[..n + 1]))
  {
    hide Sorted;
    assert blocks[..n] + [blocks[n]] == blocks[..n + 1];
    FlatOfOne(blocks[n]);
    FlatConcat(blocks[..n], [blocks[n]]);
    hide Flat;
    assert blocks[..n + 1] + blocks[n + 1..] == blocks;
    FlatConcat(blocks[..n + 1], blocks[n + 1..]);
    SortedConcat(Flat(blocks[..n + 1]), Flat(blocks[n + 1..]));
  }

  lemma FlatOfOne(block: seq<Record>)
    ensures Flat([block]) == block
  {
    assert [block][1..] == [];
    assert block + [] == block;
  }

  /** Inserting ascending records at the end appends them. */
  lemma {:induction false} InsertAscending(into: seq<Record>, rs: seq<Record>)
    requires Sorted(into + rs)
    ensures InsertAll(into, rs) == into + rs
    decreases |rs|
  {
    if rs != [] {
      var front, last := rs[..|rs| - 1], rs[|rs| - 1];
      assert into + rs == into + front + [last];
      SortedConcat(into + front, [last]);
      InsertAscending(into, front);
      assert [last][0] == last;
      InsertLast(into + front, last.key, last.entry);
    }
  }

  // ---------- writing, then loading ----------

  /** A new table file, as `write_level_file` leaves it: whatever was written is what is read. */
  method WriteAndLoad(entries: seq<Record>, blockSize: nat, sizing: nat -> (nat,
          nat)) returns (result: Result<Loaded, SstError>)
    requires Sorted(entries)
    ensures FileFits(entries, blockSize, FilterFor(entries, sizing)) ==>
              && result.Ok? && result.value.Holds(Packed([], entries, blockSize))
              && result.value.KeyRange()
                 == (if entries == [] then None else Some((entries[0].key, entries[|entries| - 1].key)))
              && result.value.recordCount == |entries|
              && forall key :: result.value.Lookup(key) == Ok(Find(entries, key))
  {
    hide *;
    var file := WriteSsTable(entries, blockSize, sizing);
    result := Load(file);
    ghost var filter := FilterFor(entries, sizing);
    if FileFits(entries, blockSize, filter) {
      FilterContainsAll(entries, sizing);
      WrittenIsLoaded(entries, blockSize, filter);
      forall key
        ensures result.value.Lookup(key) == Ok(Find(entries, key))
      {
        LookupIsFind(result.value, Packed([], entries, blockSize), key);
      }
    }
  }
}
