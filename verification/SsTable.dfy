/**
 SSTable files: the writer, the loader and the point lookup. A written file is
 loaded back as what was written, its index and its Bloom filter never change an
 answer, and a damaged file is not loaded.
 */
module SsTable {
  import opened Bytes
  import opened Records
  import opened Crc32
  import opened Bloom
  import opened Blocks

  const MAGIC: nat := 0x5045_4242
  const VERSION: nat := 2
  const HEADER_SIZE: nat := 20
  const FOOTER_SIZE: nat := 20

  // ---------- splitting records into blocks ----------

  /** A block is closed before the record that would take it past the block size. */
  function Packed(current: seq<Record>, rest: seq<Record>, blockSize: nat): seq<seq<Record>>
    decreases |rest|
  {
    if rest == [] then (if current == [] then [] else [current])
    else if current != [] && |Block(current)| + RecordSize(rest[0]) > blockSize then
      [current] + Packed([rest[0]], rest[1..], blockSize)
    else Packed(current + [rest[0]], rest[1..], blockSize)
  }

  /** Nothing is lost, added or moved by packing. */
  lemma {:induction false} PackedFlat(current: seq<Record>, rest: seq<Record>, blockSize: nat)
    ensures Flat(Packed(current, rest, blockSize)) == current + rest
    decreases |rest|
  {
    if rest == [] {
      if current != [] {
        assert [current][1..] == [];
      }
    } else {
      if current != [] && |Block(current)| + RecordSize(rest[0]) > blockSize {
        PackedFlat([rest[0]], rest[1..], blockSize);
        assert Packed(current, rest, blockSize)[1..] == Packed([rest[0]], rest[1..], blockSize);
        assert [rest[0]] + rest[1..] == rest;
      } else {
        PackedFlat(current + [rest[0]], rest[1..], blockSize);
        assert current + rest == current + [rest[0]] + rest[1..];
      }
    }
  }

  /** No block is empty, and only a single record can be larger than the block size. */
  lemma {:induction false} PackedBlocks(current: seq<Record>, rest: seq<Record>, blockSize: nat)
    requires |current| > 1 ==> |Block(current)| <= blockSize
    ensures forall i | 0 <= i < |Packed(current, rest, blockSize)| ::
              var b := Packed(current, rest, blockSize)[i];
              b != [] && (|b| == 1 || |Block(b)| <= blockSize)
    decreases |rest|
  {
    if rest != [] {
      if current != [] && |Block(current)| + RecordSize(rest[0]) > blockSize {
        PackedBlocks([rest[0]], rest[1..], blockSize);
      } else {
        BlockOfMore(current, rest[0]);
        PackedBlocks(current + [rest[0]], rest[1..], blockSize);
      }
    }
  }

  /** A block is closed only where the next record does not fit in it. */
  lemma {:induction false} PackedTight(current: seq<Record>, rest: seq<Record>, blockSize: nat)
    ensures var blocks := Packed(current, rest, blockSize);
            && (current != [] ==> blocks != [] && current <= blocks[0])
            && (current == [] && rest != [] ==> blocks != [] && [rest[0]] <= blocks[0])
            && forall i | 0 < i < |blocks| ::
                 blocks[i] != [] && |Block(blocks[i - 1])| + RecordSize(blocks[i][0]) > blockSize
    decreases |rest|
  {
    hide Block;
    if rest != [] {
      if current != [] && |Block(current)| + RecordSize(rest[0]) > blockSize {
        PackedTight([rest[0]], rest[1..], blockSize);
      } else {
        PackedTight(current + [rest[0]], rest[1..], blockSize);
      }
    }
  }

  lemma {:induction false} BlockOfMore(rs: seq<Record>, r: Record)
    ensures Block(rs + [r]) == Block(rs) + RecordBytes(r)
    decreases |rs|
  {
    if rs == [] {
      assert [r][1..] == [];
    } else {
      assert (rs + [r])[1..] == rs[1..] + [r];
      BlockOfMore(rs[1..], r);
    }
  }

  // ---------- the layout of a file ----------

  function FirstKey(block: seq<Record>): Key
  {
    if block == [] then [] else block[0].key
  }

  /** The index of blocks that lie one after another from `offset` on. */
  function IndexOf(blocks: seq<seq<Record>>, offset: nat): (index: seq<IndexEntry>)
    ensures |index| == |blocks|
    decreases |blocks|
  {
    if blocks == [] then []
    else
      var size := |Block(blocks[0])|;
      [IndexEntry(FirstKey(blocks[0]), offset, size)] + IndexOf(blocks[1..], offset + size)
  }

  function BlocksBytes(blocks: seq<seq<Record>>): Bytes
    decreases |blocks|
  {
    if blocks == [] then [] else Block(blocks[0]) + BlocksBytes(blocks[1..])
  }

  function Header(recordCount: nat, blockCount: nat, blockSize: nat): (s: Bytes)
    ensures |s| == HEADER_SIZE
  {
    U32Bytes(MAGIC) + U32Bytes(VERSION) + U32Bytes(recordCount) + U32Bytes(blockCount) + U32Bytes(blockSize)
  }

  function Footer(indexOffset: nat, indexSize: nat, bloomOffset: nat, bloomSize: nat): (s: Bytes)
    ensures |s| == FOOTER_SIZE - 4
  {
    U32Bytes(indexOffset) + U32Bytes(indexSize) + U32Bytes(bloomOffset) + U32Bytes(bloomSize)
  }

  /** Everything but the checksum, from the five parts of a file. */
  function Assembled(header: Bytes, body: Bytes, index: Bytes, bloom: Bytes): Bytes
  {
    header + body + index + bloom
    + Footer(|header| + |body|, |index|, |header| + |body| + |index|, |bloom|)
  }

  function FileOf(rs: seq<Record>, blockSize: nat, filter: Filter): (file: Bytes)
  {
    var blocks := Packed([], rs, blockSize);
    Seal(Assembled(Header(|rs|, |blocks|, blockSize), BlocksBytes(blocks),
                   IndexBytes(IndexOf(blocks, HEADER_SIZE)), filter.Encode()))
  }

  function KeysOf(rs: seq<Record>): (keys: seq<Key>)
    ensures |keys| == |rs|
  {
    seq(|rs|, i requires 0 <= i < |rs| => rs[i].key)
  }

  /** The filter of a file; `sizing` is what the floating-point formulas yield for a number of keys. */
  function FilterFor(rs: seq<Record>, sizing: nat -> (nat, nat)): (f: Filter)
    ensures f.Valid() && 1 <= f.numHashes <= 30
    ensures f.numBits == AtLeast64(sizing(if |rs| == 0 then 1 else |rs|).0)
  {
    var sizes := sizing(if |rs| == 0 then 1 else |rs|);
    Built(KeysOf(rs), AtLeast64(sizes.0), Between1And30(sizes.1))
  }

  /** The sizes of a filter, kept between 64 bits and any number, and between 1 and 30 hashes. */
  lemma FilterSizes(rs: seq<Record>, sizing: nat -> (nat, nat))
    ensures var (bits, hashes) := sizing(if |rs| == 0 then 1 else |rs|);
            && FilterFor(rs, sizing).numBits == (if bits < 64 then 64 else bits)
            && FilterFor(rs, sizing).numHashes == (if hashes < 1 then 1 else if hashes < 30 then hashes else 30)
  {
    hide Built;
  }

  lemma FilterContainsAll(rs: seq<Record>, sizing: nat -> (nat, nat))
    ensures forall r | r in rs :: FilterFor(rs, sizing).MightContain(r.key)
  {
    hide Built;
    var sizes := sizing(if |rs| == 0 then 1 else |rs|);
    forall r | r in rs
      ensures FilterFor(rs, sizing).MightContain(r.key)
    {
      var i :| 0 <= i < |rs| && rs[i] == r;
      assert KeysOf(rs)[i] == r.key;
      BuiltContains(KeysOf(rs), AtLeast64(sizes.0), Between1And30(sizes.1), r.key);
    }
  }

  // ---------- writing ----------

  /** `write_sstable_with_block_size`; `sizing` is what the formulas for the filter's sizes yield. */
  method WriteSsTable(entries: seq<Record>, blockSize: nat, sizing: nat -> (nat, nat)) returns (file: Bytes)
    ensures file == FileOf(entries, blockSize, FilterFor(entries, sizing))
  {
    hide *;
    ghost var filter := FilterFor(entries, sizing);
    var encodedBloom := BuildBloom(entries, sizing);
    var fileBuf, indexEntries := WriteBlocks(entries, blockSize);
    ghost var body := BlocksBytes(Packed([], entries, blockSize));
    ghost var placeholder := fileBuf[..20];
    assert fileBuf == placeholder + body;
    var indexData := EncodeIndex(indexEntries);
    var indexOffset := |fileBuf|;
    fileBuf := fileBuf + indexData;
    var bloomOffset := |fileBuf|;
    fileBuf := fileBuf + encodedBloom;
    fileBuf := fileBuf + U32Bytes(indexOffset);
    fileBuf := fileBuf + U32Bytes(|indexData|);
    fileBuf := fileBuf + U32Bytes(bloomOffset);
    fileBuf := fileBuf + U32Bytes(|encodedBloom|);
    fileBuf := Patched(fileBuf, 0, U32Bytes(MAGIC));
    fileBuf := Patched(fileBuf, 4, U32Bytes(VERSION));
    fileBuf := Patched(fileBuf, 8, U32Bytes(|entries|));
    fileBuf := Patched(fileBuf, 12, U32Bytes(|indexEntries|));
    fileBuf := Patched(fileBuf, 16, U32Bytes(blockSize));
    HeaderPatched(placeholder, body, indexData, encodedBloom, |entries|, |indexEntries|, blockSize);
    var table := BuildTable();
    var checksum := Crc32.Crc32(table, fileBuf);
    file := fileBuf + U32Bytes(checksum);
    FileIs(entries, blockSize, filter, fileBuf, file);
  }

  /** Room for the header, then the blocks one after another, and an index entry for each. */
  method WriteBlocks(entries: seq<Record>, blockSize: nat) returns (fileBuf: Bytes, indexEntries: seq<IndexEntry>)
    ensures |fileBuf| == 20 + |BlocksBytes(Packed([], entries, blockSize))|
    ensures fileBuf[20..] == BlocksBytes(Packed([], entries, blockSize))
    ensures indexEntries == IndexOf(Packed([], entries, blockSize), 20)
  {
    hide *;
    fileBuf := seq(20, _ => 0);
    indexEntries := [];
    var currentBlock: Bytes := [];
    var currentFirstKey: Option<Key> := None;
    ghost var current: seq<Record> := [];
    ghost var blocks: seq<seq<Record>> := [];
    ghost var placeholder := fileBuf;
    NothingPacked(20);
    assert placeholder + [] == placeholder;
    var n := 0;
    assert entries[0..] == entries;
    while n < |entries|
      invariant 0 <= n <= |entries|
      invariant blocks + Packed(current, entries[n..], blockSize) == Packed([], entries, blockSize)
      invariant currentBlock == Block(current) && (currentBlock == [] <==> current == [])
      invariant currentFirstKey == if current == [] then None else Some(FirstKey(current))
      invariant indexEntries == IndexOf(blocks, 20)
      invariant fileBuf == placeholder + BlocksBytes(blocks)
    {
      ghost var r, rest := entries[n], entries[n + 1..];
      var record := RecordBytes(entries[n]);
      assert entries[n..][1..] == rest;
      PackedStep(current, entries[n..], blockSize);
      if currentBlock != [] && |currentBlock| + |record| > blockSize {
        indexEntries := indexEntries + [IndexEntry(currentFirstKey.value, |fileBuf|, |currentBlock|)];
        fileBuf := fileBuf + currentBlock;
        OneMoreBlock(placeholder, blocks, current);
        assert blocks + ([current] + Packed([r], rest, blockSize)) == blocks + [current] + Packed([r], rest, blockSize);
        blocks := blocks + [current];
        currentBlock := [];
        current := [];
        currentFirstKey := Some(entries[n].key);
        NothingPacked(20);
        assert current + [r] == [r];
      }
      if currentFirstKey.None? {
        currentFirstKey := Some(entries[n].key);
      }
      BlockOfMore(current, entries[n]);
      FirstKeyOfMore(current, entries[n]);
      currentBlock := currentBlock + record;
      current := current + [entries[n]];
      assert |currentBlock| > 0 && |current| > 0;
      n := n + 1;
    }
    PackedEnd(current, entries[n..], blockSize);
    if currentBlock != [] {
      indexEntries := indexEntries + [IndexEntry(currentFirstKey.value, |fileBuf|, |currentBlock|)];
      fileBuf := fileBuf + currentBlock;
      OneMoreBlock(placeholder, blocks, current);
      blocks := blocks + [current];
    }
    assert blocks == Packed([], entries, blockSize);
  }

  /** `copy_from_slice` into a part of a buffer. */
  function Patched(buf: Bytes, at: nat, part: Bytes): (r: Bytes)
    requires at + |part| <= |buf|
    ensures |r| == |buf|
  {
    buf[..at] + part + buf[at + |part|..]
  }

  method BuildBloom(entries: seq<Record>, sizing: nat -> (nat, nat)) returns (encoded: Bytes)
    ensures encoded == FilterFor(entries, sizing).Encode()
  {
    var keys := KeysOf(entries);
    var sizes := sizing(if |keys| == 0 then 1 else |keys|);
    var bloom := FromEntries(keys, AtLeast64(sizes.0), Between1And30(sizes.1));
    encoded := bloom.Encode();
  }

  method EncodeIndex(index: seq<IndexEntry>) returns (data: Bytes)
    ensures data == IndexBytes(index)
  {
    data := [];
    var i := 0;
    assert index[0..] == index && data + IndexBytes(index) == IndexBytes(index);
    while i < |index|
      invariant 0 <= i <= |index|
      invariant data + IndexBytes(index[i..]) == IndexBytes(index)
    {
      assert index[i..][1..] == index[i + 1..];
      assert data + (EntryBytes(index[i]) + IndexBytes(index[i + 1..]))
          == data + EntryBytes(index[i]) + IndexBytes(index[i + 1..]);
      data := data + EntryBytes(index[i]);
      i := i + 1;
    }
    assert data + [] == data;
  }

  lemma NothingPacked(offset: nat)
    ensures Block([]) == [] && BlocksBytes([]) == [] && IndexOf([], offset) == []
  {
  }

  lemma FirstKeyOfMore(current: seq<Record>, r: Record)
    ensures FirstKey(current + [r]) == if current == [] then r.key else FirstKey(current)
  {
  }

  lemma PackedStep(current: seq<Record>, rest: seq<Record>, blockSize: nat)
    requires rest != []
    ensures RecordSize(rest[0]) == |RecordBytes(rest[0])| > 0
    ensures Packed(current, rest, blockSize)
         == if current != [] && |Block(current)| + RecordSize(rest[0]) > blockSize
            then [current] + Packed([rest[0]], rest[1..], blockSize)
            else Packed(current + [rest[0]], rest[1..], blockSize)
  {
  }

  lemma PackedEnd(current: seq<Record>, rest: seq<Record>, blockSize: nat)
    requires rest == []
    ensures Packed(current, rest, blockSize) == if current == [] then [] else [current]
  {
  }

  /** Closing a block adds its bytes and its index entry. */
  lemma OneMoreBlock(front: Bytes, blocks: seq<seq<Record>>, current: seq<Record>)
    ensures front + BlocksBytes(blocks + [current]) == front + BlocksBytes(blocks) + Block(current)
    ensures IndexOf(blocks + [current], |front|)
         == IndexOf(blocks, |front|) + [IndexEntry(FirstKey(current), |front + BlocksBytes(blocks)|, |Block(current)|)]
  {
    hide Block, FirstKey, BlocksBytes, IndexOf;
    BlocksBytesMore(blocks, current);
    IndexOfMore(blocks, current, |front|);
    assert front + (BlocksBytes(blocks) + Block(current)) == front + BlocksBytes(blocks) + Block(current);
  }

  lemma {:induction false} BlocksBytesMore(blocks: seq<seq<Record>>, current: seq<Record>)
    ensures BlocksBytes(blocks + [current]) == BlocksBytes(blocks) + Block(current)
    decreases |blocks|
  {
    hide Block;
    if blocks == [] {
      assert [current][1..] == [];
    } else {
      assert (blocks + [current])[1..] == blocks[1..] + [current];
      BlocksBytesMore(blocks[1..], current);
    }
  }

  lemma {:induction false} IndexOfMore(blocks: seq<seq<Record>>, current: seq<Record>, offset: nat)
    ensures IndexOf(blocks + [current], offset)
         == IndexOf(blocks, offset) + [IndexEntry(FirstKey(current), offset + |BlocksBytes(blocks)|, |Block(current)|)]
    decreases |blocks|
  {
    hide Block, FirstKey;
    if blocks == [] {
      assert [] + [current] == [current] && [current][1..] == [];
      assert IndexOf([current], offset)[1..] == [];
    } else {
      var next := offset + |Block(blocks[0])|;
      assert (blocks + [current])[1..] == blocks[1..] + [current] && (blocks + [current])[0] == blocks[0];
      IndexOfMore(blocks[1..], current, next);
      var head := IndexEntry(FirstKey(blocks[0]), offset, |Block(blocks[0])|);
      var last := IndexEntry(FirstKey(current), next + |BlocksBytes(blocks[1..])|, |Block(current)|);
      assert [head] + (IndexOf(blocks[1..], next) + [last]) == [head] + IndexOf(blocks[1..], next) + [last];
    }
  }

  /** The header goes over its placeholder. */
  lemma HeaderPatched(placeholder: Bytes, body: Bytes, index: Bytes, bloom: Bytes, recordCount: nat, blockCount: nat,
          blockSize: nat)
    requires |placeholder| == 20
    ensures var offset := 20 + |body|;
            var buf := placeholder + body + index + bloom
                       + U32Bytes(offset) + U32Bytes(|index|) + U32Bytes(offset + |index|) + U32Bytes(|bloom|);
            Patched(Patched(Patched(Patched(Patched(buf, 0, U32Bytes(MAGIC)), 4, U32Bytes(VERSION)),
                                    8, U32Bytes(recordCount)),
                            12, U32Bytes(blockCount)), 16, U32Bytes(blockSize))
            == Assembled(Header(recordCount, blockCount, blockSize), body, index, bloom)
  {
    hide LeBytes, U32Bytes;
    var offset := 20 + |body|;
    var tail := body + index + bloom
                + U32Bytes(offset) + U32Bytes(|index|) + U32Bytes(offset + |index|) + U32Bytes(|bloom|);
    var buf := placeholder + body + index + bloom
               + U32Bytes(offset) + U32Bytes(|index|) + U32Bytes(offset + |index|) + U32Bytes(|bloom|);
    assert buf == placeholder + tail;
    PatchedFront(placeholder, tail, U32Bytes(MAGIC), U32Bytes(VERSION), U32Bytes(recordCount), U32Bytes(blockCount),
                 U32Bytes(blockSize));
    assert Header(recordCount, blockCount, blockSize) + tail
        == Assembled(Header(recordCount, blockCount, blockSize), body, index, bloom);
  }

  lemma PatchedFront(front: Bytes, tail: Bytes, a: Bytes, b: Bytes, c: Bytes, d: Bytes, e: Bytes)
    requires |front| == 20 && |a| == |b| == |c| == |d| == |e| == 4
    ensures Patched(Patched(Patched(Patched(Patched(front + tail, 0, a), 4, b), 8, c), 12, d), 16, e)
         == a + b + c + d + e + tail
  {
    var f1 := Patched(front + tail, 0, a);
    assert f1 == a + (front + tail)[4..];
    var f2 := Patched(f1, 4, b);
    assert f2 == a + b + (front + tail)[8..];
    var f3 := Patched(f2, 8, c);
    assert f3 == a + b + c + (front + tail)[12..];
    var f4 := Patched(f3, 12, d);
    assert f4 == a + b + c + d + (front + tail)[16..];
    assert Patched(f4, 16, e) == a + b + c + d + e + (front + tail)[20..];
  }

  lemma FileIs(rs: seq<Record>, blockSize: nat, filter: Filter, buf: Bytes, file: Bytes)
    requires var blocks := Packed([], rs, blockSize);
             buf == Assembled(Header(|rs|, |blocks|, blockSize), BlocksBytes(blocks),
                              IndexBytes(IndexOf(blocks, 20)), filter.Encode())
    requires file == buf + U32Bytes(Checksum(buf))
    ensures file == FileOf(rs, blockSize, filter)
  {
    hide Xor, Assembled, Checksum;
  }
}
