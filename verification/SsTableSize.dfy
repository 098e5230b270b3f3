/**
 How long an SSTable file is, and what becomes of one that is too long for the
 u32 fields that say where its parts are.
 */
module SsTableSize {
  import opened Bytes
  import opened Records
  import opened Frames
  import opened Crc32
  import opened Wal
  import opened Bloom
  import opened Blocks
  import opened SsTable
  import opened SsTableReader
  import opened SsTableRoundTrip

  // ---------- lengths ----------

  /** The length of the index: an entry for each block, with the block's first key. */
  function IndexLength(blocks: seq<seq<Record>>): nat
    decreases |blocks|
  {
    if blocks == [] then 0 else 12 + |SsTable.FirstKey(blocks[0])| + IndexLength(blocks[1..])
  }

  lemma {:induction false} BlockLength(rs: seq<Record>)
    ensures |Block(rs)| == SizeOf(rs)
    decreases |rs|
  {
    if rs != [] {
      BlockLength(rs[1..]);
      assert [rs[0]] + rs[1..] == rs;
      SizeOfConcat([rs[0]], rs[1..]);
      SizeOfOne(rs[0]);
    }
  }

  lemma {:induction false} BlocksLength(blocks: seq<seq<Record>>)
    ensures |BlocksBytes(blocks)| == SizeOf(Flat(blocks))
    decreases |blocks|
  {
    hide Block, SizeOf;
    if blocks == [] {
      BlockLength([]);
      assert |Block([])| == 0 by {
        NothingPacked(0);
      }
    } else {
      BlockLength(blocks[0]);
      BlocksLength(blocks[1..]);
      SizeOfConcat(blocks[0], Flat(blocks[1..]));
    }
  }

  lemma {:induction false} IndexBytesLength(blocks: seq<seq<Record>>, offset: nat)
    ensures |IndexBytes(IndexOf(blocks, offset))| == IndexLength(blocks)
    decreases |blocks|
  {
    hide Block, SsTable.FirstKey;
    if blocks != [] {
      var next := offset + |Block(blocks[0])|;
      IndexBytesLength(blocks[1..], next);
      assert IndexOf(blocks, offset)[1..] == IndexOf(blocks[1..], next);
    }
  }

  /** Where the filter of a file starts. */
  lemma BloomOffsetIs(rs: seq<Record>, blockSize: nat)
    ensures BloomOffset(rs, blockSize) == HEADER_SIZE + SizeOf(rs) + IndexLength(Packed([], rs, blockSize))
  {
    hide Packed, BlocksBytes, IndexOf, IndexBytes, SizeOf;
    BlocksLength(Packed([], rs, blockSize));
    IndexBytesLength(Packed([], rs, blockSize), HEADER_SIZE);
    PackedWhole(rs, blockSize);
  }

  /** A file is longer than its records: header, index, filter and footer come on top. */
  lemma FileLength(rs: seq<Record>, blockSize: nat, filter: Filter)
    ensures |FileOf(rs, blockSize, filter)|
         == HEADER_SIZE + SizeOf(rs) + IndexLength(Packed([], rs, blockSize)) + 8 + 8 * |filter.bits| + FOOTER_SIZE
  {
    hide Packed, BlocksBytes, IndexOf, IndexBytes, SizeOf, Trailer, Header;
    BloomOffsetIs(rs, blockSize);
    var blocks := Packed([], rs, blockSize);
    AssembledParts(Header(|rs|, |blocks|, blockSize), BlocksBytes(blocks), IndexBytes(IndexOf(blocks, HEADER_SIZE)),
                   filter.Encode());
  }

  // ---------- parts that are not where the footer says ----------

  /** The parts of a file as the loader takes them: lengths and offsets cut to 32 bits. */
  ghost predicate PartsFound(rs: seq<Record>, blockSize: nat, filter: Filter)
  {
    var blocks := Packed([], rs, blockSize);
    var index := IndexOf(blocks, HEADER_SIZE);
    var file := FileOf(rs, blockSize, filter);
    var indexOffset, indexSize := HEADER_SIZE + |BlocksBytes(blocks)|, |IndexBytes(index)|;
    var indexData := Slice(file, indexOffset % U32_MODULUS, indexSize % U32_MODULUS);
    var bloomData := Slice(file, BloomOffset(rs, blockSize) % U32_MODULUS, |filter.Encode()| % U32_MODULUS);
    && |rs| < U32_MODULUS && |blocks| < U32_MODULUS
    && indexData.Some? && DecodedIndex(indexData.value).Ok? && DecodedIndex(indexData.value).value.items == index
    && bloomData.Some? && DecodeFilter(bloomData.value) == Some(filter)
  }

  ghost predicate ParsesAsWritten(rs: seq<Record>, blockSize: nat, filter: Filter)
  {
    var blocks := Packed([], rs, blockSize);
    Parse(FileOf(rs, blockSize, filter))
    == Ok(Loaded(FileOf(rs, blockSize, filter), IndexOf(blocks, HEADER_SIZE), filter, |rs|, |blocks|, None))
  }

  /** A file is parsed as it was written exactly when its parts are found at their offsets cut to 32 bits. */
  lemma ParsesAsWrittenIff(rs: seq<Record>, blockSize: nat, filter: Filter)
    ensures ParsesAsWritten(rs, blockSize, filter) <==> PartsFound(rs, blockSize, filter)
  {
    hide Xor, Parse, Packed, IndexOf, BlocksBytes, IndexBytes, DecodedIndex, DecodeFilter, Seal, Assembled, Block,
      Slice;
    var blocks := Packed([], rs, blockSize);
    var index := IndexOf(blocks, HEADER_SIZE);
    AssembledParsesCut(|rs|, |blocks|, blockSize, BlocksBytes(blocks), IndexBytes(index), filter.Encode());
  }

  /** Every file whose offsets fit is among them. */
  lemma FittingFileParses(rs: seq<Record>, blockSize: nat, filter: Filter)
    requires filter.Valid() && FileFits(rs, blockSize, filter)
    ensures ParsesAsWritten(rs, blockSize, filter)
  {
    hide *;
    WrittenParses(rs, blockSize, filter);
    ParsesIs(rs, blockSize, filter);
  }

  lemma ParsesIs(rs: seq<Record>, blockSize: nat, filter: Filter)
    ensures ParsesAsWritten(rs, blockSize, filter) <==>
              Parse(FileOf(rs, blockSize, filter))
              == Ok(Loaded(FileOf(rs, blockSize, filter), IndexOf(Packed([], rs, blockSize), HEADER_SIZE), filter, |rs|,
                           |Packed([], rs, blockSize)|, None))
  {
  }

  /** Among them is no file with a block that starts beyond u32, nor one with a filter too large for its fields. */
  lemma UnfitFileDoesNotParse(rs: seq<Record>, blockSize: nat, filter: Filter)
    requires ParsesAsWritten(rs, blockSize, filter)
    ensures forall e | e in IndexOf(Packed([], rs, blockSize), HEADER_SIZE) :: EntryFits(e)
    ensures filter.numBits < U32_MODULUS && filter.numHashes < U32_MODULUS
    ensures |rs| < U32_MODULUS
  {
    hide Xor, Packed, IndexOf, BlocksBytes, IndexBytes, DecodedIndex, DecodeFilter, FileOf, Block, Slice;
    ParsesAsWrittenIff(rs, blockSize, filter);
    var blocks := Packed([], rs, blockSize);
    var file := FileOf(rs, blockSize, filter);
    var indexSize := |IndexBytes(IndexOf(blocks, HEADER_SIZE))|;
    DecodedEntriesFit(Slice(file, (HEADER_SIZE + |BlocksBytes(blocks)|) % U32_MODULUS, indexSize % U32_MODULUS).value);
    DecodedFilterFits(Slice(file, BloomOffset(rs, blockSize) % U32_MODULUS, |filter.Encode()| % U32_MODULUS).value);
  }

  lemma DecodedFilterFits(data: Bytes)
    ensures DecodeFilter(data).Some? ==>
              DecodeFilter(data).value.numBits < U32_MODULUS && DecodeFilter(data).value.numHashes < U32_MODULUS
  {
    hide WordsAt, U32At;
  }

  lemma {:induction false} DecodedEntriesFit(data: Bytes)
    requires DecodedIndex(data).Ok?
    ensures forall e | e in DecodedIndex(data).value.items :: EntryFits(e)
    decreases |data|
  {
    hide U32At;
    var first := FirstEntryOf(data);
    if first.Frame? && 0 < first.size <= |data| {
      DecodedEntriesFit(data[first.size..]);
    }
  }

  /**
   The failing input: one record that its log takes, 2^32 - 1 bytes long. The
   offset of the index wraps to the last byte of the header, so the record is
   read as the index, and the file that was written is not loaded again.
   */
  lemma LongRecordIsNotLoaded(k: Key, v: Bytes, blockSize: nat, filter: Filter)
    requires 1 <= |k| < 0x1_0000 && RecordSize(Record(k, Value(v))) == U32_MODULUS - 1
    ensures Fits(Set(k, v)) && !FileFits([Record(k, Value(v))], blockSize, filter)
    ensures LoadedFrom(FileOf([Record(k, Value(v))], blockSize, filter)) == Err(TruncatedIndexKey)
  {
    hide Xor, Trailer, Parse, ParseParts, Slice, LeValue, LeBytes, U32Bytes, Block, RecordBytes, DecodedIndex, Header;
    var r := Record(k, Value(v));
    var blocks := Packed([], [r], blockSize);
    PackedOne(r, blockSize);
    var header, body := Header(1, 1, blockSize), BlocksBytes(blocks);
    var index := IndexBytes(IndexOf(blocks, HEADER_SIZE));
    OneBlock(r);
    BloomOffsetIs([r], blockSize);
    IndexBytesLength(blocks, HEADER_SIZE);
    SizeOfOne(r);
    AssembledParsesCut(1, 1, blockSize, body, index, filter.Encode());
    AssembledParts(header, body, index, filter.Encode());
    var file := FileOf([r], blockSize, filter);
    assert file[..HEADER_SIZE + |body|] == header + body;
    RecordAsIndex(file, header, body, r, |index|);
    TruncatedStops(file, Slice(file, 19, |index|),
                   Slice(file, (HEADER_SIZE + |body| + |index|) % U32_MODULUS, |filter.Encode()| % U32_MODULUS));
  }

  lemma PackedOne(r: Record, blockSize: nat)
    ensures Packed([], [r], blockSize) == [[r]]
  {
    assert [] + [r] == [r] && [r][1..] == [];
  }

  lemma OneBlock(r: Record)
    ensures BlocksBytes([[r]]) == RecordBytes(r) && |RecordBytes(r)| == RecordSize(r)
    ensures IndexLength([[r]]) == 12 + |r.key|
  {
    hide RecordBytes;
    assert [[r]][1..] == [] && [r][1..] == [];
    assert Block([]) == [] && Block([r]) == RecordBytes(r) + Block([r][1..]);
    assert RecordBytes(r) + [] == RecordBytes(r);
    assert BlocksBytes([[r]][1..]) == [] && IndexLength([[r]][1..]) == 0;
  }

  lemma TruncatedStops(file: Bytes, index: Option<Bytes>, bloom: Option<Bytes>)
    requires index.Some? && DecodedIndex(index.value) == Err(TruncatedIndexKey)
    ensures ParseParts(file, 1, 1, index, bloom) == Err(TruncatedIndexKey)
  {
    hide DecodedIndex;
  }

  /** What a record says as an index: a key far longer than the bytes that follow. */
  lemma RecordAsIndex(file: Bytes, header: Bytes, body: Bytes, r: Record, indexSize: nat)
    requires |header| == HEADER_SIZE && HEADER_SIZE + |body| <= |file| && file[..HEADER_SIZE + |body|] == header + body
    requires body == RecordBytes(r) && r.entry.Value? && 1 <= |r.key| < 0x1_0000
    requires indexSize == 12 + |r.key| && 19 + indexSize <= |file|
    ensures Slice(file, 19, indexSize).Some? && DecodedIndex(Slice(file, 19, indexSize).value) == Err(TruncatedIndexKey)
  {
    hide LeValue, LeBytes;
    var s := file[19..19 + indexSize];
    var n := |r.key|;
    BodyLayout(AsLogged(r));
    hide U32Bytes;
    assert forall i | 0 <= i < 4 :: s[i] == file[..HEADER_SIZE + |body|][19 + i] == (header + body)[19 + i];
    assert s[0] == header[19] && s[1] == body[0] && s[2] == body[1] && s[3] == body[2];
    assert body[1] == body[1..5][0] == U32Bytes(n)[0] && body[2] == body[1..5][1] == U32Bytes(n)[1];
    LowBytes(n);
    assert s[0..4] == [header[19], 1, n % 256, n / 256 % 256];
    FourByteValue(header[19], 1, n % 256, n / 256 % 256);
    assert U32At(s, 0) == header[19] + 256 * (1 + 256 * (n % 256 + 256 * (n / 256 % 256)));
    LongKeyRead(n);
    assert FirstEntryOf(s) == Bad(TruncatedIndexKey);
  }

  lemma LongKeyRead(n: nat)
    requires 1 <= n < 0x1_0000
    ensures 256 * (1 + 256 * (n % 256 + 256 * (n / 256 % 256))) > n
  {
  }

  lemma LowBytes(n: nat)
    ensures U32Bytes(n)[0] == n % 256 && U32Bytes(n)[1] == n / 256 % 256
  {
    assert U32Bytes(n) == [n % 256] + LeBytes(n / 256, 3);
    assert LeBytes(n / 256, 3) == [n / 256 % 256] + LeBytes(n / 256 / 256, 2);
  }

  lemma FourByteValue(a: Byte, b: Byte, c: Byte, d: Byte)
    ensures LeValue([a, b, c, d]) == a as int + 256 * (b as int + 256 * (c as int + 256 * d as int))
  {
    assert [a, b, c, d][1..] == [b, c, d] && [b, c, d][1..] == [c, d] && [c, d][1..] == [d] && [d][1..] == [];
    assert LeValue([d]) == d as int;
    assert LeValue([c, d]) == c as int + 256 * LeValue([d]);
    assert LeValue([b, c, d]) == b as int + 256 * LeValue([c, d]);
  }
}
