/**
 What the bytes on disk are, in numbers: the order of the bytes of a number, the
 fields of a log record, of a block, of an index and of an SSTable file, and what
 a reader answers when the bytes are not what a writer writes.
 */
module Layout {
  import opened Bytes
  import opened Crc32
  import opened Records
  import opened Frames
  import opened Wal
  import opened Bloom
  import opened Blocks
  import opened SsTable
  import opened SsTableReader

  // ---------- numbers ----------

  /** A u32 is stored with its lowest byte first. */
  lemma LittleEndian(n: nat)
    ensures U32Bytes(n) == [n % 0x100, n / 0x100 % 0x100, n / 0x1_0000 % 0x100, n / 0x100_0000 % 0x100]
  {
    LowByteFirst(n, 4);
    LowByteFirst(n / 0x100, 3);
    LowByteFirst(n / 0x100 / 0x100, 2);
    LowByteFirst(n / 0x100 / 0x100 / 0x100, 1);
    NoBytesOf(n / 0x100 / 0x100 / 0x100 / 0x100);
    hide LeBytes;
    assert n / 0x100 / 0x100 == n / 0x1_0000 && n / 0x1_0000 / 0x100 == n / 0x100_0000;
  }

  lemma LowByteFirst(n: nat, count: nat)
    requires count > 0
    ensures LeBytes(n, count) == [n % 0x100] + LeBytes(n / 0x100, count - 1)
  {
  }

  lemma NoBytesOf(n: nat)
    ensures LeBytes(n, 0) == []
  {
  }

  /** A u64 is stored with its lower half first. */
  lemma LowHalfFirst(n: nat)
    ensures LeBytes(n, 8) == U32Bytes(n) + U32Bytes(n / 0x1_0000_0000)
  {
    hide LeBytes;
    LowByteFirst(n, 8);
    LowByteFirst(n / 0x100, 7);
    LowByteFirst(n / 0x100 / 0x100, 6);
    LowByteFirst(n / 0x100 / 0x100 / 0x100, 5);
    LittleEndian(n);
    assert n / 0x100 / 0x100 == n / 0x1_0000 && n / 0x1_0000 / 0x100 == n / 0x100_0000;
    assert n / 0x100_0000 / 0x100 == n / 0x1_0000_0000;
  }

  lemma NumberAt(data: Bytes, offset: nat)
    requires offset + 4 <= |data|
    ensures U32At(data, offset) == data[offset] as int + 0x100 * data[offset + 1] as int
                                   + 0x1_0000 * data[offset + 2] as int + 0x100_0000 * data[offset + 3] as int
  {
    hide LeValue;
    var s := data[offset..offset + 4];
    ValueOfMore(s);
    ValueOfMore(s[1..]);
    ValueOfMore(s[2..]);
    ValueOfMore(s[3..]);
    assert s[1..][1..] == s[2..] && s[2..][1..] == s[3..] && s[3..][1..] == [];
    ValueOfNone();
  }

  lemma ValueOfMore(s: Bytes)
    requires s != []
    ensures LeValue(s) == s[0] as int + 0x100 * LeValue(s[1..])
  {
  }

  lemma ValueOfNone()
    ensures LeValue([]) == 0
  {
  }

  // ---------- the log ----------

  /** A log record: length, operation, lengths, key, value and checksum. */
  lemma LogRecordLayout(r: WalRecord)
    ensures var value := if r.Set? then r.value else [];
            var front := U32Bytes(9 + |r.key| + |value|) + [if r.Set? then 1 else 2]
                         + U32Bytes(|r.key|) + U32Bytes(|value|) + r.key + value;
            Encode(r) == front + U32Bytes(Checksum(front))
  {
    hide U32Bytes, LeBytes, Checksum;
    var value := if r.Set? then r.value else [];
    var front := U32Bytes(9 + |r.key| + |value|) + [if r.Set? then 1 else 2]
                 + U32Bytes(|r.key|) + U32Bytes(|value|) + r.key + value;
    assert front == U32Bytes(BodyLength(r)) + Body(r);
    TrailerIs(front);
  }

  /** How a log ends: cleanly, or inside a record, which only a tolerant reader takes for a torn append. */
  lemma LogEnds(rs: seq<WalRecord>, rest: Bytes, tolerant: bool)
    requires AllFit(rs) && (|rest| < 4 || U32At(rest, 0) < 9 || |rest| < 8 + U32At(rest, 0))
    ensures Read(Log(rs) + rest, tolerant)
         == if tolerant || rest == [] || (|rest| >= 4 && U32At(rest, 0) < 9) then Ok(Parsed(rs, |Log(rs)|))
            else Err(Incomplete)
  {
    hide *;
    LogRead(rs, rest, tolerant);
    TailIsRead(rest, tolerant);
    NothingAfter<WalRecord, WalError>(rs, |Log(rs)|);
    PrependError<WalRecord, WalError>(rs, |Log(rs)|);
  }

  lemma TailIsRead(rest: Bytes, tolerant: bool)
    requires |rest| < 4 || U32At(rest, 0) < 9 || |rest| < 8 + U32At(rest, 0)
    ensures Read(rest, tolerant)
         == if tolerant || rest == [] || (|rest| >= 4 && U32At(rest, 0) < 9) then Ok(Parsed([], 0))
            else Err(Incomplete)
  {
    hide U32At, Sealed, Wal.Decode;
  }

  /**
   How a log goes on with a record of `n` bytes between length and checksum: the
   record is read, and then what follows it, or the log is refused.
   */
  lemma LogGoesOn(rs: seq<WalRecord>, rest: Bytes, n: nat, tolerant: bool)
    requires AllFit(rs) && 9 <= n <= |rest| - 8 && U32At(rest, 0) == n
    ensures var stored, op, k, v := rest[4 + n..8 + n], rest[4], U32At(rest, 5), U32At(rest, 9);
            Read(Log(rs) + rest, tolerant)
            == if stored != U32Bytes(Checksum(rest[..4 + n])) then Err(ChecksumMismatch)
               else if n < 9 + k + v then Err(Truncated)
               else if op != 1 && op != 2 then Err(UnknownOp)
               else if op == 2 && v > 0 then Err(DeleteWithValue)
               else
                 var r := if op == 1 then Set(rest[13..13 + k], rest[13 + k..13 + k + v])
                          else Delete(rest[13..13 + k]);
                 Prepend(rs + [r], |Log(rs)| + (8 + n), Read(rest[8 + n..], tolerant))
  {
    hide *;
    LogRead(rs, rest, tolerant);
    PrependError<WalRecord, WalError>(rs, |Log(rs)|);
    RecordIsRead(rest, n, tolerant);
    if FirstRecord(rest, tolerant).Frame? {
      ReadStep(rest, tolerant);
      PrependCons(rs, |Log(rs)|, FirstRecord(rest, tolerant).item, 8 + n, Read(rest[8 + n..], tolerant));
    } else {
      ReadEnd(rest, tolerant);
    }
  }

  lemma RecordIsRead(rest: Bytes, n: nat, tolerant: bool)
    requires 9 <= n <= |rest| - 8 && U32At(rest, 0) == n
    ensures var stored, op, k, v := rest[4 + n..8 + n], rest[4], U32At(rest, 5), U32At(rest, 9);
            FirstRecord(rest, tolerant)
            == if stored != U32Bytes(Checksum(rest[..4 + n])) then Bad(ChecksumMismatch)
               else if n < 9 + k + v then Bad(Truncated)
               else if op != 1 && op != 2 then Bad(UnknownOp)
               else if op == 2 && v > 0 then Bad(DeleteWithValue)
               else Frame(if op == 1 then Set(rest[13..13 + k], rest[13 + k..13 + k + v]) else Delete(rest[13..13 + k]),
                          8 + n)
  {
    hide Checksum, LeBytes, LeValue, Pow256;
    var whole, body := rest[..8 + n], rest[4..4 + n];
    assert whole[|whole| - 4..] == rest[4 + n..8 + n] && whole[..|whole| - 4] == rest[..4 + n];
    TrailerIs(rest[..4 + n]);
    SliceOfSlice(rest, 4, 4 + n, 1, 5);
    SliceOfSlice(rest, 4, 4 + n, 5, 9);
    var k, v := U32At(rest, 5), U32At(rest, 9);
    if n >= 9 + k + v {
      SliceOfSlice(rest, 4, 4 + n, 9, 9 + k);
      SliceOfSlice(rest, 4, 4 + n, 9 + k, 9 + k + v);
    }
  }

  lemma SliceOfSlice(data: Bytes, a: nat, b: nat, i: nat, j: nat)
    requires i <= j && a + j <= b <= |data|
    ensures data[a..b][i..j] == data[a + i..a + j]
  {
    var part, whole := data[a..b][i..j], data[a + i..a + j];
    assert |part| == |whole| && forall n | 0 <= n < |part| :: part[n] == whole[n];
  }

  // ---------- tables ----------

  lemma BlockRead(rs: seq<Record>, rest: Bytes)
    requires forall r | r in rs :: RecordFits(r)
    ensures DecodedBlock(Block(rs) + rest) == Prepend(rs, |Block(rs)|, DecodedBlock(rest))
  {
    hide FirstRecordOf, RecordBytes, RecordFits;
    forall r | r in rs
      ensures Reads(RecordReader(), RecordEncoder(), r)
    {
      forall more
        ensures RecordReader()(RecordEncoder()(r) + more) == Frame(r, |RecordEncoder()(r)|)
      {
        Blocks.RecordIsRead(r, more);
      }
    }
    ReadEncoded(RecordReader(), RecordEncoder(), rs, rest);
  }

  /** How a block goes on: fewer than nine bytes are passed over, a value of a deleted key as well. */
  lemma BlockGoesOn(rs: seq<Record>, rest: Bytes)
    requires forall r | r in rs :: RecordFits(r)
    ensures |rest| < 9 ==> DecodedBlock(Block(rs) + rest) == Ok(Parsed(rs, |Block(rs)|))
    ensures |rest| >= 9 ==>
              var op, k, v := rest[0], U32At(rest, 1), U32At(rest, 5);
              DecodedBlock(Block(rs) + rest)
              == if |rest| < 9 + k + v then Err(TruncatedRecord)
                 else if op != 1 && op != 2 then Err(UnknownRecordOp)
                 else
                   var r := Record(rest[9..9 + k], if op == 1 then Value(rest[9 + k..9 + k + v]) else Tombstone);
                   Prepend(rs + [r], |Block(rs)| + (9 + k + v), DecodedBlock(rest[9 + k + v..]))
  {
    hide *;
    BlockRead(rs, rest);
    NothingAfter<Record, SstError>(rs, |Block(rs)|);
    PrependError<Record, SstError>(rs, |Block(rs)|);
    BlockStep(rest);
    if |rest| >= 9 {
      var op, k, v := rest[0], U32At(rest, 1), U32At(rest, 5);
      if |rest| >= 9 + k + v && (op == 1 || op == 2) {
        var r := Record(rest[9..9 + k], if op == 1 then Value(rest[9 + k..9 + k + v]) else Tombstone);
        PrependCons(rs, |Block(rs)|, r, 9 + k + v, DecodedBlock(rest[9 + k + v..]));
      }
    }
  }

  lemma BlockStep(rest: Bytes)
    ensures |rest| < 9 ==> DecodedBlock(rest) == Ok(Parsed([], 0))
    ensures |rest| >= 9 ==>
              var op, k, v := rest[0], U32At(rest, 1), U32At(rest, 5);
              DecodedBlock(rest)
              == if |rest| < 9 + k + v then Err(TruncatedRecord)
                 else if op != 1 && op != 2 then Err(UnknownRecordOp)
                 else Cons(Record(rest[9..9 + k], if op == 1 then Value(rest[9 + k..9 + k + v]) else Tombstone),
                           9 + k + v, DecodedBlock(rest[9 + k + v..]))
  {
    hide U32At;
  }

  lemma IndexRead(index: seq<IndexEntry>, rest: Bytes)
    requires forall e | e in index :: EntryFits(e)
    ensures DecodedIndex(IndexBytes(index) + rest) == Prepend(index, |IndexBytes(index)|, DecodedIndex(rest))
  {
    hide FirstEntryOf, EntryBytes, EntryFits;
    forall e | e in index
      ensures Reads(EntryReader(), EntryEncoder(), e)
    {
      forall more
        ensures EntryReader()(EntryEncoder()(e) + more) == Frame(e, |EntryEncoder()(e)|)
      {
        EntryIsRead(e, more);
      }
    }
    ReadEncoded(EntryReader(), EntryEncoder(), index, rest);
  }

  /** How an index goes on: fewer than eight bytes are passed over. */
  lemma IndexGoesOn(index: seq<IndexEntry>, rest: Bytes)
    requires forall e | e in index :: EntryFits(e)
    ensures |rest| < 8 ==> DecodedIndex(IndexBytes(index) + rest) == Ok(Parsed(index, |IndexBytes(index)|))
    ensures |rest| >= 8 ==>
              var k := U32At(rest, 0);
              DecodedIndex(IndexBytes(index) + rest)
              == if |rest| < 12 + k then Err(TruncatedIndexKey)
                 else
                   var e := IndexEntry(rest[4..4 + k], U32At(rest, 4 + k), U32At(rest, 8 + k));
                   Prepend(index + [e], |IndexBytes(index)| + (12 + k), DecodedIndex(rest[12 + k..]))
  {
    hide *;
    IndexRead(index, rest);
    NothingAfter<IndexEntry, SstError>(index, |IndexBytes(index)|);
    PrependError<IndexEntry, SstError>(index, |IndexBytes(index)|);
    IndexStep(rest);
    if |rest| >= 8 && |rest| >= 12 + U32At(rest, 0) {
      var k := U32At(rest, 0);
      var e := IndexEntry(rest[4..4 + k], U32At(rest, 4 + k), U32At(rest, 8 + k));
      PrependCons(index, |IndexBytes(index)|, e, 12 + k, DecodedIndex(rest[12 + k..]));
    }
  }

  lemma IndexStep(rest: Bytes)
    ensures |rest| < 8 ==> DecodedIndex(rest) == Ok(Parsed([], 0))
    ensures |rest| >= 8 ==>
              var k := U32At(rest, 0);
              DecodedIndex(rest)
              == if |rest| < 12 + k then Err(TruncatedIndexKey)
                 else Cons(IndexEntry(rest[4..4 + k], U32At(rest, 4 + k), U32At(rest, 8 + k)), 12 + k,
                           DecodedIndex(rest[12 + k..]))
  {
    hide U32At;
  }

  /** A stored filter: its two sizes, then 64 bits at a time. */
  lemma FilterLayout(f: Filter, i: nat)
    requires i < |f.bits|
    ensures |f.Encode()| == 8 + 8 * |f.bits|
    ensures f.Encode()[..8] == U32Bytes(f.numBits) + U32Bytes(f.numHashes)
    ensures f.Encode()[8 + 8 * i..16 + 8 * i] == U32Bytes(f.bits[i]) + U32Bytes(f.bits[i] / 0x1_0000_0000)
  {
    hide LeBytes, WordBytes, U32Bytes;
    WordLayout(f.bits, i);
    LowHalfFirst(f.bits[i]);
    var sizes, words := U32Bytes(f.numBits) + U32Bytes(f.numHashes), WordBytes(f.bits);
    assert f.Encode() == sizes + words;
    DropAndTake(f.Encode(), 8, 8 * i, 8 + 8 * i);
    assert f.Encode()[8..] == words;
  }

  lemma {:induction false} WordLayout(words: seq<Word>, i: nat)
    requires i < |words|
    ensures WordBytes(words)[8 * i..8 + 8 * i] == LeBytes(words[i], 8)
    decreases i
  {
    hide LeBytes;
    if i > 0 {
      WordLayout(words[1..], i - 1);
      DropAndTake(WordBytes(words), 8, 8 * (i - 1), 8 * i);
      assert WordBytes(words)[8..] == WordBytes(words[1..]);
    }
  }

  /** A table's file: "BBEP", version 2, the counts, blocks, index, filter, where they are, and a checksum. */
  lemma TableFileLayout(rs: seq<Record>, blockSize: nat, filter: Filter)
    ensures var blocks := Packed([], rs, blockSize);
            var body, index, bloom := BlocksBytes(blocks), IndexBytes(IndexOf(blocks, 20)), filter.Encode();
            var front := [0x42, 0x42, 0x45, 0x50] + [2, 0, 0, 0]
                         + U32Bytes(|rs|) + U32Bytes(|blocks|) + U32Bytes(blockSize) + body + index + bloom
                         + U32Bytes(20 + |body|) + U32Bytes(|index|) + U32Bytes(20 + |body| + |index|)
                         + U32Bytes(|bloom|);
            FileOf(rs, blockSize, filter) == front + U32Bytes(Checksum(front))
  {
    hide *;
    FileIsSealed(rs, blockSize, filter);
    var blocks := Packed([], rs, blockSize);
    var body, index, bloom := BlocksBytes(blocks), IndexBytes(IndexOf(blocks, 20)), filter.Encode();
    MagicAndVersion();
    PartsInOrder(|rs|, |blocks|, blockSize, body, index, bloom);
  }

  lemma FileIsSealed(rs: seq<Record>, blockSize: nat, filter: Filter)
    ensures var blocks := Packed([], rs, blockSize);
            var front := Assembled(Header(|rs|, |blocks|, blockSize), BlocksBytes(blocks),
                                   IndexBytes(IndexOf(blocks, 20)), filter.Encode());
            FileOf(rs, blockSize, filter) == front + U32Bytes(Checksum(front))
  {
    hide Checksum, Assembled, Packed, BlocksBytes, IndexOf, Header;
  }

  lemma MagicAndVersion()
    ensures U32Bytes(MAGIC) == [0x42, 0x42, 0x45, 0x50] && U32Bytes(VERSION) == [2, 0, 0, 0]
    ensures MAGIC < U32_MODULUS && VERSION < U32_MODULUS
  {
    LittleEndian(MAGIC);
    LittleEndian(VERSION);
  }

  lemma PartsInOrder(records: nat, blocks: nat, blockSize: nat, body: Bytes, index: Bytes, bloom: Bytes)
    ensures Assembled(Header(records, blocks, blockSize), body, index, bloom)
         == U32Bytes(MAGIC) + U32Bytes(VERSION) + U32Bytes(records) + U32Bytes(blocks) + U32Bytes(blockSize)
            + body + index + bloom
            + U32Bytes(20 + |body|) + U32Bytes(|index|) + U32Bytes(20 + |body| + |index|) + U32Bytes(|bloom|)
  {
    hide U32Bytes, LeBytes;
  }

  /** What loading a file answers, test by test. */
  lemma LoadingRefuses(data: Bytes)
    ensures |data| < 40 ==> LoadedFrom(data) == Err(FileTooShort)
    ensures |data| >= 40 ==>
              && (data[..4] != [0x42, 0x42, 0x45, 0x50] ==> LoadedFrom(data) == Err(InvalidMagic))
              && (data[..4] == [0x42, 0x42, 0x45, 0x50] ==>
                    && (data[4..8] != [2, 0, 0, 0] ==> LoadedFrom(data) == Err(UnsupportedVersion))
                    && (data[4..8] == [2, 0, 0, 0] && data[|data| - 4..] != U32Bytes(Checksum(data[..|data| - 4])) ==>
                          LoadedFrom(data) == Err(BadChecksum)))
  {
    hide Checksum, U32At, LeBytes, ParseParts, LastKeyOf, MAGIC, VERSION;
    if |data| >= 40 {
      MagicAndVersion();
      NumberIs(data, 0, MAGIC);
      NumberIs(data, 4, VERSION);
      assert data[0..4] == data[..4];
      TrailerIs(data[..|data| - 4]);
    }
  }

  /** What is left to refuse is an index or a filter that is not in the file, or not whole. */
  lemma LoadingParts(data: Bytes)
    requires |data| >= 40 && data[..4] == [0x42, 0x42, 0x45, 0x50] && data[4..8] == [2, 0, 0, 0]
    requires data[|data| - 4..] == U32Bytes(Checksum(data[..|data| - 4]))
    ensures var n := |data|;
            var i, j := U32At(data, n - 20), U32At(data, n - 20) + U32At(data, n - 16);
            var f, g := U32At(data, n - 12), U32At(data, n - 12) + U32At(data, n - 8);
            LoadedFrom(data)
            == if j > n then Err(OutOfRange)
               else if DecodedIndex(data[i..j]).Err? then Err(DecodedIndex(data[i..j]).error)
               else if g > n then Err(OutOfRange)
               else if DecodeFilter(data[f..g]).None? then Err(InvalidBloom)
               else
                 var t := Loaded(data, DecodedIndex(data[i..j]).value.items, DecodeFilter(data[f..g]).value,
                                 U32At(data, 8), U32At(data, 12), None);
                 Ok(t.(lastKey := LastKeyOf(t)))
  {
    hide Checksum, U32At, LeBytes, DecodedIndex, DecodeFilter, LastKeyOf, MAGIC, VERSION;
    MagicAndVersion();
    NumberIs(data, 0, MAGIC);
    NumberIs(data, 4, VERSION);
    assert data[0..4] == data[..4];
    TrailerIs(data[..|data| - 4]);
  }

  /** A stored number is this one exactly when its bytes are. */
  lemma NumberIs(data: Bytes, at: nat, n: nat)
    requires at + 4 <= |data| && n < U32_MODULUS
    ensures U32At(data, at) == n <==> data[at..at + 4] == U32Bytes(n)
  {
    hide LeBytes, LeValue, Pow256;
    U32RoundTrip(n);
    if U32At(data, at) == n {
      LeInjective(data[at..at + 4], U32Bytes(n));
    }
  }

  /** A stored filter is refused exactly when bytes are missing. */
  lemma FilterRefusedIff(data: Bytes)
    ensures DecodeFilter(data).None? <==> |data| < 8 || |data| < 8 + 8 * ((U32At(data, 0) + 63) / 64)
  {
    hide U32At, WordsAt;
  }
}
