/**
 The pieces of an SSTable file: blocks of records, and the sparse index over
 them. Both are strings of self-delimiting items.
 */
module Blocks {
  import opened Bytes
  import opened Records
  import opened Frames
  import opened Wal

  datatype SstError =
    | FileTooShort | InvalidMagic | UnsupportedVersion | BadChecksum | InvalidBloom
    | TruncatedIndexKey | TruncatedRecord | UnknownRecordOp

    /** The source slices past the end of the file, or takes a remainder by zero, and panics. */
    | OutOfRange | ZeroBits

  // ---------- records ----------

  /** A record has the layout of the body of a log record. */
  function AsLogged(r: Record): WalRecord
  {
    if r.entry.Value? then Set(r.key, r.entry.bytes) else Delete(r.key)
  }

  function RecordBytes(r: Record): (s: Bytes)
    ensures |s| == RecordSize(r)
  {
    Body(AsLogged(r))
  }

  function RecordEncoder(): Record -> Bytes
  {
    (r: Record) => RecordBytes(r)
  }

  predicate RecordFits(r: Record)
  {
    Fits(AsLogged(r))
  }

  function FirstRecordOf(data: Bytes): Next<Record, SstError>
  {
    if |data| < 9 then Stop
    else
      var keyLen, valueLen := U32At(data, 1), U32At(data, 5);
      if 9 + keyLen + valueLen > |data| then Bad(TruncatedRecord)
      else
        var key := data[9..9 + keyLen];
        var size := 9 + keyLen + valueLen;
        if data[0] == OP_SET then Frame(Record(key, Value(data[9 + keyLen..size])), size)
        else if data[0] == OP_DELETE then Frame(Record(key, Tombstone), size)
        else Bad(UnknownRecordOp)
  }

  function RecordReader(): Bytes -> Next<Record, SstError>
  {
    (data: Bytes) => FirstRecordOf(data)
  }

  // ---------- blocks ----------

  function Block(rs: seq<Record>): Bytes
  {
    EncodeAll(RecordEncoder(), rs)
  }

  function DecodedBlock(data: Bytes): Result<Parsed<Record>, SstError>
  {
    ReadAll(RecordReader(), data)
  }

  lemma U32Within(data: Bytes, offset: nat, i: nat)
    requires offset + i + 4 <= |data|
    ensures U32At(data[offset..], i) == U32At(data, offset + i)
  {
    hide LeValue;
    assert data[offset..][i..i + 4] == data[offset + i..offset + i + 4];
  }

  /** `decode_block`. */
  method DecodeBlock(data: Bytes) returns (result: Result<seq<Record>, SstError>)
    ensures result == match DecodedBlock(data) case Ok(v) => Ok(v.items) case Err(e) => Err(e)
  {
    hide U32At;
    var records: seq<Record> := [];
    var offset := 0;
    assert data[0..] == data;
    NothingBefore(DecodedBlock(data));
    while offset + 9 <= |data|
      invariant offset <= |data|
      invariant DecodedBlock(data) == Prepend(records, offset, DecodedBlock(data[offset..]))
    {
      U32Within(data, offset, 1);
      U32Within(data, offset, 5);
      var op, keyLen, valueLen := data[offset], U32At(data, offset + 1), U32At(data, offset + 5);
      if offset + 9 + keyLen + valueLen > |data| {
        return Err(TruncatedRecord);
      }
      var start := offset + 9;
      var end := start + keyLen + valueLen;
      var key := data[start..start + keyLen];
      DropAndTake(data, offset, 9, 9 + keyLen);
      DropAndTake(data, offset, 9 + keyLen, 9 + keyLen + valueLen);
      var entry;
      if op == OP_SET {
        entry := Value(data[start + keyLen..end]);
      } else if op == OP_DELETE {
        entry := Tombstone;
      } else {
        return Err(UnknownRecordOp);
      }
      DropTwice(data, offset, 9 + keyLen + valueLen);
      PrependCons(records, offset, Record(key, entry), end - offset, DecodedBlock(data[end..]));
      records := records + [Record(key, entry)];
      offset := end;
    }
    NothingAfter<Record, SstError>(records, offset);
    return Ok(records);
  }

  lemma RecordIsRead(r: Record, rest: Bytes)
    requires RecordFits(r)
    ensures FirstRecordOf(RecordBytes(r) + rest) == Frame(r, |RecordBytes(r)|)
  {
    hide LeValue, LeBytes;
    var w := AsLogged(r);
    var body := Body(w);
    BodyLayout(w);
    BodyLengths(w);
    var data := body + rest;
    assert data[1..5] == body[1..5] && data[5..9] == body[5..9];
    assert data[9..9 + |r.key|] == body[9..9 + |r.key|];
    assert data[9 + |r.key|..|body|] == body[9 + |r.key|..];
  }

  /** A block of records is read back as those records. */
  lemma BlockRoundTrip(rs: seq<Record>)
    requires forall r | r in rs :: RecordFits(r)
    ensures DecodedBlock(Block(rs)) == Ok(Parsed(rs, |Block(rs)|))
  {
    hide FirstRecordOf, RecordBytes;
    forall r | r in rs
      ensures Reads(RecordReader(), RecordEncoder(), r)
    {
      forall rest
        ensures RecordReader()(RecordEncoder()(r) + rest) == Frame(r, |RecordEncoder()(r)|)
      {
        RecordIsRead(r, rest);
      }
    }
    ReadEncoded(RecordReader(), RecordEncoder(), rs, []);
    assert Block(rs) + [] == Block(rs);
    NothingIsRead();
    NothingAfter<Record, SstError>(rs, |Block(rs)|);
  }

  lemma NothingIsRead()
    ensures DecodedBlock([]) == Ok(Parsed([], 0))
  {
  }

  // ---------- the index ----------

  datatype IndexEntry = IndexEntry(firstKey: Key, blockOffset: nat, blockSize: nat)

  function EntryBytes(e: IndexEntry): (s: Bytes)
    ensures |s| == 12 + |e.firstKey|
  {
    U32Bytes(|e.firstKey|) + e.firstKey + U32Bytes(e.blockOffset) + U32Bytes(e.blockSize)
  }

  function EntryEncoder(): IndexEntry -> Bytes
  {
    (e: IndexEntry) => EntryBytes(e)
  }

  predicate EntryFits(e: IndexEntry)
  {
    |e.firstKey| < U32_MODULUS && e.blockOffset < U32_MODULUS && e.blockSize < U32_MODULUS
  }

  function FirstEntryOf(data: Bytes): Next<IndexEntry, SstError>
  {
    if |data| < 8 then Stop
    else
      var keyLen := U32At(data, 0);
      if 4 + keyLen + 8 > |data| then Bad(TruncatedIndexKey)
      else Frame(IndexEntry(data[4..4 + keyLen], U32At(data, 4 + keyLen), U32At(data, 8 + keyLen)), 12 + keyLen)
  }

  function EntryReader(): Bytes -> Next<IndexEntry, SstError>
  {
    (data: Bytes) => FirstEntryOf(data)
  }

  function IndexBytes(index: seq<IndexEntry>): Bytes
  {
    EncodeAll(EntryEncoder(), index)
  }

  function DecodedIndex(data: Bytes): Result<Parsed<IndexEntry>, SstError>
  {
    ReadAll(EntryReader(), data)
  }

  /** `parse_index`. */
  method ParseIndex(data: Bytes) returns (result: Result<seq<IndexEntry>, SstError>)
    ensures result == match DecodedIndex(data) case Ok(v) => Ok(v.items) case Err(e) => Err(e)
  {
    hide U32At;
    var index: seq<IndexEntry> := [];
    var offset := 0;
    assert data[0..] == data;
    NothingBefore(DecodedIndex(data));
    while offset + 8 <= |data|
      invariant offset <= |data|
      invariant DecodedIndex(data) == Prepend(index, offset, DecodedIndex(data[offset..]))
    {
      U32Within(data, offset, 0);
      var keyLen := U32At(data, offset);
      if offset + 4 + keyLen + 8 > |data| {
        return Err(TruncatedIndexKey);
      }
      var firstKey := data[offset + 4..offset + 4 + keyLen];
      DropAndTake(data, offset, 4, 4 + keyLen);
      U32Within(data, offset, 4 + keyLen);
      U32Within(data, offset, 8 + keyLen);
      var entry := IndexEntry(firstKey, U32At(data, offset + 4 + keyLen), U32At(data, offset + 8 + keyLen));
      var end := offset + 12 + keyLen;
      DropTwice(data, offset, 12 + keyLen);
      PrependCons(index, offset, entry, end - offset, DecodedIndex(data[end..]));
      index := index + [entry];
      offset := end;
    }
    NothingAfter<IndexEntry, SstError>(index, offset);
    return Ok(index);
  }

  lemma EntryIsRead(e: IndexEntry, rest: Bytes)
    requires EntryFits(e)
    ensures FirstEntryOf(EntryBytes(e) + rest) == Frame(e, |EntryBytes(e)|)
  {
    hide LeValue, LeBytes;
    var data, n := EntryBytes(e) + rest, |e.firstKey|;
    assert data[0..4] == U32Bytes(n);
    assert data[4..4 + n] == e.firstKey;
    assert data[4 + n..8 + n] == U32Bytes(e.blockOffset);
    assert data[8 + n..12 + n] == U32Bytes(e.blockSize);
    U32RoundTrip(n);
    U32RoundTrip(e.blockOffset);
    U32RoundTrip(e.blockSize);
  }

  /** An index is read back as its entries. */
  lemma IndexRoundTrip(index: seq<IndexEntry>)
    requires forall e | e in index :: EntryFits(e)
    ensures DecodedIndex(IndexBytes(index)) == Ok(Parsed(index, |IndexBytes(index)|))
  {
    hide FirstEntryOf, EntryBytes;
    forall e | e in index
      ensures Reads(EntryReader(), EntryEncoder(), e)
    {
      forall rest
        ensures EntryReader()(EntryEncoder()(e) + rest) == Frame(e, |EntryEncoder()(e)|)
      {
        EntryIsRead(e, rest);
      }
    }
    ReadEncoded(EntryReader(), EntryEncoder(), index, []);
    assert IndexBytes(index) + [] == IndexBytes(index);
    NoEntryIsRead();
    NothingAfter<IndexEntry, SstError>(index, |IndexBytes(index)|);
  }

  lemma NoEntryIsRead()
    ensures DecodedIndex([]) == Ok(Parsed([], 0))
  {
  }
}
