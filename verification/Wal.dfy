/**
 The write-ahead log: length-prefixed records sealed with a CRC, and a reader
 that tells a torn tail from corruption.
 */
module Wal {
  import opened Bytes
  import opened Crc32
  import opened Frames
  import opened Records

  const OP_SET: Byte := 1
  const OP_DELETE: Byte := 2

  datatype WalRecord = Set(key: Key, value: Bytes) | Delete(key: Key)

  datatype WalError = TooShort | Truncated | DeleteWithValue | UnknownOp | ChecksumMismatch | Incomplete

  /** The records of a log and the length of the bytes that hold them (`valid_len`). */
  type Recovery = Parsed<WalRecord>

  // ---------- encoding ----------

  function OpOf(r: WalRecord): Byte
  {
    if r.Set? then OP_SET else OP_DELETE
  }

  function ValueOf(r: WalRecord): Bytes
  {
    if r.Set? then r.value else []
  }

  function BodyLength(r: WalRecord): nat
  {
    9 + |r.key| + |ValueOf(r)|
  }

  /** The lengths a record can state in its u32 fields. */
  predicate Fits(r: WalRecord)
  {
    BodyLength(r) < U32_MODULUS
  }

  /** The part of a record between its length prefix and its checksum. */
  function Body(r: WalRecord): (s: Bytes)
    ensures |s| == BodyLength(r)
  {
    [OpOf(r)] + U32Bytes(|r.key|) + U32Bytes(|ValueOf(r)|) + r.key + ValueOf(r)
  }

  /** Lengths are cut to 32 bits, and their sum wraps, as in a release build. */
  function Encode(r: WalRecord): (s: Bytes)
    ensures |s| == 8 + BodyLength(r)
  {
    Seal(U32Bytes(BodyLength(r)) + Body(r))
  }

  function Encoder(): WalRecord -> Bytes
  {
    (r: WalRecord) => Encode(r)
  }

  /** `WalRecord::encode`, filling a buffer: length, operation, lengths, key, value, checksum. */
  method EncodeRecord(table: seq<nat>, r: WalRecord) returns (buf: Bytes)
    requires IsTable(table)
    ensures buf == Encode(r)
  {
    hide Xor, U32Bytes, IsTable;
    var key, value := r.key, ValueOf(r);
    buf := U32Bytes(1 + 4 + 4 + |key| + |value|);
    buf := buf + [OpOf(r)];
    buf := buf + U32Bytes(|key|);
    buf := buf + U32Bytes(|value|);
    buf := buf + key;
    buf := buf + value;
    assert buf == U32Bytes(BodyLength(r)) + Body(r);
    var checksum := Crc32.Crc32(table, buf);
    buf := buf + U32Bytes(checksum);
    TrailerIs(U32Bytes(BodyLength(r)) + Body(r));
  }

  lemma TrailerIs(data: Bytes)
    ensures Trailer(data) == U32Bytes(Checksum(data))
  {
    hide Checksum;
  }

  /** A log of whole records. */
  function Log(rs: seq<WalRecord>): Bytes
  {
    EncodeAll(Encoder(), rs)
  }

  // ---------- decoding ----------

  function Decode(data: Bytes): Result<WalRecord, WalError>
  {
    if |data| < 9 then Err(TooShort)
    else
      var op := data[0];
      var keyLen := U32At(data, 1);
      var valueLen := U32At(data, 5);
      if |data| < 9 + keyLen + valueLen then Err(Truncated)
      else
        var key := data[9..9 + keyLen];
        if op == OP_SET then Ok(Set(key, data[9 + keyLen..9 + keyLen + valueLen]))
        else if op == OP_DELETE then (if valueLen != 0 then Err(DeleteWithValue) else Ok(Delete(key)))
        else Err(UnknownOp)
  }

  // ---------- reading a log ----------

  /** The first record of a log, or why there is none. */
  function FirstRecord(data: Bytes, tolerant: bool): Next<WalRecord, WalError>
  {
    if data == [] then Stop
    else if |data| < 4 then TornTail(tolerant)
    else
      var totalLen := U32At(data, 0);
      if totalLen < 9 then Stop
      else if 8 + totalLen > |data| then TornTail(tolerant)
      else if !Sealed(data[..8 + totalLen]) then Bad(ChecksumMismatch)
      else
        match Decode(data[4..4 + totalLen])
        case Err(e) => Bad(e)
        case Ok(r) => Frame(r, 8 + totalLen)
  }

  /** `stop_at_tail`. */
  function TornTail(tolerant: bool): Next<WalRecord, WalError>
  {
    if tolerant then Stop else Bad(Incomplete)
  }

  function Reader(tolerant: bool): Bytes -> Next<WalRecord, WalError>
  {
    (data: Bytes) => FirstRecord(data, tolerant)
  }

  function Read(data: Bytes, tolerant: bool): Result<Recovery, WalError>
  {
    ReadAll(Reader(tolerant), data)
  }

  function Recover(data: Bytes): Result<Recovery, WalError>
  {
    Read(data, true)
  }

  lemma ReadStep(data: Bytes, tolerant: bool)
    requires FirstRecord(data, tolerant).Frame?
    ensures var first := FirstRecord(data, tolerant);
            && 0 < first.size <= |data|
            && Read(data, tolerant) == Cons(first.item, first.size, Read(data[first.size..], tolerant))
  {
    hide U32At, Sealed, Decode;
  }

  lemma ReadEnd(data: Bytes, tolerant: bool)
    requires !FirstRecord(data, tolerant).Frame?
    ensures var first := FirstRecord(data, tolerant);
            Read(data, tolerant) == if first.Bad? then Err(first.error) else Ok(Parsed([], 0))
  {
    hide FirstRecord;
  }

  /** `read_records`. */
  method ReadRecords(table: seq<nat>, data: Bytes, tolerant: bool) returns (result: Result<Recovery, WalError>)
    requires IsTable(table)
    ensures result == Read(data, tolerant)
  {
    hide Xor, FirstRecord, IsTable, Read, Prepend;
    var records: seq<WalRecord> := [];
    var validLen := 0;
    assert data[0..] == data;
    NothingBefore(Read(data, tolerant));
    var step := ReadOne(table, data, 0, tolerant);
    while step.Frame?
      invariant 0 <= validLen <= |data|
      invariant step == FirstRecord(data[validLen..], tolerant)
      invariant Read(data, tolerant) == Prepend(records, validLen, Read(data[validLen..], tolerant))
      decreases |data| - validLen
    {
      ReadStep(data[validLen..], tolerant);
      assert data[validLen..][step.size..] == data[validLen + step.size..];
      PrependCons(records, validLen, step.item, step.size, Read(data[validLen + step.size..], tolerant));
      records := records + [step.item];
      validLen := validLen + step.size;
      step := ReadOne(table, data, validLen, tolerant);
    }
    ReadEnd(data[validLen..], tolerant);
    NothingAfter<WalRecord, WalError>(records, validLen);
    PrependError<WalRecord, WalError>(records, validLen);
    return if step.Bad? then Err(step.error) else Ok(Parsed(records, validLen));
  }

  /** One turn of the loop: the record at `at`, or why reading ends there. */
  method ReadOne(table: seq<nat>, data: Bytes, at: nat, tolerant: bool) returns (step: Next<WalRecord, WalError>)
    requires IsTable(table) && at <= |data|
    ensures step == FirstRecord(data[at..], tolerant)
    ensures step.Frame? ==> 0 < step.size <= |data| - at
  {
    var filled := if |data| - at < 4 then |data| - at else 4;
    if filled == 0 {
      return Stop;
    }
    if filled < 4 {
      return TornTail(tolerant);
    }
    var totalLen := U32At(data, at);
    assert data[at..][0..4] == data[at..at + 4];
    if totalLen < 9 {
      return Stop;
    }
    if at + 8 + totalLen > |data| {
      return TornTail(tolerant);
    }
    var payload := data[at..at + 8 + totalLen];
    assert data[at..][..8 + totalLen] == payload;
    assert data[at..][4..4 + totalLen] == payload[4..4 + totalLen];
    var computed := Crc32.Crc32(table, payload[..4 + totalLen]);
    TrailerIsChecksum(payload[..4 + totalLen], payload[4 + totalLen..]);
    if computed != LeValue(payload[4 + totalLen..]) {
      return Bad(ChecksumMismatch);
    }
    var record := Decode(payload[4..4 + totalLen]);
    return if record.Err? then Bad(record.error) else Frame(record.value, 8 + totalLen);
  }

  // ---------- one record ----------

  lemma BodyLayout(r: WalRecord)
    ensures Body(r)[0] == OpOf(r)
    ensures Body(r)[1..5] == U32Bytes(|r.key|) && Body(r)[5..9] == U32Bytes(|ValueOf(r)|)
    ensures Body(r)[9..9 + |r.key|] == r.key && Body(r)[9 + |r.key|..] == ValueOf(r)
  {
  }

  lemma BodyLengths(r: WalRecord)
    requires Fits(r)
    ensures U32At(Body(r), 1) == |r.key| && U32At(Body(r), 5) == |ValueOf(r)|
  {
    hide LeBytes, LeValue;
    BodyLayout(r);
    U32RoundTrip(|r.key|);
    U32RoundTrip(|ValueOf(r)|);
  }

  lemma DecodeBody(r: WalRecord)
    requires Fits(r)
    ensures Decode(Body(r)) == Ok(r)
  {
    BodyLayout(r);
    BodyLengths(r);
    var body := Body(r);
    assert body[9 + |r.key|..9 + |r.key| + |ValueOf(r)|] == body[9 + |r.key|..];
  }

  lemma EncodeLayout(r: WalRecord, rest: Bytes)
    ensures U32At(Encode(r) + rest, 0) == BodyLength(r) % U32_MODULUS
    ensures (Encode(r) + rest)[..|Encode(r)|] == Encode(r)
    ensures (Encode(r) + rest)[4..|Encode(r)| - 4] == Body(r)
    ensures (Encode(r) + rest)[|Encode(r)|..] == rest
  {
    hide Xor;
    var data := Encode(r) + rest;
    assert data[0..4] == U32Bytes(BodyLength(r));
    U32RoundTrip(BodyLength(r));
  }

  lemma EncodeSealed(r: WalRecord)
    ensures Sealed(Encode(r))
  {
    SealIsSealed(U32Bytes(BodyLength(r)) + Body(r));
  }

  lemma WholeRecordFirst(data: Bytes, n: nat, r: WalRecord, tolerant: bool)
    requires 9 <= n && 8 + n <= |data| && U32At(data, 0) == n
    requires Sealed(data[..8 + n]) && Decode(data[4..4 + n]) == Ok(r)
    ensures FirstRecord(data, tolerant) == Frame(r, 8 + n)
  {
    hide U32At, Sealed, Decode;
  }

  lemma EncodedFirst(r: WalRecord, rest: Bytes, tolerant: bool)
    requires Fits(r)
    ensures FirstRecord(Encode(r) + rest, tolerant) == Frame(r, |Encode(r)|)
  {
    hide Xor, U32At, Sealed, Encode, Body, Decode, FirstRecord;
    EncodeLayout(r, rest);
    EncodeSealed(r);
    DecodeBody(r);
    WholeRecordFirst(Encode(r) + rest, BodyLength(r), r, tolerant);
  }

  /** A complete record is read as itself, whatever follows it. */
  lemma RecordReads(r: WalRecord, tolerant: bool)
    requires Fits(r)
    ensures Reads(Reader(tolerant), Encoder(), r)
  {
    forall rest
      ensures Reader(tolerant)(Encoder()(r) + rest) == Frame(r, |Encoder()(r)|)
    {
      EncodedFirst(r, rest, tolerant);
    }
  }

  /** What is decoded is no longer than the bytes it is decoded from. */
  lemma DecodedIsShort(data: Bytes, r: WalRecord)
    requires |data| < BodyLength(r)
    ensures Decode(data) != Ok(r)
  {
  }

  /** A record is read back exactly when its lengths fit in their u32 fields. */
  lemma RoundTripIffFits(r: WalRecord, tolerant: bool)
    ensures Read(Encode(r), tolerant) == Ok(Parsed([r], |Encode(r)|)) <==> Fits(r)
  {
    if Fits(r) {
      LogRead([r], [], tolerant);
      NothingRead([], tolerant);
      NothingAfter<WalRecord, WalError>([r], |Encode(r)|);
      LogOfOne(r);
      assert Log([r]) + [] == Encode(r);
    } else {
      EncodeLayout(r, []);
      assert Encode(r) + [] == Encode(r);
      OversizeNotRead(Encode(r), r, tolerant);
    }
  }

  lemma OversizeNotRead(data: Bytes, r: WalRecord, tolerant: bool)
    requires |data| >= 4 && U32At(data, 0) < BodyLength(r)
    ensures Read(data, tolerant).Ok? ==> Read(data, tolerant).value.items != [r]
  {
    var totalLen := U32At(data, 0);
    if 8 + totalLen <= |data| {
      DecodedIsShort(data[4..4 + totalLen], r);
    }
    if Read(data, tolerant).Ok? && |Read(data, tolerant).value.items| > 0 {
      assert Read(data, tolerant).value.items[0] != r;
    }
  }

  // ---------- whole logs ----------

  predicate AllFit(rs: seq<WalRecord>)
  {
    forall r | r in rs :: Fits(r)
  }

  lemma LogOfOne(r: WalRecord)
    ensures Log([r]) == Encode(r)
  {
    assert EncodeAll(Encoder(), [r][1..]) == [];
    assert Encode(r) + [] == Encode(r);
  }

  lemma LogRead(rs: seq<WalRecord>, rest: Bytes, tolerant: bool)
    requires AllFit(rs)
    ensures Read(Log(rs) + rest, tolerant) == Prepend(rs, |Log(rs)|, Read(rest, tolerant))
  {
    forall r | r in rs
      ensures Reads(Reader(tolerant), Encoder(), r)
    {
      RecordReads(r, tolerant);
    }
    ReadEncoded(Reader(tolerant), Encoder(), rs, rest);
  }

  /** Bytes that start no complete record. */
  predicate NoRecord(data: Bytes)
  {
    |data| < 4 || U32At(data, 0) < 9 || 8 + U32At(data, 0) > |data|
  }

  lemma NothingRead(data: Bytes, tolerant: bool)
    requires NoRecord(data) && (tolerant || data == [])
    ensures Read(data, tolerant) == Ok(Parsed([], 0))
  {
  }

  lemma SomethingRead(data: Bytes)
    requires !NoRecord(data)
    ensures Recover(data).Ok? ==> |Recover(data).value.items| > 0
  {
  }

  lemma TornHead(r: WalRecord, torn: Bytes)
    requires Fits(r) && torn < Encode(r)
    ensures NoRecord(torn)
  {
    hide Xor, Encode, Body, LeValue;
    if |torn| >= 4 {
      EncodeLayout(r, []);
      assert Encode(r) + [] == Encode(r);
      assert torn[0..4] == Encode(r)[0..4];
    }
  }

  /** An interrupted append, cut anywhere, costs nothing but the record being appended. */
  lemma TornTailRecovered(rs: seq<WalRecord>, r: WalRecord, torn: Bytes)
    requires AllFit(rs) && Fits(r) && torn < Encode(r)
    ensures Recover(Log(rs) + torn) == Ok(Parsed(rs, |Log(rs)|))
  {
    TornHead(r, torn);
    NothingRead(torn, true);
    LogRead(rs, torn, true);
    NothingAfter<WalRecord, WalError>(rs, |Log(rs)|);
  }

  /** The bytes after the whole records are dropped without a word exactly when they start no complete record. */
  lemma TailDroppedIff(rs: seq<WalRecord>, rest: Bytes)
    requires AllFit(rs)
    ensures Recover(Log(rs) + rest) == Ok(Parsed(rs, |Log(rs)|))
            <==> |rest| < 4 || U32At(rest, 0) < 9 || 8 + U32At(rest, 0) > |rest|
  {
    LogRead(rs, rest, true);
    if NoRecord(rest) {
      NothingRead(rest, true);
      NothingAfter<WalRecord, WalError>(rs, |Log(rs)|);
    } else {
      SomethingRead(rest);
    }
  }

  /**
   Damage to a length prefix is not always reported: here two durable records
   are lost in silence because the first one now claims to pass the end of the file.
   */
  lemma DamagedLengthLosesRecords(first: WalRecord, second: WalRecord)
    requires |Encode(first)| + |Encode(second)| < 0xFFFF_FFFF
    ensures Recover([255, 255, 255, 255] + Encode(first)[4..] + Encode(second)) == Ok(Parsed([], 0))
  {
    var tail := Encode(first)[4..] + Encode(second);
    var data := [255, 255, 255, 255] + tail;
    assert [255, 255, 255, 255] + Encode(first)[4..] + Encode(second) == data;
    HugeLength(tail);
    NothingRead(data, true);
  }

  lemma HugeLength(tail: Bytes)
    ensures U32At([255, 255, 255, 255] + tail, 0) == 0xFFFF_FFFF
  {
    assert ([255, 255, 255, 255] + tail)[0..4] == [255, 255, 255, 255];
    assert LeValue([255]) == 255;
    assert [255, 255][1..] == [255];
    assert [255, 255, 255][1..] == [255, 255];
    assert [255, 255, 255, 255][1..] == [255, 255, 255];
  }

  /** A change within four consecutive bytes of a complete record, past its length prefix, is reported. */
  lemma DamagedRecordReported(rs: seq<WalRecord>, r: WalRecord, before: Bytes, old4: Bytes, new4: Bytes,
          after: Bytes, rest: Bytes, tolerant: bool)
    requires AllFit(rs) && Fits(r)
    requires Encode(r) == before + old4 + after && |before| >= 4
    requires |old4| == |new4| <= 4 && old4 != new4
    ensures Read(Log(rs) + (before + new4 + after + rest), tolerant) == Err(ChecksumMismatch)
  {
    hide Xor, Encode, Sealed, Read, Log, LeValue, LeBytes;
    var damaged := before + new4 + after;
    DamagedUnsealed(r, before, old4, new4, after);
    DamagedLength(r, before, old4, new4, after, rest);
    UnsealedNotRead(damaged + rest, |damaged|, tolerant);
    LogRead(rs, damaged + rest, tolerant);
  }

  /** The length prefix is not damaged. */
  lemma DamagedLength(r: WalRecord, before: Bytes, old4: Bytes, new4: Bytes, after: Bytes, rest: Bytes)
    requires Fits(r) && Encode(r) == before + old4 + after && |before| >= 4 && |old4| == |new4|
    ensures var damaged := before + new4 + after;
            && |damaged| == |Encode(r)| && (damaged + rest)[..|damaged|] == damaged
            && |damaged + rest| >= 4 && 8 + U32At(damaged + rest, 0) == |damaged|
  {
    hide Encode, Body, LeValue;
    var data := before + new4 + after + rest;
    EncodeLayout(r, []);
    assert Encode(r) + [] == Encode(r);
    assert data[0..4] == before[0..4] == Encode(r)[0..4];
  }

  lemma DamagedUnsealed(r: WalRecord, before: Bytes, old4: Bytes, new4: Bytes, after: Bytes)
    requires Encode(r) == before + old4 + after && |old4| == |new4| <= 4 && old4 != new4
    ensures |before + new4 + after| >= 4 && !Sealed(before + new4 + after)
  {
    EncodeSealed(r);
    BurstDetected(before, old4, new4, after);
  }

  lemma UnsealedNotRead(data: Bytes, size: nat, tolerant: bool)
    requires 17 <= size <= |data| && 8 + U32At(data, 0) == size && !Sealed(data[..size])
    ensures Read(data, tolerant) == Err(ChecksumMismatch)
  {
    hide Xor;
  }

  // ---------- recovery is repeatable ----------

  lemma RecordsAreLocal(tolerant: bool)
    ensures Local(Reader(true), Reader(tolerant))
  {
    forall d, e
      ensures Agree(Reader(true), Reader(tolerant), d, e)
    {
      var first := FirstRecord(d, true);
      if first.Frame? && first.size <= |d| && first.size <= |e| && e[..first.size] == d[..first.size] {
        RecordIsLocal(d, e, tolerant);
      }
    }
  }

  lemma RecordIsLocal(d: Bytes, e: Bytes, tolerant: bool)
    requires FirstRecord(d, true).Frame?
    requires var size := FirstRecord(d, true).size; size <= |d| && size <= |e| && e[..size] == d[..size]
    ensures FirstRecord(e, tolerant) == FirstRecord(d, true)
  {
    hide Xor;
    var size := FirstRecord(d, true).size;
    assert e[0..4] == e[..size][0..4] == d[0..4];
    assert e[4..size - 4] == e[..size][4..size - 4] == d[4..size - 4];
  }

  /** The bytes recovery keeps are whole records: anything may follow them. */
  lemma KeptBytesThen(data: Bytes, more: Bytes, tolerant: bool)
    requires Recover(data).Ok?
    ensures var v := Recover(data).value;
            && v.length <= |data|
            && Read(data[..v.length] + more, tolerant) == Prepend(v.items, v.length, Read(more, tolerant))
  {
    hide FirstRecord;
    RecordsAreLocal(tolerant);
    ReadThen(Reader(true), Reader(tolerant), data, more);
  }

  /** Truncating to what was recovered and recovering again changes nothing and leaves nothing to discard. */
  lemma RecoveryIsStable(data: Bytes, tolerant: bool)
    requires Recover(data).Ok?
    ensures Recover(data).value.length <= |data|
    ensures Read(data[..Recover(data).value.length], tolerant) == Recover(data)
  {
    hide FirstRecord;
    var v := Recover(data).value;
    KeptBytesThen(data, [], tolerant);
    assert data[..v.length] + [] == data[..v.length];
    NothingRead([], tolerant);
    NothingAfter<WalRecord, WalError>(v.items, v.length);
  }

  lemma RecoverTwice(data: Bytes)
    requires Recover(data).Ok?
    ensures Recover(data).value.length <= |data|
    ensures Recover(data[..Recover(data).value.length]) == Recover(data)
  {
    hide FirstRecord;
    RecoveryIsStable(data, true);
  }

  /** After recovery and truncation an appended record is one more record. */
  lemma AppendAfterRecovery(data: Bytes, r: WalRecord)
    requires Recover(data).Ok? && Fits(r)
    ensures var v := Recover(data).value;
            && v.length <= |data|
            && Recover(data[..v.length] + Encode(r)) == Ok(Parsed(v.items + [r], v.length + |Encode(r)|))
  {
    hide FirstRecord, Encode;
    KeptBytesThen(data, Encode(r), true);
    RoundTripIffFits(r, true);
  }

  /** A torn append after recovery and truncation is as if nothing was appended. */
  lemma TornAfterRecovery(data: Bytes, r: WalRecord, torn: Bytes)
    requires Recover(data).Ok? && Fits(r) && torn < Encode(r)
    ensures Recover(data).value.length <= |data|
    ensures Recover(data[..Recover(data).value.length] + torn) == Recover(data)
  {
    hide FirstRecord, Encode;
    var v := Recover(data).value;
    KeptBytesThen(data, torn, true);
    TornHead(r, torn);
    NothingRead(torn, true);
    NothingAfter<WalRecord, WalError>(v.items, v.length);
  }
}
