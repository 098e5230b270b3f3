/**
 Loading an SSTable file, and looking keys up in it through the Bloom filter and
 the sparse index.
 */
module SsTableReader {
  import opened Bytes
  import opened Records
  import opened Crc32
  import opened Bloom
  import opened Blocks
  import opened SsTable

  // ---------- a loaded table ----------

  function Slice(data: Bytes, from: nat, size: nat): (s: Option<Bytes>)
  {
    if from + size <= |data| then Some(data[from..from + size]) else None
  }

  /** The number of index entries, from the front, whose first key is not above `key`. */
  function StartingBy(index: seq<IndexEntry>, key: Key): (n: nat)
    ensures n <= |index|
    decreases |index|
  {
    if index == [] || Less(key, index[0].firstKey) then 0 else 1 + StartingBy(index[1..], key)
  }

  /** The scan of one block: it stops at the first key that is not below. */
  function Scanned(rs: seq<Record>, key: Key): Option<Entry>
    decreases |rs|
  {
    if rs == [] then None
    else if rs[0].key == key then Some(rs[0].entry)
    else if Less(key, rs[0].key) then None
    else Scanned(rs[1..], key)
  }

  datatype Loaded = Loaded(data: Bytes, index: seq<IndexEntry>, bloom: Filter,
                           recordCount: nat, blockCount: nat, lastKey: Option<Key>)
  {
    /** The records of a block, as the file holds them. */
    function BlockAt(i: nat): Option<seq<Record>>
    {
      if i < |index| && index[i].blockOffset + index[i].blockSize <= |data| then
        match DecodedBlock(data[index[i].blockOffset..index[i].blockOffset + index[i].blockSize])
        case Ok(v) => Some(v.items)
        case Err(_) => None
      else None
    }

    method ReadBlock(i: nat) returns (block: Option<seq<Record>>)
      ensures block == BlockAt(i)
    {
      if i >= |index| {
        return None;
      }
      var start := index[i].blockOffset;
      var end := start + index[i].blockSize;
      if end > |data| {
        return None;
      }
      var decoded := DecodeBlock(data[start..end]);
      return if decoded.Ok? then Some(decoded.value) else None;
    }

    function BlockFor(key: Key): nat
    {
      var n := StartingBy(index, key);
      if n == 0 then 0 else n - 1
    }

    method FindBlock(key: Key) returns (result: nat)
      ensures result == BlockFor(key)
    {
      result := 0;
      var i := 0;
      assert index[0..] == index;
      while i < |index|
        invariant 0 <= i <= |index|
        invariant i + StartingBy(index[i..], key) == StartingBy(index, key)
        invariant result == if i == 0 then 0 else i - 1
      {
        assert index[i..][1..] == index[i + 1..];
        if Less(key, index[i].firstKey) {
          break;
        }
        result := i;
        i := i + 1;
      }
    }

    function Lookup(key: Key): Result<Option<Entry>, SstError>
    {
      if bloom.numBits == 0 && bloom.numHashes > 0 then Err(ZeroBits)
      else if bloom.numBits > 0 && !bloom.MightContain(key) then Ok(None)
      else
        var block := BlockAt(BlockFor(key));
        Ok(if block.None? then None else Scanned(block.value, key))
    }

    method Get(key: Key) returns (entry: Result<Option<Entry>, SstError>)
      ensures entry == Lookup(key)
    {
      if bloom.numBits == 0 && bloom.numHashes > 0 {
        return Err(ZeroBits);
      }
      if bloom.numBits > 0 && !bloom.MightContain(key) {
        return Ok(None);
      }
      var i := FindBlock(key);
      var block := ReadBlock(i);
      if block.None? {
        return Ok(None);
      }
      var rs := block.value;
      var n := 0;
      assert rs[0..] == rs;
      while n < |rs|
        invariant 0 <= n <= |rs|
        invariant Scanned(rs[n..], key) == Scanned(rs, key)
      {
        assert rs[n..][1..] == rs[n + 1..];
        if rs[n].key == key {
          return Ok(Some(rs[n].entry));
        }
        if Less(key, rs[n].key) {
          return Ok(None);
        }
        n := n + 1;
      }
      return Ok(None);
    }

    /** The first `n` blocks, gathered in a map. */
    function Gathered(n: nat): seq<Record>
    {
      if n == 0 then []
      else
        var block := BlockAt(n - 1);
        InsertAll(Gathered(n - 1), if block.Some? then block.value else [])
    }

    method Entries() returns (entries: seq<Record>)
      ensures entries == Gathered(|index|)
    {
      hide Insert, DecodedBlock, Slice;
      entries := [];
      var i := 0;
      while i < |index|
        invariant 0 <= i <= |index|
        invariant entries == Gathered(i)
      {
        var block := ReadBlock(i);
        if block.Some? {
          ghost var before := entries;
          var n := 0;
          while n < |block.value|
            invariant 0 <= n <= |block.value|
            invariant entries == InsertAll(before, block.value[..n])
          {
            assert block.value[..n + 1][..n] == block.value[..n];
            entries := Insert(entries, block.value[n].key, block.value[n].entry);
            n := n + 1;
          }
          assert block.value[..n] == block.value;
        }
        i := i + 1;
      }
    }

    function FirstKey(): Option<Key>
    {
      if index == [] then None else Some(index[0].firstKey)
    }

    function KeyRange(): Option<(Key, Key)>
    {
      if FirstKey().None? || lastKey.None? then None else Some((FirstKey().value, lastKey.value))
    }

    /** The table holds these blocks, which are the ascending records of one list. */
    ghost predicate Holds(blocks: seq<seq<Record>>)
    {
      && |index| == blockCount == |blocks|
      && Sorted(Flat(blocks))
      && (forall i | 0 <= i < |blocks| ::
            blocks[i] != [] && BlockAt(i) == Some(blocks[i]) && index[i].firstKey == blocks[i][0].key)
      && bloom.Valid()
      && (forall r | r in Flat(blocks) :: bloom.MightContain(r.key))
    }
  }

  // ---------- loading ----------

  function Parse(data: Bytes): Result<Loaded, SstError>
  {
    if |data| < HEADER_SIZE + FOOTER_SIZE then Err(FileTooShort)
    else if U32At(data, 0) != MAGIC then Err(InvalidMagic)
    else if U32At(data, 4) != VERSION then Err(UnsupportedVersion)
    else if !Sealed(data) then Err(BadChecksum)
    else
      var footer := |data| - FOOTER_SIZE;
      ParseParts(data, U32At(data, 8), U32At(data, 12),
                 Slice(data, U32At(data, footer), U32At(data, footer + 4)),
                 Slice(data, U32At(data, footer + 8), U32At(data, footer + 12)))
  }

  function ParseParts(data: Bytes, recordCount: nat, blockCount: nat, index: Option<Bytes>,
          bloom: Option<Bytes>): Result<Loaded, SstError>
  {
    if index.None? then Err(OutOfRange)
    else
      match DecodedIndex(index.value)
      case Err(e) => Err(e)
      case Ok(entries) =>
        if bloom.None? then Err(OutOfRange)
        else
          match DecodeFilter(bloom.value)
          case None => Err(InvalidBloom)
          case Some(filter) => Ok(Loaded(data, entries.items, filter, recordCount, blockCount, None))
  }

  function LastKeyOf(t: Loaded): Option<Key>
  {
    if t.index == [] then None
    else
      var last := t.BlockAt(|t.index| - 1);
      if last.None? || last.value == [] then None else Some(last.value[|last.value| - 1].key)
  }

  function LoadedFrom(data: Bytes): Result<Loaded, SstError>
  {
    match Parse(data)
    case Err(e) => Err(e)
    case Ok(t) => Ok(t.(lastKey := LastKeyOf(t)))
  }

  /** `load`: `parse`, then `derive_last_key`. */
  method Load(data: Bytes) returns (result: Result<Loaded, SstError>)
    ensures result == LoadedFrom(data)
  {
    hide Xor, U32At, LeValue, Checksum, Slice, DecodedIndex, DecodedBlock, DecodeFilter;
    if |data| < HEADER_SIZE + FOOTER_SIZE {
      return Err(FileTooShort);
    }
    if U32At(data, 0) != MAGIC {
      return Err(InvalidMagic);
    }
    if U32At(data, 4) != VERSION {
      return Err(UnsupportedVersion);
    }
    var recordCount, blockCount := U32At(data, 8), U32At(data, 12);
    var footer := |data| - FOOTER_SIZE;
    var indexOffset, indexSize := U32At(data, footer), U32At(data, footer + 4);
    var bloomOffset, bloomSize := U32At(data, footer + 8), U32At(data, footer + 12);
    var table := BuildTable();
    var computed := Crc32.Crc32(table, data[..|data| - 4]);
    TrailerIsChecksum(data[..|data| - 4], data[|data| - 4..]);
    if LeValue(data[|data| - 4..]) != computed {
      return Err(BadChecksum);
    }
    var indexData := Slice(data, indexOffset, indexSize);
    if indexData.None? {
      return Err(OutOfRange);
    }
    var index := ParseIndex(indexData.value);
    if index.Err? {
      return Err(index.error);
    }
    var bloomData := Slice(data, bloomOffset, bloomSize);
    if bloomData.None? {
      return Err(OutOfRange);
    }
    var bloom := Decode(bloomData.value);
    if bloom.None? {
      return Err(InvalidBloom);
    }
    var t := Loaded(data, index.value, bloom.value, recordCount, blockCount, None);
    var lastKey := None;
    if |t.index| > 0 {
      var last := t.ReadBlock(|t.index| - 1);
      if last.Some? && last.value != [] {
        lastKey := Some(last.value[|last.value| - 1].key);
      }
    }
    return Ok(t.(lastKey := lastKey));
  }

  /** The filter of a loaded table has all the words that its number of bits asks for. */
  lemma LoadedFilterIsWhole(data: Bytes)
    requires LoadedFrom(data).Ok?
    ensures |LoadedFrom(data).value.bloom.bits| == WordsFor(LoadedFrom(data).value.bloom.numBits)
  {
    hide Xor, Sealed, U32At, DecodedIndex, DecodedBlock;
  }

  // ---------- damage ----------

  /** A file in which anything within four consecutive bytes was changed is not loaded. */
  lemma DamagedFileNotLoaded(before: Bytes, old4: Bytes, new4: Bytes, after: Bytes)
    requires |old4| == |new4| <= 4 && old4 != new4
    requires LoadedFrom(before + old4 + after).Ok?
    ensures LoadedFrom(before + new4 + after).Err?
  {
    hide Xor, Sealed, U32At;
    BurstDetected(before, old4, new4, after);
  }
}
