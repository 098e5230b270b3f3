/**
 The Bloom filter of an SSTable: inserting only ever sets bits, so a key that
 was inserted is never rejected, not even after the filter was written and read.
 */
module Bloom {
  import opened Bytes
  import opened Records
  import opened Crc32

  // ---------- words of bits ----------

  type Word = w: int | 0 <= w < U64_MODULUS

  /** `w & (1 << o) != 0`. */
  predicate BitOf(w: nat, o: nat)
  {
    if o == 0 then w % 2 == 1 else BitOf(w / 2, o - 1)
  }

  /** `w | (1 << o)`. */
  function WithBit(w: nat, o: nat): nat
  {
    if o == 0 then w / 2 * 2 + 1 else 2 * WithBit(w / 2, o - 1) + w % 2
  }

  lemma {:induction false} WithBitSets(w: nat, o: nat, p: nat)
    ensures BitOf(WithBit(w, o), p) <==> p == o || BitOf(w, p)
    decreases o
  {
    if o > 0 {
      assert WithBit(w, o) / 2 == WithBit(w / 2, o - 1) && WithBit(w, o) % 2 == w % 2;
      if p > 0 {
        WithBitSets(w / 2, o - 1, p - 1);
      }
    } else {
      assert WithBit(w, 0) / 2 == w / 2;
    }
  }

  lemma {:induction false} WithBitBound(w: nat, o: nat, n: nat)
    requires w < Pow2(n) && o < n
    ensures WithBit(w, o) < Pow2(n)
    decreases o
  {
    Pow2Step(n);
    hide Pow2;
    Halved(w, Pow2(n - 1));
    if o > 0 {
      WithBitBound(w / 2, o - 1, n - 1);
      Doubled(WithBit(w / 2, o - 1), w % 2, Pow2(n - 1));
    } else {
      Doubled(w / 2, 1, Pow2(n - 1));
    }
  }

  lemma Pow2Step(n: nat)
    requires n > 0
    ensures Pow2(n) == 2 * Pow2(n - 1)
  {
  }

  lemma Halved(w: nat, bound: nat)
    requires w < 2 * bound
    ensures w / 2 < bound
  {
  }

  lemma Doubled(half: nat, bit: nat, bound: nat)
    requires half < bound && bit <= 1
    ensures 2 * half + bit < 2 * bound
  {
  }

  /** The bit array: bit `b` is bit `b % 64` of word `b / 64`. */
  predicate HasBit(words: seq<Word>, b: nat)
  {
    b / 64 < |words| && BitOf(words[b / 64], b % 64)
  }

  /** `div_ceil(64)`. */
  function WordsFor(numBits: nat): nat
  {
    (numBits + 63) / 64
  }

  /** `optimal_bits`, given the number that the floating-point formula yields. */
  function AtLeast64(bits: nat): nat
  {
    if bits < 64 then 64 else bits
  }

  /** `optimal_hashes`, given the rounded number that the floating-point formula yields. */
  function Between1And30(hashes: nat): nat
  {
    if hashes < 1 then 1 else if hashes > 30 then 30 else hashes
  }

  // ---------- hashing ----------

  function Reversed(s: Bytes): Bytes
    decreases |s|
  {
    if s == [] then [] else Reversed(s[1..]) + [s[0]]
  }

  /** The `i`-th bit of a key: double hashing in wrapping u64 arithmetic. */
  function KeyBit(key: Key, i: nat, numBits: nat): (b: nat)
    requires numBits > 0
    ensures b < numBits
  {
    (Checksum(key) + i * Checksum(Reversed(key)) % U64_MODULUS) % U64_MODULUS % numBits
  }

  /** The checksum of the key, and as many times that of its bytes in the opposite order; the sum fits in a u64. */
  lemma KeyBitIs(key: Key, i: nat, numBits: nat, backwards: Bytes)
    requires numBits > 0 && i <= 0x1_0000_0000
    requires |backwards| == |key| && forall j | 0 <= j < |key| :: backwards[j] == key[|key| - 1 - j]
    ensures KeyBit(key, i, numBits) == (Checksum(key) + i * Checksum(backwards)) % numBits
  {
    hide Checksum, Reversed;
    ReversedIs(key, backwards);
    ChecksumBound(key);
    ChecksumBound(backwards);
    NoWrap(Checksum(key), i, Checksum(backwards));
  }

  lemma NoWrap(g: nat, i: nat, h: nat)
    requires i <= 0x1_0000_0000 && g < 0x1_0000_0000 && h < 0x1_0000_0000
    ensures (g + i * h % U64_MODULUS) % U64_MODULUS == g + i * h
  {
    assert i * h <= 0x1_0000_0000 * h;
    Small(i * h);
    Small(g + i * h);
  }

  lemma Small(n: nat)
    requires n < U64_MODULUS
    ensures n % U64_MODULUS == n
  {
  }

  lemma {:induction false} ReversedIs(s: Bytes, backwards: Bytes)
    requires |backwards| == |s| && forall j | 0 <= j < |s| :: backwards[j] == s[|s| - 1 - j]
    ensures backwards == Reversed(s)
    decreases |s|
  {
    if s != [] {
      var last := |s| - 1;
      ReversedIs(s[1..], backwards[..last]);
      assert backwards == backwards[..last] + [backwards[last]];
    }
  }

  function SetIn(words: seq<Word>, b: nat): (r: seq<Word>)
    requires b / 64 < |words|
    ensures |r| == |words|
  {
    Pow2Of64();
    WithBitBound(words[b / 64], b % 64, 64);
    words[b / 64 := WithBit(words[b / 64], b % 64)]
  }

  /** The words with the first `count` bits of a key. */
  function WithKey(words: seq<Word>, key: Key, numBits: nat, count: nat): (r: seq<Word>)
    requires numBits > 0 && |words| == WordsFor(numBits)
    ensures |r| == |words|
  {
    if count == 0 then words else SetIn(WithKey(words, key, numBits, count - 1), KeyBit(key, count - 1, numBits))
  }

  lemma SetInSets(words: seq<Word>, bit: nat, b: nat)
    requires bit / 64 < |words|
    ensures HasBit(SetIn(words, bit), b) <==> b == bit || HasBit(words, b)
  {
    hide Pow2;
    if b / 64 == bit / 64 {
      WithBitSets(words[b / 64], bit % 64, b % 64);
    }
  }

  /** Inserting sets the key's bits and no other. */
  lemma {:induction false} WithKeySets(words: seq<Word>, key: Key, numBits: nat, count: nat, b: nat)
    requires numBits > 0 && |words| == WordsFor(numBits)
    ensures HasBit(WithKey(words, key, numBits, count), b)
            <==> HasBit(words, b) || exists i :: 0 <= i < count && b == KeyBit(key, i, numBits)
    decreases count
  {
    hide KeyBit, HasBit, SetIn;
    if count > 0 {
      WithKeySets(words, key, numBits, count - 1, b);
      SetInSets(WithKey(words, key, numBits, count - 1), KeyBit(key, count - 1, numBits), b);
    }
  }

  // ---------- the filter ----------

  /** The state of a filter as a value. */
  datatype Filter = Filter(bits: seq<Word>, numBits: nat, numHashes: nat) {
    predicate Valid()
    {
      numBits > 0 && |bits| == WordsFor(numBits)
    }

    /** What `might_contain` answers. */
    predicate MightContain(key: Key)
      requires numBits > 0
    {
      forall i | 0 <= i < numHashes :: HasBit(bits, KeyBit(key, i, numBits))
    }

    /** The keys whose bits this filter holds are held by `larger` as well. */
    ghost predicate Within(larger: Filter)
    {
      && larger.numBits == numBits && larger.numHashes == numHashes
      && forall b :: HasBit(bits, b) ==> HasBit(larger.bits, b)
    }

    /** The filter with one more key. */
    function With(key: Key): (f: Filter)
      requires Valid()
      ensures f.Valid() && f.numBits == numBits && f.numHashes == numHashes
    {
      Filter(WithKey(bits, key, numBits, numHashes), numBits, numHashes)
    }

    function Encode(): Bytes
    {
      U32Bytes(numBits) + U32Bytes(numHashes) + WordBytes(bits)
    }
  }

  function WordBytes(words: seq<Word>): (s: Bytes)
    ensures |s| == 8 * |words|
    decreases |words|
  {
    if words == [] then [] else LeBytes(words[0], 8) + WordBytes(words[1..])
  }

  function WordsAt(data: Bytes, count: nat): (words: seq<Word>)
    requires 8 * count <= |data|
    ensures |words| == count
    decreases count
  {
    EightBytes();
    if count == 0 then [] else [LeValue(data[..8])] + WordsAt(data[8..], count - 1)
  }

  function DecodeFilter(data: Bytes): Option<Filter>
  {
    if |data| < 8 then None
    else
      var numBits, numHashes := U32At(data, 0), U32At(data, 4);
      var words := WordsFor(numBits);
      if |data| < 8 + 8 * words then None
      else Some(Filter(WordsAt(data[8..], words), numBits, numHashes))
  }

  /** Adding keys never makes the filter forget one. */
  lemma LargerStillContains(small: Filter, large: Filter, key: Key)
    requires small.numBits > 0 && small.Within(large) && small.MightContain(key)
    ensures large.MightContain(key)
  {
    forall i | 0 <= i < large.numHashes
      ensures HasBit(large.bits, KeyBit(key, i, large.numBits))
    {
      assert HasBit(small.bits, KeyBit(key, i, small.numBits));
    }
  }

  /** An inserted key is contained, and so is every key that was before. */
  lemma InsertedIsContained(f: Filter, key: Key)
    requires f.Valid()
    ensures f.With(key).MightContain(key) && f.Within(f.With(key))
  {
    hide KeyBit, HasBit;
    forall b
      ensures HasBit(f.bits, b) ==> HasBit(f.With(key).bits, b)
    {
      WithKeySets(f.bits, key, f.numBits, f.numHashes, b);
    }
    forall i | 0 <= i < f.numHashes
      ensures HasBit(f.With(key).bits, KeyBit(key, i, f.numBits))
    {
      WithKeySets(f.bits, key, f.numBits, f.numHashes, KeyBit(key, i, f.numBits));
    }
  }

  /** The filter built from some keys. */
  function Built(keys: seq<Key>, numBits: nat, numHashes: nat): (f: Filter)
    requires numBits > 0
    ensures f.Valid() && f.numBits == numBits && f.numHashes == numHashes
    decreases |keys|
  {
    if keys == [] then Filter(seq(WordsFor(numBits), _ => 0), numBits, numHashes)
    else Built(keys[..|keys| - 1], numBits, numHashes).With(keys[|keys| - 1])
  }

  /** No key that a filter was built from is rejected. */
  lemma {:induction false} BuiltContains(keys: seq<Key>, numBits: nat, numHashes: nat, key: Key)
    requires numBits > 0 && key in keys
    ensures Built(keys, numBits, numHashes).MightContain(key)
    decreases |keys|
  {
    hide HasBit, KeyBit, WithKey;
    var front, last := keys[..|keys| - 1], keys[|keys| - 1];
    var before := Built(front, numBits, numHashes);
    InsertedIsContained(before, last);
    if key != last {
      assert keys == front + [last];
      BuiltContains(front, numBits, numHashes, key);
      LargerStillContains(before, before.With(last), key);
    }
  }

  /** A filter that was built holds the bits of its keys and no other. */
  lemma {:induction false} BuiltHoldsIff(keys: seq<Key>, numBits: nat, numHashes: nat, b: nat)
    requires numBits > 0
    ensures HasBit(Built(keys, numBits, numHashes).bits, b)
            <==> exists key, i :: key in keys && 0 <= i < numHashes && b == KeyBit(key, i, numBits)
    decreases |keys|
  {
    hide HasBit, KeyBit, WithKey;
    if keys == [] {
      NoBits(b, numBits, numHashes);
    } else {
      var front, last := keys[..|keys| - 1], keys[|keys| - 1];
      assert keys == front + [last];
      BuiltHoldsIff(front, numBits, numHashes, b);
      WithKeySets(Built(front, numBits, numHashes).bits, last, numBits, numHashes, b);
    }
  }

  lemma NoBits(b: nat, numBits: nat, numHashes: nat)
    requires numBits > 0
    ensures !HasBit(Built([], numBits, numHashes).bits, b)
  {
    NoBitOfZero(b % 64);
  }

  lemma {:induction false} NoBitOfZero(o: nat)
    ensures !BitOf(0, o)
  {
    if o > 0 {
      NoBitOfZero(o - 1);
    }
  }

  lemma {:induction false} WordsRoundTrip(words: seq<Word>, rest: Bytes)
    ensures WordsAt(WordBytes(words) + rest, |words|) == words
    decreases |words|
  {
    hide LeBytes, LeValue;
    if words != [] {
      var data := WordBytes(words) + rest;
      assert data[..8] == LeBytes(words[0], 8);
      assert data[8..] == WordBytes(words[1..]) + rest;
      WordRoundTrip(words[0]);
      WordsRoundTrip(words[1..], rest);
    }
  }

  lemma WordRoundTrip(w: Word)
    ensures LeValue(LeBytes(w, 8)) == w
  {
    hide LeBytes, LeValue, Pow256;
    LeRoundTrip(w, 8);
    EightBytes();
  }

  /** Writing a filter and reading it back gives the same filter exactly when its sizes fit in u32. */
  lemma FilterRoundTripIffFits(f: Filter)
    requires f.Valid()
    ensures DecodeFilter(f.Encode()) == Some(f) <==> f.numBits < U32_MODULUS && f.numHashes < U32_MODULUS
  {
    hide LeBytes, LeValue, WordBytes, WordsAt, U32Bytes;
    var data := f.Encode();
    assert data[0..4] == U32Bytes(f.numBits);
    assert data[4..8] == U32Bytes(f.numHashes);
    assert data[8..] == WordBytes(f.bits) + [];
    U32RoundTrip(f.numBits);
    U32RoundTrip(f.numHashes);
    WordsRoundTrip(f.bits, []);
  }

  /** The mutable filter. */
  class BloomFilter {
    const bits: array<Word>
    const numBits: nat
    const numHashes: nat

    ghost predicate Valid()
      reads this, bits
    {
      View().Valid()
    }

    ghost function View(): Filter
      reads this, bits
    {
      Filter(bits[..], numBits, numHashes)
    }

    constructor (numBits: nat, numHashes: nat)
      requires numBits > 0
      ensures fresh(bits) && View() == Built([], numBits, numHashes)
    {
      this.numBits := numBits;
      this.numHashes := numHashes;
      this.bits := new Word[WordsFor(numBits)](_ => 0);
    }

    method Insert(key: Key)
      requires Valid()
      modifies bits
      ensures View() == old(View()).With(key)
    {
      hide KeyBit, Pow2, WithBit;
      var i := 0;
      while i < numHashes
        invariant 0 <= i <= numHashes
        invariant bits[..] == WithKey(old(bits[..]), key, numBits, i)
      {
        var bit := KeyBit(key, i, numBits);
        var word, offset := bit / 64, bit % 64;
        ghost var words := bits[..];
        Pow2Of64();
        WithBitBound(bits[word], offset, 64);
        bits[word] := WithBit(bits[word], offset);
        assert bits[..] == SetIn(words, bit);
        i := i + 1;
      }
    }

    method MightContain(key: Key) returns (found: bool)
      requires Valid()
      ensures found <==> View().MightContain(key)
    {
      hide KeyBit;
      var i := 0;
      while i < numHashes
        invariant 0 <= i <= numHashes
        invariant forall j | 0 <= j < i :: HasBit(bits[..], KeyBit(key, j, numBits))
      {
        var bit := KeyBit(key, i, numBits);
        if !BitOf(bits[bit / 64], bit % 64) {
          assert !HasBit(bits[..], KeyBit(key, i, numBits));
          return false;
        }
        i := i + 1;
      }
      return true;
    }

    method Encode() returns (buf: Bytes)
      ensures buf == View().Encode()
    {
      buf := U32Bytes(numBits) + U32Bytes(numHashes);
      ghost var start := buf;
      var i := 0;
      while i < bits.Length
        invariant 0 <= i <= bits.Length
        invariant buf + WordBytes(bits[i..]) == View().Encode()
      {
        assert bits[i..][1..] == bits[i + 1..];
        assert buf + (LeBytes(bits[i], 8) + WordBytes(bits[i + 1..]))
            == buf + LeBytes(bits[i], 8) + WordBytes(bits[i + 1..]);
        buf := buf + LeBytes(bits[i], 8);
        i := i + 1;
      }
      assert buf + [] == buf;
    }
  }

  lemma NoWordsLeft(data: Bytes, bits: seq<Word>)
    ensures bits + WordsAt(data, 0) == bits
  {
  }

  lemma WordsStep(data: Bytes, offset: nat, count: nat)
    requires count > 0 && offset + 8 * count <= |data|
    ensures LeValue(data[offset..offset + 8]) < U64_MODULUS
    ensures WordsAt(data[offset..], count)
              == [LeValue(data[offset..offset + 8])] + WordsAt(data[offset + 8..], count - 1)
  {
    hide LeValue, Pow256;
    EightBytes();
    assert data[offset..][..8] == data[offset..offset + 8];
    assert data[offset..][8..] == data[offset + 8..];
  }

  /** `decode`: the words of a filter, one after the other. */
  method Decode(data: Bytes) returns (filter: Option<Filter>)
    ensures filter == DecodeFilter(data)
  {
    hide LeValue, U32At, Pow256, WordsAt;
    if |data| < 8 {
      return None;
    }
    var numBits, numHashes := U32At(data, 0), U32At(data, 4);
    var words := WordsFor(numBits);
    if |data| < 8 + 8 * words {
      return None;
    }
    var bits: seq<Word> := [];
    var i := 0;
    assert data[8..][0..] == data[8..];
    while i < words
      invariant 0 <= i <= words && |bits| == i
      invariant bits + WordsAt(data[8 + 8 * i..], words - i) == WordsAt(data[8..], words)
    {
      var offset := 8 + 8 * i;
      WordsStep(data, offset, words - i);
      bits := bits + [LeValue(data[offset..offset + 8])];
      i := i + 1;
    }
    NoWordsLeft(data[8 + 8 * i..], bits);
    return Some(Filter(bits, numBits, numHashes));
  }

  /** `from_entries`. */
  method FromEntries(keys: seq<Key>, numBits: nat, numHashes: nat) returns (filter: BloomFilter)
    requires numBits > 0
    ensures fresh(filter) && fresh(filter.bits) && filter.View() == Built(keys, numBits, numHashes)
  {
    filter := new BloomFilter(numBits, numHashes);
    var n := 0;
    assert keys[..0] == [];
    while n < |keys|
      invariant 0 <= n <= |keys|
      invariant fresh(filter) && fresh(filter.bits) && filter.View() == Built(keys[..n], numBits, numHashes)
    {
      assert keys[..n + 1][..n] == keys[..n];
      filter.Insert(keys[n]);
      n := n + 1;
    }
    assert keys[..n] == keys;
  }
}
