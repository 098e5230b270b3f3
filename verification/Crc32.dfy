/**
 CRC-32 as section 8 of RFC 1952 gives it: the reflected polynomial
 0xEDB88320, register preset to all ones and complemented at the end.
 The source computes it with a table; here the table loop is proved equal to
 the bit-by-bit definition, and the definition is proved to notice every change
 confined to four consecutive bytes.

 A u32 is a natural number below 2^32: `c >> 1` is `c / 2`, `c & 1` is `c % 2`.
 */
module Crc32 {
  import opened Bytes

  const POLY: nat := 0xEDB8_8320
  const ALL_ONES: nat := 0xFFFF_FFFF

  // ---------- exclusive or ----------

  /** `a ^ b`. */
  function Xor(a: nat, b: nat): nat
    decreases a + b
  {
    if a + b == 0 then 0 else 2 * Xor(a / 2, b / 2) + (a + b) % 2
  }

  lemma XorStep(a: nat, b: nat)
    ensures Xor(a, b) == if a + b == 0 then 0 else 2 * Xor(a / 2, b / 2) + (a + b) % 2
  {
  }

  lemma XorHalves(a: nat, b: nat)
    ensures Xor(a, b) / 2 == Xor(a / 2, b / 2) && Xor(a, b) % 2 == (a % 2 + b % 2) % 2
  {
    hide Xor;
    XorStep(a, b);
    if a + b > 0 {
      ParityOfSum(a, b);
    }
  }

  lemma ParityOfSum(a: nat, b: nat)
    ensures (a + b) % 2 == (a % 2 + b % 2) % 2
  {
  }

  lemma {:induction false} XorZero(a: nat)
    ensures Xor(a, 0) == a && Xor(0, a) == a
  {
    if a > 0 {
      XorZero(a / 2);
    }
  }

  lemma SameHalves(a: nat, b: nat)
    requires a / 2 == b / 2 && a % 2 == b % 2
    ensures a == b
  {
  }

  lemma {:induction false} XorCommutes(a: nat, b: nat)
    ensures Xor(a, b) == Xor(b, a)
    decreases a + b
  {
    hide Xor;
    XorStep(a, b);
    XorStep(b, a);
    if a + b > 0 {
      XorCommutes(a / 2, b / 2);
    }
  }

  lemma {:induction false} XorAssociative(a: nat, b: nat, c: nat)
    ensures Xor(Xor(a, b), c) == Xor(a, Xor(b, c))
    decreases a + b + c
  {
    hide Xor;
    if a > 0 && b > 0 && c > 0 {
      XorAssociative(a / 2, b / 2, c / 2);
      XorHalves(a, b);
      XorHalves(b, c);
      XorHalves(Xor(a, b), c);
      XorHalves(a, Xor(b, c));
      SumsOfBits(a % 2, b % 2, c % 2);
      SameHalves(Xor(Xor(a, b), c), Xor(a, Xor(b, c)));
    } else {
      XorZero(a);
      XorZero(b);
      XorZero(c);
      XorZero(Xor(a, b));
      XorZero(Xor(b, c));
    }
  }

  lemma SumsOfBits(a: nat, b: nat, c: nat)
    ensures ((a + b) % 2 + c) % 2 == (a + (b + c) % 2) % 2
  {
  }

  lemma {:induction false} XorSelf(a: nat)
    ensures Xor(a, a) == 0
  {
    if a > 0 {
      XorSelf(a / 2);
    }
  }

  lemma XorCancel(a: nat, b: nat, c: nat)
    requires Xor(a, c) == Xor(b, c)
    ensures a == b
  {
    hide Xor;
    XorAssociative(a, c, c);
    XorAssociative(b, c, c);
    XorSelf(c);
    XorZero(a);
    XorZero(b);
  }

  lemma XorMoves(r: nat, w: nat, x: nat)
    requires Xor(r, x) == w
    ensures Xor(r, w) == x
  {
    hide Xor;
    XorAssociative(r, r, x);
    XorSelf(r);
    XorZero(x);
  }

  lemma Pow2Values()
    ensures Pow2(8) == 0x100 && Pow2(31) == 0x8000_0000 && Pow2(32) == U32_MODULUS
  {
    assert Pow2(4) == 16 && Pow2(1) == 2;
    hide Pow2;
    Pow2Add(4, 4);
    assert Pow2(8) == 0x100;
    Pow2Add(8, 8);
    assert Pow2(16) == 0x1_0000;
    Pow2Add(16, 16);
    assert Pow2(32) == U32_MODULUS;
    Pow2Add(31, 1);
  }

  lemma {:induction false} XorBound(a: nat, b: nat, n: nat)
    requires a < Pow2(n) && b < Pow2(n)
    ensures Xor(a, b) < Pow2(n)
    decreases n
  {
    if n > 0 {
      XorBound(a / 2, b / 2, n - 1);
      XorHalves(a, b);
    }
  }

  /** A number with bit `n` set keeps it when only lower bits are flipped. */
  lemma {:induction false} XorKeepsTopBit(a: nat, b: nat, n: nat)
    requires a < Pow2(n) <= b
    ensures Xor(a, b) >= Pow2(n)
    decreases n
  {
    if n > 0 {
      XorKeepsTopBit(a / 2, b / 2, n - 1);
      XorHalves(a, b);
    } else {
      XorZero(b);
    }
  }

  /** `c << n`, `c >> n`. */
  function Up(c: nat, n: nat): nat
  {
    if n == 0 then c else 2 * Up(c, n - 1)
  }

  function Down(c: nat, n: nat): nat
  {
    if n == 0 then c else Down(c / 2, n - 1)
  }

  lemma TwoBits(c: nat, n: nat)
    ensures Up(c, n + 2) == 4 * Up(c, n) && Down(c, n + 2) == Down(c / 4, n)
  {
    assert Up(c, n + 1) == 2 * Up(c, n);
    assert Down(c, n + 2) == Down(c / 2, n + 1);
    assert c / 2 / 2 == c / 4;
  }

  lemma EightBits(c: nat)
    ensures Up(c, 8) == 256 * c && Down(c, 8) == c / 256
  {
    TwoBits(c, 0);
    TwoBits(c, 2);
    TwoBits(c, 4);
    TwoBits(c, 6);
    TwoBits(c / 4, 4);
    TwoBits(c / 4 / 4, 2);
    TwoBits(c / 4 / 4 / 4, 0);
    assert c / 4 / 4 / 4 / 4 == c / 256;
  }

  /** Where no bit meets, exclusive or is addition. */
  lemma {:induction false} XorJoins(low: nat, high: nat, n: nat)
    requires low < Pow2(n)
    ensures Xor(low, Up(high, n)) == low + Up(high, n)
    decreases n
  {
    if n == 0 {
      XorZero(high);
    } else {
      var h := Up(high, n - 1);
      hide Xor;
      XorJoins(low / 2, high, n - 1);
      XorHalves(low, 2 * h);
      EvenSum(low, h);
      SameHalves(Xor(low, 2 * h), low + 2 * h);
    }
  }

  lemma EvenSum(low: nat, h: nat)
    ensures (low + 2 * h) / 2 == low / 2 + h && (low + 2 * h) % 2 == low % 2 && 2 * h / 2 == h && 2 * h % 2 == 0
  {
  }

  lemma XorJoinsByte(low: nat, high: nat)
    requires low < 256
    ensures Xor(low, 256 * high) == low + 256 * high
  {
    hide Xor;
    Pow2Values();
    XorJoins(low, high, 8);
    EightBits(high);
  }

  // ---------- the bitwise definition ----------

  function ShiftBit(c: nat): nat
  {
    if c % 2 == 1 then Xor(c / 2, POLY) else c / 2
  }

  function ShiftBits(c: nat, n: nat): nat
    decreases n, c
  {
    if n == 0 then c else ShiftBits(ShiftBit(c), n - 1)
  }

  /** The register after one more byte. */
  function Step(c: nat, b: Byte): nat
  {
    ShiftBits(Xor(c, b), 8)
  }

  /** The register after a byte string. */
  function Register(c: nat, data: Bytes): nat
    decreases |data|
  {
    if data == [] then c else Register(Step(c, data[0]), data[1..])
  }

  function Checksum(data: Bytes): nat
  {
    Xor(Register(ALL_ONES, data), ALL_ONES)
  }

  lemma ShiftBitBound(c: nat)
    requires c < U32_MODULUS
    ensures ShiftBit(c) < U32_MODULUS
  {
    hide Xor;
    Pow2Values();
    XorBound(c / 2, POLY, 32);
  }

  lemma {:induction false} ShiftBitsBound(c: nat, n: nat)
    requires c < U32_MODULUS
    ensures ShiftBits(c, n) < U32_MODULUS
    decreases n
  {
    if n > 0 {
      ShiftBitBound(c);
      ShiftBitsBound(ShiftBit(c), n - 1);
    }
  }

  lemma StepBound(c: nat, b: Byte)
    requires c < U32_MODULUS
    ensures Xor(c, b) < U32_MODULUS && Step(c, b) < U32_MODULUS
  {
    hide Xor;
    Pow2Values();
    XorBound(c, b, 32);
    ShiftBitsBound(Xor(c, b), 8);
  }

  lemma {:induction false} RegisterBound(c: nat, data: Bytes)
    requires c < U32_MODULUS
    ensures Register(c, data) < U32_MODULUS
    decreases |data|
  {
    if data != [] {
      StepBound(c, data[0]);
      RegisterBound(Step(c, data[0]), data[1..]);
    }
  }

  lemma ChecksumBound(data: Bytes)
    ensures Checksum(data) < U32_MODULUS
  {
    hide Xor;
    RegisterBound(ALL_ONES, data);
    Pow2Values();
    XorBound(Register(ALL_ONES, data), ALL_ONES, 32);
  }

  // ---------- shifting is linear and reversible ----------

  lemma ShiftBitLinear(a: nat, b: nat)
    ensures ShiftBit(Xor(a, b)) == Xor(ShiftBit(a), ShiftBit(b))
  {
    hide Xor;
    XorHalves(a, b);
    XorPast(a / 2, b / 2, POLY);
  }

  /** Twice the same number vanishes, and once it may come last. */
  lemma XorPast(x: nat, y: nat, p: nat)
    ensures Xor(Xor(x, p), Xor(y, p)) == Xor(x, y)
    ensures Xor(Xor(x, p), y) == Xor(Xor(x, y), p) == Xor(x, Xor(y, p))
  {
    hide Xor;
    XorAssociative(x, p, y);
    XorCommutes(p, y);
    XorAssociative(x, y, p);
    XorAssociative(x, p, Xor(y, p));
    XorAssociative(p, p, y);
    XorSelf(p);
    XorZero(y);
  }

  lemma {:induction false} ShiftBitsLinear(a: nat, b: nat, n: nat)
    ensures ShiftBits(Xor(a, b), n) == Xor(ShiftBits(a, n), ShiftBits(b, n))
    decreases n
  {
    hide Xor;
    if n > 0 {
      ShiftBitLinear(a, b);
      ShiftBitsLinear(ShiftBit(a), ShiftBit(b), n - 1);
    }
  }

  /** Only an odd register brings the top bit of the polynomial in, so a step loses nothing. */
  lemma ShiftBitInjective(a: nat, b: nat)
    requires a < U32_MODULUS && b < U32_MODULUS && ShiftBit(a) == ShiftBit(b)
    ensures a == b
  {
    hide Xor;
    Pow2Values();
    XorKeepsTopBit(a / 2, POLY, 31);
    XorKeepsTopBit(b / 2, POLY, 31);
    if a % 2 == 1 && b % 2 == 1 {
      XorCancel(a / 2, b / 2, POLY);
    }
    SameHalves(a, b);
  }

  lemma {:induction false} ShiftBitsInjective(a: nat, b: nat, n: nat)
    requires a < U32_MODULUS && b < U32_MODULUS && ShiftBits(a, n) == ShiftBits(b, n)
    ensures a == b
    decreases n
  {
    hide Xor;
    if n > 0 {
      ShiftBitBound(a);
      ShiftBitBound(b);
      ShiftBitsInjective(ShiftBit(a), ShiftBit(b), n - 1);
      ShiftBitInjective(a, b);
    }
  }

  lemma {:induction false} ShiftBitsAdd(c: nat, m: nat, n: nat)
    ensures ShiftBits(c, m + n) == ShiftBits(ShiftBits(c, m), n)
    decreases m
  {
    if m > 0 {
      ShiftBitsAdd(ShiftBit(c), m - 1, n);
    }
  }

  lemma {:induction false} ShiftBitsOfUp(v: nat, n: nat)
    ensures ShiftBits(Up(v, n), n) == v
    decreases n
  {
    hide Xor;
    if n > 0 {
      ShiftBitsOfUp(v, n - 1);
    }
  }

  lemma ShiftOutByte(v: nat)
    ensures ShiftBits(256 * v, 8) == v
  {
    hide Xor, ShiftBits;
    EightBits(v);
    ShiftBitsOfUp(v, 8);
  }

  // ---------- the table form ----------

  /** One table lookup does the work of eight shifts. */
  lemma TableStep(c: nat)
    ensures ShiftBits(c, 8) == Xor(c / 256, ShiftBits(c % 256, 8))
  {
    hide Xor;
    XorJoinsByte(c % 256, c / 256);
    XorCommutes(c % 256, 256 * (c / 256));
    ShiftBitsLinear(256 * (c / 256), c % 256, 8);
    ShiftOutByte(c / 256);
  }

  lemma HighIgnoresByte(c: nat, b: Byte)
    ensures Xor(c, b) / 256 == c / 256
  {
    hide Xor;
    Pow2Values();
    HighIgnoresLow(c, b, 8);
    EightBits(c);
    EightBits(Xor(c, b));
  }

  lemma {:induction false} HighIgnoresLow(c: nat, b: nat, n: nat)
    requires b < Pow2(n)
    ensures Down(Xor(c, b), n) == Down(c, n)
    decreases n
  {
    hide Xor;
    if n == 0 {
      XorZero(c);
    } else {
      HighIgnoresLow(c / 2, b / 2, n - 1);
      XorHalves(c, b);
    }
  }

  ghost predicate IsTable(table: seq<nat>)
  {
    |table| == 256 && forall i: Byte :: table[i] == ShiftBits(i, 8)
  }

  method BuildTable() returns (table: seq<nat>)
    ensures IsTable(table)
  {
    table := [];
    var i := 0;
    while i < 256
      invariant 0 <= i <= 256 && |table| == i
      invariant forall k: Byte | k < i :: table[k] == ShiftBits(k, 8)
    {
      var crc := i;
      var j := 0;
      while j < 8
        invariant 0 <= j <= 8
        invariant crc >= 0 && ShiftBits(crc, 8 - j) == ShiftBits(i, 8)
      {
        if crc % 2 != 0 {
          crc := Xor(crc / 2, POLY);
        } else {
          crc := crc / 2;
        }
        j := j + 1;
      }
      table := table + [crc];
      i := i + 1;
    }
  }

  method Crc32(table: seq<nat>, data: Bytes) returns (sum: nat)
    requires IsTable(table)
    ensures sum == Checksum(data)
  {
    hide Xor;
    var crc := ALL_ONES;
    var i := 0;
    while i < |data|
      invariant 0 <= i <= |data|
      invariant Register(crc, data[i..]) == Register(ALL_ONES, data)
    {
      var mixed := Xor(crc, data[i]);
      TableStep(mixed);
      HighIgnoresByte(crc, data[i]);
      assert data[i..][1..] == data[i + 1..];
      crc := Xor(crc / 256, table[mixed % 256]);
      i := i + 1;
    }
    sum := Xor(crc, ALL_ONES);
  }

  // ---------- sealed byte strings ----------

  /** The checksum of a byte string, as the four bytes that are stored. */
  function Trailer(data: Bytes): (t: Bytes)
    ensures |t| == 4
  {
    LeBytes(Checksum(data), 4)
  }

  /** Comparing checksums as numbers is comparing them as stored bytes. */
  lemma TrailerIsChecksum(data: Bytes, stored: Bytes)
    requires |stored| == 4
    ensures stored == Trailer(data) <==> LeValue(stored) == Checksum(data)
  {
    hide Xor, Checksum, LeBytes, LeValue;
    ChecksumBound(data);
    U32RoundTrip(Checksum(data));
    if LeValue(stored) == Checksum(data) {
      LeInjective(stored, Trailer(data));
    }
  }

  /** A byte string whose last four bytes are the checksum of the rest. */
  predicate Sealed(block: Bytes)
    requires |block| >= 4
  {
    block[|block| - 4..] == Trailer(block[..|block| - 4])
  }

  function Seal(data: Bytes): (block: Bytes)
    ensures |block| == |data| + 4
  {
    data + Trailer(data)
  }

  lemma SealIsSealed(data: Bytes)
    ensures Sealed(Seal(data))
  {
    hide Xor;
    var block := Seal(data);
    assert block[..|block| - 4] == data;
    assert block[|block| - 4..] == Trailer(data);
  }

  // ---------- error detection ----------

  lemma {:induction false} RegisterConcat(c: nat, s: Bytes, t: Bytes)
    ensures Register(c, s + t) == Register(Register(c, s), t)
    decreases |s|
  {
    if s == [] {
      assert s + t == t;
    } else {
      assert (s + t)[1..] == s[1..] + t;
      RegisterConcat(Step(c, s[0]), s[1..], t);
    }
  }

  lemma {:induction false} RegisterInjective(a: nat, b: nat, s: Bytes)
    requires a < U32_MODULUS && b < U32_MODULUS && Register(a, s) == Register(b, s)
    ensures a == b
    decreases |s|
  {
    hide Xor;
    if s != [] {
      StepBound(a, s[0]);
      StepBound(b, s[0]);
      RegisterInjective(Step(a, s[0]), Step(b, s[0]), s[1..]);
      ShiftBitsInjective(Xor(a, s[0]), Xor(b, s[0]), 8);
      XorCancel(a, b, s[0]);
    }
  }

  /** Bytes act on the register as one little-endian number. */
  lemma {:induction false} RegisterOfWord(c: nat, s: Bytes)
    ensures Register(c, s) == ShiftBits(Xor(c, LeValue(s)), 8 * |s|)
    decreases |s|
  {
    hide Xor;
    if s == [] {
      XorZero(c);
    } else {
      StepOfWord(c, s);
      RegisterOfWord(Step(c, s[0]), s[1..]);
      ShiftBitsAdd(Xor(c, LeValue(s)), 8, 8 * |s[1..]|);
    }
  }

  lemma StepOfWord(c: nat, s: Bytes)
    requires s != []
    ensures ShiftBits(Xor(c, LeValue(s)), 8) == Xor(Step(c, s[0]), LeValue(s[1..]))
  {
    hide Xor;
    var lo, hi := s[0], LeValue(s[1..]);
    XorJoinsByte(lo, hi);
    XorAssociative(c, lo, 256 * hi);
    ShiftBitsLinear(Xor(c, lo), 256 * hi, 8);
    ShiftOutByte(hi);
  }

  lemma RegisterSeparates(c: nat, s: Bytes, t: Bytes)
    requires c < U32_MODULUS && |s| == |t| <= 4 && s != t
    ensures Register(c, s) != Register(c, t)
  {
    hide Xor;
    if Register(c, s) == Register(c, t) {
      RegisterOfWord(c, s);
      RegisterOfWord(c, t);
      WordBound(c, s);
      WordBound(c, t);
      ShiftBitsInjective(Xor(c, LeValue(s)), Xor(c, LeValue(t)), 8 * |s|);
      XorCommutes(c, LeValue(s));
      XorCommutes(c, LeValue(t));
      XorCancel(LeValue(s), LeValue(t), c);
      LeInjective(s, t);
    }
  }

  lemma WordBound(c: nat, s: Bytes)
    requires c < U32_MODULUS && |s| <= 4
    ensures Xor(c, LeValue(s)) < U32_MODULUS
  {
    hide Xor;
    FourBytes();
    Pow256Monotone(|s|, 4);
    Pow2Values();
    XorBound(c, LeValue(s), 32);
  }

  /** Every sealed string drives the register to the same value. */
  lemma SealedRegister(s: Bytes, t: Bytes)
    requires |s| >= 4 && |t| >= 4 && Sealed(s) && Sealed(t)
    ensures Register(ALL_ONES, s) == Register(ALL_ONES, t)
  {
    SealedOnes(s);
    SealedOnes(t);
  }

  lemma SealedOnes(s: Bytes)
    requires |s| >= 4 && Sealed(s)
    ensures Register(ALL_ONES, s) == ShiftBits(ALL_ONES, 8 * |s[|s| - 4..]|)
  {
    hide Xor;
    var data, stored := s[..|s| - 4], s[|s| - 4..];
    assert s == data + stored;
    TrailerIsChecksum(data, stored);
    RegisterConcat(ALL_ONES, data, stored);
    RegisterOfWord(Register(ALL_ONES, data), stored);
    XorMoves(Register(ALL_ONES, data), LeValue(stored), ALL_ONES);
  }

  /** No change confined to four consecutive bytes, checksum bytes included, leaves a sealed string sealed. */
  lemma BurstDetected(before: Bytes, old4: Bytes, new4: Bytes, after: Bytes)
    requires |old4| == |new4| <= 4 && old4 != new4
    requires |before + old4 + after| >= 4 && Sealed(before + old4 + after)
    ensures |before + new4 + after| >= 4 && !Sealed(before + new4 + after)
  {
    hide Xor;
    var r := Register(ALL_ONES, before);
    if Sealed(before + new4 + after) {
      SealedRegister(before + old4 + after, before + new4 + after);
      RegisterConcat(ALL_ONES, before + old4, after);
      RegisterConcat(ALL_ONES, before + new4, after);
      RegisterConcat(ALL_ONES, before, old4);
      RegisterConcat(ALL_ONES, before, new4);
      RegisterBound(ALL_ONES, before);
      RegisterBound(r, old4);
      RegisterBound(r, new4);
      RegisterInjective(Register(r, old4), Register(r, new4), after);
      RegisterSeparates(r, old4, new4);
    }
  }
}
