/**
 What the checksum is as a polynomial: the remainder of the message, divided by the
 generator of CRC-32 (section 8 of RFC 1952), over the field of two elements. A
 polynomial is a number whose bit `i` is the coefficient of x^i.
 */
module Polynomials {
  import opened Bytes
  import opened Crc32

  /** The product of two polynomials: no carries. */
  function Times(p: nat, q: nat): nat
    decreases p
  {
    if p == 0 then 0 else Xor(2 * Times(p / 2, q), if p % 2 == 1 then q else 0)
  }

  /** The lowest `n` bits in the opposite order. */
  function Reversed(c: nat, n: nat): nat
    decreases n
  {
    if n == 0 then 0 else c % 2 * Pow2(n - 1) + Reversed(c / 2, n - 1)
  }

  /** A byte string as a polynomial: each byte from its lowest bit on, the first bit has the highest power. */
  function Message(data: Bytes): nat
    decreases |data|
  {
    if data == [] then 0 else 256 * Message(data[..|data| - 1]) + Reversed(data[|data| - 1], 8)
  }

  // ---------- bits ----------

  lemma BitStep(x: nat, u: nat, y: nat, v: nat)
    requires x <= 1 && y <= 1
    ensures Xor(x + 2 * u, y + 2 * v) == (x + y) % 2 + 2 * Xor(u, v)
  {
    XorHalves(x + 2 * u, y + 2 * v);
    hide Xor;
    assert (x + 2 * u) / 2 == u && (y + 2 * v) / 2 == v;
  }

  lemma XorDouble(u: nat, v: nat)
    ensures Xor(2 * u, 2 * v) == 2 * Xor(u, v)
  {
    hide Xor;
    BitStep(0, u, 0, v);
  }

  lemma {:induction false} UpXor(u: nat, v: nat, n: nat)
    ensures Up(Xor(u, v), n) == Xor(Up(u, n), Up(v, n))
    decreases n
  {
    hide Xor;
    if n > 0 {
      UpXor(u, v, n - 1);
      XorDouble(Up(u, n - 1), Up(v, n - 1));
    }
  }

  lemma {:induction false} UpUp(c: nat, m: nat, n: nat)
    ensures Up(Up(c, m), n) == Up(c, m + n)
    decreases n
  {
    if n > 0 {
      UpUp(c, m, n - 1);
    }
  }

  lemma {:induction false} UpIs(c: nat, n: nat)
    ensures Up(c, n) == c * Pow2(n)
    decreases n
  {
    if n > 0 {
      UpIs(c, n - 1);
      assert 2 * (c * Pow2(n - 1)) == c * (2 * Pow2(n - 1));
    }
  }

  /** The top bits add up on their own. */
  lemma XorTop(x: nat, u: nat, y: nat, v: nat, n: nat)
    requires x <= 1 && y <= 1 && u < Pow2(n) && v < Pow2(n)
    ensures Xor(x * Pow2(n) + u, y * Pow2(n) + v) == (x + y) % 2 * Pow2(n) + Xor(u, v)
  {
    hide Xor, Pow2, Up;
    XorJoins(u, x, n);
    XorJoins(v, y, n);
    UpIs(x, n);
    UpIs(y, n);
    SumOfSums(u, Up(x, n), v, Up(y, n));
    UpXor(x, y, n);
    OneBit(x, y);
    XorBound(u, v, n);
    XorJoins(Xor(u, v), Xor(x, y), n);
    UpIs(Xor(x, y), n);
  }

  lemma OneBit(x: nat, y: nat)
    requires x <= 1 && y <= 1
    ensures Xor(x, y) == (x + y) % 2
  {
    BitStep(x, 0, y, 0);
    hide Xor;
    XorZero(0);
  }

  lemma Doubled(x: nat, half: nat)
    ensures x * (2 * half) == 2 * (x * half)
  {
  }

  // ---------- reversing ----------

  lemma {:induction false} ReversedBound(c: nat, n: nat)
    ensures Reversed(c, n) < Pow2(n)
    decreases n
  {
    if n > 0 {
      ReversedBound(c / 2, n - 1);
      OneMore(c % 2, Pow2(n - 1), Reversed(c / 2, n - 1));
    }
  }

  lemma OneMore(bit: nat, half: nat, low: nat)
    requires bit <= 1 && low < half
    ensures bit * half + low < 2 * half
  {
    assert bit * half <= half;
  }

  lemma {:induction false} ReversedXor(a: nat, b: nat, n: nat)
    ensures Reversed(Xor(a, b), n) == Xor(Reversed(a, n), Reversed(b, n))
    decreases n
  {
    if n == 0 {
      XorZero(0);
    } else {
      hide *;
      XorHalves(a, b);
      ReversedXor(a / 2, b / 2, n - 1);
      ReversedJoins(a, n);
      ReversedJoins(b, n);
      ReversedJoins(Xor(a, b), n);
      XorJoined(a % 2, Reversed(a / 2, n - 1), b % 2, Reversed(b / 2, n - 1), n - 1);
    }
  }

  function Joined(bit: nat, low: nat, n: nat): nat
  {
    bit * Pow2(n) + low
  }

  lemma ReversedJoins(c: nat, n: nat)
    requires n > 0
    ensures Reversed(c, n) == Joined(c % 2, Reversed(c / 2, n - 1), n - 1) && Reversed(c / 2, n - 1) < Pow2(n - 1)
  {
    hide Pow2;
    ReversedBound(c / 2, n - 1);
  }

  lemma XorJoined(x: nat, u: nat, y: nat, v: nat, n: nat)
    requires x <= 1 && y <= 1 && u < Pow2(n) && v < Pow2(n)
    ensures Xor(Joined(x, u, n), Joined(y, v, n)) == Joined((x + y) % 2, Xor(u, v), n)
  {
    hide Xor, Pow2;
    XorTop(x, u, y, v, n);
  }

  lemma {:induction false} ReversedSmall(c: nat, n: nat)
    requires n > 0 && c < Pow2(n - 1)
    ensures Reversed(c, n) == 2 * Reversed(c, n - 1)
    decreases n
  {
    if n == 1 {
      assert c == 0;
    } else {
      ReversedSmall(c / 2, n - 1);
      Doubled(c % 2, Pow2(n - 2));
    }
  }

  /** What leaves at the bottom leaves at the top of the reversed number. */
  lemma ReversedHalf(c: nat, n: nat)
    requires n > 0 && c < Pow2(n)
    ensures 2 * Reversed(c, n) == c % 2 * Pow2(n) + Reversed(c / 2, n)
  {
    ReversedSmall(c / 2, n);
    Doubled(c % 2, Pow2(n - 1));
  }

  lemma {:induction false} ReversedUp(c: nat, m: nat, n: nat)
    requires c < Pow2(m)
    ensures Reversed(c, m + n) == Up(Reversed(c, m), n)
    decreases n
  {
    if n > 0 {
      Pow2Monotone(m, m + n - 1);
      ReversedSmall(c, m + n);
      ReversedUp(c, m, n - 1);
    }
  }

  // ---------- multiples ----------

  lemma TimesStep(p: nat, bit: nat, q: nat)
    requires bit <= 1
    ensures Times(2 * p + bit, q) == Xor(2 * Times(p, q), if bit == 1 then q else 0)
  {
    hide Xor;
    assert (2 * p + bit) / 2 == p && (2 * p + bit) % 2 == bit;
    if 2 * p + bit == 0 {
      XorZero(0);
    }
  }

  lemma {:induction false} TimesXor(p: nat, r: nat, q: nat)
    ensures Times(Xor(p, r), q) == Xor(Times(p, q), Times(r, q))
    decreases p + r
  {
    hide Xor;
    if p + r == 0 {
      XorZero(0);
    } else {
      var x, y := p % 2, r % 2;
      TimesXor(p / 2, r / 2, q);
      BitStep(x, p / 2, y, r / 2);
      TimesStep(Xor(p / 2, r / 2), (x + y) % 2, q);
      TimesStep(p / 2, x, q);
      TimesStep(r / 2, y, q);
      XorDouble(Times(p / 2, q), Times(r / 2, q));
      SumOfSums(2 * Times(p / 2, q), 2 * Times(r / 2, q), if x == 1 then q else 0, if y == 1 then q else 0);
      XorSelf(q);
      XorZero(q);
      XorZero(0);
    }
  }

  lemma SumOfSums(a: nat, b: nat, x: nat, y: nat)
    ensures Xor(Xor(a, b), Xor(x, y)) == Xor(Xor(a, x), Xor(b, y))
  {
    hide Xor;
    XorAssociative(a, b, Xor(x, y));
    XorAssociative(b, x, y);
    XorCommutes(b, x);
    XorAssociative(x, b, y);
    XorAssociative(a, x, Xor(b, y));
  }

  lemma {:induction false} TimesUp(p: nat, q: nat, n: nat)
    ensures Times(Up(p, n), q) == Up(Times(p, q), n)
    decreases n
  {
    hide Xor;
    if n > 0 {
      TimesUp(p, q, n - 1);
      TimesStep(Up(p, n - 1), 0, q);
      XorZero(2 * Times(Up(p, n - 1), q));
    }
  }

  lemma TimesOne(q: nat)
    ensures Times(1, q) == q && Times(0, q) == 0
  {
    hide Xor;
    TimesStep(0, 1, q);
    XorZero(q);
  }

  // ---------- the generator ----------

  /** The register shifts towards the lower powers, and feeds back the generator. */
  lemma ShiftIsTimesX(c: nat)
    requires c < Pow2(32)
    ensures Reversed(ShiftBit(c), 32)
         == Xor(2 * Reversed(c, 32), if c % 2 == 1 then Pow2(32) + Reversed(POLY, 32) else 0)
  {
    hide Xor, Pow2, Reversed;
    ReversedHalf(c, 32);
    ReversedBound(c / 2, 32);
    ReversedBound(POLY, 32);
    if c % 2 == 1 {
      ReversedXor(c / 2, POLY, 32);
      XorTop(1, Reversed(c / 2, 32), 1, Reversed(POLY, 32), 32);
    } else {
      XorZero(2 * Reversed(c, 32));
    }
  }

  /** The generator: what the register feeds back, with the highest power that it leaves out. */
  function Generator(): nat
  {
    Pow2(32) + Reversed(POLY, 32)
  }

  /** Shifting the register is multiplying by x, modulo the generator. */
  lemma {:induction false} ShiftsDivide(c: nat, n: nat) returns (q: nat)
    requires c < Pow2(32)
    ensures Up(Reversed(c, 32), n) == Xor(Times(q, Generator()), Reversed(ShiftBits(c, n), 32))
    decreases n
  {
    hide Xor, Times, Reversed, ShiftBit, Pow2, Generator;
    if n == 0 {
      q := 0;
      TimesOne(Generator());
      XorZero(Reversed(c, 32));
    } else {
      var bit := c % 2;
      StaysSmall(c);
      var rest := ShiftsDivide(ShiftBit(c), n - 1);
      q := Xor(Up(bit, n - 1), rest);
      ShiftOnce(c);
      UpUp(Reversed(c, 32), 1, n - 1);
      UpXor(Up(Reversed(c, 32), 1), Times(bit, Generator()), n - 1);
      TimesUp(bit, Generator(), n - 1);
      TimesXor(Up(bit, n - 1), rest, Generator());
      MoveOver(Up(Reversed(c, 32), n), Times(Up(bit, n - 1), Generator()), Times(rest, Generator()),
               Reversed(ShiftBits(c, n), 32));
    }
  }

  lemma StaysSmall(c: nat)
    requires c < Pow2(32)
    ensures ShiftBit(c) < Pow2(32)
  {
    hide ShiftBit, Pow2;
    Pow2Values();
    ShiftBitBound(c);
  }

  lemma ShiftOnce(c: nat)
    requires c < Pow2(32)
    ensures Reversed(ShiftBit(c), 32) == Xor(Up(Reversed(c, 32), 1), Times(c % 2, Generator()))
  {
    hide Xor, Times, Reversed, ShiftBit, Pow2;
    ShiftIsTimesX(c);
    TimesOne(Generator());
  }

  lemma MoveOver(a: nat, b: nat, c: nat, d: nat)
    requires Xor(a, b) == Xor(c, d)
    ensures a == Xor(Xor(b, c), d)
  {
    hide Xor;
    XorAssociative(a, b, b);
    XorSelf(b);
    XorZero(a);
    XorCommutes(Xor(c, d), b);
    XorAssociative(b, c, d);
  }

  // ---------- the message ----------

  /** The message with room for a remainder, its first four bytes inverted. */
  function Dividend(data: Bytes): nat
    decreases |data|
  {
    if data == [] then 0xFFFF_FFFF
    else Xor(Up(Dividend(data[..|data| - 1]), 8), Up(Reversed(data[|data| - 1], 8), 32))
  }

  lemma {:induction false} RegisterIsRemainder(data: Bytes) returns (q: nat)
    ensures Dividend(data) == Xor(Times(q, Generator()), Reversed(Register(ALL_ONES, data), 32))
    decreases |data|
  {
    hide Xor, Times, Reversed, Generator, Step;
    if data == [] {
      q := 0;
      TimesOne(Generator());
      OnesReversed();
      XorZero(0xFFFF_FFFF);
    } else {
      var front, b := data[..|data| - 1], data[|data| - 1];
      var before := RegisterIsRemainder(front);
      assert front + [b] == data;
      RegisterMore(front, b);
      q := ByteDivides(Dividend(front), Register(ALL_ONES, front), b, before);
    }
  }

  lemma RegisterMore(front: Bytes, b: Byte)
    ensures Register(ALL_ONES, front + [b]) == Step(Register(ALL_ONES, front), b)
    ensures Register(ALL_ONES, front) < Pow2(32)
  {
    hide Step, Pow2;
    RegisterConcat(ALL_ONES, front, [b]);
    assert [b][1..] == [];
    RegisterBound(ALL_ONES, front);
    Pow2Values();
  }

  lemma OnesReversed()
    ensures Reversed(ALL_ONES, 32) == 0xFFFF_FFFF
  {
    hide Pow2;
    Pow2Values();
    AllOnesReversed(32);
  }

  lemma {:induction false} AllOnesReversed(n: nat)
    ensures Reversed(Pow2(n) - 1, n) == Pow2(n) - 1
    decreases n
  {
    if n > 0 {
      AllOnesReversed(n - 1);
      assert (Pow2(n) - 1) / 2 == Pow2(n - 1) - 1 && (Pow2(n) - 1) % 2 == 1;
    }
  }

  /** One byte more: eight more bits of the division. */
  lemma ByteDivides(dividend: nat, c: nat, b: Byte, before: nat) returns (q: nat)
    requires c < Pow2(32) && dividend == Xor(Times(before, Generator()), Reversed(c, 32))
    ensures Xor(Up(dividend, 8), Up(Reversed(b, 8), 32)) == Xor(Times(q, Generator()), Reversed(Step(c, b), 32))
  {
    hide Xor, Times, Reversed, Generator, ShiftBits, Pow2;
    Pow2Values();
    StepBound(c, b);
    var after := ShiftsDivide(Xor(c, b), 8);
    q := Xor(Up(before, 8), after);
    var r, byte := Reversed(c, 32), Reversed(b, 8);
    ReversedXor(c, b, 32);
    ReversedUp(b, 8, 24);
    UpXor(r, Up(byte, 24), 8);
    UpUp(byte, 24, 8);
    UpXor(Times(before, Generator()), r, 8);
    TimesUp(before, Generator(), 8);
    TimesXor(Up(before, 8), after, Generator());
    XorAssociative(Times(Up(before, 8), Generator()), Up(r, 8), Up(byte, 32));
    XorAssociative(Times(Up(before, 8), Generator()), Times(after, Generator()), Reversed(Step(c, b), 32));
  }

  lemma {:induction false} DividendIs(data: Bytes)
    ensures Dividend(data) == Xor(Up(Message(data), 32), Up(0xFFFF_FFFF, 8 * |data|))
    decreases |data|
  {
    hide Xor, Up, Reversed;
    if data == [] {
      NothingUp();
      XorZero(0xFFFF_FFFF);
    } else {
      var front, b := data[..|data| - 1], data[|data| - 1];
      DividendIs(front);
      var m, ones, byte := Message(front), Up(0xFFFF_FFFF, 8 * |front|), Reversed(b, 8);
      UpXor(Up(m, 32), ones, 8);
      UpUp(m, 32, 8);
      UpUp(m, 8, 32);
      UpUp(0xFFFF_FFFF, 8 * |front|, 8);
      ByteJoins(m, b);
      UpXor(Up(m, 8), byte, 32);
      XorAssociative(Up(m, 40), Up(ones, 8), Up(byte, 32));
      XorCommutes(Up(ones, 8), Up(byte, 32));
      XorAssociative(Up(m, 40), Up(byte, 32), Up(ones, 8));
    }
  }

  lemma NothingUp()
    ensures Up(0, 32) == 0 && Up(0xFFFF_FFFF, 0) == 0xFFFF_FFFF
  {
    UpIs(0, 32);
  }

  lemma ByteJoins(m: nat, b: Byte)
    ensures Xor(Up(m, 8), Reversed(b, 8)) == 256 * m + Reversed(b, 8)
  {
    hide Xor, Up, Reversed, Pow2;
    Pow2Values();
    ReversedBound(b, 8);
    EightBits(m);
    XorJoinsByte(Reversed(b, 8), m);
    XorCommutes(256 * m, Reversed(b, 8));
  }

  // ---------- the generator of CRC-32 ----------

  lemma {:induction false} ReversedSplit(low: nat, high: nat, m: nat, n: nat)
    requires low < Pow2(m)
    ensures Reversed(low + Up(high, m), m + n) == Reversed(low, m) * Pow2(n) + Reversed(high, n)
    decreases m
  {
    if m > 0 {
      ReversedSplit(low / 2, high, m - 1, n);
      EvenSum(low, Up(high, m - 1));
      Pow2Add(m - 1, n);
      Distributes(low % 2, Pow2(m - 1), Reversed(low / 2, m - 1), Pow2(n));
    }
  }

  lemma Distributes(a: nat, b: nat, c: nat, d: nat)
    ensures (a * b + c) * d == a * (b * d) + c * d
  {
  }

  /** The bits of a byte, in the opposite order. */
  lemma ByteReversed(b: Byte)
    ensures Reversed(b, 8) == b % 2 * 128 + b / 2 % 2 * 64 + b / 4 % 2 * 32 + b / 8 % 2 * 16
                              + b / 16 % 2 * 8 + b / 32 % 2 * 4 + b / 64 % 2 * 2 + b / 128 % 2
  {
    hide *;
    PowersOfTwo();
    ReversedStep(b, 8);
    ReversedStep(b / 2, 7);
    ReversedStep(b / 4, 6);
    ReversedStep(b / 8, 5);
    ReversedStep(b / 16, 4);
    ReversedStep(b / 32, 3);
    ReversedStep(b / 64, 2);
    ReversedStep(b / 128, 1);
    NothingReversed(b / 128 / 2);
    HalvesOf(b);
  }

  lemma HalvesOf(b: nat)
    ensures b / 2 / 2 == b / 4 && b / 4 / 2 == b / 8 && b / 8 / 2 == b / 16 && b / 16 / 2 == b / 32
    ensures b / 32 / 2 == b / 64 && b / 64 / 2 == b / 128
  {
  }

  lemma ReversedStep(c: nat, n: nat)
    requires n > 0
    ensures Reversed(c, n) == c % 2 * Pow2(n - 1) + Reversed(c / 2, n - 1)
  {
  }

  lemma NothingReversed(c: nat)
    ensures Reversed(c, 0) == 0
  {
  }

  lemma PowersOfTwo()
    ensures Pow2(0) == 1 && Pow2(1) == 2 && Pow2(2) == 4 && Pow2(3) == 8 && Pow2(4) == 16 && Pow2(5) == 32
    ensures Pow2(6) == 64 && Pow2(7) == 128 && Pow2(8) == 0x100 && Pow2(10) == 0x400 && Pow2(11) == 0x800
    ensures Pow2(12) == 0x1000 && Pow2(16) == 0x1_0000 && Pow2(22) == 0x40_0000 && Pow2(23) == 0x80_0000
    ensures Pow2(24) == 0x100_0000 && Pow2(26) == 0x400_0000 && Pow2(32) == 0x1_0000_0000
  {
    assert Pow2(0) == 1 && Pow2(1) == 2 && Pow2(2) == 4 && Pow2(3) == 8;
    hide Pow2;
    Pow2Add(2, 2);
    Pow2Add(2, 3);
    Pow2Add(3, 3);
    Pow2Add(4, 3);
    Pow2Add(4, 4);
    Pow2Add(8, 2);
    Pow2Add(8, 3);
    Pow2Add(8, 4);
    Pow2Add(8, 8);
    assert Pow2(16) == 0x1_0000;
    Pow2Add(12, 10);
    Pow2Add(12, 11);
    Pow2Add(16, 8);
    Pow2Add(16, 10);
    Pow2Add(16, 16);
  }

  lemma PolyReversed()
    ensures Reversed(POLY, 32) == 0x04C1_1DB7
  {
    hide *;
    PowersOfTwo();
    BytesOfPoly();
    HighByteReversed(0xB8, 0xED, 8);
    HighByteReversed(0x83, 0xEDB8, 16);
    HighByteReversed(0x20, 0xED_B883, 24);
  }

  lemma BytesOfPoly()
    ensures POLY == 0x20 + 256 * (0x83 + 256 * (0xB8 + 256 * 0xED))
    ensures Reversed(0x20, 8) == 0x04 && Reversed(0x83, 8) == 0xC1
    ensures Reversed(0xB8, 8) == 0x1D && Reversed(0xED, 8) == 0xB7
  {
    hide Reversed;
    ByteReversed(0x20);
    ByteReversed(0x83);
    ByteReversed(0xB8);
    ByteReversed(0xED);
  }

  lemma HighByteReversed(low: Byte, high: nat, n: nat)
    ensures Reversed(low + 256 * high, 8 + n) == Reversed(low, 8) * Pow2(n) + Reversed(high, n)
  {
    hide Reversed, Pow2;
    PowersOfTwo();
    EightBits(high);
    ReversedSplit(low, high, 8, n);
  }

  /** The low half of the generator is what the register feeds back, reversed. */
  lemma GeneratorIs()
    ensures Generator() == Pow2(32) + Pow2(26) + Pow2(23) + Pow2(22) + Pow2(16) + Pow2(12) + Pow2(11) + Pow2(10)
                           + Pow2(8) + Pow2(7) + Pow2(5) + Pow2(4) + Pow2(2) + Pow2(1) + Pow2(0)
  {
    hide Pow2, Reversed;
    PowersOfTwo();
    PolyReversed();
  }

  // ---------- the theorem ----------

  /**
   The checksum, inverted and reversed, is the remainder of the message times x^32,
   with its first 32 bits inverted, divided by
   x^32 + x^26 + x^23 + x^22 + x^16 + x^12 + x^11 + x^10 + x^8 + x^7 + x^5 + x^4 + x^2 + x + 1.
   */
  lemma ChecksumIsRemainder(data: Bytes, generator: nat)
    requires generator == Pow2(32) + Pow2(26) + Pow2(23) + Pow2(22) + Pow2(16) + Pow2(12) + Pow2(11) + Pow2(10)
                          + Pow2(8) + Pow2(7) + Pow2(5) + Pow2(4) + Pow2(2) + Pow2(1) + Pow2(0)
    ensures exists quotient: nat ::
              Xor(Message(data) * Pow2(32), 0xFFFF_FFFF * Pow2(8 * |data|))
              == Xor(Times(quotient, generator), Reversed(Xor(Checksum(data), 0xFFFF_FFFF), 32))
    ensures Reversed(Xor(Checksum(data), 0xFFFF_FFFF), 32) < Pow2(32)
  {
    hide *;
    var quotient := RegisterIsRemainder(data);
    GeneratorIs();
    DividendIs(data);
    UpIs(Message(data), 32);
    UpIs(0xFFFF_FFFF, 8 * |data|);
    ChecksumIs(data);
    ReversedBound(Xor(Checksum(data), 0xFFFF_FFFF), 32);
  }

  lemma ChecksumIs(data: Bytes)
    ensures Xor(Checksum(data), 0xFFFF_FFFF) == Register(ALL_ONES, data)
  {
    hide Xor, Register;
    XorAssociative(Register(ALL_ONES, data), ALL_ONES, ALL_ONES);
    XorSelf(ALL_ONES);
    XorZero(Register(ALL_ONES, data));
  }

  /** There is no other remainder below x^32, for any generator of that degree. */
  lemma RemainderIsUnique(p: nat, q: nat, generator: nat, r: nat, s: nat)
    requires r < Pow2(32) && s < Pow2(32) && Pow2(32) <= generator < 2 * Pow2(32)
    requires Xor(Times(p, generator), r) == Xor(Times(q, generator), s)
    ensures p == q && r == s
  {
    hide *;
    var a, b := Times(p, generator), Times(q, generator);
    TimesXor(p, q, generator);
    SumOfSums(a, r, b, s);
    XorSelf(Xor(b, s));
    XorSelf(Xor(r, s));
    XorCancel(Xor(a, b), Xor(r, s), Xor(r, s));
    XorBound(r, s, 32);
    if Xor(p, q) > 0 {
      MultiplesAreLarge(Xor(p, q), generator);
    }
    TimesOne(generator);
    XorSelf(q);
    XorSelf(s);
    XorCancel(p, q, q);
    XorCancel(r, s, s);
  }

  lemma {:induction false} MultiplesAreLarge(q: nat, g: nat)
    requires q > 0 && Pow2(32) <= g < 2 * Pow2(32)
    ensures Times(q, g) >= Pow2(32)
    decreases q
  {
    hide Xor, Pow2;
    if q / 2 > 0 {
      MultiplesAreLarge(q / 2, g);
      PowersOfTwo();
      Pow2Add(1, 32);
      XorKeepsTopBit(g, 2 * Times(q / 2, g), 33);
      XorCommutes(g, 2 * Times(q / 2, g));
      XorZero(2 * Times(q / 2, g));
    } else {
      TimesOne(g);
    }
  }
}
