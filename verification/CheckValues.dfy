/**
 The check value of CRC-32: the checksum of the nine digits "123456789". The
 register is evaluated digit by digit as eight hexadecimal digits, which stand
 for the number that the definition computes on.
 */
module CheckValues {
  import opened Bytes
  import opened Crc32
  import Polynomials

  /** A hexadecimal digit, by its bits. */
  datatype Digit = Digit(b3: bool, b2: bool, b1: bool, b0: bool)

  /** A register of 32 bits, by its hexadecimal digits. */
  datatype Word = Word(d7: Digit, d6: Digit, d5: Digit, d4: Digit, d3: Digit, d2: Digit, d1: Digit, d0: Digit)

  const H0 := Digit(false, false, false, false)
  const H1 := Digit(false, false, false, true)
  const H2 := Digit(false, false, true, false)
  const H3 := Digit(false, false, true, true)
  const H4 := Digit(false, true, false, false)
  const H5 := Digit(false, true, false, true)
  const H6 := Digit(false, true, true, false)
  const H7 := Digit(false, true, true, true)
  const H8 := Digit(true, false, false, false)
  const H9 := Digit(true, false, false, true)
  const HA := Digit(true, false, true, false)
  const HB := Digit(true, false, true, true)
  const HC := Digit(true, true, false, false)
  const HD := Digit(true, true, false, true)
  const HE := Digit(true, true, true, false)
  const HF := Digit(true, true, true, true)

  function Bit(b: bool): nat
  {
    if b then 1 else 0
  }

  function Value(d: Digit): nat
  {
    Bit(d.b0) + 2 * (Bit(d.b1) + 2 * (Bit(d.b2) + 2 * Bit(d.b3)))
  }

  function Number(w: Word): nat
  {
    Value(w.d0) + 16 * (Value(w.d1) + 16 * (Value(w.d2) + 16 * (Value(w.d3)
      + 16 * (Value(w.d4) + 16 * (Value(w.d5) + 16 * (Value(w.d6) + 16 * Value(w.d7)))))))
  }

  function Plus(u: Digit, v: Digit): Digit
  {
    Digit(u.b3 != v.b3, u.b2 != v.b2, u.b1 != v.b1, u.b0 != v.b0)
  }

  function PlusWord(v: Word, w: Word): Word
  {
    Word(Plus(v.d7, w.d7), Plus(v.d6, w.d6), Plus(v.d5, w.d5), Plus(v.d4, w.d4),
         Plus(v.d3, w.d3), Plus(v.d2, w.d2), Plus(v.d1, w.d1), Plus(v.d0, w.d0))
  }

  function Half(carry: bool, d: Digit): Digit
  {
    Digit(carry, d.b3, d.b2, d.b1)
  }

  function HalfWord(w: Word): Word
  {
    Word(Half(false, w.d7), Half(w.d7.b0, w.d6), Half(w.d6.b0, w.d5), Half(w.d5.b0, w.d4),
         Half(w.d4.b0, w.d3), Half(w.d3.b0, w.d2), Half(w.d2.b0, w.d1), Half(w.d1.b0, w.d0))
  }

  const FEEDBACK := Word(HE, HD, HB, H8, H8, H3, H2, H0)

  function Shift(w: Word): Word
  {
    if w.d0.b0 then PlusWord(HalfWord(w), FEEDBACK) else HalfWord(w)
  }

  function StepWord(w: Word, high: Digit, low: Digit): Word
  {
    Shift(Shift(Shift(Shift(Shift(Shift(Shift(Shift(w.(d1 := Plus(w.d1, high), d0 := Plus(w.d0, low))))))))))
  }

  // ---------- words are numbers ----------

  lemma {:induction false} DigitXor(u: Digit, x: nat, v: Digit, y: nat)
    ensures Xor(Value(u) + 16 * x, Value(v) + 16 * y) == Value(Plus(u, v)) + 16 * Xor(x, y)
  {
    hide Xor, Value, Pair;
    ByPairs(u, x);
    ByPairs(v, y);
    ByPairs(Plus(u, v), Xor(x, y));
    PairXor(u.b3, u.b2, x, v.b3, v.b2, y);
    PairXor(u.b1, u.b0, Pair(u.b3, u.b2, x), v.b1, v.b0, Pair(v.b3, v.b2, y));
  }

  /** Two bits below the rest of a number. */
  function Pair(b1: bool, b0: bool, rest: nat): nat
  {
    Bit(b0) + 2 * (Bit(b1) + 2 * rest)
  }

  lemma ByPairs(d: Digit, x: nat)
    ensures Value(d) + 16 * x == Pair(d.b1, d.b0, Pair(d.b3, d.b2, x))
  {
    hide Bit;
  }

  lemma {:induction false} PairXor(a1: bool, a0: bool, x: nat, b1: bool, b0: bool, y: nat)
    ensures Xor(Pair(a1, a0, x), Pair(b1, b0, y)) == Pair(a1 != b1, a0 != b0, Xor(x, y))
  {
    hide Xor, Bit;
    BitXor(a1, x, b1, y);
    BitXor(a0, Bit(a1) + 2 * x, b0, Bit(b1) + 2 * y);
  }

  lemma {:induction false} BitXor(a: bool, x: nat, b: bool, y: nat)
    ensures Xor(Bit(a) + 2 * x, Bit(b) + 2 * y) == Bit(a != b) + 2 * Xor(x, y)
  {
    hide Xor;
    Polynomials.BitStep(Bit(a), x, Bit(b), y);
  }

  lemma WordXor(v: Word, w: Word)
    ensures Xor(Number(v), Number(w)) == Number(PlusWord(v, w))
  {
    hide Xor, Value, Plus;
    var x7, y7 := Value(v.d7), Value(w.d7);
    var x6, y6 := Value(v.d6) + 16 * x7, Value(w.d6) + 16 * y7;
    var x5, y5 := Value(v.d5) + 16 * x6, Value(w.d5) + 16 * y6;
    var x4, y4 := Value(v.d4) + 16 * x5, Value(w.d4) + 16 * y5;
    var x3, y3 := Value(v.d3) + 16 * x4, Value(w.d3) + 16 * y4;
    var x2, y2 := Value(v.d2) + 16 * x3, Value(w.d2) + 16 * y3;
    var x1, y1 := Value(v.d1) + 16 * x2, Value(w.d1) + 16 * y2;
    DigitXor(v.d7, 0, w.d7, 0);
    XorZero(0);
    DigitXor(v.d6, x7, w.d6, y7);
    DigitXor(v.d5, x6, w.d5, y6);
    DigitXor(v.d4, x5, w.d4, y5);
    DigitXor(v.d3, x4, w.d3, y4);
    DigitXor(v.d2, x3, w.d2, y3);
    DigitXor(v.d1, x2, w.d1, y2);
    DigitXor(v.d0, x1, w.d0, y1);
  }

  lemma DigitHalf(carry: bool, d: Digit)
    ensures Value(d) + 16 * Bit(carry) == Bit(d.b0) + 2 * Value(Half(carry, d))
  {
    hide Bit;
  }

  lemma WordHalf(w: Word)
    ensures Number(w) == Bit(w.d0.b0) + 2 * Number(HalfWord(w))
  {
    hide Value, Half, Bit;
    DigitHalf(false, w.d7);
    DigitHalf(w.d7.b0, w.d6);
    DigitHalf(w.d6.b0, w.d5);
    DigitHalf(w.d5.b0, w.d4);
    DigitHalf(w.d4.b0, w.d3);
    DigitHalf(w.d3.b0, w.d2);
    DigitHalf(w.d2.b0, w.d1);
    DigitHalf(w.d1.b0, w.d0);
    NoBit();
  }

  lemma NoBit()
    ensures Bit(false) == 0 && Bit(true) == 1
  {
  }

  lemma FeedbackIs()
    ensures Number(FEEDBACK) == POLY
  {
  }

  lemma WordShift(w: Word)
    ensures ShiftBit(Number(w)) == Number(Shift(w))
  {
    hide Number, HalfWord, PlusWord, Xor, Bit, FEEDBACK, POLY;
    WordHalf(w);
    NoBit();
    WordXor(HalfWord(w), FEEDBACK);
    FeedbackIs();
  }

  lemma WordShifts(w: Word)
    ensures ShiftBits(Number(w), 8)
         == Number(Shift(Shift(Shift(Shift(Shift(Shift(Shift(Shift(w)))))))))
  {
    hide Number, Shift, ShiftBit;
    var w1, w2, w3 := Shift(w), Shift(Shift(w)), Shift(Shift(Shift(w)));
    var w4, w5, w6 := Shift(w3), Shift(Shift(w3)), Shift(Shift(Shift(w3)));
    WordShift(w);
    WordShift(w1);
    WordShift(w2);
    WordShift(w3);
    WordShift(w4);
    WordShift(w5);
    WordShift(w6);
    WordShift(Shift(w6));
    TwoShifts(Number(w));
    TwoShifts(Number(w2));
    TwoShifts(Number(w4));
    TwoShifts(Number(w6));
    ShiftBitsAdd(Number(w), 2, 2);
    ShiftBitsAdd(Number(w4), 2, 2);
    ShiftBitsAdd(Number(w), 4, 4);
  }

  lemma TwoShifts(c: nat)
    ensures ShiftBits(c, 2) == ShiftBit(ShiftBit(c))
  {
    hide ShiftBit;
    assert ShiftBits(c, 2) == ShiftBits(ShiftBit(c), 1);
  }

  lemma WordStep(w: Word, high: Digit, low: Digit, b: Byte)
    requires b == 16 * Value(high) + Value(low)
    ensures Step(Number(w), b) == Number(StepWord(w, high, low))
  {
    var byte := Word(H0, H0, H0, H0, H0, H0, high, low);
    assert Number(byte) == b by {
      hide Xor;
    }
    WordXor(w, byte);
    SumWithByte(w, high, low);
    WordShifts(PlusWord(w, byte));
    hide Shift, ShiftBits, PlusWord, Plus, Number, Value, Xor;
  }

  lemma SumWithByte(w: Word, high: Digit, low: Digit)
    ensures PlusWord(w, Word(H0, H0, H0, H0, H0, H0, high, low))
         == w.(d1 := Plus(w.d1, high), d0 := Plus(w.d0, low))
  {
  }

  // ---------- the check value ----------

  const R0 := Word(HF, HF, HF, HF, HF, HF, HF, HF)
  const R1 := Word(H7, HC, H2, H3, H1, H0, H4, H8)
  const R2 := Word(HB, H0, HA, HC, HB, HB, H3, H2)
  const R3 := Word(H7, H7, HB, H7, H9, HC, H2, HD)
  const R4 := Word(H6, H4, H1, HC, H1, HF, H5, HC)
  const R5 := Word(H3, H4, H0, HA, HC, H5, HE, H3)
  const R6 := Word(HF, H6, H8, HD, H2, HC, H9, HE)
  const R7 := Word(HA, HF, HF, HC, H9, H6, H6, H0)
  const R8 := Word(H6, H5, H1, HF, H2, H5, H5, H0)
  const R9 := Word(H3, H4, H0, HB, HC, H6, HD, H9)
  const CHECK := Word(HC, HB, HF, H4, H3, H9, H2, H6)

  lemma Step1()
    ensures Step(Number(R0), 0x31) == Number(R1)
  {
    Evaluate1();
    WordStep(R0, H3, H1, 0x31) by {
      hide Step, StepWord;
    }
    hide *;
  }

  lemma Evaluate1()
    ensures StepWord(R0, H3, H1) == R1
  {
  }

  lemma Step2()
    ensures Step(Number(R1), 0x32) == Number(R2)
  {
    Evaluate2();
    WordStep(R1, H3, H2, 0x32) by {
      hide Step, StepWord;
    }
    hide *;
  }

  lemma Evaluate2()
    ensures StepWord(R1, H3, H2) == R2
  {
  }

  lemma Step3()
    ensures Step(Number(R2), 0x33) == Number(R3)
  {
    Evaluate3();
    WordStep(R2, H3, H3, 0x33) by {
      hide Step, StepWord;
    }
    hide *;
  }

  lemma Evaluate3()
    ensures StepWord(R2, H3, H3) == R3
  {
  }

  lemma Step4()
    ensures Step(Number(R3), 0x34) == Number(R4)
  {
    Evaluate4();
    WordStep(R3, H3, H4, 0x34) by {
      hide Step, StepWord;
    }
    hide *;
  }

  lemma Evaluate4()
    ensures StepWord(R3, H3, H4) == R4
  {
  }

  lemma Step5()
    ensures Step(Number(R4), 0x35) == Number(R5)
  {
    Evaluate5();
    WordStep(R4, H3, H5, 0x35) by {
      hide Step, StepWord;
    }
    hide *;
  }

  lemma Evaluate5()
    ensures StepWord(R4, H3, H5) == R5
  {
  }

  lemma Step6()
    ensures Step(Number(R5), 0x36) == Number(R6)
  {
    Evaluate6();
    WordStep(R5, H3, H6, 0x36) by {
      hide Step, StepWord;
    }
    hide *;
  }

  lemma Evaluate6()
    ensures StepWord(R5, H3, H6) == R6
  {
  }

  lemma Step7()
    ensures Step(Number(R6), 0x37) == Number(R7)
  {
    Evaluate7();
    WordStep(R6, H3, H7, 0x37) by {
      hide Step, StepWord;
    }
    hide *;
  }

  lemma Evaluate7()
    ensures StepWord(R6, H3, H7) == R7
  {
  }

  lemma Step8()
    ensures Step(Number(R7), 0x38) == Number(R8)
  {
    Evaluate8();
    WordStep(R7, H3, H8, 0x38) by {
      hide Step, StepWord;
    }
    hide *;
  }

  lemma Evaluate8()
    ensures StepWord(R7, H3, H8) == R8
  {
  }

  lemma Step9()
    ensures Step(Number(R8), 0x39) == Number(R9)
  {
    Evaluate9();
    WordStep(R8, H3, H9, 0x39) by {
      hide Step, StepWord;
    }
    hide *;
  }

  lemma Evaluate9()
    ensures StepWord(R8, H3, H9) == R9
  {
  }

  lemma FirstByte(c: nat, b: Byte, rest: Bytes, data: Bytes)
    requires data == [b] + rest
    ensures Register(c, data) == Register(Step(c, b), rest)
  {
    hide Step;
    assert data[1..] == rest;
  }

  lemma AllSteps()
    ensures Register(Number(R0), [0x31, 0x32, 0x33, 0x34, 0x35, 0x36, 0x37, 0x38, 0x39]) == Number(R9)
  {
    hide Step, Number, Register;
    Step1();
    Step2();
    Step3();
    Step4();
    Step5();
    Step6();
    Step7();
    Step8();
    Step9();
    FirstByte(Number(R0), 0x31, [0x32, 0x33, 0x34, 0x35, 0x36, 0x37, 0x38, 0x39],
              [0x31, 0x32, 0x33, 0x34, 0x35, 0x36, 0x37, 0x38, 0x39]);
    FirstByte(Number(R1), 0x32, [0x33, 0x34, 0x35, 0x36, 0x37, 0x38, 0x39],
              [0x32, 0x33, 0x34, 0x35, 0x36, 0x37, 0x38, 0x39]);
    FirstByte(Number(R2), 0x33, [0x34, 0x35, 0x36, 0x37, 0x38, 0x39],
              [0x33, 0x34, 0x35, 0x36, 0x37, 0x38, 0x39]);
    FirstByte(Number(R3), 0x34, [0x35, 0x36, 0x37, 0x38, 0x39],
              [0x34, 0x35, 0x36, 0x37, 0x38, 0x39]);
    FirstByte(Number(R4), 0x35, [0x36, 0x37, 0x38, 0x39],
              [0x35, 0x36, 0x37, 0x38, 0x39]);
    FirstByte(Number(R5), 0x36, [0x37, 0x38, 0x39],
              [0x36, 0x37, 0x38, 0x39]);
    FirstByte(Number(R6), 0x37, [0x38, 0x39],
              [0x37, 0x38, 0x39]);
    FirstByte(Number(R7), 0x38, [0x39],
              [0x38, 0x39]);
    FirstByte(Number(R8), 0x39, [],
              [0x39]);
    NoBytes(Number(R9));
  }

  lemma NoBytes(c: nat)
    ensures Register(c, []) == c
  {
  }

  lemma Ends()
    ensures Number(R0) == ALL_ONES && Number(CHECK) == 0xCBF4_3926 && PlusWord(R9, R0) == CHECK
  {
  }

  /** The check value: the bytes of "123456789" have the checksum 0xCBF43926. */
  lemma CheckValue()
    ensures Checksum([0x31, 0x32, 0x33, 0x34, 0x35, 0x36, 0x37, 0x38, 0x39]) == 0xCBF4_3926
  {
    hide Register, Step, Number, Xor, PlusWord, R0, R9, CHECK;
    AllSteps();
    Ends();
    WordXor(R9, R0);
    var digits: Bytes := [0x31, 0x32, 0x33, 0x34, 0x35, 0x36, 0x37, 0x38, 0x39];
    ChecksumFrom(Number(R0), digits);
  }

  lemma ChecksumFrom(c: nat, data: Bytes)
    requires c == ALL_ONES
    ensures Checksum(data) == Xor(Register(c, data), c)
  {
  }
}
