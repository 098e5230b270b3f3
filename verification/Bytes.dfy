/**
 Byte strings: little-endian u32 fields and the lexicographic order that
 Rust gives to `str` keys.
 */
module Bytes {
  type Byte = x: int | 0 <= x < 256

  type Bytes = seq<Byte>

  const U32_MODULUS: int := 0x1_0000_0000
  const U64_MODULUS: int := 0x1_0000_0000_0000_0000

  // ---------- powers of two ----------

  function Pow2(n: nat): (p: nat)
    ensures p >= 1
  {
    if n == 0 then 1 else 2 * Pow2(n - 1)
  }

  lemma {:induction false} Pow2Add(m: nat, n: nat)
    ensures Pow2(m + n) == Pow2(m) * Pow2(n)
    decreases m
  {
    if m > 0 {
      Pow2Add(m - 1, n);
      assert 2 * (Pow2(m - 1) * Pow2(n)) == (2 * Pow2(m - 1)) * Pow2(n);
    }
  }

  lemma DropAndTake(data: Bytes, a: nat, b: nat, c: nat)
    requires b <= c && a + c <= |data|
    ensures data[a..][b..c] == data[a + b..a + c]
  {
  }

  lemma DropTwice(data: Bytes, a: nat, b: nat)
    requires a + b <= |data|
    ensures data[a..][b..] == data[a + b..]
  {
  }

  lemma Pow2Of64()
    ensures Pow2(64) == U64_MODULUS
  {
    assert Pow2(4) == 16;
    hide Pow2;
    Pow2Add(4, 4);
    assert Pow2(8) == 0x100;
    Pow2Add(8, 8);
    assert Pow2(16) == 0x1_0000;
    Pow2Add(16, 16);
    assert Pow2(32) == 0x1_0000_0000;
    Pow2Add(32, 32);
  }

  lemma {:induction false} Pow2Monotone(m: nat, n: nat)
    requires m <= n
    ensures Pow2(m) <= Pow2(n)
    decreases n
  {
    if m < n {
      Pow2Monotone(m, n - 1);
    }
  }

  // ---------- u32 and u64 fields ----------

  function Pow256(n: nat): (p: nat)
    ensures p >= 1
  {
    if n == 0 then 1 else 256 * Pow256(n - 1)
  }

  /** The low `count` bytes of a number, least significant first. */
  function LeBytes(n: nat, count: nat): (s: Bytes)
    ensures |s| == count
    decreases count, n
  {
    if count == 0 then [] else [n % 256] + LeBytes(n / 256, count - 1)
  }

  function LeValue(s: Bytes): (n: nat)
    ensures n < Pow256(|s|)
    decreases |s|
  {
    if s == [] then 0
    else
      var low: int := s[0];
      low + 256 * LeValue(s[1..])
  }

  /** `(n as u32).to_le_bytes()`: a number that does not fit is cut to its low 32 bits. */
  function U32Bytes(n: nat): (s: Bytes)
    ensures |s| == 4
  {
    LeBytes(n, 4)
  }

  /** The u32 field that starts at `offset`. */
  function U32At(data: Bytes, offset: nat): (n: nat)
    requires offset + 4 <= |data|
    ensures n < U32_MODULUS
  {
    FourBytes();
    LeValue(data[offset..offset + 4])
  }

  lemma FourBytes()
    ensures Pow256(4) == U32_MODULUS
  {
  }

  lemma EightBytes()
    ensures Pow256(8) == U64_MODULUS
  {
    assert Pow256(2) == 0x1_0000 && Pow256(8) == 0x1_0000 * (0x1_0000 * (0x1_0000 * Pow256(2)));
  }

  lemma {:induction false} LeRoundTrip(n: nat, count: nat)
    ensures LeValue(LeBytes(n, count)) == n % Pow256(count)
    decreases count
  {
    if count > 0 {
      LeRoundTrip(n / 256, count - 1);
      LowDigitOf(n, Pow256(count - 1));
    }
  }

  lemma LowDigitOf(n: nat, p: nat)
    requires p >= 1
    ensures n % (256 * p) == n % 256 + 256 * (n / 256 % p)
  {
    var q, r := n / 256 / p, n / 256 % p;
    assert n / 256 == p * q + r;
    assert n == 256 * p * q + (n % 256 + 256 * r) by {
      assert 256 * (p * q + r) == 256 * p * q + 256 * r;
    }
    Remainder(256 * p, q, n % 256 + 256 * r);
  }

  lemma Remainder(m: nat, q: nat, r: nat)
    requires r < m
    ensures (m * q + r) % m == r
  {
    var x := m * q + r;
    DivisionUnique(m, q, r, x / m, x % m);
  }

  lemma DivisionUnique(m: nat, q: int, r: nat, p: int, s: nat)
    requires r < m && s < m && m * q + r == m * p + s
    ensures q == p && r == s
  {
    if q > p {
      AtLeastOnce(m, p, q - p);
    } else if q < p {
      AtLeastOnce(m, q, p - q);
    }
  }

  lemma AtLeastOnce(m: nat, p: int, k: int)
    requires k >= 1
    ensures m * (p + k) >= m * p + m
  {
    assert m * (p + k) == m * p + m * k;
    assert m * k >= m;
  }

  lemma {:induction false} LeInjective(s: Bytes, t: Bytes)
    requires |s| == |t| && LeValue(s) == LeValue(t)
    ensures s == t
    decreases |s|
  {
    if s != [] {
      LowDigit(s[0], LeValue(s[1..]), t[0], LeValue(t[1..]));
      LeInjective(s[1..], t[1..]);
      assert s == [s[0]] + s[1..] && t == [t[0]] + t[1..];
    }
  }

  lemma LowDigit(a: Byte, x: int, b: Byte, y: int)
    requires a + 256 * x == b + 256 * y
    ensures a == b && x == y
  {
  }

  lemma {:induction false} Pow256Monotone(m: nat, n: nat)
    requires m <= n
    ensures Pow256(m) <= Pow256(n)
    decreases n
  {
    if m < n {
      Pow256Monotone(m, n - 1);
    }
  }

  lemma U32RoundTrip(n: nat)
    ensures LeValue(U32Bytes(n)) == n % U32_MODULUS
  {
    LeRoundTrip(n, 4);
    FourBytes();
  }

  // ---------- lexicographic order ----------

  predicate Less(a: Bytes, b: Bytes)
  {
    b != [] && (a == [] || a[0] < b[0] || (a[0] == b[0] && Less(a[1..], b[1..])))
  }

  /** The order of byte strings: the first byte that differs decides, or one string is a proper start of the other. */
  lemma {:induction false} LessIsLexicographic(a: Bytes, b: Bytes)
    ensures Less(a, b) <==>
              exists i: nat :: i <= |a| && i < |b| && a[..i] == b[..i] && (i == |a| || a[i] < b[i])
    decreases |a|
  {
    if a == [] {
      if b != [] {
        assert a[..0] == b[..0];
      }
    } else if b != [] {
      LessIsLexicographic(a[1..], b[1..]);
      if a[0] == b[0] && Less(a[1..], b[1..]) {
        var i: nat :| i <= |a| - 1 && i < |b| - 1 && a[1..][..i] == b[1..][..i]
                      && (i == |a| - 1 || a[1..][i] < b[1..][i]);
        assert a[..i + 1] == [a[0]] + a[1..][..i] && b[..i + 1] == [b[0]] + b[1..][..i];
      } else if a[0] < b[0] {
        assert a[..0] == b[..0];
      }
      if i: nat :| i <= |a| && i < |b| && a[..i] == b[..i] && (i == |a| || a[i] < b[i]) {
        if i > 0 {
          assert a[0] == a[..i][0] && b[0] == b[..i][0];
          assert a[1..][..i - 1] == a[..i][1..] && b[1..][..i - 1] == b[..i][1..];
        }
      }
    }
  }

  predicate AtMost(a: Bytes, b: Bytes)
  {
    !Less(b, a)
  }

  lemma {:induction false} LessIrreflexive(a: Bytes)
    ensures !Less(a, a)
  {
    if a != [] {
      LessIrreflexive(a[1..]);
    }
  }

  lemma {:induction false} LessTransitive(a: Bytes, b: Bytes, c: Bytes)
    requires Less(a, b) && Less(b, c)
    ensures Less(a, c)
  {
    if a != [] && a[0] == b[0] == c[0] {
      LessTransitive(a[1..], b[1..], c[1..]);
    }
  }

  lemma {:induction false} LessTotal(a: Bytes, b: Bytes)
    ensures Less(a, b) || Less(b, a) || a == b
  {
    if a != [] && b != [] && a[0] == b[0] {
      LessTotal(a[1..], b[1..]);
      assert a == [a[0]] + a[1..] && b == [b[0]] + b[1..];
    }
  }

  lemma LessAsymmetric(a: Bytes, b: Bytes)
    requires Less(a, b)
    ensures !Less(b, a)
  {
    if Less(b, a) {
      LessTransitive(a, b, a);
      LessIrreflexive(a);
    }
  }

  lemma AtMostLess(a: Bytes, b: Bytes, c: Bytes)
    requires AtMost(a, b) && Less(b, c)
    ensures Less(a, c)
  {
    LessTotal(a, b);
    if a != b {
      LessTransitive(a, b, c);
    }
  }

  lemma LessAtMost(a: Bytes, b: Bytes, c: Bytes)
    requires Less(a, b) && AtMost(b, c)
    ensures Less(a, c)
  {
    LessTotal(b, c);
    if b != c {
      LessTransitive(a, b, c);
    }
  }

  lemma AtMostTransitive(a: Bytes, b: Bytes, c: Bytes)
    requires AtMost(a, b) && AtMost(b, c)
    ensures AtMost(a, c)
  {
    if Less(c, a) {
      AtMostLess(b, c, a);
    }
  }

  lemma AtMostAntisymmetric(a: Bytes, b: Bytes)
    requires AtMost(a, b) && AtMost(b, a)
    ensures a == b
  {
    LessTotal(a, b);
  }

  /** A proper prefix comes first, so keys that carry a prefix start at it. */
  lemma {:induction false} PrefixFirst(p: Bytes, a: Bytes)
    requires p <= a
    ensures AtMost(p, a)
  {
    if p != [] {
      PrefixFirst(p[1..], a[1..]);
    }
  }
}
