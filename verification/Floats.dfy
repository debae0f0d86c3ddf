/** Powers of two, bit lengths and the binary64 format of section 3.4 of IEEE 754-2008. */
module Floats {
  function Pow2(n: nat): (p: nat)
    ensures p >= 1
  {
    if n == 0 then 1 else 2 * Pow2(n - 1)
  }

  lemma {:induction false} Pow2Add(m: nat, n: nat)
    ensures Pow2(m + n) == Pow2(m) * Pow2(n)
  {
    if m > 0 {
      Pow2Add(m - 1, n);
      assert 2 * (Pow2(m - 1) * Pow2(n)) == (2 * Pow2(m - 1)) * Pow2(n);
    }
  }

  lemma {:induction false} Pow2Mono(m: nat, n: nat)
    requires m <= n
    ensures Pow2(m) <= Pow2(n)
  {
    if m < n {
      Pow2Mono(m, n - 1);
    }
  }

  /** The number of bits of `n` without its leading zeros. */
  function BitLength(n: nat): nat {
    if n == 0 then 0 else 1 + BitLength(n / 2)
  }

  lemma {:induction false} BitLengthBounds(n: nat)
    requires n > 0
    ensures BitLength(n) >= 1 && Pow2(BitLength(n) - 1) <= n < Pow2(BitLength(n))
  {
    if n > 1 {
      BitLengthBounds(n / 2);
    }
  }

  /** The bounds determine the length. */
  lemma BitLengthUnique(n: nat, bits: nat)
    requires n > 0 && bits >= 1 && Pow2(bits - 1) <= n < Pow2(bits)
    ensures BitLength(n) == bits
  {
    BitLengthBounds(n);
    if BitLength(n) < bits {
      Pow2Mono(BitLength(n), bits - 1);
    } else if bits < BitLength(n) {
      Pow2Mono(bits, BitLength(n) - 1);
    }
  }

  /** Scaling by a power of two shifts the length. */
  lemma BitLengthShift(n: nat, shift: nat)
    requires n > 0
    ensures BitLength(n * Pow2(shift)) == BitLength(n) + shift
  {
    var b := BitLength(n);
    BitLengthBounds(n);
    Pow2Add(b - 1, shift);
    Pow2Add(b, shift);
    MulMono(Pow2(b - 1), n, Pow2(shift));
    MulMonoStrict(n, Pow2(b), Pow2(shift));
    BitLengthUnique(n * Pow2(shift), b + shift);
  }

  lemma MulMono(a: nat, b: nat, c: nat)
    requires a <= b
    ensures a * c <= b * c
  {
    assert (b - a) * c >= 0;
  }

  lemma MulMonoStrict(a: nat, b: nat, c: nat)
    requires a < b && c > 0
    ensures a * c < b * c
  {
    assert (b - a) * c >= c by { MulMono(1, b - a, c); }
  }

  /** A longer number is larger. */
  lemma BitLengthOrders(m: nat, n: nat)
    requires BitLength(m) < BitLength(n)
    ensures m < n
  {
    BitLengthBounds(n);
    if m > 0 {
      BitLengthBounds(m);
      Pow2Mono(BitLength(m), BitLength(n) - 1);
    }
  }

  lemma BitLengthAtMost(n: nat, bits: nat)
    requires n < Pow2(bits)
    ensures BitLength(n) <= bits
  {
    if n > 0 && bits < BitLength(n) {
      BitLengthBounds(n);
      Pow2Mono(bits, BitLength(n) - 1);
    }
  }

  const TwoTo52: nat := 0x10_0000_0000_0000
  const TwoTo63: nat := 0x8000_0000_0000_0000
  const TwoTo64: nat := 0x1_0000_0000_0000_0000
  const TwoTo127: nat := 0x8000_0000_0000_0000_0000_0000_0000_0000
  const TwoTo128: nat := 0x1_0000_0000_0000_0000_0000_0000_0000_0000

  /** The largest integer up to which binary64 holds every integer: two to the 53. */
  const MaxExact: nat := 9_007_199_254_740_992

  lemma SmallPowers()
    ensures Pow2(0) == 1 && Pow2(1) == 2 && Pow2(4) == 16 && Pow2(15) == 0x8000 && Pow2(16) == 0x1_0000
  {
  }

  lemma TwoTos()
    ensures TwoTo52 == Pow2(52) && TwoTo63 == Pow2(63) && TwoTo64 == Pow2(64)
    ensures TwoTo127 == Pow2(127) && TwoTo128 == Pow2(128)
    ensures MaxExact == 2 * TwoTo52 == Pow2(53) && 2 * MaxExact == Pow2(54)
  {
    hide Pow2;
    SmallPowers();
    Pow2Add(16, 16); Pow2Add(32, 16); Pow2Add(48, 15); Pow2Add(48, 4);
    Pow2Add(52, 1); Pow2Add(53, 1); Pow2Add(63, 1); Pow2Add(64, 63); Pow2Add(127, 1);
  }

  /** The bit pattern of a binary64. */
  type Bits = n: nat | n < TwoTo64

  function IsNegative(b: Bits): bool { b >= TwoTo63 }
  function Abs(b: Bits): Bits { b % TwoTo63 }
  function Exponent(b: Bits): nat { b / TwoTo52 % 0x800 }
  function Fraction(b: Bits): nat { b % TwoTo52 }
  predicate IsFinite(b: Bits) { Exponent(b) != 0x7FF }
  predicate IsZero(b: Bits) { Abs(b) == 0 }

  /** The integer significand: the hidden bit is set except in a subnormal. */
  function Significand(b: Bits): nat {
    if Exponent(b) == 0 then Fraction(b) else Fraction(b) + TwoTo52
  }

  function Scale(b: Bits): int {
    if Exponent(b) == 0 then -1074 else Exponent(b) - 1023 - 52
  }

  /** The number a finite pattern stands for. */
  function Magnitude(b: Bits): real {
    if Scale(b) >= 0 then (Significand(b) * Pow2(Scale(b))) as real
    else Significand(b) as real / Pow2(-Scale(b)) as real
  }

  function Value(b: Bits): real {
    if IsNegative(b) then -Magnitude(b) else Magnitude(b)
  }

  lemma Quotient(q: nat, r: nat, m: nat)
    requires r < m
    ensures (q * m + r) / m == q && (q * m + r) % m == r
  {
    var n := q * m + r;
    assert n == n / m * m + n % m;
    if n / m < q {
      MulMono(n / m + 1, q, m);
    } else if q < n / m {
      MulMono(q + 1, n / m, m);
    }
  }

  lemma SplitField(a: nat, b: nat)
    requires a < 0x800 * TwoTo52 && (b == a || b == a + 0x800 * TwoTo52)
    ensures b / TwoTo52 % 0x800 == a / TwoTo52 == a / TwoTo52 % 0x800 && b % TwoTo52 == a % TwoTo52
    ensures a == a / TwoTo52 * TwoTo52 + a % TwoTo52
  {
    var e, f := a / TwoTo52, a % TwoTo52;
    assert a == e * TwoTo52 + f && e < 0x800;
    Quotient(e, f, TwoTo52);
    Quotient(0x800 + e, f, TwoTo52);
    assert b == e * TwoTo52 + f || b == (0x800 + e) * TwoTo52 + f;
  }

  lemma Fields(b: Bits)
    ensures Exponent(Abs(b)) == Exponent(b) && Fraction(Abs(b)) == Fraction(b)
    ensures Abs(b) == Exponent(b) * TwoTo52 + Fraction(b)
  {
    var a := Abs(b);
    assert IsNegative(b) ==> b == a + TwoTo63;
    assert !IsNegative(b) ==> b == a;
    SplitField(a, b);
  }

  lemma AbsParts(b: Bits)
    ensures !IsNegative(Abs(b)) && Exponent(Abs(b)) == Exponent(b) && Fraction(Abs(b)) == Fraction(b)
    ensures Magnitude(Abs(b)) == Magnitude(b)
    ensures IsZero(b) <==> Significand(b) == 0
  {
    hide Exponent, Fraction, Pow2;
    Fields(b);
  }

  /** A finite pattern is zero exactly when its number is. */
  lemma MagnitudeSign(b: Bits)
    ensures Magnitude(b) >= 0.0
    ensures Magnitude(b) == 0.0 <==> IsZero(b)
  {
    hide Pow2, Significand, Scale, IsZero, Abs;
    AbsParts(b);
    var s := Significand(b);
    if Scale(b) >= 0 {
      var p := Pow2(Scale(b));
      if s > 0 { MulMono(1, s, p); }
    } else {
      var p := Pow2(-Scale(b)) as real;
      assert p >= 1.0;
      var q := s as real / p;
      assert q * p == s as real;
    }
  }

  /** The pattern of an integer that binary64 holds exactly. */
  function OfNat(n: nat): (b: Bits)
    requires n <= MaxExact
  {
    if n == 0 then 0 else
      var bits := BitLength(n);
      NormalisedBounds(n);
      if bits == 54 then (1023 + 53) * TwoTo52
      else (1023 + bits - 1) * TwoTo52 + (n * Pow2(53 - bits) - TwoTo52)
  }

  lemma NormalisedBounds(n: nat)
    requires 0 < n <= MaxExact
    ensures 1 <= BitLength(n) <= 54
    ensures BitLength(n) == 54 <==> n == MaxExact
    ensures BitLength(n) <= 53 ==> TwoTo52 <= n * Pow2(53 - BitLength(n)) < 2 * TwoTo52
  {
    hide Pow2, BitLength;
    TwoTos();
    BitLengthBounds(n);
    assert n < Pow2(54);
    BitLengthAtMost(n, 54);
    if BitLength(n) <= 53 {
      BitLengthShift(n, 53 - BitLength(n));
      BitLengthBounds(n * Pow2(53 - BitLength(n)));
    } else {
      BitLengthUnique(Pow2(53), 54);
    }
  }

  lemma OfNatParts(n: nat)
    requires 0 < n <= MaxExact
    ensures 1 <= BitLength(n) <= 54
    ensures !IsNegative(OfNat(n)) && IsFinite(OfNat(n))
    ensures Exponent(OfNat(n)) == 1022 + BitLength(n)
    ensures Significand(OfNat(n)) == if BitLength(n) == 54 then TwoTo52 else n * Pow2(53 - BitLength(n))
  {
    hide Pow2, BitLength;
    TwoTos();
    NormalisedBounds(n);
    var b := OfNat(n);
    var e := 1022 + BitLength(n);
    var f := if BitLength(n) == 54 then 0 else n * Pow2(53 - BitLength(n)) - TwoTo52;
    assert b == e * TwoTo52 + f && f < TwoTo52;
    assert b / TwoTo52 == e;
  }

  /** The encoding is exact. */
  lemma OfNatValue(n: nat)
    requires n <= MaxExact
    ensures IsFinite(OfNat(n)) && !IsNegative(OfNat(n)) && Value(OfNat(n)) == n as real
  {
    if n == 0 {
      MagnitudeSign(0);
    } else {
      hide Pow2, BitLength, OfNat, Exponent, Fraction, Significand, IsNegative, IsFinite;
      OfNatParts(n);
      NormalisedBounds(n);
      TwoTos();
      SmallPowers();
      var b := OfNat(n);
      if BitLength(n) >= 53 {
        assert n == Significand(b) * Pow2(Scale(b));
      } else {
        assert -Scale(b) == 53 - BitLength(n);
        var p := Pow2(53 - BitLength(n));
        assert Significand(b) as real == (n * p) as real;
        ScaledQuotient(n, p);
      }
    }
  }

  lemma ScaledQuotient(n: nat, p: nat)
    requires p > 0
    ensures (n * p) as real / p as real == n as real
  {
    assert (n * p) as real == n as real * p as real;
  }

  /** A positive pattern's number in units of the least subnormal. */
  function Units(b: Bits): nat {
    Significand(b) * Pow2(if Exponent(b) == 0 then 0 else Exponent(b) - 1)
  }

  lemma MagnitudeInUnits(b: Bits)
    ensures Magnitude(b) == Units(b) as real / Pow2(1074) as real
  {
    hide Pow2, Significand, Exponent;
    var s, k := Significand(b), if Exponent(b) == 0 then 0 else Exponent(b) - 1;
    assert k == Scale(b) + 1074;
    if Scale(b) >= 0 {
      Pow2Add(Scale(b), 1074);
      Regrouped(s, Pow2(Scale(b)), Pow2(1074));
      ScaledQuotient(s * Pow2(Scale(b)), Pow2(1074));
    } else {
      Pow2Add(k, -Scale(b));
      Cancelled(s, Pow2(k), Pow2(-Scale(b)));
    }
  }

  lemma Regrouped(a: nat, b: nat, c: nat)
    ensures a * (b * c) == a * b * c
  {
  }

  lemma Cancelled(s: nat, p: nat, q: nat)
    requires p > 0 && q > 0
    ensures p * q > 0 && s as real / q as real == (s * p) as real / (p * q) as real
  {
    MulMono(1, p, q);
    var x, y := s as real / q as real, (s * p) as real / (p * q) as real;
    assert x * q as real == s as real;
    assert (p * q) as real == p as real * q as real && (s * p) as real == s as real * p as real;
    assert y * (p as real * q as real) == s as real * p as real;
    assert (x - y) * (p as real * q as real) == 0.0;
  }

  lemma UnitsNext(b: Bits)
    requires b + 1 < TwoTo63
    ensures Units(b) < Units(b + 1)
  {
    var e, f := b / TwoTo52, b % TwoTo52;
    assert b == e * TwoTo52 + f && e < 0x800;
    Quotient(e, f, TwoTo52);
    if f + 1 < TwoTo52 {
      Quotient(e, f + 1, TwoTo52);
      hide Pow2;
      assert Significand(b + 1) == Significand(b) + 1;
      MulMonoStrict(Significand(b), Significand(b + 1), Pow2(if e == 0 then 0 else e - 1));
    } else {
      assert b + 1 == (e + 1) * TwoTo52 + 0;
      Quotient(e + 1, 0, TwoTo52);
      assert e + 1 < 0x800;
      UnitsCarry(b, e);
    }
  }

  lemma UnitsCarry(b: Bits, e: nat)
    requires b + 1 < TwoTo63 && Exponent(b) == e && Fraction(b) == TwoTo52 - 1
    requires Exponent(b + 1) == e + 1 && Fraction(b + 1) == 0
    ensures Units(b) < Units(b + 1)
  {
    hide Exponent, Fraction;
    if e > 0 {
      assert Pow2(e) == 2 * Pow2(e - 1);
      hide Pow2;
      assert Units(b + 1) == 2 * TwoTo52 * Pow2(e - 1);
      MulMonoStrict(Significand(b), 2 * TwoTo52, Pow2(e - 1));
    } else {
      SmallPowers();
    }
  }

  lemma {:induction false} UnitsOrder(b: Bits, c: Bits)
    requires b < c < TwoTo63
    ensures Units(b) < Units(c)
    decreases c - b
  {
    hide Units;
    UnitsNext(b);
    if b + 1 < c {
      UnitsOrder(b + 1, c);
    }
  }

  /** Nonnegative patterns are ordered like the numbers they stand for. */
  lemma PatternsOrder(b: Bits, c: Bits)
    requires b < TwoTo63 && c < TwoTo63
    ensures b < c <==> Magnitude(b) < Magnitude(c)
  {
    hide Magnitude, Units, Pow2;
    MagnitudeInUnits(b);
    MagnitudeInUnits(c);
    if b < c {
      UnitsOrder(b, c);
    } else if c < b {
      UnitsOrder(c, b);
    }
    QuotientsOrder(Units(b), Units(c), Pow2(1074));
  }

  lemma QuotientsOrder(m: nat, n: nat, p: nat)
    requires p > 0
    ensures m < n <==> m as real / p as real < n as real / p as real
  {
    var x, y, q := m as real / p as real, n as real / p as real, p as real;
    assert x * q == m as real && y * q == n as real;
    if x < y {
      assert (y - x) * q > 0.0;
    } else {
      assert (x - y) * q >= 0.0;
    }
  }
}
