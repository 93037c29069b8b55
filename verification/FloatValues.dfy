/**
 The scaled values that stand for binary32 numbers in the Nyquist comparison
 (src/ApplicationPayload.cpp:58-66), fixed by laws: small patterns are their own values, the next
 binade doubles, 1.0 is 2^149; and the comparison against the pattern of half the sample rate.
 */
module FloatValues {
  import opened Bytes
  import opened CrcOrder
  import opened FrameCodec
  import opened ApplicationPayload

  /** A pattern read as an unsigned integer. */
  function Number(bits: u32): nat { bits as nat }

  // ---------------------------------------------------------------- The laws of the scale

  const BINADE: nat := 0x80_0000

  /** Exponent and mantissa of a pattern without sign are its quotient and rest. */
  lemma FieldsAreDigits(bits: u32, e: nat, m: nat)
    requires !IsNegative(bits) && m < BINADE && Number(bits) == e * BINADE + m
    ensures ExponentField(bits) == e && MantissaField(bits) == m
  {
    hide ExponentField, MantissaField, IsNegative;
    FieldsOfPattern(bits);
    SameDigits(e, m, ExponentField(bits), MantissaField(bits));
  }

  lemma SameDigits(e: nat, m: nat, f: nat, n: nat)
    requires m < BINADE && n < BINADE && e * BINADE + m == f * BINADE + n
    ensures e == f && m == n
  {
  }

  /** Below the third binade the values are the integers in order. */
  lemma SmallMagnitude(bits: u32)
    requires !IsNegative(bits) && Number(bits) < 2 * BINADE
    ensures Magnitude(bits) == Number(bits)
  {
    hide ExponentField, MantissaField, IsNegative;
    FieldsOfPattern(bits);
    var e := ExponentField(bits);
    if e >= 2 {
      assert false;
    }
    Pow2Zero();
  }

  /** One exponent step up doubles the value. */
  lemma NextBinadeDoubles(a: u32, b: u32)
    requires !IsNegative(a) && !IsNegative(b)
    requires Number(a) >= BINADE && Number(b) == Number(a) + BINADE
    ensures Magnitude(b) == 2 * Magnitude(a)
  {
    hide ExponentField, MantissaField, IsNegative, Magnitude, Pow2;
    FieldsOfPattern(a);
    var e, m := ExponentField(a), MantissaField(a);
    FieldsAreDigits(b, e + 1, m);
    NormalMagnitude(a);
    NormalMagnitude(b);
    NextPow2(e);
    DoubleProduct(m + BINADE, Pow2(e - 1));
  }

  lemma NormalMagnitude(h: u32)
    requires ExponentField(h) > 0
    ensures Magnitude(h) == (MantissaField(h) + BINADE) * Pow2(ExponentField(h) - 1)
  {
  }

  lemma NextPow2(e: nat)
    requires e > 0
    ensures Pow2(e) == 2 * Pow2(e - 1)
  {
  }

  lemma DoubleProduct(x: nat, p: nat)
    ensures x * (2 * p) == 2 * (x * p)
  {
  }

  lemma OneFields()
    ensures !IsNegative(0x3F80_0000) && Number(0x3F80_0000) == 127 * BINADE
  {
  }

  lemma Pow2TwentyThree()
    ensures Pow2(23) == BINADE
  {
    assert Pow2(4) == 16;
    assert Pow2(8) == 0x100;
    assert Pow2(12) == 0x1000;
    assert Pow2(16) == 0x1_0000;
    assert Pow2(20) == 0x10_0000;
  }

  /** 1.0 is 2^149 in this scale. */
  lemma MagnitudeOfOne()
    ensures Magnitude(0x3F80_0000) == Pow2(149)
  {
    hide ExponentField, MantissaField, IsNegative, Pow2, Magnitude;
    OneFields();
    FieldsAreDigits(0x3F80_0000, 127, 0);
    NormalMagnitude(0x3F80_0000);
    Pow2TwentyThree();
    Pow2Sum(23, 126);
  }

  lemma ExponentBelow(bits: u32)
    ensures ExponentField(bits) <= 255
    ensures IsFinite(bits) <==> ExponentField(bits) < 255
  {
    RawExponent((bits >> 23) & 0xFF);
  }

  lemma RawExponent(x: u32)
    requires x & 0xFF == x
    ensures x as nat <= 255
    ensures x == 0xFF <==> x as nat == 255
  {
  }

  lemma LastBinade(m: nat, e: nat)
    requires m < BINADE && 1 <= e <= 255
    ensures (m + BINADE) * Pow2(e - 1) < Pow2(277) <==> e < 255
  {
    hide Pow2;
    Pow2TwentyThree();
    Pow2Sum(23, 254);
    Pow2Sum(24, 253);
    Pow2Sum(23, 1);
    TwoIsPow2();
    if e < 255 {
      Pow2Increasing(e - 1, 253);
      ProductBelow(m + BINADE, 2 * BINADE, Pow2(e - 1), Pow2(253));
    } else {
      ProductAtLeast(m + BINADE, BINADE, Pow2(254));
    }
  }

  lemma TwoIsPow2()
    ensures Pow2(1) == 2
  {
  }

  lemma ProductBelow(x: nat, y: nat, p: nat, q: nat)
    requires x < y && 0 < p <= q
    ensures x * p < y * q
  {
    assert x * p < y * p;
    assert y * p <= y * q;
  }

  lemma ProductAtLeast(x: nat, y: nat, p: nat)
    requires x >= y
    ensures x * p >= y * p
  {
  }

  /** Finite patterns, whatever their sign, are those below 2^128. */
  lemma FiniteIsBelow(bits: u32)
    ensures IsFinite(bits) <==> Magnitude(bits) < Pow2(128 + 149)
  {
    hide ExponentField, MantissaField, IsFinite, Pow2;
    ExponentBelow(bits);
    FieldsOfPattern(bits);
    var e, m := ExponentField(bits), MantissaField(bits);
    if e > 0 {
      LastBinade(m, e);
    } else {
      Pow2TwentyThree();
      Pow2Increasing(23, 277);
    }
  }

  // ---------------------------------------------------------------- Half the sample rate

  /** `h` is the pattern of half of `rate`. */
  ghost predicate IsHalf(h: u32, rate: nat) {
    !IsNegative(h) && 2 * Magnitude(h) == rate * Pow2(149)
  }

  /** A pattern with one more bit at the bottom. */
  function Longer(w: u32, odd: bool): u32 { if odd then (w << 1) | 1 else w << 1 }

  /** The pattern with a given number. */
  function Numbered(n: nat): u32
    requires n < 0x8000_0000
  {
    if n == 0 then 0 else Longer(Numbered(n / 2), n % 2 == 1)
  }

  lemma {:induction false} NumberedIs(n: nat)
    requires n < 0x8000_0000
    ensures Number(Numbered(n)) == n
  {
    hide Number, Longer;
    if n > 0 {
      NumberedIs(n / 2);
      LongerIs(Numbered(n / 2), n % 2 == 1);
    } else {
      ZeroIs();
    }
  }

  lemma ZeroIs()
    ensures Number(0) == 0
  {
  }

  lemma LongerIs(w: u32, odd: bool)
    requires Number(w) < 0x8000_0000
    ensures Number(Longer(w, odd)) == 2 * Number(w) + (if odd then 1 else 0)
  {
    TopClear(w);
    TwiceAsMuch(w);
  }

  lemma TopClear(w: u32)
    ensures Number(w) < 0x8000_0000 ==> w & 0x8000_0000 == 0
  {
  }

  lemma TwiceAsMuch(w: u32)
    ensures w & 0x8000_0000 == 0 ==> Number(w << 1) == 2 * Number(w) && Number((w << 1) | 1) == 2 * Number(w) + 1
  {
  }

  lemma NoSign(w: u32)
    requires Number(w) < 0x8000_0000
    ensures !IsNegative(w)
  {
    hide Number;
    TopClear(w);
    RawSign(w);
  }

  lemma RawSign(w: u32)
    requires w & 0x8000_0000 == 0
    ensures w >> 31 == 0
  {
  }

  lemma {:induction false} TopBit(rate: nat) returns (p: nat)
    requires rate > 0
    ensures Pow2(p) <= rate < Pow2(p + 1)
  {
    if rate == 1 {
      return 0;
    }
    p := TopBit(rate / 2);
    p := p + 1;
  }

  lemma SmallTopBit(rate: nat, p: nat)
    requires rate < 0x1_0000 && Pow2(p) <= rate
    ensures p < 16
  {
    hide Pow2;
    if p >= 16 {
      Pow2Sixteen();
      Pow2Increasing(16, p);
      assert false;
    }
  }

  lemma MantissaFits(rate: nat, p: nat)
    requires p < 16 && Pow2(p) <= rate < Pow2(p + 1)
    ensures BINADE <= rate * Pow2(23 - p) < 2 * BINADE
  {
    hide Pow2;
    Pow2TwentyThree();
    Pow2Sum(p, 23 - p);
    Pow2Sum(p + 1, 23 - p);
    Pow2Sum(1, 23);
    TwoIsPow2();
    Scaled(Pow2(p), rate, Pow2(p + 1), Pow2(23 - p));
  }

  lemma Scaled(x: nat, y: nat, z: nat, k: nat)
    requires x <= y < z && k > 0
    ensures x * k <= y * k < z * k
  {
  }

  lemma Regroup(r: nat, x: nat, y: nat, z: nat)
    requires x * y == z
    ensures (r * x) * y == r * z
  {
    assert (r * x) * y == r * (x * y);
  }

  /** Half of every sample rate has a pattern. */
  lemma HalfExists(rate: nat) returns (h: u32)
    requires 0 < rate < 0x1_0000
    ensures IsHalf(h, rate)
  {
    hide Pow2, Magnitude, ExponentField, MantissaField, IsNegative, Numbered;
    var p := TopBit(rate);
    SmallTopBit(rate, p);
    MantissaFits(rate, p);
    var m := rate * Pow2(23 - p) - BINADE;
    var n := (126 + p) * BINADE + m;
    h := Numbered(n);
    NumberedIs(n);
    NoSign(h);
    FieldsAreDigits(h, 126 + p, m);
    NormalMagnitude(h);
    Pow2Sum(23 - p, 125 + p);
    Regroup(rate, Pow2(23 - p), Pow2(125 + p), Pow2(148));
    Pow2Sum(1, 148);
    TwoIsPow2();
    DoubleProduct(rate, Pow2(148));
  }

  lemma HalfOfRate(rate: nat)
    ensures 2 * (rate * Pow2(148)) == rate * Pow2(149)
  {
    hide Pow2;
    Pow2Sum(1, 148);
    TwoIsPow2();
    DoubleProduct(rate, Pow2(148));
  }

  /** The source's comparison of floats, on patterns: 0 < frequency < half the sample rate. */
  lemma NyquistOnPatterns(rate: u16, frequency: u32, amplitude: u32, half: u32)
    requires IsHalf(half, rate as nat)
    ensures ValidSignalMetadata(rate, frequency, amplitude)
       <==> && rate != 0 && IsFinite(frequency) && IsFinite(amplitude)
            && !IsNegative(frequency) && 0 < Number(frequency) < Number(half)
            && (!IsNegative(amplitude) || amplitude == 0x8000_0000)
  {
    hide Pow2, Magnitude, IsNegative, IsFinite, Number;
    HalfOfRate(rate as nat);
    NegativeZero(amplitude);
    if !IsNegative(frequency) {
      PositiveMagnitude(frequency);
      SameOrder(frequency, half);
    }
  }

  lemma SameOrder(a: u32, b: u32)
    requires !IsNegative(a) && !IsNegative(b)
    ensures Magnitude(a) < Magnitude(b) <==> Number(a) < Number(b)
  {
    hide Pow2, Magnitude, IsNegative;
    if Number(a) < Number(b) {
      MagnitudeIncreasing(a, b);
    } else if Number(b) < Number(a) {
      MagnitudeIncreasing(b, a);
    } else {
      SamePattern(a, b);
    }
  }

  lemma SamePattern(a: u32, b: u32)
    requires Number(a) == Number(b)
    ensures a == b
  {
    U32Nat(a);
    U32Nat(b);
  }

  lemma PositiveMagnitude(bits: u32)
    requires !IsNegative(bits)
    ensures Magnitude(bits) > 0 <==> Number(bits) > 0
  {
    hide Magnitude, IsNegative;
    ZeroIs();
    if Number(bits) == 0 {
      SmallMagnitude(bits);
    } else {
      NoSign(0);
      SmallMagnitude(0);
      MagnitudeIncreasing(0, bits);
    }
  }

  /** The only negative pattern that counts as non-negative is that of -0. */
  lemma NegativeZero(bits: u32)
    ensures IsNegative(bits) && Magnitude(bits) == 0 <==> bits == 0x8000_0000
  {
    hide Pow2;
    RawNegativeZero(bits);
    RawExponent((bits >> 23) & 0xFF);
    ZeroField((bits >> 23) & 0xFF);
    ZeroField(bits & 0x7F_FFFF);
    if ExponentField(bits) > 0 {
      PositiveProduct(MantissaField(bits) + BINADE, Pow2(ExponentField(bits) - 1));
    }
  }

  lemma PositiveProduct(x: nat, p: nat)
    requires x > 0 && p > 0
    ensures x * p > 0
  {
  }

  lemma ZeroField(x: u32)
    ensures x as nat == 0 <==> x == 0
  {
  }

  lemma RawNegativeZero(bits: u32)
    ensures bits >> 31 != 0 && (bits >> 23) & 0xFF == 0 && bits & 0x7F_FFFF == 0 <==> bits == 0x8000_0000
  {
  }
}
