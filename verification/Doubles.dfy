/** Finite 64-bit floating-point numbers, by sign, exponent and fraction. */
module Doubles {
  import opened Words

  const FRACTIONS: nat := 0x10_0000_0000_0000

  /** The exponent field stops short of the infinities. */
  type Exponent = n: nat | n < 2047 witness 0

  type Fraction = n: nat | n < FRACTIONS witness 0

  datatype Double = Double(negative: bool, exponent: Exponent, fraction: Fraction)

  const ZERO: Double := Double(false, 0, 0)

  /** The significand counts units of two to this power. */
  function Scale(d: Double): int {
    (if d.exponent == 0 then 1 else d.exponent) - 1075
  }

  function Significand(d: Double): nat {
    if d.exponent == 0 then d.fraction else FRACTIONS + d.fraction
  }

  function Magnitude(d: Double): real {
    if Scale(d) >= 0 then (Significand(d) * Exp2(Scale(d))) as real
    else Significand(d) as real / Exp2(-Scale(d)) as real
  }

  function Real(d: Double): real {
    if d.negative then -Magnitude(d) else Magnitude(d)
  }

  /** `f64::to_bits` */
  function Bits(d: Double): Word {
    (if d.negative then 0x8000_0000_0000_0000 else 0) + d.exponent * FRACTIONS + d.fraction
  }

  /** A cast to `u64`: towards zero, and to the nearest end when out of range. */
  function Truncated(x: real): Word {
    if x <= 0.0 then 0
    else if x >= WORDS as real then WORDS - 1
    else x.Floor
  }

  lemma {:induction false} ExpGrows(m: nat, n: nat)
    requires m <= n
    ensures Exp2(m) <= Exp2(n)
    decreases n
  {
    if m < n { ExpGrows(m, n - 1); }
  }

  lemma ExpValues()
    ensures Exp2(9) == 512 && Exp2(10) == 1024 && Exp2(11) == 2048 && Exp2(53) == 2 * FRACTIONS
  {
    assert Exp2(4) == 0x10;
    ExpAdds(4, 4); ExpAdds(8, 8); ExpAdds(16, 16); ExpAdds(16, 4); ExpAdds(32, 20);
  }

  /** A quotient of naturals below a bound. */
  lemma Below(m: nat, p: nat, bound: nat)
    requires p > 0 && m < bound * p
    ensures m as real / p as real < bound as real
  {}

  lemma NotNegative(d: Double)
    ensures Magnitude(d) >= 0.0
  {}

  /** Below one, the cast gives zero; the bits of a number that is not zero are not. */
  lemma SmallDiffers(d: Double)
    requires !d.negative && d != ZERO && d.exponent <= 1022
    ensures Truncated(Real(d)) == 0 && Bits(d) > 0
  {
    var p := Exp2(-Scale(d));
    ExpValues();
    ExpGrows(53, -Scale(d));
    Below(Significand(d), p, 1);
    NotNegative(d);
  }

  lemma MediumDiffers(d: Double)
    requires !d.negative && 1023 <= d.exponent <= 1074
    ensures Truncated(Real(d)) < Bits(d)
  {
    var p := Exp2(-Scale(d));
    ExpGrows(1, -Scale(d));
    assert Exp2(1) == 2;
    assert Significand(d) < FRACTIONS * p;
    Below(Significand(d), p, FRACTIONS);
    NotNegative(d);
  }

  lemma WholeTruncates(n: nat)
    ensures Truncated(n as real) == if n >= WORDS then WORDS - 1 else n
  {}

  lemma Scaled(m: nat, p: nat, q: nat)
    requires p <= q
    ensures m * p <= m * q
  {}

  lemma LargeDiffers(d: Double)
    requires !d.negative && d.exponent >= 1075
    ensures Truncated(Real(d)) != Bits(d)
  {
    var m, k := Significand(d), Scale(d);
    ExpValues();
    WholeTruncates(m * Exp2(k));
    if k <= 9 {
      ExpGrows(k, 9);
      Scaled(m, Exp2(k), 512);
    } else if k >= 11 {
      ExpGrows(11, k);
      Scaled(m, 2048, Exp2(k));
    }
  }

  /** The cast to `u64` of a finite number is its bit pattern exactly when the number is plus zero. */
  lemma TruncatedIsBitsExactly(d: Double)
    ensures Truncated(Real(d)) == Bits(d) <==> d == ZERO
  {
    NotNegative(d);
    if d == ZERO {
      assert Magnitude(d) == 0 as real / Exp2(1074) as real;
    } else if !d.negative {
      if d.exponent <= 1022 {
        SmallDiffers(d);
      } else if d.exponent <= 1074 {
        MediumDiffers(d);
      } else {
        LargeDiffers(d);
      }
    }
  }

  /** The cast keeps the number exactly when it is whole, not negative and in range. */
  lemma NumberKeptExactly(x: real)
    ensures Truncated(x) as real == x <==> 0.0 <= x < WORDS as real && x.Floor as real == x
  {}
}
