/** The mixers bit by bit: what each shift and exclusive or makes of the bits of a word. */
module MixerBits {
  import opened Words
  import opened Mixers

  /** The bit of weight `2^i`. */
  function Bit(a: nat, i: nat): nat {
    (a / Exp2(i)) % 2
  }

  lemma {:induction false} HalfFirst(a: nat, i: nat)
    ensures a / 2 / Exp2(i) == a / Exp2(i + 1)
  {
    var d := Exp2(i);
    var q, r := a / 2 / d, a / 2 % d;
    assert a == 2 * d * q + (2 * r + a % 2) by { assert a == 2 * (d * q + r) + a % 2; }
    assert 2 * d == Exp2(i + 1);
    QuotientIsUnique(a, 2 * d, q, 2 * r + a % 2);
  }

  lemma BitOfHalf(a: nat, i: nat)
    ensures Bit(a / 2, i) == Bit(a, i + 1)
  {
    HalfFirst(a, i);
  }

  lemma LowestBit(a: nat)
    ensures Bit(a, 0) == a % 2
  {
    assert Exp2(0) == 1;
  }

  lemma XorLowest(a: nat, b: nat, x: nat)
    requires x % 2 == (a + b) % 2
    ensures Bit(x, 0) == (Bit(a, 0) + Bit(b, 0)) % 2
  {
    LowestBit(a);
    LowestBit(b);
    LowestBit(x);
  }

  /** Exclusive or adds the bits without carry. */
  lemma {:induction false} XorBits(a: nat, b: nat, i: nat)
    ensures Bit(Xor(a, b), i) == (Bit(a, i) + Bit(b, i)) % 2
    decreases i
  {
    XorHalves(a, b);
    if i == 0 {
      XorLowest(a, b, Xor(a, b));
    } else {
      XorBits(a / 2, b / 2, i - 1);
      XorHigher(a, b, Xor(a, b), Xor(a / 2, b / 2), i - 1);
    }
  }

  lemma XorHigher(a: nat, b: nat, x: nat, half: nat, i: nat)
    requires x / 2 == half && Bit(half, i) == (Bit(a / 2, i) + Bit(b / 2, i)) % 2
    ensures Bit(x, i + 1) == (Bit(a, i + 1) + Bit(b, i + 1)) % 2
  {
    BitOfHalf(a, i);
    BitOfHalf(b, i);
    BitOfHalf(x, i);
  }

  /** A shift to the right takes every bit down. */
  lemma {:induction false} ShiftRightBits(a: nat, k: nat, i: nat)
    ensures Bit(ShiftRight(a, k), i) == Bit(a, i + k)
  {
    if k > 0 {
      ShiftRightBits(a / 2, k - 1, i);
      BitOfHalf(a, i + k - 1);
    }
  }

  lemma {:induction false} RemainderBits(a: nat, w: nat, i: nat)
    requires i < w
    ensures Bit(a % Exp2(w), i) == Bit(a, i)
  {
    HalfOfRemainder(a, Exp2(w - 1));
    assert Exp2(w) == 2 * Exp2(w - 1);
    if i == 0 {
      assert Exp2(0) == 1;
    } else {
      RemainderBits(a / 2, w - 1, i - 1);
      BitOfHalf(a, i - 1);
      BitOfHalf(a % Exp2(w), i - 1);
    }
  }

  lemma DoubleBits(a: Word, i: nat)
    requires i < 64
    ensures Bit((2 * a) % WORDS, i) == if i == 0 then 0 else Bit(a, i - 1)
  {
    Exp64();
    RemainderBits(2 * a, 64, i);
    if i == 0 { assert Exp2(0) == 1; } else { BitOfHalf(2 * a, i - 1); }
  }

  /** A shift to the left takes every bit up and those past the top away. */
  lemma {:induction false} ShiftLeftBits(a: Word, k: nat, i: nat)
    requires i < 64
    ensures Bit(ShiftLeft(a, k), i) == if i < k then 0 else Bit(a, i - k)
    decreases k
  {
    if k > 0 {
      ShiftLeftBits((2 * a) % WORDS, k - 1, i);
      if i >= k - 1 { DoubleBits(a, i - (k - 1)); }
    }
  }

  /** `y` is `x ^ (x >> k)`, bit by bit. */
  ghost predicate FoldedRight(x: Word, k: nat, y: Word) {
    forall i: nat {:trigger Bit(y, i)} :: Bit(y, i) == (Bit(x, i) + Bit(x, i + k)) % 2
  }

  /** The bit `k` places below, none below the lowest. */
  function BitBelow(x: nat, i: nat, k: nat): nat {
    if i < k then 0 else Bit(x, i - k)
  }

  /** `y` is `x ^ (x << k)`, bit by bit. */
  ghost predicate FoldedLeft(x: Word, k: nat, y: Word) {
    forall i: nat {:trigger Bit(y, i)} :: i < 64 ==> Bit(y, i) == (Bit(x, i) + BitBelow(x, i, k)) % 2
  }

  lemma FoldRight(x: Word, k: nat)
    ensures FoldedRight(x, k, XorShiftRight(x, k))
  {
    forall i: nat ensures Bit(XorShiftRight(x, k), i) == (Bit(x, i) + Bit(x, i + k)) % 2 {
      XorBits(x, ShiftRight(x, k), i);
      ShiftRightBits(x, k, i);
    }
  }

  lemma FoldLeft(x: Word, k: nat)
    ensures FoldedLeft(x, k, XorShiftLeft(x, k))
  {
    forall i: nat | i < 64 ensures Bit(XorShiftLeft(x, k), i) == (Bit(x, i) + BitBelow(x, i, k)) % 2 {
      XorBits(x, ShiftLeft(x, k), i);
      ShiftLeftBits(x, k, i);
    }
  }

  /** SplitMix64: fold by 30, multiply, fold by 27, multiply, fold by 31. */
  lemma MixIs(s: Word) returns (a: Word, b: Word)
    ensures FoldedRight(s, 30, a)
    ensures FoldedRight(a * 0xBF58_476D_1CE4_E5B9 % 0x1_0000_0000_0000_0000, 27, b)
    ensures FoldedRight(b * 0x94D0_49BB_1331_11EB % 0x1_0000_0000_0000_0000, 31, Mix(s))
  {
    a := XorShiftRight(s, 30);
    FoldRight(s, 30);
    b := XorShiftRight(WrappingMul(a, MIX_A), 27);
    FoldRight(WrappingMul(a, MIX_A), 27);
    FoldRight(WrappingMul(b, MIX_B), 31);
  }

  /** The draws are the mixed multiples of the golden gamma behind the seed. */
  lemma DrawIs(seed: Word, n: nat)
    ensures Draw(seed, n) == Mix((seed + (n + 1) * 0x9E37_79B9_7F4A_7C15) % 0x1_0000_0000_0000_0000)
  {
    AdvanceIsLinear(seed, n + 1);
  }

  /** `fastish_hash`: multiply, fold by 33, multiply, fold by 29. */
  lemma FastishHashIs(value: Word) returns (a: Word)
    ensures FoldedRight(value * 0x9E37_79B9_7F4A_7C15 % 0x1_0000_0000_0000_0000, 33, a)
    ensures FoldedRight(a * 0xC4CE_B9FE_1A85_EC53 % 0x1_0000_0000_0000_0000, 29, FastishHash(value))
  {
    a := XorShiftRight(WrappingMul(value, GAMMA), 33);
    FoldRight(WrappingMul(value, GAMMA), 33);
    FoldRight(WrappingMul(a, HASH_B), 29);
  }

  /** xorshift64: fold to the left by 13, to the right by 7, to the left by 17. */
  lemma XorshiftIs(s: Word) returns (a: Word, b: Word)
    ensures FoldedLeft(s, 13, a) && FoldedRight(a, 7, b) && FoldedLeft(b, 17, Xorshift(s))
  {
    a := XorShiftLeft(s, 13);
    b := XorShiftRight(a, 7);
    FoldLeft(s, 13);
    FoldRight(a, 7);
    FoldLeft(b, 17);
  }

  /** The bits of a word determine it. */
  lemma {:induction false} BitsDetermine(a: nat, b: nat, w: nat)
    requires a < Exp2(w) && b < Exp2(w) && forall i: nat :: i < w ==> Bit(a, i) == Bit(b, i)
    ensures a == b
  {
    if w > 0 {
      forall i: nat | i < w - 1 ensures Bit(a / 2, i) == Bit(b / 2, i) {
        BitOfHalf(a, i);
        BitOfHalf(b, i);
      }
      BitsDetermine(a / 2, b / 2, w - 1);
      assert Exp2(0) == 1 && Bit(a, 0) == Bit(b, 0);
    }
  }

  lemma SameWord(y: Word, z: Word)
    requires forall i: nat :: i < 64 ==> Bit(y, i) == Bit(z, i)
    ensures y == z
  {
    Exp64();
    BitsDetermine(y, z, 64);
  }

  /** There is only one word with these bits. */
  lemma FoldsAreUnique(x: Word, k: nat, y: Word, z: Word)
    ensures FoldedRight(x, k, y) && FoldedRight(x, k, z) ==> y == z
    ensures FoldedLeft(x, k, y) && FoldedLeft(x, k, z) ==> y == z
  {
    if FoldedRight(x, k, y) && FoldedRight(x, k, z) { SameWord(y, z); }
    if FoldedLeft(x, k, y) && FoldedLeft(x, k, z) { SameWord(y, z); }
  }
}
