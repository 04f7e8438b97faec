/**
 The generators and mixers of the workload tools: SplitMix64 (`splitmix` and `next_u32`), the
 payload mixer `fastish_hash`, and the xorshift64 generator `SimpleRng`.
 */
module Mixers {
  import opened Words

  const GAMMA: Word := 0x9E37_79B9_7F4A_7C15
  const GAMMA_INVERSE: Word := 0xF1DE_83E1_9937_733D
  const MIX_A: Word := 0xBF58_476D_1CE4_E5B9
  const MIX_A_INVERSE: Word := 0x96DE_1B17_3F11_9089
  const MIX_B: Word := 0x94D0_49BB_1331_11EB
  const MIX_B_INVERSE: Word := 0x3196_42B2_D24D_8EC3
  const HASH_B: Word := 0xC4CE_B9FE_1A85_EC53
  const HASH_B_INVERSE: Word := 0x9CB4_B2F8_1293_37DB

  /** Every multiplier of the source is odd, so it has an inverse modulo 2^64. */
  lemma Inverses()
    ensures WrappingMul(GAMMA, GAMMA_INVERSE) == 1
    ensures WrappingMul(MIX_A, MIX_A_INVERSE) == 1
    ensures WrappingMul(MIX_B, MIX_B_INVERSE) == 1
    ensures WrappingMul(HASH_B, HASH_B_INVERSE) == 1
  {}

  // ---------------------------------------------------------------------------
  // SplitMix64
  // ---------------------------------------------------------------------------

  /** The output mixer. */
  function Mix(s: Word): Word {
    XorShiftRight(Round(Round(s, 30, MIX_A), 27, MIX_B), 31)
  }

  /** The state after `n` draws. */
  function Advance(seed: Word, n: nat): Word {
    if n == 0 then seed else WrappingAdd(Advance(seed, n - 1), GAMMA)
  }

  /** The output of the draw that follows `n` earlier draws. */
  function Draw(seed: Word, n: nat): Word {
    Mix(Advance(seed, n + 1))
  }

  /** A generator is its one word of state; `splitmix` and `next_u32` both advance it. */
  class SplitMix {
    var state: Word

    constructor (seed: Word)
      ensures state == seed
    {
      state := seed;
    }

    method Next() returns (z: Word)
      modifies this
      ensures state == Advance(old(state), 1)
      ensures z == Draw(old(state), 0)
    {
      state := WrappingAdd(state, GAMMA);
      z := state;
      z := WrappingMul(XorShiftRight(z, 30), MIX_A);
      z := WrappingMul(XorShiftRight(z, 27), MIX_B);
      z := XorShiftRight(z, 31);
    }

    /** `next_u32` keeps the low half of the same draw. */
    method NextU32() returns (r: nat)
      modifies this
      ensures state == Advance(old(state), 1)
      ensures r == Draw(old(state), 0) % Exp2(32)
    {
      state := WrappingAdd(state, GAMMA);
      var z := state;
      z := WrappingMul(XorShiftRight(z, 30), MIX_A);
      z := WrappingMul(XorShiftRight(z, 27), MIX_B);
      z := XorShiftRight(z, 31);
      r := z % Exp2(32);
    }

    /** Consecutive draws are pairwise distinct as long as they fit in one period. */
    method Draws(n: nat) returns (zs: seq<Word>)
      modifies this
      ensures state == Advance(old(state), n)
      ensures |zs| == n && forall i :: 0 <= i < n ==> zs[i] == Draw(old(state), i)
      ensures n <= WORDS ==> forall i, j :: 0 <= i < j < n ==> zs[i] != zs[j]
    {
      zs := [];
      ghost var seed := state;
      for k := 0 to n
        invariant |zs| == k && state == Advance(seed, k)
        invariant forall i :: 0 <= i < k ==> zs[i] == Draw(seed, i)
      {
        DrawFrom(seed, k);
        var z := Next();
        zs := zs + [z];
      }
      if n <= WORDS { DistinctWithinPeriod(seed, n); }
    }
  }

  lemma MixInjective(a: Word, b: Word)
    requires Mix(a) == Mix(b)
    ensures a == b
  {
    Inverses();
    var a1, b1 := Round(a, 30, MIX_A), Round(b, 30, MIX_A);
    XorShiftRightLosesNothing(Round(a1, 27, MIX_B), Round(b1, 27, MIX_B), 31);
    RoundLosesNothing(a1, b1, 27, MIX_B, MIX_B_INVERSE);
    RoundLosesNothing(a, b, 30, MIX_A, MIX_A_INVERSE);
  }

  lemma {:induction false} AdvanceIsLinear(seed: Word, n: nat)
    ensures Advance(seed, n) == (seed + n * GAMMA) % WORDS
  {
    if n > 0 {
      AdvanceIsLinear(seed, n - 1);
      ModAbsorbsSum(seed + (n - 1) * GAMMA, GAMMA, WORDS);
    }
  }

  lemma SameResidue(a: nat, d: nat, m: nat)
    requires m > 0
    ensures a % m == (a + d) % m <==> d % m == 0
  {
    var q, r := a / m, a % m;
    var q', r' := (a + d) / m, (a + d) % m;
    if r == r' {
      assert d == m * (q' - q) by { assert m * (q' - q) == m * q' - m * q; }
      QuotientIsUnique(d, m, q' - q, 0);
    }
    if d % m == 0 {
      var p := d / m;
      assert a + d == m * (q + p) + r by { assert m * (q + p) == m * q + m * p; }
      QuotientIsUnique(a + d, m, q + p, r);
    }
  }

  /**
   From any seed, two draws give the same word exactly when a multiple of 2^64 draws lies between
   them: any 2^64 consecutive draws are pairwise distinct, and then the sequence repeats.
   */
  lemma DrawsRepeatExactlyEveryPeriod(seed: Word, i: nat, j: nat)
    requires i <= j
    ensures Draw(seed, i) == Draw(seed, j) <==> (j - i) % WORDS == 0
  {
    StatesRepeat(seed, i + 1, j + 1);
    if Draw(seed, i) == Draw(seed, j) {
      MixInjective(Advance(seed, i + 1), Advance(seed, j + 1));
    }
  }

  lemma StatesRepeat(seed: Word, i: nat, j: nat)
    requires i <= j
    ensures Advance(seed, i) == Advance(seed, j) <==> (j - i) % WORDS == 0
  {
    AdvanceIsLinear(seed, i);
    AdvanceIsLinear(seed, j);
    assert j * GAMMA == i * GAMMA + (j - i) * GAMMA;
    SameResidue(seed + i * GAMMA, (j - i) * GAMMA, WORDS);
    if ((j - i) * GAMMA) % WORDS == 0 {
      Inverses();
      MultiplierInjective(j - i, 0, GAMMA, GAMMA_INVERSE);
    }
    if (j - i) % WORDS == 0 {
      ModAbsorbs(j - i, GAMMA, WORDS);
    }
  }

  lemma DrawFrom(seed: Word, n: nat)
    ensures Advance(Advance(seed, n), 1) == Advance(seed, n + 1)
    ensures Draw(Advance(seed, n), 0) == Draw(seed, n)
  {}

  lemma TwoDrawsDiffer(seed: Word, i: nat, j: nat)
    requires i < j && j - i < WORDS
    ensures Draw(seed, i) != Draw(seed, j)
  {
    DrawsRepeatExactlyEveryPeriod(seed, i, j);
    QuotientIsUnique(j - i, WORDS, 0, j - i);
  }

  lemma DistinctWithinPeriod(seed: Word, n: nat)
    requires n <= WORDS
    ensures forall i, j :: 0 <= i < j < n ==> Draw(seed, i) != Draw(seed, j)
  {
    forall i: nat, j: nat | 0 <= i < j < n ensures Draw(seed, i) != Draw(seed, j) {
      TwoDrawsDiffer(seed, i, j);
    }
  }

  /** Within the first period every 64-bit word is drawn. */
  lemma EveryWordIsDrawn(seed: Word, z: Word)
    ensures exists n :: 0 <= n < WORDS && Draw(seed, n) == z
  {
    DistinctWithinPeriod(seed, WORDS);
    var f: nat -> nat := n => Draw(seed, n);
    assert InjectiveBelow(f, WORDS);
    Pigeonhole(f, WORDS, z);
  }

  // ---------------------------------------------------------------------------
  // The payload mixer
  // ---------------------------------------------------------------------------

  function FastishHash(value: Word): Word {
    XorShiftRight(Round(WrappingMul(value, GAMMA), 33, HASH_B), 29)
  }

  method ComputeFastishHash(value: Word) returns (state: Word)
    ensures state == FastishHash(value)
    ensures forall other: Word :: FastishHash(other) == state ==> other == value
  {
    state := WrappingMul(value, GAMMA);
    state := XorShiftRight(state, 33);
    state := WrappingMul(state, HASH_B);
    state := XorShiftRight(state, 29);
    forall other: Word | FastishHash(other) == state ensures other == value {
      FastishHashInjective(other, value);
    }
  }

  /** Distinct counters carry distinct payloads. */
  lemma FastishHashInjective(a: Word, b: Word)
    requires FastishHash(a) == FastishHash(b)
    ensures a == b
  {
    Inverses();
    var a1, b1 := WrappingMul(a, GAMMA), WrappingMul(b, GAMMA);
    XorShiftRightLosesNothing(Round(a1, 33, HASH_B), Round(b1, 33, HASH_B), 29);
    RoundLosesNothing(a1, b1, 33, HASH_B, HASH_B_INVERSE);
    WrappingMulLosesNothing(a, b, GAMMA, GAMMA_INVERSE);
  }

  // ---------------------------------------------------------------------------
  // xorshift64
  // ---------------------------------------------------------------------------

  function Xorshift(s: Word): Word {
    XorShiftLeft(XorShiftRight(XorShiftLeft(s, 13), 7), 17)
  }

  /** The state after `n` draws. */
  function XorshiftState(s: Word, n: nat): Word {
    if n == 0 then s else Xorshift(XorshiftState(s, n - 1))
  }

  /** `SimpleRng::new` replaces the absorbing seed. */
  function XorshiftSeed(seed: Word): Word {
    if seed == 0 then 1 else seed
  }

  class SimpleRng {
    var state: Word

    /** No seed leaves the generator stuck: its state is never zero, however often it is drawn from. */
    constructor (seed: Word)
      ensures state == XorshiftSeed(seed)
      ensures seed != 0 ==> state == seed
      ensures forall n: nat :: XorshiftState(state, n) != 0
    {
      state := if seed == 0 then 1 else seed;
      new;
      forall n: nat ensures XorshiftState(state, n) != 0 { XorshiftNeverSticks(seed, n); }
    }

    method NextU64() returns (x: Word)
      modifies this
      ensures x == state == Xorshift(old(state))
    {
      x := state;
      x := XorShiftLeft(x, 13);
      x := XorShiftRight(x, 7);
      x := XorShiftLeft(x, 17);
      state := x;
    }

    /** The remainder by zero panics in the source. */
    method NextUsize(max: nat) returns (r: nat)
      requires max > 0
      modifies this
      ensures state == Xorshift(old(state))
      ensures r == Xorshift(old(state)) % max
    {
      var x := NextU64();
      r := x % max;
    }
  }

  lemma XorshiftInjective(a: Word, b: Word)
    requires Xorshift(a) == Xorshift(b)
    ensures a == b
  {
    var a1, b1 := XorShiftLeft(a, 13), XorShiftLeft(b, 13);
    XorShiftLeftLosesNothing(XorShiftRight(a1, 7), XorShiftRight(b1, 7), 17);
    XorShiftRightLosesNothing(a1, b1, 7);
    XorShiftLeftLosesNothing(a, b, 13);
  }

  lemma XorshiftFixesZero()
    ensures Xorshift(0) == 0
  {
    ZeroStays(13);
    ZeroStays(7);
    ZeroStays(17);
  }

  lemma XorshiftKeepsNonzero(s: Word)
    requires s != 0
    ensures Xorshift(s) != 0
  {
    XorshiftFixesZero();
    if Xorshift(s) == 0 { XorshiftInjective(s, 0); }
  }

  /** One step is a permutation of the words that fixes zero. */
  lemma XorshiftIsPermutation(z: Word)
    ensures exists s: Word :: Xorshift(s) == z && forall t: Word :: Xorshift(t) == z ==> t == s
    ensures Xorshift(z) == 0 <==> z == 0
  {
    var f: nat -> nat := (n: nat) => if n < WORDS then Xorshift(n as Word) else 0;
    forall i, j | 0 <= i < j < WORDS ensures f(i) != f(j) {
      if Xorshift(i) == Xorshift(j) { XorshiftInjective(i, j); }
    }
    Pigeonhole(f, WORDS, z);
    var s :| 0 <= s < WORDS && f(s) == z;
    assert Xorshift(s) == z;
    forall t: Word | Xorshift(t) == z ensures t == s { XorshiftInjective(t, s); }
    XorshiftFixesZero();
    if Xorshift(z) == 0 { XorshiftInjective(z, 0); }
  }

  /** No seed ever leads the generator into its absorbing state. */
  lemma {:induction false} XorshiftNeverSticks(seed: Word, n: nat)
    ensures XorshiftState(XorshiftSeed(seed), n) != 0
  {
    if n > 0 {
      XorshiftNeverSticks(seed, n - 1);
      XorshiftKeepsNonzero(XorshiftState(XorshiftSeed(seed), n - 1));
    }
  }
}
