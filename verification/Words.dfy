/**
 64-bit machine words as numbers below 2^64, with the wrapping operators of the source, and the
 facts the generators rely on: which word operations lose no information.
 */
module Words {

  /** The number of 64-bit words. */
  const WORDS: nat := 0x1_0000_0000_0000_0000

  type Word = n: nat | n < WORDS witness 0

  function WrappingAdd(a: Word, b: Word): Word {
    (a + b) % WORDS
  }

  function WrappingMul(a: Word, b: Word): Word {
    (a * b) % WORDS
  }

  function Exp2(k: nat): (r: nat)
    ensures r > 0
  {
    if k == 0 then 1 else 2 * Exp2(k - 1)
  }

  /** Bitwise exclusive or. */
  function Xor(a: nat, b: nat): nat {
    if a == 0 && b == 0 then 0 else (a + b) % 2 + 2 * Xor(a / 2, b / 2)
  }

  function ShiftRight(a: nat, k: nat): nat {
    if k == 0 then a else ShiftRight(a / 2, k - 1)
  }

  /** Bits shifted past the top of the word are dropped. */
  function ShiftLeft(a: Word, k: nat): Word
    decreases k
  {
    if k == 0 then a else ShiftLeft((2 * a) % WORDS, k - 1)
  }

  /** `x ^= x >> k` */
  function XorShiftRight(x: Word, k: nat): Word {
    ShiftRightShrinks(x, k);
    XorOfWords(x, ShiftRight(x, k));
    Xor(x, ShiftRight(x, k))
  }

  /** `x ^= x << k` */
  function XorShiftLeft(x: Word, k: nat): Word {
    XorOfWords(x, ShiftLeft(x, k));
    Xor(x, ShiftLeft(x, k))
  }

  /** The low `w` bits. */
  function Low(a: nat, w: nat): nat {
    if w == 0 then 0 else a % 2 + 2 * Low(a / 2, w - 1)
  }

  // ---------------------------------------------------------------------------
  // Arithmetic of quotients and remainders
  // ---------------------------------------------------------------------------

  lemma ProductAtLeast(d: int, x: int)
    requires d > 0 && x > 0
    ensures d * x >= d
  {}

  lemma QuotientIsUnique(a: int, d: int, q: int, r: int)
    requires d > 0 && a == d * q + r && 0 <= r < d
    ensures a / d == q && a % d == r
  {
    var q', r' := a / d, a % d;
    assert a == d * q' + r';
    assert d * (q - q') == d * q - d * q';
    assert d * (q' - q) == d * q' - d * q;
    if q > q' { ProductAtLeast(d, q - q'); }
    if q < q' { ProductAtLeast(d, q' - q); }
  }

  lemma ModAbsorbs(a: nat, b: nat, m: nat)
    requires m > 0
    ensures ((a % m) * b) % m == (a * b) % m
  {
    var q, r := a / m, a % m;
    var q', r' := (r * b) / m, (r * b) % m;
    assert a * b == m * (q * b + q') + r' by {
      assert a * b == (m * q + r) * b == m * (q * b) + r * b;
      assert m * (q * b + q') == m * (q * b) + m * q';
    }
    QuotientIsUnique(a * b, m, q * b + q', r');
  }

  lemma ModAbsorbsSum(a: nat, b: nat, m: nat)
    requires m > 0
    ensures ((a % m) + b) % m == (a + b) % m
  {
    var q, r := a / m, a % m;
    var q', r' := (r + b) / m, (r + b) % m;
    assert a + b == m * (q + q') + r';
    QuotientIsUnique(a + b, m, q + q', r');
  }

  lemma HalfOfRemainder(a: nat, d: nat)
    requires d > 0
    ensures (a % (2 * d)) / 2 == (a / 2) % d
    ensures (a % (2 * d)) % 2 == a % 2
  {
    var q, r := (a / 2) / d, (a / 2) % d;
    assert a == (2 * d) * q + (2 * r + a % 2);
    QuotientIsUnique(a, 2 * d, q, 2 * r + a % 2);
  }

  lemma {:induction false} ExpAdds(a: nat, b: nat)
    ensures Exp2(a) * Exp2(b) == Exp2(a + b)
  {
    if b > 0 { ExpAdds(a, b - 1); }
  }

  lemma Exp64()
    ensures Exp2(64) == WORDS
  {
    assert Exp2(4) == 0x10;
    ExpAdds(4, 4); ExpAdds(8, 8); ExpAdds(16, 16); ExpAdds(32, 32);
  }

  // ---------------------------------------------------------------------------
  // Bits
  // ---------------------------------------------------------------------------

  lemma XorHalves(a: nat, b: nat)
    ensures Xor(a, b) / 2 == Xor(a / 2, b / 2)
    ensures Xor(a, b) % 2 == (a + b) % 2
  {}

  lemma {:induction false} XorFits(a: nat, b: nat, w: nat)
    ensures a < Exp2(w) && b < Exp2(w) ==> Xor(a, b) < Exp2(w)
  {
    if w > 0 && a < Exp2(w) && b < Exp2(w) {
      XorFits(a / 2, b / 2, w - 1);
      XorHalves(a, b);
    }
  }

  lemma XorOfWords(a: nat, b: nat)
    requires a < WORDS && b < WORDS
    ensures Xor(a, b) < WORDS
  {
    Exp64();
    XorFits(a, b, 64);
  }

  lemma SameParity(a: nat, b: nat, c: nat)
    requires (a + c) % 2 == (b + c) % 2 && a / 2 == b / 2
    ensures a == b
  {}

  lemma {:induction false} XorCancels(a: nat, b: nat, c: nat)
    requires Xor(a, c) == Xor(b, c)
    ensures a == b
    decreases a + b + c
  {
    if a + b + c > 0 {
      XorHalves(a, c);
      XorHalves(b, c);
      XorCancels(a / 2, b / 2, c / 2);
      SameParity(a, b, c);
    }
  }

  lemma {:induction false} LowOfXor(a: nat, b: nat, w: nat)
    ensures Low(Xor(a, b), w) == Xor(Low(a, w), Low(b, w))
  {
    if w > 0 {
      LowOfXor(a / 2, b / 2, w - 1);
      XorHalves(a, b);
      XorHalves(Low(a, w), Low(b, w));
      LowHalves(a, w);
      LowHalves(b, w);
      LowHalves(Xor(a, b), w);
      ParityOfSum(a, b, Low(a, w), Low(b, w));
      SameHalves(Low(Xor(a, b), w), Xor(Low(a, w), Low(b, w)));
    }
  }

  lemma ParityOfSum(a: nat, b: nat, c: nat, d: nat)
    requires a % 2 == c % 2 && b % 2 == d % 2
    ensures (a + b) % 2 == (c + d) % 2
  {}

  lemma LowHalves(a: nat, w: nat)
    requires w > 0
    ensures Low(a, w) / 2 == Low(a / 2, w - 1)
    ensures Low(a, w) % 2 == a % 2
  {}

  lemma SameHalves(a: nat, b: nat)
    requires a / 2 == b / 2 && a % 2 == b % 2
    ensures a == b
  {}

  lemma LowOfDouble(a: nat, w: nat)
    requires 0 < w <= 64
    ensures Low((2 * a) % WORDS, w) == 2 * Low(a, w - 1)
  {
    Exp64();
    LowOfRemainder(2 * a, 64, w);
    LowOfTwice(a, w);
  }

  lemma LowOfTwice(a: nat, w: nat)
    requires w > 0
    ensures Low(2 * a, w) == 2 * Low(a, w - 1)
  {
    assert (2 * a) % 2 == 0 && (2 * a) / 2 == a;
  }

  lemma {:induction false} LowIsAll(a: nat, w: nat)
    requires a < Exp2(w)
    ensures Low(a, w) == a
  {
    if w > 0 { LowIsAll(a / 2, w - 1); }
  }

  lemma {:induction false} LowOfRemainder(a: nat, v: nat, w: nat)
    requires w <= v
    ensures Low(a % Exp2(v), w) == Low(a, w)
  {
    if w > 0 {
      HalfOfRemainder(a, Exp2(v - 1));
      LowOfRemainder(a / 2, v - 1, w - 1);
    }
  }

  lemma {:induction false} ShiftRightShrinks(a: nat, k: nat)
    ensures ShiftRight(a, k) <= a
  {
    if k > 0 { ShiftRightShrinks(a / 2, k - 1); }
  }

  lemma {:induction false} ShiftRightHalves(a: nat, k: nat)
    ensures ShiftRight(a / 2, k) == ShiftRight(a, k) / 2
  {
    if k > 0 { ShiftRightHalves(a / 2, k - 1); }
  }

  lemma {:induction false} ZeroStays(k: nat)
    ensures ShiftRight(0, k) == 0 && ShiftLeft(0, k) == 0
  {
    if k > 0 { ZeroStays(k - 1); }
  }

  /** The low `w` bits of a shifted word depend only on the word's low `w - 1` bits. */
  lemma {:induction false} ShiftedLowBits(x: Word, y: Word, k: nat, w: nat)
    requires k > 0 && 0 < w <= 64
    requires Low(x, w - 1) == Low(y, w - 1)
    ensures Low(ShiftLeft(x, k), w) == Low(ShiftLeft(y, k), w)
    decreases k
  {
    LowOfDouble(x, w);
    LowOfDouble(y, w);
    if k > 1 {
      if w > 1 {
        LowOfDouble(x, w - 1);
        LowOfDouble(y, w - 1);
        LowShorter(x, y, w - 1);
      }
      ShiftedLowBits((2 * x) % WORDS, (2 * y) % WORDS, k - 1, w);
    }
  }

  lemma {:induction false} LowShorter(x: nat, y: nat, w: nat)
    requires w > 0 && Low(x, w) == Low(y, w)
    ensures Low(x, w - 1) == Low(y, w - 1)
  {
    if w > 1 { LowShorter(x / 2, y / 2, w - 1); }
  }

  // ---------------------------------------------------------------------------
  // Operations that lose nothing
  // ---------------------------------------------------------------------------

  /** Exclusive or with a right shift of itself by at least one place is injective. */
  lemma {:induction false} XorShiftRightInjective(x: nat, y: nat, k: nat)
    requires k > 0
    requires Xor(x, ShiftRight(x, k)) == Xor(y, ShiftRight(y, k))
    ensures x == y
    decreases x + y
  {
    if x + y > 0 {
      ShiftRightHalves(x, k);
      ShiftRightHalves(y, k);
      XorHalves(x, ShiftRight(x, k));
      XorHalves(y, ShiftRight(y, k));
      XorShiftRightInjective(x / 2, y / 2, k);
      SameParity(x, y, ShiftRight(x, k));
    }
  }

  /** Words that agree after `x ^= x << k` agree, from the lowest bit upward, before it. */
  lemma {:induction false} XorShiftLeftDetermines(x: Word, y: Word, k: nat, w: nat)
    requires k > 0 && w <= 64
    requires XorShiftLeft(x, k) == XorShiftLeft(y, k)
    ensures Low(x, w) == Low(y, w)
  {
    if w > 0 {
      XorShiftLeftDetermines(x, y, k, w - 1);
      ShiftedLowBits(x, y, k, w);
      LowOfXor(x, ShiftLeft(x, k), w);
      LowOfXor(y, ShiftLeft(y, k), w);
      XorCancels(Low(x, w), Low(y, w), Low(ShiftLeft(x, k), w));
    }
  }

  lemma XorShiftLeftLosesNothing(x: Word, y: Word, k: nat)
    requires k > 0
    requires XorShiftLeft(x, k) == XorShiftLeft(y, k)
    ensures x == y
  {
    XorShiftLeftDetermines(x, y, k, 64);
    Exp64();
    LowIsAll(x, 64);
    LowIsAll(y, 64);
  }

  lemma XorShiftRightLosesNothing(x: Word, y: Word, k: nat)
    requires k > 0
    requires XorShiftRight(x, k) == XorShiftRight(y, k)
    ensures x == y
  {
    XorShiftRightInjective(x, y, k);
  }

  lemma UndoMultiplication(a: nat, c: nat, inverse: nat)
    requires (c * inverse) % WORDS == 1
    ensures (((a * c) % WORDS) * inverse) % WORDS == a % WORDS
  {
    ModAbsorbs(a * c, inverse, WORDS);
    assert (a * c) * inverse == (c * inverse) * a;
    ModAbsorbs(c * inverse, a, WORDS);
  }

  /** Multiplication by a number with an inverse modulo 2^64 is injective on residues. */
  lemma MultiplierInjective(a: nat, b: nat, c: nat, inverse: nat)
    requires (c * inverse) % WORDS == 1
    requires (a * c) % WORDS == (b * c) % WORDS
    ensures a % WORDS == b % WORDS
  {
    UndoMultiplication(a, c, inverse);
    UndoMultiplication(b, c, inverse);
  }

  lemma WrappingMulLosesNothing(x: Word, y: Word, c: Word, inverse: Word)
    requires WrappingMul(c, inverse) == 1
    requires WrappingMul(x, c) == WrappingMul(y, c)
    ensures x == y
  {
    MultiplierInjective(x, y, c, inverse);
  }

  /** One round of a mixer: shift, exclusive or, multiply. */
  function Round(x: Word, k: nat, c: Word): Word {
    WrappingMul(XorShiftRight(x, k), c)
  }

  lemma RoundLosesNothing(x: Word, y: Word, k: nat, c: Word, inverse: Word)
    requires k > 0 && WrappingMul(c, inverse) == 1
    requires Round(x, k, c) == Round(y, k, c)
    ensures x == y
  {
    WrappingMulLosesNothing(XorShiftRight(x, k), XorShiftRight(y, k), c, inverse);
    XorShiftRightLosesNothing(x, y, k);
  }

  // ---------------------------------------------------------------------------
  // Finite counting
  // ---------------------------------------------------------------------------

  ghost predicate InjectiveBelow(f: nat -> nat, n: nat) {
    forall i, j :: 0 <= i < j < n ==> f(i) != f(j)
  }

  ghost function Image(f: nat -> nat, n: nat): set<nat> {
    if n == 0 then {} else Image(f, n - 1) + {f(n - 1)}
  }

  lemma {:induction false} ImageMembers(f: nat -> nat, n: nat, v: nat)
    ensures v in Image(f, n) <==> exists i :: 0 <= i < n && f(i) == v
  {
    if n > 0 {
      ImageMembers(f, n - 1, v);
      if v in Image(f, n) && v !in Image(f, n - 1) { assert f(n - 1) == v; }
    }
  }

  lemma {:induction false} ImageSize(f: nat -> nat, n: nat)
    requires InjectiveBelow(f, n)
    ensures |Image(f, n)| == n
  {
    if n > 0 {
      ImageSize(f, n - 1);
      ImageMembers(f, n - 1, f(n - 1));
    }
  }

  ghost function Below(n: nat): (s: set<nat>)
    ensures |s| == n && forall v: nat :: v in s <==> v < n
  {
    if n == 0 then {} else Below(n - 1) + {n - 1}
  }

  lemma {:induction false} SubsetSize<T>(a: set<T>, b: set<T>)
    requires a <= b
    ensures |a| <= |b|
  {
    if a != {} {
      var x :| x in a;
      SubsetSize(a - {x}, b - {x});
    }
  }

  /** An injection of the numbers below `n` into themselves is onto. */
  lemma Pigeonhole(f: nat -> nat, n: nat, v: nat)
    requires InjectiveBelow(f, n)
    requires forall i :: 0 <= i < n ==> f(i) < n
    requires v < n
    ensures exists i :: 0 <= i < n && f(i) == v
  {
    ImageSize(f, n);
    ImageMembers(f, n, v);
    if v !in Image(f, n) {
      forall u | u in Image(f, n) ensures u in Below(n) - {v} { ImageMembers(f, n, u); }
      SubsetSize(Image(f, n), Below(n) - {v});
    }
  }
}
