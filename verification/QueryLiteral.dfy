/**
 The literals of plugin queries on their way to the host: what the builder writes as JSON, and the
 bytes under which the indexer files the same value.
 */
module QueryLiteral {
  import opened Common
  import opened Words
  import opened Bytes
  import opened Doubles
  import opened Json

  // ---------------------------------------------------------------------------
  // Encodings
  // ---------------------------------------------------------------------------

  /** The low `w` bytes of `n`, most significant first. */
  function BigEndian(n: nat, w: nat): (b: Bytes)
    ensures |b| == w
  {
    if w == 0 then [] else BigEndian(n / 256, w - 1) + [n % 256]
  }

  lemma {:induction false} BigEndianInjective(m: nat, n: nat, w: nat)
    requires m < Pow256(w) && n < Pow256(w) && BigEndian(m, w) == BigEndian(n, w)
    ensures m == n
  {
    if w > 0 {
      var a, b := BigEndian(m / 256, w - 1), BigEndian(n / 256, w - 1);
      assert (a + [m % 256])[w - 1] == (b + [n % 256])[w - 1];
      assert (a + [m % 256])[..w - 1] == a && (b + [n % 256])[..w - 1] == b;
      BigEndianInjective(m / 256, n / 256, w - 1);
    }
  }

  /** The number some bytes are, the first of them the most significant: `from_be_bytes`. */
  function FromBigEndian(b: Bytes): nat {
    if b == [] then 0 else b[0] * Pow256(|b| - 1) + FromBigEndian(b[1..])
  }

  lemma {:induction false} FromBigEndianMore(b: Bytes, last: byte)
    ensures FromBigEndian(b + [last]) == 256 * FromBigEndian(b) + last
  {
    if b == [] {
      assert b + [last] == [last] && [last][1..] == [];
    } else {
      FromBigEndianMore(b[1..], last);
      assert (b + [last])[1..] == b[1..] + [last];
      assert b[0] * Pow256(|b|) == 256 * (b[0] * Pow256(|b| - 1));
    }
  }

  /** Read most significant byte first, the bytes give the number back. */
  lemma {:induction false} BigEndianRoundTrip(n: nat, w: nat)
    requires n < Pow256(w)
    ensures FromBigEndian(BigEndian(n, w)) == n
  {
    if w > 0 {
      BigEndianRoundTrip(n / 256, w - 1);
      FromBigEndianMore(BigEndian(n / 256, w - 1), n % 256);
    }
  }

  lemma {:induction false} FromBigEndianFits(b: Bytes)
    ensures FromBigEndian(b) < Pow256(|b|)
  {
    if b != [] {
      FromBigEndianFits(b[1..]);
      AtMost(b[0], 255, Pow256(|b| - 1));
    }
  }

  lemma AtMost(a: nat, b: nat, p: nat)
    requires a <= b
    ensures a * p <= b * p
  {}

  lemma HeadDecides(x: nat, y: nat, p: nat, r: nat, t: nat)
    requires r < p && t < p
    ensures x * p + r < y * p + t <==> x < y || (x == y && r < t)
  {
    if x < y {
      AtMost(x + 1, y, p);
    } else if y < x {
      AtMost(y + 1, x, p);
    }
  }

  lemma {:induction false} OrderFrom(a: Bytes, b: Bytes, i: nat)
    requires |a| == |b| && i <= |a|
    ensures LessFrom(a, b, i) <==> FromBigEndian(a[i..]) < FromBigEndian(b[i..])
    decreases |a| - i
  {
    if i < |a| {
      OrderFrom(a, b, i + 1);
      assert a[i..][1..] == a[i + 1..] && b[i..][1..] == b[i + 1..];
      FromBigEndianFits(a[i + 1..]);
      FromBigEndianFits(b[i + 1..]);
      HeadDecides(a[i], b[i], Pow256(|a| - i - 1), FromBigEndian(a[i + 1..]), FromBigEndian(b[i + 1..]));
    }
  }

  /** Of byte strings of one length the smaller number comes first. */
  lemma OrderIsOfNumbers(a: Bytes, b: Bytes)
    requires |a| == |b|
    ensures Less(a, b) <==> FromBigEndian(a) < FromBigEndian(b)
  {
    OrderFrom(a, b, 0);
    assert a[0..] == a && b[0..] == b;
  }

  /** Words and their eight bytes are in the same order. */
  lemma WordsInOrder(m: Word, n: Word)
    ensures Less(BigEndian(m, 8), BigEndian(n, 8)) <==> m < n
    ensures FromBigEndian(BigEndian(m, 8)) == m
  {
    PowersOf256();
    BigEndianRoundTrip(m, 8);
    BigEndianRoundTrip(n, 8);
    OrderIsOfNumbers(BigEndian(m, 8), BigEndian(n, 8));
  }

  /** The bytes of a code point: one, or a head and six bits in each of the others. */
  function Utf8Code(n: nat): (b: Bytes)
    requires n < 0x11_0000
    ensures 0 < |b| <= 4
  {
    if n < 0x80 then [n]
    else if n < 0x800 then [0xC0 + n / 64, 0x80 + n % 64]
    else if n < 0x1_0000 then [0xE0 + n / 64 / 64, 0x80 + n / 64 % 64, 0x80 + n % 64]
    else [0xF0 + n / 64 / 64 / 64, 0x80 + n / 64 / 64 % 64, 0x80 + n / 64 % 64, 0x80 + n % 64]
  }

  /** The bytes of a string. */
  function Utf8(text: string): Bytes {
    if text == "" then [] else Utf8Code(text[0] as int) + Utf8(text[1..])
  }

  lemma SixBits(m: nat, n: nat)
    requires m / 64 == n / 64 && m % 64 == n % 64
    ensures m == n
  {}

  /** How many bytes follow is told by the first. */
  lemma LengthByHead(m: nat, n: nat)
    requires m < 0x11_0000 && n < 0x11_0000 && Utf8Code(m)[0] == Utf8Code(n)[0]
    ensures |Utf8Code(m)| == |Utf8Code(n)|
  {}

  lemma Utf8CodeInjective(m: nat, n: nat)
    requires m < 0x11_0000 && n < 0x11_0000 && Utf8Code(m) == Utf8Code(n)
    ensures m == n
  {
    var a, b := Utf8Code(m), Utf8Code(n);
    assert a[0] == b[0];
    LengthByHead(m, n);
    if |a| > 1 {
      assert a[|a| - 1] == b[|a| - 1];
      if |a| > 2 {
        assert a[|a| - 2] == b[|a| - 2];
        if |a| > 3 {
          assert a[1] == b[1];
          SixBits(m / 64 / 64, n / 64 / 64);
        }
        SixBits(m / 64, n / 64);
      }
      SixBits(m, n);
    }
  }

  lemma SameFront(a: Bytes, b: Bytes, rest: Bytes, rest': Bytes)
    requires a + rest == b + rest' && |a| == |b|
    ensures a == b && rest == rest'
  {
    assert a == (a + rest)[..|a|] && b == (b + rest')[..|b|];
    assert rest == (a + rest)[|a|..] && rest' == (b + rest')[|b|..];
  }

  /** Different texts are different bytes. */
  lemma {:induction false} Utf8Injective(s: string, t: string)
    requires Utf8(s) == Utf8(t)
    ensures s == t
  {
    if s != "" && t != "" {
      var m, n: nat := s[0] as int, t[0] as int;
      assert Utf8(s)[0] == Utf8Code(m)[0] && Utf8(t)[0] == Utf8Code(n)[0];
      LengthByHead(m, n);
      SameFront(Utf8Code(m), Utf8Code(n), Utf8(s[1..]), Utf8(t[1..]));
      Utf8CodeInjective(m, n);
      Utf8Injective(s[1..], t[1..]);
      assert s == [s[0]] + s[1..] && t == [t[0]] + t[1..];
    }
  }

  // ---------------------------------------------------------------------------
  // Base64
  // ---------------------------------------------------------------------------

  /** The characters that stand for six bits. */
  function SixBitChar(n: nat): (c: char)
    requires n < 64
    ensures c as int < 0x80
  {
    if n < 26 then (65 + n) as char
    else if n < 52 then (71 + n) as char
    else if n < 62 then (n - 4) as char
    else if n == 62 then '+'
    else '/'
  }

  /** Three bytes are four characters; an end of one or two is padded. */
  function Base64(b: Bytes): (text: string)
    ensures |text| == 4 * ((|b| + 2) / 3)
    ensures forall i :: 0 <= i < |text| ==> text[i] as int < 0x80
  {
    if |b| == 0 then ""
    else if |b| == 1 then [SixBitChar(b[0] / 4), SixBitChar(b[0] % 4 * 16), '=', '=']
    else if |b| == 2 then
      [SixBitChar(b[0] / 4), SixBitChar(b[0] % 4 * 16 + b[1] / 16), SixBitChar(b[1] % 16 * 4), '=']
    else
      [SixBitChar(b[0] / 4), SixBitChar(b[0] % 4 * 16 + b[1] / 16),
       SixBitChar(b[1] % 16 * 4 + b[2] / 64), SixBitChar(b[2] % 64)] + Base64(b[3..])
  }

  lemma {:induction false} AsciiLength(text: string)
    requires forall i :: 0 <= i < |text| ==> text[i] as int < 0x80
    ensures |Utf8(text)| == |text|
  {
    if text != "" { AsciiLength(text[1..]); }
  }

  /** The text of some bytes in base64 is those bytes exactly when there are none. */
  lemma Base64IsItselfExactly(b: Bytes)
    ensures Utf8(Base64(b)) == b <==> b == []
  {
    AsciiLength(Base64(b));
  }

  // ---------------------------------------------------------------------------
  // Literals
  // ---------------------------------------------------------------------------

  /** The literals a field operator takes; a float may be an infinity or not a number. */
  datatype Literal =
    | Unsigned(word: Word)
    | Signed(number: i64)
    | Float(double: Double)
    | NonFinite
    | Str(text: string)
    | Flag(flag: bool)
    | Raw(bytes: Bytes)

  /** What the builder writes: JSON has no infinities, they become null, and no bytes, they become base64. */
  function LiteralJson(l: Literal): (v: Value)
    ensures v.Null? <==> l.NonFinite?
    ensures !v.Array? && !v.Object?
  {
    match l
    case Unsigned(n) => Integer(n)
    case Signed(n) => Integer(n)
    case Float(d) => Decimal(Real(d))
    case NonFinite => Null
    case Str(s) => Text(s)
    case Flag(b) => Bool(b)
    case Raw(b) => Text(Base64(b))
  }

  /** The bytes the indexer files a field of that value under; raw bytes mean themselves. */
  function Meant(l: Literal): Bytes {
    match l
    case Unsigned(n) => BigEndian(n, 8)
    case Signed(n) => BigEndian(ToUnsigned(n), 8)
    case Float(d) => BigEndian(Bits(d), 8)
    case NonFinite => []
    case Str(s) => Utf8(s)
    case Flag(b) => [if b then 1 else 0]
    case Raw(b) => b
  }

  /** `json_query_value_to_bytes`: what the host searches the index for. */
  function QueryBytes(v: Value): Option<Bytes> {
    match v
    case Integer(n) =>
      if 0 <= n < WORDS then Some(BigEndian(n, 8))
      else if -0x8000_0000_0000_0000 <= n < 0 then Some(BigEndian(ToUnsigned(n), 8))
      else None
    case Decimal(x) => Some(BigEndian(Truncated(x), 8))
    case Text(t) => Some(Utf8(t))
    case Bool(b) => Some([if b then 1 else 0])
    case _ => None
  }

  /** All literals but infinities and the like are converted. */
  lemma ConvertedExactly(l: Literal)
    ensures QueryBytes(LiteralJson(l)).Some? <==> !l.NonFinite?
  {}

  /** A float other than plus zero is searched for under other bytes than it is filed under, and so are raw bytes. */
  predicate Arrives(l: Literal) {
    match l
    case Float(d) => d == ZERO
    case NonFinite => false
    case Raw(b) => b == []
    case _ => true
  }

  lemma WordsAreEightBytes(m: Word, n: Word)
    ensures BigEndian(m, 8) == BigEndian(n, 8) <==> m == n
  {
    PowersOf256();
    if BigEndian(m, 8) == BigEndian(n, 8) { BigEndianInjective(m, n, 8); }
  }

  /** Unsigned numbers are filed in their order, and under bytes that read back as the number. */
  lemma UnsignedInOrder(m: Word, n: Word)
    ensures Less(Meant(Unsigned(m)), Meant(Unsigned(n))) <==> m < n
    ensures FromBigEndian(Meant(Unsigned(m))) == m
  {
    WordsInOrder(m, n);
  }

  /** Signed numbers are filed in their order exactly when they are both negative or both not. */
  lemma SignedInOrderExactly(m: i64, n: i64)
    requires m < n
    ensures Less(Meant(Signed(m)), Meant(Signed(n))) <==> (m < 0 <==> n < 0)
    ensures FromBigEndian(Meant(Signed(m))) == if m < 0 then m + WORDS else m
  {
    WordsInOrder(ToUnsigned(m), ToUnsigned(n));
  }

  /** What the host makes of an integer, read most significant byte first, is the integer modulo 2^64. */
  lemma IntegerIsRead(n: int)
    ensures var b := QueryBytes(Integer(n));
            if -0x8000_0000_0000_0000 <= n < WORDS then b.Some? && |b.value| == 8 && FromBigEndian(b.value) == n % WORDS
            else b.None?
  {
    if 0 <= n < WORDS {
      WordsInOrder(n, n);
    } else if -0x8000_0000_0000_0000 <= n < 0 {
      WordsInOrder(ToUnsigned(n), ToUnsigned(n));
    }
  }

  /** A flag is one byte, one or zero, to the indexer and to the host. */
  lemma FlagIsRead()
    ensures QueryBytes(Bool(true)) == Some([1]) == Some(Meant(Flag(true)))
    ensures QueryBytes(Bool(false)) == Some([0]) == Some(Meant(Flag(false)))
  {}

  /** The same of a decimal: what it is without its fraction, or the nearest word. */
  lemma DecimalIsRead(x: real)
    ensures var b := QueryBytes(Decimal(x));
            b.Some? && |b.value| == 8
            && FromBigEndian(b.value)
               == if x < 0.0 then 0 else if x >= WORDS as real then WORDS - 1 else x.Floor
  {
    WordsInOrder(Truncated(x), Truncated(x));
  }

  /** The host searches for what the indexer filed exactly when the literal arrives. */
  lemma ArrivesExactly(l: Literal)
    ensures QueryBytes(LiteralJson(l)) == Some(Meant(l)) <==> Arrives(l)
  {
    match l
    case Float(d) =>
      WordsAreEightBytes(Truncated(Real(d)), Bits(d));
      TruncatedIsBitsExactly(d);
    case Raw(b) => Base64IsItselfExactly(b);
    case _ =>
  }

  predicate SameKind(l: Literal, k: Literal) {
    match l
    case Unsigned(_) => k.Unsigned?
    case Signed(_) => k.Signed?
    case Float(_) => k.Float?
    case NonFinite => false
    case Str(_) => k.Str?
    case Flag(_) => k.Flag?
    case Raw(_) => k.Raw?
  }

  lemma BitsInjective(d: Double, e: Double)
    requires Bits(d) == Bits(e)
    ensures d == e
  {
    SameParts(d.exponent, d.fraction, e.exponent, e.fraction);
  }

  lemma SameParts(a: Exponent, x: Fraction, b: Exponent, y: Fraction)
    ensures a * FRACTIONS + x < 0x8000_0000_0000_0000
    ensures a * FRACTIONS + x == b * FRACTIONS + y ==> a == b && x == y
  {}

  /** Literals of one kind are filed apart. */
  lemma FiledApart(l: Literal, k: Literal)
    requires SameKind(l, k)
    ensures Meant(l) == Meant(k) <==> l == k
  {
    match l
    case Unsigned(n) => WordsAreEightBytes(n, k.word);
    case Signed(n) => WordsAreEightBytes(ToUnsigned(n), ToUnsigned(k.number));
    case Float(d) =>
      WordsAreEightBytes(Bits(d), Bits(k.double));
      if Bits(d) == Bits(k.double) { BitsInjective(d, k.double); }
    case Str(s) => if Utf8(s) == Utf8(k.text) { Utf8Injective(s, k.text); }
    case _ =>
  }
}
