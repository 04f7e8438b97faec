/**
 Text as bytes: which bytes are UTF-8, which characters are white space, what base64 stands for and
 what the bits of a double mean.
 */
module TextEncodings {
  import opened Words
  import opened Bytes
  import opened Doubles
  import opened QueryLiteral
  import opened EnginePath

  // ---------------------------------------------------------------------------
  // UTF-8
  // ---------------------------------------------------------------------------

  /** A code point that is not half of a surrogate pair. */
  predicate Scalar(n: nat) {
    n < 0xD800 || 0xE000 <= n < 0x11_0000
  }

  lemma CodeIsCharacter(n: nat)
    requires Scalar(n)
    ensures CharLength(Utf8Code(n)) == |Utf8Code(n)|
  {}

  lemma SixBitsMore(high: nat, low: nat)
    requires low < 64
    ensures (high * 64 + low) / 64 == high && (high * 64 + low) % 64 == low
  {}

  lemma TwoBytes(a: byte, b: byte) returns (n: nat)
    requires CharLength([a, b]) == 2
    ensures Scalar(n) && Utf8Code(n) == [a, b]
  {
    n := (a as int - 0xC0) * 64 + (b as int - 0x80);
    SixBitsMore(a as int - 0xC0, b as int - 0x80);
  }

  lemma ThreeBytes(a: byte, b: byte, c: byte) returns (n: nat)
    requires CharLength([a, b, c]) == 3
    ensures Scalar(n) && Utf8Code(n) == [a, b, c]
  {
    var high := (a as int - 0xE0) * 64 + (b as int - 0x80);
    n := high * 64 + (c as int - 0x80);
    SixBitsMore(a as int - 0xE0, b as int - 0x80);
    SixBitsMore(high, c as int - 0x80);
  }

  lemma FourBytes(a: byte, b: byte, c: byte, d: byte) returns (n: nat)
    requires CharLength([a, b, c, d]) == 4
    ensures Scalar(n) && Utf8Code(n) == [a, b, c, d]
  {
    var high := (a as int - 0xF0) * 64 + (b as int - 0x80);
    var middle := high * 64 + (c as int - 0x80);
    n := middle * 64 + (d as int - 0x80);
    SixBitsMore(a as int - 0xF0, b as int - 0x80);
    SixBitsMore(high, c as int - 0x80);
    SixBitsMore(middle, d as int - 0x80);
  }

  /** The code point of the character a string starts with. */
  lemma CharacterIsCode(s: Bytes) returns (n: nat)
    requires CharLength(s) > 0
    ensures Scalar(n) && Utf8Code(n) == s[..CharLength(s)]
  {
    match CharLength(s)
    case 1 =>
      n := s[0];
      assert s[..1] == [s[0]];
    case 2 =>
      n := TwoBytes(s[0], s[1]);
      assert s[..2] == [s[0], s[1]];
    case 3 =>
      n := ThreeBytes(s[0], s[1], s[2]);
      assert s[..3] == [s[0], s[1], s[2]];
    case _ =>
      n := FourBytes(s[0], s[1], s[2], s[3]);
      assert s[..4] == [s[0], s[1], s[2], s[3]];
  }

  lemma {:induction false} TextIsValid(text: string)
    ensures ValidUtf8(Utf8(text))
  {
    if text != "" {
      var head, rest := Utf8Code(text[0] as int), Utf8(text[1..]);
      CodeIsCharacter(text[0] as int);
      TextIsValid(text[1..]);
      CharLengthOfPrefix(head, rest);
      assert (head + rest)[|head|..] == rest;
    }
  }

  /** The text of some UTF-8. */
  lemma {:induction false} ValidIsText(b: Bytes) returns (text: string)
    requires ValidUtf8(b)
    ensures Utf8(text) == b
    decreases |b|
  {
    if b == [] {
      text := "";
    } else {
      var n := CharLength(b);
      var code := CharacterIsCode(b);
      var rest := ValidIsText(b[n..]);
      text := [code as char] + rest;
      assert text[1..] == rest && b == b[..n] + b[n..];
    }
  }

  /** Bytes are UTF-8 exactly when they are those of a text. */
  lemma Utf8Exactly(b: Bytes)
    ensures ValidUtf8(b) <==> exists text :: Utf8(text) == b
  {
    if ValidUtf8(b) { var text := ValidIsText(b); }
    if text :| Utf8(text) == b { TextIsValid(text); }
  }

  // ---------------------------------------------------------------------------
  // White space
  // ---------------------------------------------------------------------------

  /** The property White_Space of Unicode. */
  predicate WhiteSpace(n: nat) {
    || 9 <= n <= 13 || n == 0x20 || n == 0x85 || n == 0xA0 || n == 0x1680 || 0x2000 <= n <= 0x200A
    || n == 0x2028 || n == 0x2029 || n == 0x202F || n == 0x205F || n == 0x3000
  }

  /** What is trimmed from a path is exactly white space. */
  lemma WhiteExactly(n: nat)
    requires n < 0x11_0000
    ensures White(Utf8Code(n)) <==> WhiteSpace(n)
  {}

  // ---------------------------------------------------------------------------
  // Base64
  // ---------------------------------------------------------------------------

  /** The alphabet of section 4 of RFC 4648. */
  lemma Base64Alphabet(n: nat)
    requires n < 26
    ensures SixBitChar(n) == 'A' + n as char && SixBitChar(26 + n) == 'a' + n as char
    ensures n < 10 ==> SixBitChar(52 + n) == '0' + n as char
    ensures SixBitChar(62) == '+' && SixBitChar(63) == '/'
  {}

  /** Vectors of section 10 of RFC 4648. */
  lemma Base64Vectors()
    ensures Base64([102]) == "Zg==" && Base64([102, 111]) == "Zm8=" && Base64([102, 111, 111]) == "Zm9v"
  {
    assert [102, 111, 111][3..] == [];
  }

  // ---------------------------------------------------------------------------
  // Doubles
  // ---------------------------------------------------------------------------

  /** One sign bit, eleven of the exponent, fifty-two of the fraction. */
  lemma BitsLayout(d: Double)
    ensures Bits(d) / 0x8000_0000_0000_0000 == (if d.negative then 1 else 0)
    ensures Bits(d) / 0x10_0000_0000_0000 % 2048 == d.exponent
    ensures Bits(d) % 0x10_0000_0000_0000 == d.fraction
  {}

  /** One, minus two and a half, and the smallest number above zero. */
  lemma DoublesByExample()
    ensures Real(Double(false, 1023, 0)) == 1.0
    ensures Real(Double(true, 1024, 0x4_0000_0000_0000)) == -2.5
    ensures Real(Double(false, 0, 1)) == 1.0 / Exp2(1074) as real
  {
    ExpValues();
    assert Exp2(53) == 2 * Exp2(52) && Exp2(52) == 2 * Exp2(51);
  }
}
