/** Decimal printing with zero padding, and the fixed text around it. */
module Decimal {
  import opened Bytes

  /** Printable characters as bytes; the texts given here have no others. */
  const COMMA := 44

  function Ascii(text: string): (b: Bytes)
    ensures |b| == |text|
  {
    seq(|text|, i requires 0 <= i < |text| => if ' ' <= text[i] <= '~' then text[i] as int else 63)
  }

  /** Printable ASCII only: no tab, newline or carriage return. */
  predicate Plain(b: Bytes) {
    forall i :: 0 <= i < |b| ==> 32 <= b[i] < 127
  }

  lemma AsciiIsPlain(text: string)
    ensures Plain(Ascii(text))
  {}

  lemma {:induction false} PaddedIsPlain(n: nat, w: nat)
    ensures Plain(Padded(n, w))
    decreases n + w
  {
    if !(n < 10 && w <= 1) { PaddedIsPlain(n / 10, if w == 0 then 0 else w - 1); }
  }

  /** Text, number, text is plain. */
  lemma FramedIsPlain(before: string, n: nat, w: nat, after: string)
    ensures Plain(Ascii(before) + Padded(n, w) + Ascii(after))
  {
    AsciiIsPlain(before);
    PaddedIsPlain(n, w);
    AsciiIsPlain(after);
  }

  lemma {:induction false} PlainIsUtf8(b: Bytes)
    requires Plain(b)
    ensures ValidUtf8(b)
    decreases |b|
  {
    if b != [] { PlainIsUtf8(b[1..]); }
  }

  /** The digits of `n`, at least `w` of them. */
  function Padded(n: nat, w: nat): (b: Bytes)
    ensures b != []
    decreases n + w
  {
    if n < 10 && w <= 1 then [48 + n] else Padded(n / 10, if w == 0 then 0 else w - 1) + [48 + n % 10]
  }

  function ValueOf(b: Bytes): int {
    if b == [] then 0 else 10 * ValueOf(b[..|b| - 1]) + b[|b| - 1] - 48
  }

  lemma {:induction false} PaddedRoundTrip(n: nat, w: nat)
    ensures ValueOf(Padded(n, w)) == n
    decreases n + w
  {
    if n < 10 && w <= 1 {
      assert ValueOf([48 + n]) == 10 * ValueOf([]) + n;
    } else {
      var w' := if w == 0 then 0 else w - 1;
      PaddedRoundTrip(n / 10, w');
      assert Padded(n, w)[..|Padded(n, w)| - 1] == Padded(n / 10, w');
    }
  }

  function Pow10(w: nat): nat {
    if w == 0 then 1 else 10 * Pow10(w - 1)
  }

  lemma {:induction false} PaddedWidth(n: nat, w: nat)
    requires w > 0 && n < Pow10(w)
    ensures |Padded(n, w)| == w
  {
    if w > 1 { PaddedWidth(n / 10, w - 1); }
  }

  /** Text, number, text: the number can be read back. */
  lemma FramedInjective(before: Bytes, m: nat, n: nat, w: nat, after: Bytes)
    requires before + Padded(m, w) + after == before + Padded(n, w) + after
    ensures m == n
  {
    var a, b := before + Padded(m, w) + after, before + Padded(n, w) + after;
    assert |Padded(m, w)| == |Padded(n, w)|;
    assert a[|before|..|a| - |after|] == Padded(m, w);
    assert b[|before|..|b| - |after|] == Padded(n, w);
    PaddedRoundTrip(m, w);
    PaddedRoundTrip(n, w);
  }

  lemma {:induction false} PaddedIsDigits(n: nat, w: nat)
    ensures forall i :: 0 <= i < |Padded(n, w)| ==> 48 <= Padded(n, w)[i] < 58
    decreases n + w
  {
    if !(n < 10 && w <= 1) { PaddedIsDigits(n / 10, if w == 0 then 0 else w - 1); }
  }

  /** A number that a comma ends is determined by the text, whatever follows. */
  lemma NumberEndsAtComma(before: Bytes, m: nat, n: nat, text: Bytes)
    requires before + Padded(m, 1) + [COMMA] <= text && before + Padded(n, 1) + [COMMA] <= text
    ensures m == n
  {
    var a, b := before + Padded(m, 1) + [COMMA], before + Padded(n, 1) + [COMMA];
    PaddedIsDigits(m, 1);
    PaddedIsDigits(n, 1);
    assert forall i :: 0 <= i < |Padded(m, 1)| ==> a[|before| + i] == text[|before| + i] == Padded(m, 1)[i];
    assert forall i :: 0 <= i < |Padded(n, 1)| ==> b[|before| + i] == text[|before| + i] == Padded(n, 1)[i];
    assert a[|a| - 1] == text[|a| - 1] == COMMA && b[|b| - 1] == text[|b| - 1] == COMMA;
    assert |Padded(m, 1)| == |Padded(n, 1)|;
    assert Padded(m, 1) == Padded(n, 1);
    PaddedRoundTrip(m, 1);
    PaddedRoundTrip(n, 1);
  }
}
