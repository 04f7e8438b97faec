/** How the engine names its files: `normalize_path`, on the bytes of a UTF-8 string. */
module EnginePath {
  import opened Bytes

  const NUL: byte := 0
  const DOT: byte := 46

  const ROOT: Bytes := [SLASH]

  // ---------------------------------------------------------------------------
  // Trimming
  // ---------------------------------------------------------------------------

  function WithoutNuls(s: Bytes): Bytes {
    if s == [] then [] else (if s[0] == NUL then [] else [s[0]]) + WithoutNuls(s[1..])
  }

  /** The encodings of the characters Unicode counts as white space. */
  predicate White(c: Bytes) {
    match |c|
    case 1 => White1(c[0])
    case 2 => White2(c[0], c[1])
    case 3 => White3(c[0], c[1], c[2])
    case _ => false
  }

  predicate White1(a: byte) {
    9 <= a <= 13 || a == 32
  }

  predicate White2(a: byte, b: byte) {
    a == 0xC2 && (b == 0x85 || b == 0xA0)
  }

  predicate White3(a: byte, b: byte, c: byte) {
    || (a == 0xE1 && b == 0x9A && c == 0x80)
    || (a == 0xE2 && b == 0x80 && (0x80 <= c <= 0x8A || c == 0xA8 || c == 0xA9 || c == 0xAF))
    || (a == 0xE2 && b == 0x81 && c == 0x9F)
    || (a == 0xE3 && b == 0x80 && c == 0x80)
  }

  /** The length of the white space character a string starts with, or zero. */
  function WhiteStart(s: Bytes): (n: nat)
    ensures n <= |s| && (n > 0 ==> White(s[..n]))
  {
    if |s| >= 1 && White(s[..1]) then 1
    else if |s| >= 2 && White(s[..2]) then 2
    else if |s| >= 3 && White(s[..3]) then 3
    else 0
  }

  function WhiteEnd(s: Bytes): (n: nat)
    ensures n <= |s| && (n > 0 ==> White(s[|s| - n..]))
  {
    if |s| >= 1 && White(s[|s| - 1..]) then 1
    else if |s| >= 2 && White(s[|s| - 2..]) then 2
    else if |s| >= 3 && White(s[|s| - 3..]) then 3
    else 0
  }

  function TrimStart(s: Bytes): Bytes
    decreases |s|
  {
    var n := WhiteStart(s);
    if n > 0 then TrimStart(s[n..]) else s
  }

  function TrimEnd(s: Bytes): (t: Bytes)
    ensures t <= s && WhiteEnd(t) == 0
    decreases |s|
  {
    var n := WhiteEnd(s);
    if n > 0 then TrimEnd(s[..|s| - n]) else s
  }

  function Trimmed(path: Bytes): Bytes {
    TrimEnd(TrimStart(WithoutNuls(path)))
  }

  // ---------------------------------------------------------------------------
  // Segments
  // ---------------------------------------------------------------------------

  /** The pieces between slashes, empty ones included. */
  function Split(s: Bytes): (pieces: seq<Bytes>)
    ensures pieces != [] && forall i :: 0 <= i < |pieces| ==> SLASH !in pieces[i]
  {
    if s == [] then [[]]
    else if s[0] == SLASH then [[]] + Split(s[1..])
    else
      var rest := Split(s[1..]);
      [[s[0]] + rest[0]] + rest[1..]
  }

  /** A piece that names something: not empty, not the directory itself, not its parent. */
  predicate Name(piece: Bytes) {
    piece != [] && piece != [DOT] && piece != [DOT, DOT]
  }

  /** One piece more: a name goes down, two dots go up unless at the root, the others stay. */
  function Walk(segments: seq<Bytes>, piece: Bytes): seq<Bytes> {
    if Name(piece) then segments + [piece]
    else if piece == [DOT, DOT] && segments != [] then segments[..|segments| - 1]
    else segments
  }

  function Walked(pieces: seq<Bytes>): seq<Bytes> {
    if pieces == [] then [] else Walk(Walked(pieces[..|pieces| - 1]), pieces[|pieces| - 1])
  }

  function Joined(segments: seq<Bytes>): Bytes {
    if segments == [] then [] else Joined(segments[..|segments| - 1]) + [SLASH] + segments[|segments| - 1]
  }

  function Normalize(path: Bytes): Bytes {
    var segments := Walked(Split(Trimmed(path)));
    if segments == [] then ROOT else Joined(segments)
  }

  /** `normalize_path` */
  method NormalizePath(path: Bytes) returns (normalized: Bytes)
    ensures normalized == Normalize(path)
  {
    var trimmed := Trimmed(path);
    if trimmed == [] {
      assert Walked([[]]) == Walk(Walked([]), []);
      return ROOT;
    }
    var pieces, segments := Split(trimmed), [];
    for i := 0 to |pieces|
      invariant segments == Walked(pieces[..i])
    {
      assert pieces[..i + 1][..i] == pieces[..i];
      if pieces[i] == [] || pieces[i] == [DOT] {
      } else if pieces[i] == [DOT, DOT] {
        if segments != [] { segments := segments[..|segments| - 1]; }
      } else {
        segments := segments + [pieces[i]];
      }
    }
    assert pieces[..|pieces|] == pieces;
    normalized := if segments == [] then ROOT else Joined(segments);
  }

  // ---------------------------------------------------------------------------
  // Which paths are their own names
  // ---------------------------------------------------------------------------

  predicate AllNames(pieces: seq<Bytes>) {
    forall i :: 0 <= i < |pieces| ==> Name(pieces[i])
  }

  /** A slash and names between slashes, without zero bytes. */
  predicate Rooted(path: Bytes) {
    path != [] && path[0] == SLASH && NUL !in path && AllNames(Split(path[1..]))
  }

  /** The root, or names from it of which the last does not end in white space. */
  predicate Canonical(path: Bytes) {
    path == ROOT || (Rooted(path) && WhiteEnd(path) == 0)
  }

  lemma {:induction false} WithoutNulsKeeps(s: Bytes)
    ensures NUL !in WithoutNuls(s) && (NUL !in s ==> WithoutNuls(s) == s)
  {
    if s != [] {
      WithoutNulsKeeps(s[1..]);
      if s[0] != NUL { assert s == [s[0]] + s[1..]; }
    }
  }

  lemma SlashIsNotWhite(s: Bytes)
    requires s != [] && s[0] == SLASH
    ensures WhiteStart(s) == 0
  {}

  /** The lengths of all pieces, each with a slash. */
  function Weight(pieces: seq<Bytes>): nat {
    if pieces == [] then 0 else Weight(pieces[..|pieces| - 1]) + 1 + |pieces[|pieces| - 1]|
  }

  lemma {:induction false} WeightFront(piece: Bytes, rest: seq<Bytes>)
    ensures Weight([piece] + rest) == 1 + |piece| + Weight(rest)
    decreases |rest|
  {
    if rest == [] {
      assert ([piece] + rest)[..0] == [];
    } else {
      WeightFront(piece, rest[..|rest| - 1]);
      assert ([piece] + rest)[..|rest|] == [piece] + rest[..|rest| - 1];
    }
  }

  lemma {:induction false} SplitWeight(s: Bytes)
    ensures Weight(Split(s)) == |s| + 1
  {
    if s == [] {
      WeightFront([], []);
      assert [[]] + [] == Split(s);
    } else {
      SplitWeight(s[1..]);
      var rest := Split(s[1..]);
      if s[0] == SLASH {
        WeightFront([], rest);
      } else {
        WeightFront([s[0]] + rest[0], rest[1..]);
        WeightFront(rest[0], rest[1..]);
        assert rest == [rest[0]] + rest[1..];
      }
    }
  }

  lemma {:induction false} WalkedWeight(pieces: seq<Bytes>)
    ensures Weight(Walked(pieces)) <= Weight(pieces)
    ensures pieces != [] && pieces[0] == [] ==> Weight(Walked(pieces)) < Weight(pieces)
  {
    if pieces != [] {
      var init := pieces[..|pieces| - 1];
      WalkedWeight(init);
      if init == [] { assert Walked(init) == []; }
    }
  }

  lemma {:induction false} JoinedWeight(segments: seq<Bytes>)
    ensures |Joined(segments)| == Weight(segments)
  {
    if segments != [] { JoinedWeight(segments[..|segments| - 1]); }
  }

  /** Walking never lengthens a path that starts at the root. */
  lemma NoLonger(s: Bytes)
    requires s != [] && s[0] == SLASH
    ensures |Joined(Walked(Split(s)))| <= |s|
  {
    SplitWeight(s);
    WalkedWeight(Split(s));
    JoinedWeight(Walked(Split(s)));
  }

  lemma {:induction false} NamesWalked(pieces: seq<Bytes>)
    ensures AllNames(Walked(pieces)) && forall x :: x in Walked(pieces) ==> x in pieces
    ensures AllNames(pieces) ==> Walked(pieces) == pieces
  {
    if pieces != [] {
      var init := pieces[..|pieces| - 1];
      NamesWalked(init);
      assert pieces == init + [pieces[|pieces| - 1]];
    }
  }

  /** An empty first piece changes nothing. */
  lemma {:induction false} WalkedFromRoot(pieces: seq<Bytes>)
    ensures Walked([[]] + pieces) == Walked(pieces)
  {
    if pieces == [] {
      assert [[]] + pieces == [[]] && Walked([[]]) == Walk(Walked([]), []);
    } else {
      var init := pieces[..|pieces| - 1];
      WalkedFromRoot(init);
      assert ([[]] + pieces)[..|pieces|] == [[]] + init;
    }
  }

  lemma {:induction false} JoinedFront(piece: Bytes, rest: seq<Bytes>)
    ensures Joined([piece] + rest) == [SLASH] + piece + Joined(rest)
    decreases |rest|
  {
    if rest == [] {
      assert ([piece] + rest)[..0] == [];
    } else {
      var init, last := rest[..|rest| - 1], rest[|rest| - 1];
      JoinedFront(piece, init);
      assert ([piece] + rest)[..|rest|] == [piece] + init;
      FourParts([SLASH] + piece, Joined(init), [SLASH], last);
    }
  }

  lemma FourParts(a: Bytes, b: Bytes, c: Bytes, d: Bytes)
    ensures (a + b) + c + d == a + (b + c + d)
  {}

  /** Joining what was split puts a slash in front. */
  lemma {:induction false} JoinedSplit(s: Bytes)
    ensures Joined(Split(s)) == [SLASH] + s
  {
    if s == [] {
      JoinedFront([], []);
      assert [[]] + [] == Split(s);
    } else {
      JoinedSplit(s[1..]);
      var rest := Split(s[1..]);
      if s[0] == SLASH {
        JoinedFront([], rest);
      } else {
        JoinedFront([s[0]] + rest[0], rest[1..]);
        JoinedFront(rest[0], rest[1..]);
        assert rest == [rest[0]] + rest[1..];
        SplitFront(s, rest[0], Joined(rest[1..]));
      }
    }
  }

  lemma SplitFront(s: Bytes, piece: Bytes, rest: Bytes)
    requires s != [] && [SLASH] + piece + rest == [SLASH] + s[1..]
    ensures [SLASH] + ([s[0]] + piece) + rest == [SLASH] + s
  {
    var both := piece + rest;
    assert [SLASH] + piece + rest == [SLASH] + both;
    assert both == ([SLASH] + both)[1..] == ([SLASH] + s[1..])[1..] == s[1..];
    assert s == [s[0]] + both;
    assert [SLASH] + ([s[0]] + piece) + rest == [SLASH] + ([s[0]] + both);
  }

  /** Pieces without slashes are found again. */
  lemma {:induction false} SplitJoined(pieces: seq<Bytes>)
    requires pieces != [] && forall i :: 0 <= i < |pieces| ==> SLASH !in pieces[i]
    ensures Joined(pieces)[0] == SLASH && Split(Joined(pieces)[1..]) == pieces
    decreases |pieces|
  {
    var rest := pieces[1..];
    JoinedFront(pieces[0], rest);
    assert pieces == [pieces[0]] + rest;
    assert Joined(pieces)[1..] == pieces[0] + Joined(rest);
    if rest == [] {
      SplitPiece(pieces[0], []);
      assert pieces[0] + [] == pieces[0];
    } else {
      SplitJoined(rest);
      SplitPiece(pieces[0], Joined(rest));
      assert Split(Joined(rest)) == [[]] + rest;
      assert ([[]] + rest)[0] == [] && ([[]] + rest)[1..] == rest && pieces[0] + [] == pieces[0];
    }
  }

  lemma {:induction false} SplitPiece(piece: Bytes, rest: Bytes)
    requires SLASH !in piece
    ensures Split(piece + rest) == [piece + Split(rest)[0]] + Split(rest)[1..]
  {
    if piece == [] {
      assert piece + rest == rest && piece + Split(rest)[0] == Split(rest)[0];
    } else {
      SplitPiece(piece[1..], rest);
      assert (piece + rest)[1..] == piece[1..] + rest;
      assert [piece[0]] + (piece[1..] + Split(rest)[0]) == piece + Split(rest)[0];
    }
  }

  /** What the engine calls a file. */
  lemma NormalizedShape(path: Bytes)
    ensures Normalize(path) == ROOT || Rooted(Normalize(path))
  {
    var pieces := Split(Trimmed(path));
    var segments := Walked(pieces);
    NamesWalked(pieces);
    if segments != [] {
      TrimmedHasNoNul(path);
      SplitKeepsOut(Trimmed(path), NUL);
      forall i | 0 <= i < |segments| ensures SLASH !in segments[i] && NUL !in segments[i] {
        assert segments[i] in pieces;
      }
      SplitJoined(segments);
      JoinedKeepsOut(segments, NUL);
    }
  }

  lemma TrimmedHasNoNul(path: Bytes)
    ensures NUL !in Trimmed(path)
  {
    WithoutNulsKeeps(path);
    TrimStartKeepsOut(WithoutNuls(path), NUL);
  }

  lemma {:induction false} TrimStartKeepsOut(s: Bytes, b: byte)
    requires b !in s
    ensures b !in TrimStart(s)
    decreases |s|
  {
    if WhiteStart(s) > 0 { TrimStartKeepsOut(s[WhiteStart(s)..], b); }
  }

  lemma {:induction false} SplitKeepsOut(s: Bytes, b: byte)
    requires b !in s
    ensures forall i :: 0 <= i < |Split(s)| ==> b !in Split(s)[i]
  {
    if s != [] { SplitKeepsOut(s[1..], b); }
  }

  lemma {:induction false} JoinedKeepsOut(segments: seq<Bytes>, b: byte)
    requires b != SLASH && forall i :: 0 <= i < |segments| ==> b !in segments[i]
    ensures b !in Joined(segments)
  {
    if segments != [] { JoinedKeepsOut(segments[..|segments| - 1], b); }
  }

  lemma TrimmedStays(path: Bytes)
    requires path != [] && path[0] == SLASH && NUL !in path
    ensures Trimmed(path) == TrimEnd(path)
  {
    WithoutNulsKeeps(path);
    SlashIsNotWhite(path);
  }

  lemma NamesStay(path: Bytes)
    requires Rooted(path)
    ensures Joined(Walked(Split(path))) == path && Walked(Split(path)) != []
  {
    var pieces := Split(path[1..]);
    assert Split(path) == [[]] + pieces;
    WalkedFromRoot(pieces);
    NamesWalked(pieces);
    JoinedSplit(path[1..]);
    assert [SLASH] + path[1..] == path;
  }

  lemma RootStays()
    ensures Normalize(ROOT) == ROOT && WhiteEnd(ROOT) == 0
  {
    TrimmedStays(ROOT);
    assert Split([]) == [[]] && ROOT[1..] == [] && Split(ROOT) == [[]] + [[]];
    WalkedFromRoot([[]]);
    assert Walked([[]]) == Walk(Walked([]), []);
  }

  /** A path that ends in white space becomes shorter. */
  lemma WhiteEndIsLost(path: Bytes)
    requires path != [] && path[0] == SLASH && NUL !in path && WhiteEnd(path) > 0
    ensures |Normalize(path)| < |path|
  {
    TrimmedStays(path);
    SlashStays(path);
    assert |TrimEnd(path)| < |path|;
    NoLonger(TrimEnd(path));
  }

  lemma {:induction false} SlashStays(s: Bytes)
    requires s != [] && s[0] == SLASH
    ensures TrimEnd(s) != [] && TrimEnd(s)[0] == SLASH
    decreases |s|
  {
    var n := WhiteEnd(s);
    if n > 0 {
      WhiteHasNoSlash(s, n);
      SlashStays(s[..|s| - n]);
    }
  }

  lemma WhiteHasNoSlash(s: Bytes, n: nat)
    requires s != [] && s[0] == SLASH && 0 < n <= |s| && White(s[|s| - n..])
    ensures n < |s|
  {
    assert s[|s| - n..][0] == s[|s| - n];
  }

  /** Names from the root are kept exactly when the last does not end in white space. */
  lemma KeptExactly(path: Bytes)
    requires path == ROOT || Rooted(path)
    ensures Normalize(path) == path <==> WhiteEnd(path) == 0
  {
    if path == ROOT {
      RootStays();
    } else if WhiteEnd(path) == 0 {
      TrimmedStays(path);
      NamesStay(path);
    } else {
      WhiteEndIsLost(path);
    }
  }

  /** The engine keeps a path as it is exactly when it is canonical. */
  lemma CanonicalExactly(path: Bytes)
    ensures Normalize(path) == path <==> Canonical(path)
  {
    if path == ROOT {
      RootStays();
    } else if Rooted(path) {
      KeptExactly(path);
    } else {
      NormalizedShape(path);
      ShapesDiffer(path, Normalize(path));
    }
  }

  lemma ShapesDiffer(path: Bytes, shaped: Bytes)
    requires path != ROOT && !Rooted(path) && (shaped == ROOT || Rooted(shaped))
    ensures shaped != path && !Canonical(path)
  {}

  /** Normalizing twice is normalizing once exactly when the result does not end in white space. */
  lemma IdempotentExactly(path: Bytes)
    ensures Normalize(Normalize(path)) == Normalize(path) <==> WhiteEnd(Normalize(path)) == 0
  {
    NormalizedShape(path);
    KeptExactly(Normalize(path));
  }

  /** A space behind a path names the same file. */
  lemma SpaceIsTrimmed(path: Bytes)
    requires Rooted(path) && WhiteEnd(path) == 0
    ensures Normalize(path + [32]) == path
  {
    var longer := path + [32];
    TrimmedStays(longer);
    SpaceEnds(path);
    NamesStay(path);
  }

  lemma SpaceEnds(s: Bytes)
    requires WhiteEnd(s) == 0
    ensures TrimEnd(s + [32]) == s
  {
    var longer := s + [32];
    assert longer[|longer| - 1..] == [32] && WhiteEnd(longer) == 1;
    assert longer[..|longer| - 1] == s;
  }

  /** The last name of a path in front of a last slash. */
  lemma SlashIsDropped(path: Bytes)
    requires Rooted(path)
    ensures Normalize(path + [SLASH]) == path
  {
    SlashIsSplitOff(path);
    NamesStay(path);
  }

  lemma SlashIsSplitOff(path: Bytes)
    requires Rooted(path)
    ensures Walked(Split(Trimmed(path + [SLASH]))) == Walked(Split(path))
  {
    var longer := path + [SLASH];
    TrimmedStays(longer);
    SlashEndsNotWhite(longer);
    SplitEnd(path);
    WalkedToSlash(Split(path));
  }

  lemma WalkedToSlash(pieces: seq<Bytes>)
    ensures Walked(pieces + [[]]) == Walked(pieces)
  {
    assert (pieces + [[]])[..|pieces|] == pieces;
  }

  lemma SlashEndsNotWhite(s: Bytes)
    requires s != [] && s[|s| - 1] == SLASH
    ensures WhiteEnd(s) == 0
  {}

  lemma {:induction false} SplitEnd(s: Bytes)
    ensures Split(s + [SLASH]) == Split(s) + [[]]
  {
    if s == [] {
      assert s + [SLASH] == [SLASH] && [SLASH][1..] == [];
    } else {
      SplitEnd(s[1..]);
      assert (s + [SLASH])[1..] == s[1..] + [SLASH];
    }
  }

  /** White space in front of a last slash is trimmed only by a second call. */
  lemma NotIdempotent(path: Bytes)
    requires Rooted(path) && WhiteEnd(path) > 0
    ensures Normalize(path + [SLASH]) == path && Normalize(path) != path
  {
    SlashIsDropped(path);
    WhiteEndIsLost(path);
  }
}
