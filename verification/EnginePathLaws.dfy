/**
 What the engine's name of a path is: the place reached from the root by its pieces, two dots
 climbing; with the laws of `normalize_path` that follow.
 */
module EnginePathLaws {
  import opened Common
  import opened Bytes
  import opened EnginePath
  import R = RelativePath

  // ---------------------------------------------------------------------------
  // The place a path leads to
  // ---------------------------------------------------------------------------

  /** A name goes down, two dots go up, one dot and nothing go nowhere. */
  function Components(pieces: seq<Bytes>): seq<R.Component> {
    if pieces == [] then []
    else if pieces[0] == [] || pieces[0] == [DOT] then Components(pieces[1..])
    else if pieces[0] == [DOT, DOT] then [R.Up] + Components(pieces[1..])
    else [R.Name(pieces[0])] + Components(pieces[1..])
  }

  /** Names below the root, each behind a slash. */
  function Below(names: seq<R.Component>): Bytes {
    if names == [] then []
    else [SLASH] + (if names[0].Name? then names[0].name else []) + Below(names[1..])
  }

  /** A place as text. */
  function Written(place: seq<R.Component>): Bytes {
    if |place| <= 1 then ROOT else Below(place[1..])
  }

  function NamesOf(segments: seq<Bytes>): (names: seq<R.Component>)
    ensures |names| == |segments|
    ensures forall i :: 0 <= i < |segments| ==> names[i] == R.Name(segments[i])
  {
    if segments == [] then [] else [R.Name(segments[0])] + NamesOf(segments[1..])
  }

  lemma {:induction false} ComponentsMore(pieces: seq<Bytes>, piece: Bytes)
    ensures Components(pieces + [piece]) == Components(pieces) + Components([piece])
  {
    if pieces == [] {
      assert pieces + [piece] == [piece];
    } else {
      ComponentsMore(pieces[1..], piece);
      assert (pieces + [piece])[1..] == pieces[1..] + [piece];
    }
  }

  lemma {:induction false} BelowIsJoined(segments: seq<Bytes>)
    ensures Below(NamesOf(segments)) == Joined(segments)
  {
    if segments != [] {
      BelowIsJoined(segments[1..]);
      JoinedFront(segments[0], segments[1..]);
      assert [segments[0]] + segments[1..] == segments;
    }
  }

  lemma {:induction false} WalkedIsResolved(pieces: seq<Bytes>)
    ensures R.Resolve([R.Root], Components(pieces)) == [R.Root] + NamesOf(Walked(pieces))
  {
    if pieces != [] {
      var init, last := pieces[..|pieces| - 1], pieces[|pieces| - 1];
      WalkedIsResolved(init);
      assert init + [last] == pieces;
      ComponentsMore(init, last);
      R.ResolveConcat([R.Root], Components(init), Components([last]));
      OneStep(Walked(init), last);
    }
  }

  lemma OneStep(segments: seq<Bytes>, piece: Bytes)
    ensures R.Resolve([R.Root] + NamesOf(segments), Components([piece])) == [R.Root] + NamesOf(Walk(segments, piece))
  {
    var here := [R.Root] + NamesOf(segments);
    assert [piece][1..] == [];
    if piece == [] || piece == [DOT] {
      assert Components([piece]) == [];
    } else {
      var c := if piece == [DOT, DOT] then R.Up else R.Name(piece);
      assert Components([piece]) == [c] && [c][..0] == [];
      assert R.Resolve(here, [c]) == R.Step(here, c);
      assert R.Step(here, c) == [R.Root] + NamesOf(Walk(segments, piece));
    }
  }

  /** The name of a path is the place its pieces lead to from the root. */
  lemma NormalizeResolves(path: Bytes)
    ensures Normalize(path) == Written(R.Resolve([R.Root], Components(Split(Trimmed(path)))))
  {
    var segments := Walked(Split(Trimmed(path)));
    WalkedIsResolved(Split(Trimmed(path)));
    BelowIsJoined(segments);
    assert ([R.Root] + NamesOf(segments))[1..] == NamesOf(segments);
  }

  // ---------------------------------------------------------------------------
  // Dots
  // ---------------------------------------------------------------------------

  /** A path from the root with nothing to trim. */
  predicate Tight(path: Bytes) {
    path != [] && path[0] == SLASH && NUL !in path && WhiteEnd(path) == 0
  }

  lemma TightIsTrimmed(path: Bytes)
    requires Tight(path)
    ensures Trimmed(path) == path
  {
    TrimmedStays(path);
  }

  /** One path under another. */
  function Under(a: Bytes, b: Bytes): Bytes {
    a + ([SLASH] + b)
  }

  lemma {:induction false} SplitUnder(a: Bytes, b: Bytes)
    ensures Split(Under(a, b)) == Split(a) + Split(b)
  {
    if a == [] {
      assert Under(a, b) == [SLASH] + b && ([SLASH] + b)[1..] == b;
    } else {
      SplitUnder(a[1..], b);
      assert Under(a, b)[1..] == Under(a[1..], b) && Under(a, b)[0] == a[0];
      var rest, more := Split(a[1..]), Split(b);
      if a[0] == SLASH {
        Regroup([[]], rest, more);
      } else {
        assert (rest + more)[0] == rest[0] && (rest + more)[1..] == rest[1..] + more;
        Regroup([[a[0]] + rest[0]], rest[1..], more);
      }
    }
  }

  lemma SplitOne(piece: Bytes)
    requires SLASH !in piece
    ensures Split(piece) == [piece]
  {
    SplitPiece(piece, []);
    assert piece + [] == piece;
  }

  lemma {:induction false} SameFromThere(a: seq<Bytes>, b: seq<Bytes>, rest: seq<Bytes>)
    requires Walked(a) == Walked(b)
    ensures Walked(a + rest) == Walked(b + rest)
    decreases |rest|
  {
    if rest == [] {
      assert a + rest == a && b + rest == b;
    } else {
      var init := rest[..|rest| - 1];
      SameFromThere(a, b, init);
      assert (a + rest)[..|a + rest| - 1] == a + init && (b + rest)[..|b + rest| - 1] == b + init;
    }
  }

  lemma WalkedMore(a: seq<Bytes>, piece: Bytes)
    ensures Walked(a + [piece]) == Walk(Walked(a), piece)
  {
    assert (a + [piece])[..|a|] == a;
  }

  lemma SamePlace(p: Bytes, q: Bytes)
    requires Tight(p) && Tight(q) && Walked(Split(p)) == Walked(Split(q))
    ensures Normalize(p) == Normalize(q)
  {
    TightIsTrimmed(p);
    TightIsTrimmed(q);
  }

  lemma UndonePieces(a: seq<Bytes>, x: Bytes, up: Bytes, b: seq<Bytes>)
    requires Name(x) && up == [DOT, DOT]
    ensures Walked(a + ([x] + ([up] + b))) == Walked(a + b)
  {
    WalkedMore(a, x);
    WalkedMore(a + [x], up);
    SameFromThere(a + [x] + [up], a, b);
    assert a + ([x] + ([up] + b)) == a + [x] + [up] + b;
  }

  /** Down into a name and up again is where one was. */
  lemma ParentUndoes(a: Bytes, x: Bytes, b: Bytes)
    requires Name(x) && SLASH !in x
    requires Tight(Under(a, b)) && Tight(Under(a, Under(x, Under([DOT, DOT], b))))
    ensures Normalize(Under(a, Under(x, Under([DOT, DOT], b)))) == Normalize(Under(a, b))
  {
    var up := [DOT, DOT];
    SplitUnder(a, b);
    SplitUnder(a, Under(x, Under(up, b)));
    SplitUnder(x, Under(up, b));
    SplitUnder(up, b);
    SplitOne(x);
    SplitOne(up);
    UndonePieces(Split(a), x, up, Split(b));
    SamePlace(Under(a, Under(x, Under(up, b))), Under(a, b));
  }

  lemma StayingPiece(a: seq<Bytes>, stay: Bytes, b: seq<Bytes>)
    requires Walk(Walked(a), stay) == Walked(a)
    ensures Walked(a + ([stay] + b)) == Walked(a + b)
  {
    WalkedMore(a, stay);
    SameFromThere(a + [stay], a, b);
    Regroup(a, [stay], b);
  }

  /** One dot, or nothing, between slashes changes nothing. */
  lemma DotStays(a: Bytes, dot: Bytes, b: Bytes)
    requires dot == [] || dot == [DOT]
    requires Tight(Under(a, b)) && Tight(Under(a, Under(dot, b)))
    ensures Normalize(Under(a, Under(dot, b))) == Normalize(Under(a, b))
  {
    SplitUnder(a, b);
    SplitUnder(a, Under(dot, b));
    SplitUnder(dot, b);
    SplitOne(dot);
    StayingPiece(Split(a), dot, Split(b));
    SamePlace(Under(a, Under(dot, b)), Under(a, b));
  }

  /** At the root two dots stay. */
  lemma RootHasNoParent(b: Bytes)
    requires Tight(Under([], b)) && Tight(Under([], Under([DOT, DOT], b)))
    ensures Normalize(Under([], Under([DOT, DOT], b))) == Normalize(Under([], b))
  {
    var up := [DOT, DOT];
    SplitUnder([], b);
    SplitUnder([], Under(up, b));
    SplitUnder(up, b);
    SplitOne(up);
    var root: seq<Bytes> := [[]];
    assert root == Split([]) && root[..0] == [] && Walked(root) == [];
    StayingPiece(root, up, Split(b));
    SamePlace(Under([], Under(up, b)), Under([], b));
  }

  // ---------------------------------------------------------------------------
  // Zero bytes and white space
  // ---------------------------------------------------------------------------

  lemma {:induction false} WithoutNulsConcat(a: Bytes, b: Bytes)
    ensures WithoutNuls(a + b) == WithoutNuls(a) + WithoutNuls(b)
  {
    if a == [] {
      assert a + b == b;
    } else {
      WithoutNulsConcat(a[1..], b);
      assert (a + b)[1..] == a[1..] + b && (a + b)[0] == a[0];
      if a[0] != NUL { Regroup([a[0]], WithoutNuls(a[1..]), WithoutNuls(b)); }
    }
  }

  /** A zero byte anywhere changes nothing. */
  lemma NulIsIgnored(a: Bytes, b: Bytes)
    ensures Normalize(a + [NUL] + b) == Normalize(a + b)
  {
    WithoutNulsConcat(a + [NUL], b);
    WithoutNulsConcat(a, [NUL]);
    WithoutNulsConcat(a, b);
    assert [NUL][1..] == [] && WithoutNuls([NUL]) == [];
    assert WithoutNuls(a + [NUL] + b) == WithoutNuls(a + b);
  }

  lemma WhiteHasNoNul(c: Bytes)
    requires White(c)
    ensures NUL !in c && 0 < |c| <= 3
  {}

  lemma WhiteStarts(c: Bytes, s: Bytes)
    requires White(c)
    ensures WhiteStart(c + s) == |c|
  {
    assert (c + s)[..|c|] == c;
  }

  /** White space in front changes nothing. */
  lemma WhiteInFront(c: Bytes, path: Bytes)
    requires White(c)
    ensures Normalize(c + path) == Normalize(path)
  {
    WhiteHasNoNul(c);
    WithoutNulsConcat(c, path);
    WithoutNulsKeeps(c);
    WhiteStarts(c, WithoutNuls(path));
    assert (c + WithoutNuls(path))[|c|..] == WithoutNuls(path);
  }

  lemma WhiteEnds(s: Bytes, c: Bytes)
    requires White(c)
    ensures WhiteEnd(s + c) == |c|
  {
    assert (s + c)[|s + c| - |c|..] == c;
  }

  /** No white space character ends inside another. */
  lemma NoneWithin(s: Bytes, c: Bytes)
    requires White(c) && s != []
    ensures WhiteStart(s + c) == WhiteStart(s)
  {
    var t := s + c;
    assert t[0] == s[0];
    if |s| >= 2 { assert t[1] == s[1]; } else { assert t[1] == c[0]; }
    if |s| >= 3 {
      assert t[..1] == s[..1] && t[..2] == s[..2] && t[..3] == s[..3];
    } else if |s| == 2 {
      assert t[..1] == s[..1] && t[..2] == s[..2] && t[2] == c[0];
    } else {
      assert t[..1] == s[..1];
    }
  }

  lemma EndIsTrimmed(s: Bytes, c: Bytes)
    requires White(c)
    ensures TrimEnd(s + c) == TrimEnd(s)
  {
    WhiteEnds(s, c);
    assert (s + c)[..|s|] == s;
  }

  lemma StartIsTrimmed(s: Bytes, c: Bytes, n: nat)
    requires n == WhiteStart(s) == WhiteStart(s + c)
    ensures if n > 0 then TrimStart(s + c) == TrimStart(s[n..] + c) && TrimStart(s) == TrimStart(s[n..])
            else TrimStart(s + c) == s + c && TrimStart(s) == s
  {
    assert (s + c)[n..] == s[n..] + c;
  }

  lemma OnlyWhite(c: Bytes)
    requires White(c)
    ensures TrimStart(c) == []
  {
    assert c + [] == c;
    WhiteStarts(c, []);
    assert c[|c|..] == [];
  }

  lemma {:induction false} TrimmedBehind(s: Bytes, c: Bytes)
    requires White(c)
    ensures TrimEnd(TrimStart(s + c)) == TrimEnd(TrimStart(s))
    decreases |s|
  {
    if s == [] {
      assert s + c == c;
      OnlyWhite(c);
    } else {
      var n := WhiteStart(s);
      NoneWithin(s, c);
      StartIsTrimmed(s, c, n);
      if n > 0 { TrimmedBehind(s[n..], c); } else { EndIsTrimmed(s, c); }
    }
  }

  /** White space behind changes nothing. */
  lemma WhiteBehind(path: Bytes, c: Bytes)
    requires White(c)
    ensures Normalize(path + c) == Normalize(path)
  {
    WhiteHasNoNul(c);
    WithoutNulsConcat(path, c);
    WithoutNulsKeeps(c);
    TrimmedBehind(WithoutNuls(path), c);
  }
}
