/**
 The checkpoint logs of the soak workers, byte by byte: how lines are printed, how the three readers
 replay them, and what a reader makes of a log whose last line was cut short.
 */
module Checkpoint {
  import opened Common
  import opened Bytes
  import opened Decimal
  import Words

  const TAB: byte := 9
  const NEWLINE: byte := 10
  const RETURN: byte := 13
  const HASH: byte := 35
  const PLUS: byte := 43
  const MINUS: byte := 45

  // ---------------------------------------------------------------------------
  // Lines
  // ---------------------------------------------------------------------------

  function IndexOf(s: Bytes, b: byte): (i: nat)
    ensures i <= |s| && b !in s[..i] && (i < |s| ==> s[i] == b)
  {
    if s == [] || s[0] == b then 0 else
    assert forall i :: 0 <= i <= |s[1..]| ==> s[..i + 1] == [s[0]] + s[1..][..i];
    1 + IndexOf(s[1..], b)
  }

  lemma IndexOfIs(s: Bytes, b: byte, i: nat)
    requires i <= |s| && b !in s[..i] && (i < |s| ==> s[i] == b)
    ensures IndexOf(s, b) == i
  {}

  function StripReturn(line: Bytes): Bytes {
    if line != [] && line[|line| - 1] == RETURN then line[..|line| - 1] else line
  }

  /** The lines a buffered reader yields before the first that is not UTF-8. */
  function Lines(log: Bytes): seq<Bytes>
    decreases |log|
  {
    if log == [] then [] else
    var k := IndexOf(log, NEWLINE);
    if !ValidUtf8(log[..k]) then []
    else if k == |log| then [log]
    else [StripReturn(log[..k])] + Lines(log[k + 1..])
  }

  /** The line split around its first tab. */
  function SplitTab(line: Bytes): Option<(Bytes, Bytes)> {
    var i := IndexOf(line, TAB);
    if i == |line| then None else Some((line[..i], line[i + 1..]))
  }

  lemma SplitTabIs(path: Bytes, body: Bytes)
    requires TAB !in path
    ensures SplitTab(path + [TAB] + body) == Some((path, body))
  {
    var line := path + [TAB] + body;
    assert line[..|path|] == path && line[|path| + 1..] == body;
    IndexOfIs(line, TAB, |path|);
  }

  lemma SplitTabNone(line: Bytes)
    ensures SplitTab(line).None? <==> TAB !in line
  {}

  // ---------------------------------------------------------------------------
  // The three readers
  // ---------------------------------------------------------------------------

  predicate IsAdd(line: Bytes) {
    [PLUS, TAB] <= line
  }

  predicate IsDelete(line: Bytes) {
    [MINUS, TAB] <= line
  }

  function LoadLine(committed: set<Bytes>, line: Bytes): set<Bytes> {
    if IsAdd(line) then committed + {line[2..]}
    else if IsDelete(line) then committed - {line[2..]}
    else committed
  }

  /** The path an added or committed line names, as `diff_checkpoint` takes it. */
  function DiffPath(line: Bytes): Option<Bytes> {
    if IsAdd(line) then Some(match SplitTab(line[2..]) case Some((path, _)) => path case None => line[2..])
    else if IsDelete(line) then None
    else match SplitTab(line) case Some((path, _)) => Some(path) case None => None
  }

  function DiffLine(committed: set<Bytes>, line: Bytes): set<Bytes> {
    match DiffPath(line)
    case Some(path) => committed + {path}
    case None => if IsDelete(line) then committed - {line[2..]} else committed
  }

  function Recorded(entries: map<Bytes, Bytes>, split: Option<(Bytes, Bytes)>): map<Bytes, Bytes> {
    match split
    case Some((path, body)) => entries[path := body]
    case None => entries
  }

  function ReadLine(entries: map<Bytes, Bytes>, line: Bytes): map<Bytes, Bytes> {
    if line == [] || line[0] == HASH then entries
    else if IsDelete(line) then entries - {line[2..]}
    else if IsAdd(line) then Recorded(entries, SplitTab(line[2..]))
    else Recorded(entries, SplitTab(line))
  }

  function Loaded(lines: seq<Bytes>): set<Bytes> {
    if lines == [] then {} else LoadLine(Loaded(lines[..|lines| - 1]), lines[|lines| - 1])
  }

  function Diffed(lines: seq<Bytes>): set<Bytes> {
    if lines == [] then {} else DiffLine(Diffed(lines[..|lines| - 1]), lines[|lines| - 1])
  }

  function Replayed(lines: seq<Bytes>): map<Bytes, Bytes> {
    if lines == [] then map[] else ReadLine(Replayed(lines[..|lines| - 1]), lines[|lines| - 1])
  }

  /** How many lines name a path to add. */
  function AddLines(lines: seq<Bytes>): nat {
    if lines == [] then 0 else AddLines(lines[..|lines| - 1]) + if DiffPath(lines[|lines| - 1]).Some? then 1 else 0
  }

  function DeleteLines(lines: seq<Bytes>): nat {
    if lines == [] then 0 else DeleteLines(lines[..|lines| - 1]) + if IsDelete(lines[|lines| - 1]) then 1 else 0
  }

  /** `load_checkpoint`; a log that cannot be opened counts as empty. */
  method LoadCheckpoint(log: Option<Bytes>) returns (committed: set<Bytes>)
    ensures committed == if log.Some? then Loaded(Lines(log.value)) else {}
  {
    committed := {};
    if log.None? { return; }
    var lines := Lines(log.value);
    for i := 0 to |lines|
      invariant committed == Loaded(lines[..i])
    {
      var line := lines[i];
      assert lines[..i + 1][..i] == lines[..i];
      if IsAdd(line) {
        committed := committed + {line[2..]};
      } else if IsDelete(line) {
        committed := committed - {line[2..]};
      }
    }
    assert lines[..|lines|] == lines;
  }

  /** `read_checkpoint` */
  method ReadCheckpoint(log: Bytes) returns (entries: map<Bytes, Bytes>)
    ensures entries == Replayed(Lines(log))
  {
    entries := map[];
    var lines := Lines(log);
    for i := 0 to |lines|
      invariant entries == Replayed(lines[..i])
    {
      var line := lines[i];
      assert lines[..i + 1][..i] == lines[..i];
      if line == [] || line[0] == HASH { continue; }
      if IsDelete(line) {
        entries := entries - {line[2..]};
      } else if IsAdd(line) {
        entries := Recorded(entries, SplitTab(line[2..]));
      } else {
        entries := Recorded(entries, SplitTab(line));
      }
    }
    assert lines[..|lines|] == lines;
  }

  /** The start of every path of the engine's own. */
  const SYSTEM: Bytes := [47, 46, 97, 101, 111, 114, 100, 98, 45, 115, 121, 115, 116, 101, 109]

  /**
   `diff_checkpoint`: the paths the log says are there, those of them the database lacks, and the
   paths of the database, other than the engine's own, the log does not know.
   */
  method DiffCheckpoint(log: Bytes, database: set<Bytes>)
    returns (committed: set<Bytes>, lines: nat, adds: nat, dels: nat, present: nat, missing: seq<Bytes>,
             extras: seq<Bytes>)
    ensures committed == Diffed(Lines(log))
    ensures lines == |Lines(log)| && adds == AddLines(Lines(log)) && dels == DeleteLines(Lines(log))
    ensures adds + dels <= lines && |committed| <= adds
    ensures Enumerates(missing, committed - database) && present == |committed * database|
    ensures Enumerates(extras, Unknown(database, committed))
  {
    committed, lines, adds, dels := {}, 0, 0, 0;
    var all := Lines(log);
    for i := 0 to |all|
      invariant committed == Diffed(all[..i]) && lines == i
      invariant adds == AddLines(all[..i]) && dels == DeleteLines(all[..i])
      invariant adds + dels <= i && |committed| <= adds
    {
      assert all[..i + 1][..i] == all[..i];
      committed, adds, dels := DiffOneLine(all[i], committed, adds, dels);
      lines := lines + 1;
    }
    assert all[..|all|] == all;
    present, missing := Classify(committed, database);
    extras := Extras(committed, database);
  }

  lemma AddOrDelete(line: Bytes)
    ensures !(IsAdd(line) && IsDelete(line))
  {
    assert [PLUS, TAB][0] != [MINUS, TAB][0];
  }

  method DiffOneLine(line: Bytes, committed: set<Bytes>, adds: nat, dels: nat)
    returns (committed': set<Bytes>, adds': nat, dels': nat)
    requires |committed| <= adds
    ensures committed' == DiffLine(committed, line)
    ensures adds' == adds + (if DiffPath(line).Some? then 1 else 0) && dels' == dels + (if IsDelete(line) then 1 else 0)
    ensures adds' + dels' <= adds + dels + 1 && |committed'| <= adds'
  {
    committed', adds', dels' := committed, adds, dels;
    AddOrDelete(line);
    if IsAdd(line) {
      var split := SplitTab(line[2..]);
      var path := match split case Some((path, _)) => path case None => line[2..];
      committed', adds' := committed + {path}, adds + 1;
    } else if IsDelete(line) {
      committed', dels' := committed - {line[2..]}, dels + 1;
      Words.SubsetSize(committed', committed);
    } else {
      match SplitTab(line) {
        case Some((path, _)) => committed', adds' := committed + {path}, adds + 1;
        case None =>
      }
    }
  }

  /** Each element once, in some order. */
  ghost predicate Enumerates(list: seq<Bytes>, s: set<Bytes>) {
    |list| == |s| && forall x :: x in list <==> x in s
  }

  lemma OneMore(list: seq<Bytes>, s: set<Bytes>, x: Bytes)
    requires Enumerates(list, s) && x !in s
    ensures Enumerates(list + [x], s + {x})
  {}

  lemma SeenInside(seen: set<Bytes>, database: set<Bytes>, path: Bytes)
    requires path !in seen && path in database
    ensures (seen + {path}) - database == seen - database && |(seen + {path}) * database| == |seen * database| + 1
  {
    assert (seen + {path}) * database == seen * database + {path};
  }

  lemma SeenOutside(seen: set<Bytes>, database: set<Bytes>, path: Bytes)
    requires path !in seen && path !in database
    ensures (seen + {path}) - database == seen - database + {path} && (seen + {path}) * database == seen * database
  {}

  method Classify(committed: set<Bytes>, database: set<Bytes>) returns (present: nat, missing: seq<Bytes>)
    ensures Enumerates(missing, committed - database) && present == |committed * database|
  {
    present, missing := 0, [];
    var rest := committed;
    ghost var seen := {};
    while rest != {}
      invariant rest !! seen && rest + seen == committed
      invariant Enumerates(missing, seen - database) && present == |seen * database|
    {
      var path :| path in rest;
      if path in database {
        SeenInside(seen, database, path);
        present := present + 1;
      } else {
        SeenOutside(seen, database, path);
        OneMore(missing, seen - database, path);
        missing := missing + [path];
      }
      rest, seen := rest - {path}, seen + {path};
    }
    assert seen == committed;
  }

  function Unknown(database: set<Bytes>, committed: set<Bytes>): set<Bytes> {
    set p | p in database && p !in committed && !(SYSTEM <= p)
  }

  lemma SystemIs()
    ensures SYSTEM == Ascii("/.aeordb-system")
  {}

  /** A path of the database the log does not know is one of the extras unless it starts like the engine's own. */
  lemma UnknownExactly(database: set<Bytes>, committed: set<Bytes>, p: Bytes)
    requires p in database && p !in committed
    ensures p in Unknown(database, committed) <==> !(Ascii("/.aeordb-system") <= p)
    ensures Ascii("/soak") <= p ==> p in Unknown(database, committed)
  {
    SystemIs();
    if Ascii("/soak") <= p { assert p[1] == Ascii("/soak")[1] && SYSTEM[1] != p[1]; }
  }

  method Extras(committed: set<Bytes>, database: set<Bytes>) returns (extras: seq<Bytes>)
    ensures Enumerates(extras, Unknown(database, committed))
  {
    extras := [];
    var rest := database;
    ghost var seen := {};
    while rest != {}
      invariant rest !! seen && rest + seen == database
      invariant Enumerates(extras, Unknown(seen, committed))
    {
      var path :| path in rest;
      if path !in committed && !(SYSTEM <= path) {
        assert Unknown(seen + {path}, committed) == Unknown(seen, committed) + {path};
        OneMore(extras, Unknown(seen, committed), path);
        extras := extras + [path];
      } else {
        assert Unknown(seen + {path}, committed) == Unknown(seen, committed);
      }
      rest, seen := rest - {path}, seen + {path};
    }
    assert seen == database;
  }

  // ---------------------------------------------------------------------------
  // The readers agree
  // ---------------------------------------------------------------------------

  /** A line of a soak-worker log whose paths hold no tab. */
  predicate SoakLine(line: Bytes) {
    if IsAdd(line) then TAB !in line[2..] else IsDelete(line) || TAB !in line
  }

  /** A line of a crash-worker log whose comments hold no tab. */
  predicate CrashLine(line: Bytes) {
    if IsAdd(line) then TAB in line[2..] else line != [] && line[0] == HASH ==> TAB !in line
  }

  /** Line by line, the two soak readers do the same exactly when an added path holds no tab. */
  lemma SameAsLoadExactly(line: Bytes)
    ensures (forall committed :: DiffLine(committed, line) == LoadLine(committed, line)) <==> SoakLine(line)
  {
    SplitTabNone(line);
    AddOrDelete(line);
    if IsAdd(line) {
      SplitTabNone(line[2..]);
      if !SoakLine(line) {
        var path := SplitTab(line[2..]).value.0;
        assert |path| < |line[2..]| && path in DiffLine({}, line) && path !in LoadLine({}, line);
      }
    } else if !SoakLine(line) {
      assert SplitTab(line).value.0 in DiffLine({}, line) && LoadLine({}, line) == {};
    }
  }

  /** Line by line, `diff_checkpoint` and `read_checkpoint` know the same paths exactly on these lines. */
  lemma SameAsReadExactly(line: Bytes)
    ensures (forall entries: map<Bytes, Bytes> :: DiffLine(entries.Keys, line) == ReadLine(entries, line).Keys) <==>
              CrashLine(line)
  {
    SplitTabNone(line);
    AddOrDelete(line);
    if IsAdd(line) { SplitTabNone(line[2..]); }
    if CrashLine(line) {
      forall entries: map<Bytes, Bytes> ensures DiffLine(entries.Keys, line) == ReadLine(entries, line).Keys {}
    } else {
      var none: map<Bytes, Bytes> := map[];
      assert DiffLine(none.Keys, line) != {} && ReadLine(none, line).Keys == {};
    }
  }

  lemma {:induction false} DiffIsLoad(lines: seq<Bytes>)
    requires forall line :: line in lines ==> SoakLine(line)
    ensures Diffed(lines) == Loaded(lines)
  {
    if lines != [] {
      var init, last := lines[..|lines| - 1], lines[|lines| - 1];
      DiffIsLoad(init);
      assert last in lines;
      SameAsLoadExactly(last);
    }
  }

  lemma {:induction false} DiffIsReadKeys(lines: seq<Bytes>)
    requires forall line :: line in lines ==> CrashLine(line)
    ensures Diffed(lines) == Replayed(lines).Keys
  {
    if lines != [] {
      var init, last := lines[..|lines| - 1], lines[|lines| - 1];
      DiffIsReadKeys(init);
      assert last in lines;
      SameAsReadExactly(last);
    }
  }

  // ---------------------------------------------------------------------------
  // Printing
  // ---------------------------------------------------------------------------

  /**
   What the workers append: the crash worker commits, deletes and comments; the soak worker adds and
   deletes. A stray line is what is left when a line cut short runs into the next worker's comment.
   */
  datatype Record =
    | Committed(path: Bytes, body: Bytes)
    | Deleted(path: Bytes)
    | Added(path: Bytes)
    | Comment(text: Bytes)
    | Stray(text: Bytes)

  function Content(r: Record): Bytes {
    match r
    case Committed(path, body) => path + [TAB] + body
    case Deleted(path) => [MINUS, TAB] + path
    case Added(path) => [PLUS, TAB] + path
    case Comment(text) => [HASH] + text
    case Stray(text) => text
  }

  function Print(rs: seq<Record>): Bytes {
    if rs == [] then [] else Content(rs[0]) + [NEWLINE] + Print(rs[1..])
  }

  function Contents(rs: seq<Record>): seq<Bytes> {
    seq(|rs|, i requires 0 <= i < |rs| => Content(rs[i]))
  }

  /** Text that a reader of lines gives back as it is. */
  predicate LineText(text: Bytes) {
    NEWLINE !in text && ValidUtf8(text) && (text != [] ==> text[|text| - 1] != RETURN)
  }

  lemma LineTextThen(a: Bytes, b: Bytes)
    requires NEWLINE !in a && ValidUtf8(a) && b != [] && LineText(b)
    ensures LineText(a + b)
  {
    Utf8Concat(a, b);
    OneLineThen(a, b);
  }

  lemma OneLineThen(a: Bytes, b: Bytes)
    requires NEWLINE !in a && NEWLINE !in b && b != [] && b[|b| - 1] != RETURN
    ensures NEWLINE !in a + b && (a + b)[|a + b| - 1] != RETURN
  {
    assert (a + b)[|a + b| - 1] == b[|b| - 1];
  }

  /** A record that takes one line and keeps its last byte. */
  predicate OneLine(r: Record) {
    LineText(Content(r))
  }

  ghost predicate OneLineEach(rs: seq<Record>) {
    forall i :: 0 <= i < |rs| ==> OneLine(rs[i])
  }

  lemma LinesStep(line: Bytes, rest: Bytes)
    requires LineText(line)
    ensures Lines(line + [NEWLINE] + rest) == [line] + Lines(rest)
  {
    var log := line + [NEWLINE] + rest;
    assert log[..|line|] == line && log[|line| + 1..] == rest;
    IndexOfIs(log, NEWLINE, |line|);
  }

  lemma PrintCons(rs: seq<Record>, tail: Bytes)
    requires rs != []
    ensures Print(rs) + tail == Content(rs[0]) + [NEWLINE] + (Print(rs[1..]) + tail)
  {}

  lemma {:induction false} PrintMore(rs: seq<Record>, r: Record)
    ensures Print(rs + [r]) == Print(rs) + (Content(r) + [NEWLINE])
  {
    if rs == [] {
      assert rs + [r] == [r] && [r][1..] == [];
      PrintCons([r], []);
      assert Print([r]) + [] == Print([r]);
    } else {
      PrintMore(rs[1..], r);
      assert (rs + [r])[1..] == rs[1..] + [r];
      Regroup(Content(rs[0]) + [NEWLINE], Print(rs[1..]), Content(r) + [NEWLINE]);
    }
  }

  lemma ContentsCons(rs: seq<Record>)
    requires rs != []
    ensures Contents(rs) == [Content(rs[0])] + Contents(rs[1..])
  {}

  lemma {:induction false} LinesOfPrint(rs: seq<Record>, tail: Bytes)
    requires OneLineEach(rs)
    ensures Lines(Print(rs) + tail) == Contents(rs) + Lines(tail)
  {
    if rs == [] {
      assert Print(rs) + tail == tail;
    } else {
      PrintCons(rs, tail);
      assert OneLine(rs[0]);
      LinesStep(Content(rs[0]), Print(rs[1..]) + tail);
      OneLineTail(rs);
      LinesOfPrint(rs[1..], tail);
      ContentsCons(rs);
      Regroup([Content(rs[0])], Contents(rs[1..]), Lines(tail));
    }
  }

  lemma OneLineTail(rs: seq<Record>)
    requires OneLineEach(rs) && rs != []
    ensures OneLineEach(rs[1..])
  {}

  // ---------------------------------------------------------------------------
  // The map the crash worker's records describe
  // ---------------------------------------------------------------------------

  /** Paths start with a slash; paths and comments hold no tab. */
  predicate CrashShape(r: Record) {
    match r
    case Committed(path, _) => path != [] && path[0] == SLASH && TAB !in path
    case Deleted(_) => true
    case Added(_) => false
    case Comment(text) => TAB !in text
    case Stray(text) => TAB !in text
  }

  predicate CrashRecord(r: Record) {
    OneLine(r) && CrashShape(r)
  }

  ghost predicate CrashRecords(rs: seq<Record>) {
    forall i :: 0 <= i < |rs| ==> CrashRecord(rs[i])
  }

  function Performed(m: map<Bytes, Bytes>, r: Record): map<Bytes, Bytes> {
    match r
    case Committed(path, body) => m[path := body]
    case Deleted(path) => m - {path}
    case _ => m
  }

  function Final(rs: seq<Record>): map<Bytes, Bytes> {
    if rs == [] then map[] else Performed(Final(rs[..|rs| - 1]), rs[|rs| - 1])
  }

  predicate Concerns(r: Record, path: Bytes) {
    (r.Committed? || r.Deleted?) && r.path == path
  }

  /** The `i`-th record commits the body and no later one concerns the path. */
  ghost predicate LastWrite(rs: seq<Record>, i: nat, path: Bytes, body: Bytes) {
    i < |rs| && rs[i] == Committed(path, body) && forall j :: i < j < |rs| ==> !Concerns(rs[j], path)
  }

  /** The map is last write wins. */
  lemma {:induction false} FinalIsLastWriteWins(rs: seq<Record>, path: Bytes, body: Bytes)
    ensures (path in Final(rs) && Final(rs)[path] == body) <==> exists i :: LastWrite(rs, i, path, body)
  {
    if rs != [] {
      var n := |rs| - 1;
      var init, last := rs[..n], rs[n];
      FinalIsLastWriteWins(init, path, body);
      if Concerns(last, path) {
        if last == Committed(path, body) { assert LastWrite(rs, n, path, body); }
        forall i | LastWrite(rs, i, path, body) ensures i == n {}
      } else {
        forall i | LastWrite(rs, i, path, body) ensures LastWrite(init, i, path, body) {}
        forall i | LastWrite(init, i, path, body) ensures LastWrite(rs, i, path, body) {}
      }
    }
  }

  lemma ReadCrashLine(m: map<Bytes, Bytes>, r: Record)
    requires CrashShape(r)
    ensures ReadLine(m, Content(r)) == Performed(m, r)
  {
    var line := Content(r);
    match r
    case Committed(path, body) => SplitTabIs(path, body);
    case Deleted(path) => assert line[2..] == path;
    case Comment(text) =>
    case Stray(text) =>
      NoTabNoMark(text);
      SplitTabNone(text);
  }

  /** Adds and deletes start with a mark and a tab. */
  lemma NoTabNoMark(line: Bytes)
    requires TAB !in line
    ensures !IsAdd(line) && !IsDelete(line)
  {
    assert [PLUS, TAB][1] == TAB && [MINUS, TAB][1] == TAB;
  }

  lemma {:induction false} ReplayOfContents(rs: seq<Record>)
    requires CrashRecords(rs)
    ensures Replayed(Contents(rs)) == Final(rs)
  {
    if rs != [] {
      var n := |rs| - 1;
      ReplayOfContents(rs[..n]);
      assert Contents(rs)[..n] == Contents(rs[..n]);
      ReadCrashLine(Final(rs[..n]), rs[n]);
    }
  }

  /** On a whole log the reader reconstructs exactly the logged map. */
  lemma ReadWholeLog(rs: seq<Record>)
    requires CrashRecords(rs)
    ensures Replayed(Lines(Print(rs))) == Final(rs)
  {
    LinesOfPrint(rs, []);
    assert Print(rs) + [] == Print(rs) && Contents(rs) + [] == Contents(rs);
    ReplayOfContents(rs);
  }

  // ---------------------------------------------------------------------------
  // Torn logs
  // ---------------------------------------------------------------------------

  /** The first `k` bytes: `n` whole lines and then `tail`, the start of the next. */
  ghost predicate TornAt(rs: seq<Record>, k: nat, n: nat, tail: Bytes) {
    && k <= |Print(rs)| && n <= |rs| && Print(rs)[..k] == Print(rs[..n]) + tail
    && if n == |rs| then tail == [] else tail <= Content(rs[n])
  }

  lemma {:induction false} EveryPrefixIsTorn(rs: seq<Record>, k: nat) returns (n: nat, tail: Bytes)
    requires k <= |Print(rs)|
    ensures TornAt(rs, k, n, tail)
  {
    if rs == [] {
      n, tail := 0, [];
    } else {
      var line := Content(rs[0]);
      if k <= |line| {
        n, tail := 0, line[..k];
        assert Print(rs)[..k] == line[..k] == [] + line[..k];
      } else {
        var m;
        m, tail := EveryPrefixIsTorn(rs[1..], k - |line| - 1);
        n := m + 1;
        TornLater(rs, k, m, tail);
      }
    }
  }

  lemma TornLater(rs: seq<Record>, k: nat, m: nat, tail: Bytes)
    requires rs != [] && k <= |Print(rs)| && k > |Content(rs[0])| && TornAt(rs[1..], k - |Content(rs[0])| - 1, m, tail)
    ensures TornAt(rs, k, m + 1, tail)
  {
    var line, part := Content(rs[0]) + [NEWLINE], rs[..m + 1];
    assert part[1..] == rs[1..][..m];
    PrintCons(part, tail);
    assert Print(part) == line + Print(rs[1..][..m]);
    PrefixOfConcat(line, Print(rs[1..]), k);
    Regroup(line, Print(rs[1..][..m]), tail);
  }

  lemma PrefixOfConcat(a: Bytes, b: Bytes, k: nat)
    requires |a| <= k <= |a + b|
    ensures (a + b)[..k] == a + b[..k - |a|]
  {}

  /** What the reader makes of the start of a line. */
  function TornRead(m: map<Bytes, Bytes>, r: Record, tail: Bytes): map<Bytes, Bytes> {
    if ValidUtf8(tail) then TornEffect(m, r, tail) else m
  }

  function TornEffect(m: map<Bytes, Bytes>, r: Record, tail: Bytes): map<Bytes, Bytes> {
    match r
    case Committed(path, body) => if |tail| <= |path| then m else m[path := tail[|path| + 1..]]
    case Deleted(_) => if |tail| < 2 then m else m - {tail[2..]}
    case _ => m
  }

  lemma ReadTornCommit(m: map<Bytes, Bytes>, path: Bytes, body: Bytes, tail: Bytes)
    requires path != [] && path[0] == SLASH && TAB !in path && tail <= path + [TAB] + body && tail != []
    ensures ReadLine(m, tail) == if |tail| <= |path| then m else m[path := tail[|path| + 1..]]
  {
    if |tail| <= |path| {
      assert tail == path[..|tail|];
      SplitTabNone(tail);
    } else {
      var part := tail[|path| + 1..];
      assert tail == path + [TAB] + part;
      SplitTabIs(path, part);
    }
  }

  lemma ReadTornDelete(m: map<Bytes, Bytes>, path: Bytes, tail: Bytes)
    requires tail <= [MINUS, TAB] + path && tail != []
    ensures ReadLine(m, tail) == if |tail| < 2 then m else m - {tail[2..]}
  {}

  lemma ReadTornLine(m: map<Bytes, Bytes>, r: Record, tail: Bytes)
    requires CrashShape(r) && tail <= Content(r) && tail != []
    ensures ReadLine(m, tail) == TornEffect(m, r, tail)
  {
    match r
    case Committed(path, body) => ReadTornCommit(m, path, body, tail);
    case Deleted(path) => ReadTornDelete(m, path, tail);
    case Comment(text) => assert tail[0] == Content(r)[0];
    case Stray(text) =>
      NoTabNoMark(tail);
      SplitTabNone(tail);
  }

  lemma LinesOfTail(tail: Bytes)
    requires NEWLINE !in tail
    ensures Lines(tail) == if tail == [] || !ValidUtf8(tail) then [] else [tail]
  {
    if tail != [] {
      assert tail[..|tail|] == tail;
      IndexOfIs(tail, NEWLINE, |tail|);
    }
  }

  /** The lines of a torn log: the whole ones, and the start of the next if it is UTF-8. */
  lemma LinesOfTornLog(rs: seq<Record>, k: nat, n: nat, tail: Bytes)
    requires OneLineEach(rs) && TornAt(rs, k, n, tail)
    ensures Lines(Print(rs)[..k]) == Contents(rs[..n]) + if tail == [] || !ValidUtf8(tail) then [] else [tail]
  {
    assert OneLineEach(rs[..n]);
    LinesOfPrint(rs[..n], tail);
    if n < |rs| { assert OneLine(rs[n]); }
    LinesOfTail(tail);
  }

  lemma CrashRecordsArePrintable(rs: seq<Record>, n: nat)
    requires CrashRecords(rs) && n <= |rs|
    ensures OneLineEach(rs) && CrashRecords(rs[..n])
  {}

  /** Every byte prefix of a log reads as its whole lines and then the torn line. */
  lemma ReadTornLog(rs: seq<Record>, k: nat, n: nat, tail: Bytes)
    requires CrashRecords(rs) && TornAt(rs, k, n, tail)
    ensures Replayed(Lines(Print(rs)[..k])) == if n == |rs| then Final(rs) else TornRead(Final(rs[..n]), rs[n], tail)
  {
    CrashRecordsArePrintable(rs, n);
    LinesOfTornLog(rs, k, n, tail);
    ReplayOfContents(rs[..n]);
    assert rs[..|rs|] == rs;
    var contents := Contents(rs[..n]);
    if tail == [] || !ValidUtf8(tail) {
      assert contents + [] == contents;
    } else {
      assert (contents + [tail])[..|contents|] == contents;
      assert CrashRecord(rs[n]);
      ReadTornLine(Final(rs[..n]), rs[n], tail);
    }
  }

  ghost predicate DifferOnlyAt(a: map<Bytes, Bytes>, b: map<Bytes, Bytes>, path: Bytes) {
    a - {path} == b - {path}
  }

  /**
   A cut anywhere moves the reader away from the whole lines before the cut at one path at most:
   the torn commit's own path, or a prefix of the torn delete's. A cut just before the newline
   loses nothing.
   */
  lemma TornLogDiffersAtOnePath(rs: seq<Record>, k: nat) returns (n: nat, tail: Bytes, path: Bytes)
    requires CrashRecords(rs) && k <= |Print(rs)|
    ensures TornAt(rs, k, n, tail) && DifferOnlyAt(Replayed(Lines(Print(rs)[..k])), Final(rs[..n]), path)
    ensures n < |rs| && rs[n].Committed? ==> path == rs[n].path
    ensures n < |rs| && rs[n].Deleted? ==> path <= rs[n].path
    ensures n < |rs| && tail == Content(rs[n]) ==> Replayed(Lines(Print(rs)[..k])) == Final(rs[..n + 1])
  {
    n, tail := EveryPrefixIsTorn(rs, k);
    ReadTornLog(rs, k, n, tail);
    path := TornDiffers(rs, n, tail, Replayed(Lines(Print(rs)[..k])));
  }

  lemma TornDiffers(rs: seq<Record>, n: nat, tail: Bytes, read: map<Bytes, Bytes>) returns (path: Bytes)
    requires CrashRecords(rs) && n <= |rs| && (n < |rs| ==> tail <= Content(rs[n]))
    requires read == if n == |rs| then Final(rs) else TornRead(Final(rs[..n]), rs[n], tail)
    ensures DifferOnlyAt(read, Final(rs[..n]), path)
    ensures n < |rs| && rs[n].Committed? ==> path == rs[n].path
    ensures n < |rs| && rs[n].Deleted? ==> path <= rs[n].path
    ensures n < |rs| && tail == Content(rs[n]) ==> read == Final(rs[..n + 1])
  {
    assert rs[..|rs|] == rs;
    if n == |rs| {
      path := [];
    } else {
      assert CrashRecord(rs[n]);
      path := TornPath(Final(rs[..n]), rs[n], tail);
      assert rs[..n + 1][..n] == rs[..n];
    }
  }

  /** A torn line changes one path at most, and a line torn before its newline is read whole. */
  lemma TornPath(m: map<Bytes, Bytes>, r: Record, tail: Bytes) returns (path: Bytes)
    requires tail <= Content(r)
    ensures DifferOnlyAt(TornRead(m, r, tail), m, path)
    ensures r.Committed? ==> path == r.path
    ensures r.Deleted? ==> path <= r.path
    ensures OneLine(r) && tail == Content(r) ==> TornRead(m, r, tail) == Performed(m, r)
  {
    path := TornEffectPath(m, r, tail);
  }

  lemma TornEffectPath(m: map<Bytes, Bytes>, r: Record, tail: Bytes) returns (path: Bytes)
    requires tail <= Content(r)
    ensures DifferOnlyAt(TornEffect(m, r, tail), m, path)
    ensures r.Committed? ==> path == r.path
    ensures r.Deleted? ==> path <= r.path
    ensures tail == Content(r) ==> TornEffect(m, r, tail) == Performed(m, r)
  {
    path := if r.Committed? then r.path else if r.Deleted? && |tail| >= 2 then tail[2..] else [];
    match r
    case Committed(p, body) => assert Content(r)[|p| + 1..] == body;
    case Deleted(p) => assert Content(r)[2..] == p;
    case _ =>
  }

  // ---------------------------------------------------------------------------
  // The readers agree on torn logs too
  // ---------------------------------------------------------------------------

  predicate SoakRecord(r: Record) {
    OneLine(r) && (r.Deleted? || (r.Added? && TAB !in r.path))
  }

  lemma TornCrashLine(r: Record, tail: Bytes)
    requires CrashRecord(r) && tail <= Content(r)
    ensures CrashLine(tail)
  {
    if r.Stray? || r.Comment? { NoTabNoMark(tail); }
  }

  lemma TornSoakLine(r: Record, tail: Bytes)
    requires SoakRecord(r) && tail <= Content(r)
    ensures SoakLine(tail)
  {}

  /** A line of a torn log is the start of a record. */
  lemma LineOfTornLog(rs: seq<Record>, k: nat, line: Bytes) returns (i: nat)
    requires OneLineEach(rs) && k <= |Print(rs)| && line in Lines(Print(rs)[..k])
    ensures i < |rs| && line <= Content(rs[i])
  {
    var n, tail := EveryPrefixIsTorn(rs, k);
    LinesOfTornLog(rs, k, n, tail);
    if line in Contents(rs[..n]) {
      i :| 0 <= i < n && Contents(rs[..n])[i] == line;
    } else {
      i := n;
    }
  }

  /** On every byte prefix of a crash-worker log, `diff_checkpoint` knows the paths `read_checkpoint` does. */
  lemma DiffAgreesWithRead(rs: seq<Record>, k: nat)
    requires CrashRecords(rs) && k <= |Print(rs)|
    ensures Diffed(Lines(Print(rs)[..k])) == Replayed(Lines(Print(rs)[..k])).Keys
  {
    var lines := Lines(Print(rs)[..k]);
    forall line | line in lines ensures CrashLine(line) {
      var i := LineOfTornLog(rs, k, line);
      TornCrashLine(rs[i], line);
    }
    DiffIsReadKeys(lines);
  }

  /** On every byte prefix of a soak-worker log, `diff_checkpoint` and `load_checkpoint` agree. */
  lemma DiffAgreesWithLoad(rs: seq<Record>, k: nat)
    requires (forall i :: 0 <= i < |rs| ==> SoakRecord(rs[i])) && k <= |Print(rs)|
    ensures Diffed(Lines(Print(rs)[..k])) == Loaded(Lines(Print(rs)[..k]))
  {
    var lines := Lines(Print(rs)[..k]);
    forall line | line in lines ensures SoakLine(line) {
      var i := LineOfTornLog(rs, k, line);
      TornSoakLine(rs[i], line);
    }
    DiffIsLoad(lines);
  }
}
