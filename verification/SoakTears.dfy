/**
 Kills of the soak worker inside a line: exactly when memory and log part, and what a cut inside a
 character does to everything logged later.
 */
module SoakTears {
  import opened Common
  import opened Bytes
  import opened Checkpoint
  import opened SoakWorker
  import opened SoakRuns
  import opened SoakExact
  import EnginePath

  // ---------------------------------------------------------------------------
  // Which parts of a line a kill may leave
  // ---------------------------------------------------------------------------

  /** Some line of a path that fits starts so. */
  ghost predicate StartsALine(key: Naming, tail: Bytes) {
    exists p :: Keeps(key, p) && (tail <= Content(Added(p)) || tail <= Content(Deleted(p)))
  }

  ghost predicate CutsWithin(events: seq<Event>, cuts: set<Bytes>) {
    forall e :: e in events && e.Kill? ==> e.tail in cuts
  }

  /** In a run without torn lines every line is one of a path that fits. */
  lemma CutStartsALine(key: Naming, events: seq<Event>, tail: Bytes)
    requires Run(Start(key), events).Some? && StoresLoggable(events) && StoresOwnNames(key, events)
    requires WholeLines(events) && CanCut(Run(Start(key), events).value.point, tail)
    ensures tail == [] || StartsALine(key, tail)
  {
    WholeLinesTearNothing(events);
    NothingInDoubt(key, events);
    MemoryRuns(key, events);
    DatabaseRuns(key, events);
    SameNaming(key, events);
    PointKeeps(Run(Start(key), events).value, tail);
  }

  lemma PointKeeps(s: State, tail: Bytes)
    requires MemoryInv(s) && DatabaseInv(s) && s.doubt == {} && CanCut(s.point, tail)
    ensures tail == [] || StartsALine(s.key, tail)
  {
    if s.point.Stored? || s.point.Removed? { assert Keeps(s.key, s.point.path); }
  }

  lemma LastKillIsWhole(key: Naming, init: seq<Event>, tail: Bytes, cuts: set<Bytes>)
    requires Run(Start(key), init).Some? && Next(Run(Start(key), init).value, Kill(tail)).Some?
    requires StoresLoggable(init) && StoresOwnNames(key, init) && WholeLines(init)
    requires tail in cuts && forall t :: t in cuts && t != [] ==> !StartsALine(key, t)
    ensures tail == []
  {
    WholeLinesTearNothing(init);
    KillCuts(Run(Start(key), init).value, tail);
    CutStartsALine(key, init, tail);
  }

  lemma {:induction false} NoLineToCut(key: Naming, events: seq<Event>, cuts: set<Bytes>)
    requires Run(Start(key), events).Some? && StoresLoggable(events) && StoresOwnNames(key, events)
    requires CutsWithin(events, cuts) && forall t :: t in cuts && t != [] ==> !StartsALine(key, t)
    ensures WholeLines(events)
    decreases |events|
  {
    if events != [] {
      var init, last := events[..|events| - 1], events[|events| - 1];
      PrefixIsWithin(key, events, cuts);
      RunLast(Start(key), events);
      NoLineToCut(key, init, cuts);
      OneMoreIsWhole(key, init, last, cuts);
      assert events == init + [last];
    }
  }

  lemma OneMoreIsWhole(key: Naming, init: seq<Event>, last: Event, cuts: set<Bytes>)
    requires Run(Start(key), init).Some? && Next(Run(Start(key), init).value, last).Some?
    requires StoresLoggable(init) && StoresOwnNames(key, init) && WholeLines(init)
    requires last.Kill? ==> last.tail in cuts
    requires forall t :: t in cuts && t != [] ==> !StartsALine(key, t)
    ensures WholeLines(init + [last])
  {
    if last.Kill? { LastKillIsWhole(key, init, last.tail, cuts); }
    WholeLinesMore(init, last);
  }

  lemma PrefixIsWithin(key: Naming, events: seq<Event>, cuts: set<Bytes>)
    requires events != [] && StoresLoggable(events) && StoresOwnNames(key, events) && CutsWithin(events, cuts)
    ensures var init, last := events[..|events| - 1], events[|events| - 1];
            && StoresLoggable(init) && StoresOwnNames(key, init) && CutsWithin(init, cuts)
            && (last.Kill? ==> last.tail in cuts)
  {
    assert events[|events| - 1] in events && forall e :: e in events[..|events| - 1] ==> e in events;
  }

  lemma WholeLinesMore(init: seq<Event>, last: Event)
    requires WholeLines(init) && (last.Kill? ==> last.tail == [])
    ensures WholeLines(init + [last])
  {}

  lemma KillCuts(s: State, tail: Bytes)
    requires Next(s, Kill(tail)).Some?
    ensures CanCut(s.point, tail)
  {}

  /** A last line is read as what it says, and not at all if it is not UTF-8. */
  lemma LoadedMore(log: seq<Record>, line: Bytes)
    requires SoakLog(log) && NEWLINE !in line && line != [] && line[|line| - 1] != RETURN
    ensures Loaded(Lines(Print(log + [RecordOf(line)])))
         == if ValidUtf8(line) then LoadLine(Recall(log), line) else Recall(log)
  {
    PrintMore(log, RecordOf(line));
    forall i | 0 <= i < |log| ensures OneLine(log[i]) { assert SoakLogRecord(log[i]); }
    LinesOfPrint(log, line + [NEWLINE]);
    LoadedIsRecalled(log);
    LastWholeLine(line);
    LoadedAppend(Contents(log), line);
  }

  lemma LoadedAppend(lines: seq<Bytes>, line: Bytes)
    ensures Loaded(lines + [line]) == LoadLine(Loaded(lines), line) && Loaded(lines + []) == Loaded(lines)
  {
    assert (lines + [line])[..|lines|] == lines && lines + [] == lines;
  }

  /** A line that runs into what a kill left: its path is not read, whatever was left. */
  lemma RunTogether(log: seq<Record>, torn: Bytes, path: Bytes)
    requires SoakLog(log) && torn != [] && NEWLINE !in torn && Loggable(path) && path !in Recall(log)
    ensures path !in Loaded(Lines(Print(log + [RecordOf(torn + Content(Added(path)))])))
  {
    var line := torn + Content(Added(path));
    OneLineThen(torn, Content(Added(path)));
    LoadedMore(log, line);
    LongerLine(Recall(log), line, path);
  }

  lemma LongerLine(committed: set<Bytes>, line: Bytes, path: Bytes)
    requires |line| > |path| + 2 && path !in committed
    ensures path !in LoadLine(committed, line)
  {}

  lemma LastWholeLine(line: Bytes)
    requires NEWLINE !in line && line != [] && line[|line| - 1] != RETURN
    ensures Lines(line + [NEWLINE]) == if ValidUtf8(line) then [line] else []
  {
    var log := line + [NEWLINE];
    assert log[..|line|] == line && log[|line| + 1..] == [];
    IndexOfIs(log, NEWLINE, |line|);
  }

  // ---------------------------------------------------------------------------
  // Every such part can part memory and log
  // ---------------------------------------------------------------------------

  /** Begun, killed inside the line, and restarted. */
  function CutShort(first: Event, tail: Bytes): seq<Event> {
    [first, Kill(tail), Restart]
  }

  lemma CutAndRestart(s: State, first: Event, begun: State, tail: Bytes)
    requires Next(s, first) == Some(begun) && (begun.point.Stored? || begun.point.Removed?)
    requires CanCut(begun.point, tail) && tail != []
    ensures var r := Run(s, CutShort(first, tail));
            r.Some? && r.value.point.Idle? && r.value.log == begun.log && r.value.torn == begun.torn + tail
  {
    var down := Killed(begun, tail);
    KillStep(begun, tail);
    assert down.log == begun.log && down.torn == begun.torn + tail;
    RestartStep(down);
    ThreeSteps(s, first, begun, Kill(tail), down, Restart, down.(committed := Replay(down), point := Idle));
  }

  /** The next store is remembered and cannot be read back. */
  lemma NextStoreIsLost(s: State, path: Bytes)
    requires s.point.Idle? && SoakLog(s.log) && s.torn != [] && NEWLINE !in s.torn
    requires Keeps(s.key, path) && path !in Recall(s.log)
    ensures var r := Run(s, StoreWhole(path));
            r.Some? && r.value.point.Idle? && r.value.committed != Replay(r.value)
  {
    var s' := AfterStore(s, path);
    StoredWhole(s, path);
    StoreLogs(s, path);
    StoreKeeps(s, path);
    RunTogether(s.log, s.torn, path);
    assert Print(s'.log) + [] == Print(s'.log);
  }

  lemma LineHasNoNewline(path: Bytes, tail: Bytes)
    requires Loggable(path) && (tail <= Content(Added(path)) || tail <= Content(Deleted(path)))
    ensures NEWLINE !in tail
  {
    if tail <= Content(Added(path)) {
      assert forall i :: 0 <= i < |tail| ==> tail[i] == Content(Added(path))[i];
    } else {
      assert forall i :: 0 <= i < |tail| ==> tail[i] == Content(Deleted(path))[i];
    }
  }

  /** The events store paths that fit, and leave no other part of a line. */
  ghost predicate FitEvents(key: Naming, events: seq<Event>, tail: Bytes) {
    StoresLoggable(events) && StoresOwnNames(key, events) && CutsWithin(events, {tail})
  }

  lemma FitConcat(key: Naming, a: seq<Event>, b: seq<Event>, tail: Bytes)
    requires FitEvents(key, a, tail) && FitEvents(key, b, tail)
    ensures FitEvents(key, a + b, tail)
  {}

  lemma FitStore(key: Naming, path: Bytes, tail: Bytes)
    requires Keeps(key, path)
    ensures FitEvents(key, StoreWhole(path), tail) && FitEvents(key, CutShort(Store(path), tail), tail)
    ensures FitEvents(key, CutShort(Delete(path), tail), tail)
  {}

  /** Memory and log part in a run that stores paths that fit, with this the only part of a line left. */
  ghost predicate PartsMemory(key: Naming, events: seq<Event>, tail: Bytes) {
    FitEvents(key, events, tail) && !MemoryIsReplay(key, events)
  }

  lemma AddCut(key: Naming, path: Bytes, tail: Bytes)
    requires Keeps(key, path) && tail != [] && tail <= Content(Added(path))
    ensures var r := Run(Start(key), CutShort(Store(path), tail));
            && r.Some? && r.value.point.Idle? && r.value.log == [] && r.value.torn == tail && r.value.key == key
  {
    var begun := Start(key).(database := {} + {key(path)}, point := Stored(path));
    StoreStep(Start(key), path, begun);
    CutAndRestart(Start(key), Store(path), begun, tail);
    SameNaming(key, CutShort(Store(path), tail));
    assert [] + tail == tail;
  }

  lemma StoreStep(s: State, path: Bytes, begun: State)
    requires s.point.Idle? && Storable(s.key, path)
    requires begun == s.(database := s.database + {s.key(path)}, point := Stored(path))
    ensures Next(s, Store(path)) == Some(begun)
  {}

  lemma DeleteStep(s: State, path: Bytes, begun: State)
    requires s.point.Idle? && path in s.committed && s.key(path) in s.database
    requires begun == s.(database := s.database - {s.key(path)}, point := Removed(path))
    ensures Next(s, Delete(path)) == Some(begun)
  {}

  lemma DeleteCut(key: Naming, path: Bytes, tail: Bytes)
    requires Keeps(key, path) && tail != [] && tail <= Content(Deleted(path))
    ensures var r := Run(Start(key), StoreWhole(path) + CutShort(Delete(path), tail));
            && r.Some? && r.value.point.Idle? && r.value.log == [Added(path)] && r.value.torn == tail
            && r.value.key == key
  {
    OnlyStored(key, path);
    var stored := AfterStore(Start(key), path);
    StoreLogs(Start(key), path);
    var begun := stored.(database := stored.database - {stored.key(path)}, point := Removed(path));
    SameNaming(key, StoreWhole(path));
    DeleteStep(stored, path, begun);
    CutAndRestart(stored, Delete(path), begun, tail);
    RunConcat(Start(key), StoreWhole(path), CutShort(Delete(path), tail));
    SameNaming(key, StoreWhole(path) + CutShort(Delete(path), tail));
    assert [] + tail == tail;
  }

  /** What comes before leaves a part of a line; the next store is lost. */
  lemma PartsAfter(key: Naming, cut: seq<Event>, other: Bytes)
    requires Run(Start(key), cut).Some? && Keeps(key, other)
    requires var s := Run(Start(key), cut).value;
             && s.point.Idle? && SoakLog(s.log) && s.torn != [] && NEWLINE !in s.torn && s.key == key
             && other !in Recall(s.log)
    ensures !MemoryIsReplay(key, cut + StoreWhole(other))
  {
    NextStoreIsLost(Run(Start(key), cut).value, other);
    RunConcat(Start(key), cut, StoreWhole(other));
  }

  lemma AddCutParts(key: Naming, path: Bytes, other: Bytes, tail: Bytes) returns (events: seq<Event>)
    requires Keeps(key, path) && Keeps(key, other) && tail != [] && tail <= Content(Added(path))
    ensures PartsMemory(key, events, tail)
  {
    var cut := CutShort(Store(path), tail);
    AddCut(key, path, tail);
    LineHasNoNewline(path, tail);
    PartsAfter(key, cut, other);
    FitStore(key, path, tail);
    FitStore(key, other, tail);
    FitConcat(key, cut, StoreWhole(other), tail);
    events := cut + StoreWhole(other);
  }

  lemma DeleteCutParts(key: Naming, path: Bytes, other: Bytes, tail: Bytes) returns (events: seq<Event>)
    requires Keeps(key, path) && Keeps(key, other) && other != path && tail != [] && tail <= Content(Deleted(path))
    ensures PartsMemory(key, events, tail)
  {
    var cut := StoreWhole(path) + CutShort(Delete(path), tail);
    DeleteCut(key, path, tail);
    OneAdded(path);
    LineHasNoNewline(path, tail);
    PartsAfter(key, cut, other);
    FitStore(key, path, tail);
    FitStore(key, other, tail);
    FitConcat(key, StoreWhole(path), CutShort(Delete(path), tail), tail);
    FitConcat(key, cut, StoreWhole(other), tail);
    events := cut + StoreWhole(other);
  }

  /** Any two files are enough to show it. */
  lemma EveryCutParts(key: Naming, a: Bytes, b: Bytes, tail: Bytes) returns (events: seq<Event>)
    requires Keeps(key, a) && Keeps(key, b) && a != b && tail != [] && StartsALine(key, tail)
    ensures PartsMemory(key, events, tail)
  {
    var path :| Keeps(key, path) && (tail <= Content(Added(path)) || tail <= Content(Deleted(path)));
    if tail <= Content(Added(path)) {
      events := AddCutParts(key, path, a, tail);
    } else {
      events := DeleteCutParts(key, path, if path == a then b else a, tail);
    }
  }

  lemma NothingCut(key: Naming, events: seq<Event>, cuts: set<Bytes>)
    requires StoresLoggable(events) && StoresOwnNames(key, events) && CutsWithin(events, cuts)
    requires forall t :: t in cuts && t != [] ==> !StartsALine(key, t)
    ensures MemoryIsReplay(key, events)
  {
    if Run(Start(key), events).Some? {
      NoLineToCut(key, events, cuts);
      MemoryIsReplayWhenLoggable(key, events);
    }
  }

  /**
   Over the runs that store paths that fit, and whose kills leave parts of lines from a set: memory
   is the replay at every loop head exactly when no part in the set but the empty one starts a line.
   This holds of any engine that keeps at least two paths as they are.
   */
  lemma TearsExactly(key: Naming, a: Bytes, b: Bytes, cuts: set<Bytes>)
    requires Keeps(key, a) && Keeps(key, b) && a != b
    ensures (forall events :: StoresLoggable(events) && StoresOwnNames(key, events) && CutsWithin(events, cuts) ==>
               MemoryIsReplay(key, events)) <==>
              forall t :: t in cuts && t != [] ==> !StartsALine(key, t)
  {
    if t :| t in cuts && t != [] && StartsALine(key, t) {
      var events := EveryCutParts(key, a, b, t);
      assert CutsWithin(events, cuts);
    } else {
      forall events | StoresLoggable(events) && StoresOwnNames(key, events) && CutsWithin(events, cuts)
        ensures MemoryIsReplay(key, events)
      {
        NothingCut(key, events, cuts);
      }
    }
  }

  lemma ShortPath(path: Bytes)
    requires |path| == 2 && path[0] == SLASH && 97 <= path[1] <= 98
    ensures Keeps(EnginePath.Normalize, path)
  {
    ShortName(path);
    PlainEnd(path);
    EnginePath.KeptExactly(path);
    ShortLine(Content(Added(path)));
    BothLines(path);
  }

  lemma ShortName(path: Bytes)
    requires |path| == 2 && path[0] == SLASH && 97 <= path[1] <= 98
    ensures EnginePath.Rooted(path)
  {
    var name := [path[1]];
    EnginePath.SplitJoined([name]);
    EnginePath.JoinedFront(name, []);
    assert [name] + [] == [name] && EnginePath.Joined([name]) == path;
  }

  lemma ShortLine(line: Bytes)
    requires |line| == 4 && line[0] == PLUS && line[1] == TAB && line[2] == SLASH && 97 <= line[3] <= 98
    ensures LineText(line)
  {
    assert line[3..][1..] == [] && ValidUtf8(line[3..]);
    assert line[2..][1..] == line[3..] && ValidUtf8(line[2..]);
    assert line[1..][1..] == line[2..] && ValidUtf8(line[1..]);
  }

  /** The same of the engine as it names its files. */
  lemma EngineTearsExactly(cuts: set<Bytes>)
    ensures var key := EnginePath.Normalize;
            (forall events :: StoresLoggable(events) && StoresOwnNames(key, events) && CutsWithin(events, cuts) ==>
               MemoryIsReplay(key, events)) <==>
              forall t :: t in cuts && t != [] ==> !StartsALine(key, t)
  {
    ShortPath([SLASH, 97]);
    ShortPath([SLASH, 98]);
    assert [SLASH, 97][1] != [SLASH, 98][1];
    TearsExactly(EnginePath.Normalize, [SLASH, 97], [SLASH, 98], cuts);
  }

  // ---------------------------------------------------------------------------
  // A cut inside a character
  // ---------------------------------------------------------------------------

  /** The text ends inside a character. */
  ghost predicate EndsInCharacter(text: Bytes) {
    !ValidUtf8(text) && exists more :: ValidUtf8(text + more)
  }

  /** Whatever follows a character cut in two, if it starts with a plain one, does not mend it. */
  lemma {:induction false} CutStaysCut(text: Bytes, more: Bytes, next: Bytes)
    requires !ValidUtf8(text) && ValidUtf8(text + more) && next != [] && next[0] < 0x80
    ensures !ValidUtf8(text + next)
    decreases |text|
  {
    var n := CharLength(text);
    if n > 0 {
      CharLengthOfPrefix(text, more);
      CharLengthOfPrefix(text, next);
      DropOfConcat(text, more, n);
      DropOfConcat(text, next, n);
      CutStaysCut(text[n..], more, next);
    } else {
      FirstIsCut(text, more, next);
    }
  }

  lemma FirstIsCut(text: Bytes, more: Bytes, next: Bytes)
    requires text != [] && CharLength(text) == 0 && CharLength(text + more) > 0 && next != [] && next[0] < 0x80
    ensures CharLength(text + next) == 0
  {
    assert (text + next)[|text|] == next[0];
    assert forall i :: 0 <= i < |text| ==> (text + more)[i] == text[i] && (text + next)[i] == text[i];
  }

  /** What a run writes behind a log starts with a mark, if it writes anything. */
  lemma {:induction false} RunWrites(s: State, events: seq<Event>) returns (written: Bytes)
    requires Run(s, events).Some?
    ensures LogBytes(Run(s, events).value) == LogBytes(s) + written && (written != [] ==> written[0] < 0x80)
    decreases |events|
  {
    if events == [] {
      written := [];
      assert LogBytes(s) + [] == LogBytes(s);
    } else {
      var init, last := events[..|events| - 1], events[|events| - 1];
      RunLast(s, events);
      var before := RunWrites(s, init);
      var now := WrittenMark(Run(s, init).value, last, Run(s, events).value);
      written := before + now;
      Regroup(LogBytes(s), before, now);
    }
  }

  lemma WrittenMark(s: State, e: Event, s': State) returns (written: Bytes)
    requires Next(s, e) == Some(s')
    ensures LogBytes(s') == LogBytes(s) + written && (written != [] ==> written[0] < 0x80)
  {
    LogOnlyGrows(s, e, s');
    written := Written(s, e);
    if e.Kill? { KillCuts(s, e.tail); }
  }

  /** The reader stops at a line that is not UTF-8. */
  lemma BlindLines(torn: Bytes, written: Bytes)
    requires NEWLINE !in torn && EndsInCharacter(torn) && (written != [] ==> written[0] < 0x80)
    ensures Lines(torn + written) == []
  {
    var more :| ValidUtf8(torn + more);
    var k := IndexOf(written, NEWLINE);
    var rest := torn + written;
    assert rest[..|torn| + k] == torn + written[..k];
    IndexOfIs(rest, NEWLINE, |torn| + k);
    if k == 0 {
      assert torn + written[..k] == torn;
    } else {
      CutStaysCut(torn, more, written[..k]);
    }
  }

  /**
   Once a kill cuts a line inside a character nothing that is logged later is ever read: whatever the
   run does, the replay stays what the whole lines before say.
   */
  lemma BlindForever(s: State, events: seq<Event>)
    requires SoakLog(s.log) && NEWLINE !in s.torn && EndsInCharacter(s.torn) && Run(s, events).Some?
    ensures Replay(Run(s, events).value) == Recall(s.log)
  {
    var written := RunWrites(s, events);
    forall i | 0 <= i < |s.log| ensures OneLine(s.log[i]) { assert SoakLogRecord(s.log[i]); }
    BlindLines(s.torn, written);
    Regroup(Print(s.log), s.torn, written);
    LinesOfPrint(s.log, s.torn + written);
    LoadedIsRecalled(s.log);
    LoadedAppend(Contents(s.log), []);
  }
}
