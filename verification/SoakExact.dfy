/**
 Exactly when the soak worker's memory, log, database and judge agree: which paths it may store, and
 which parts of a line a kill may leave.
 */
module SoakExact {
  import opened Common
  import opened Bytes
  import opened Decimal
  import opened Checkpoint
  import opened SoakWorker
  import opened SoakRuns
  import EnginePath

  // ---------------------------------------------------------------------------
  // Which paths a line can hold
  // ---------------------------------------------------------------------------

  lemma {:induction false} LinesHoldNoNewline(log: Bytes)
    ensures forall line :: line in Lines(log) ==> NEWLINE !in line
    decreases |log|
  {
    if log != [] {
      var k := IndexOf(log, NEWLINE);
      if k < |log| { LinesHoldNoNewline(log[k + 1..]); } else { assert log[..k] == log; }
    }
  }

  lemma {:induction false} LoadedFromLines(lines: seq<Bytes>, path: Bytes)
    requires path in Loaded(lines)
    ensures exists line :: line in lines && |line| >= 2 && line[2..] == path
  {
    var init, last := lines[..|lines| - 1], lines[|lines| - 1];
    assert last in lines;
    if path in Loaded(init) {
      LoadedFromLines(init, path);
      var line :| line in init && |line| >= 2 && line[2..] == path;
      assert line in lines;
    }
  }

  /** A line that holds a newline, is not UTF-8 or ends in a return is read as something else. */
  lemma UnloggableIsLost(path: Bytes)
    requires !OneLine(Added(path))
    ensures path !in Loaded(Lines(Print([Added(path)])))
  {
    var line := Content(Added(path));
    var log := Print([Added(path)]);
    PrintCons([Added(path)], []);
    assert log == line + [NEWLINE];
    assert line[2..] == path;
    if NEWLINE in line {
      LinesHoldNoNewline(log);
      if path in Loaded(Lines(log)) { LoadedFromLines(Lines(log), path); }
    } else {
      assert log[..|line|] == line && log[|line| + 1..] == [];
      IndexOfIs(log, NEWLINE, |line|);
      if ValidUtf8(line) {
        assert Lines(log) == [StripReturn(line)];
        if path in Loaded(Lines(log)) { LoadedFromLines(Lines(log), path); }
      }
    }
  }

  /** What a line holds can be read back from it exactly when the path is loggable. */
  lemma ReadsBackExactly(path: Bytes)
    ensures Loaded(Lines(Print([Added(path)]))) == {path} <==> Loggable(path)
  {
    BothLines(path);
    if Loggable(path) {
      OneAdded(path);
    } else {
      UnloggableIsLost(path);
    }
  }

  lemma OneAdded(path: Bytes)
    requires Loggable(path)
    ensures SoakLog([Added(path)]) && Recall([Added(path)]) == {path}
    ensures Loaded(Lines(Print([Added(path)]))) == {path}
  {
    RecordOfContent(path);
    RecallMore([], Added(path));
    assert [] + [Added(path)] == [Added(path)];
    LoadOneLine({}, path);
    LoadWholeLog([Added(path)], []);
    NoLineNoDiff({path});
    assert Print([Added(path)]) + [] == Print([Added(path)]);
  }

  // ---------------------------------------------------------------------------
  // Which paths the worker may store
  // ---------------------------------------------------------------------------

  ghost predicate StoresWithin(events: seq<Event>, paths: set<Bytes>) {
    forall e :: e in events && e.Store? ==> e.path in paths
  }

  /** No kill falls inside a line. */
  ghost predicate WholeLines(events: seq<Event>) {
    forall e :: e in events && e.Kill? ==> e.tail == []
  }

  lemma {:induction false} WholeLinesTearNothing(events: seq<Event>)
    requires WholeLines(events)
    ensures Tears(events) == 0 && CleanCuts(events)
  {
    if events != [] {
      WholeLinesTearNothing(events[..|events| - 1]);
      assert events[|events| - 1] in events;
    }
  }

  lemma NothingInDoubt(key: Naming, events: seq<Event>)
    requires Run(Start(key), events).Some? && Tears(events) == 0
    ensures var s := Run(Start(key), events).value;
            s.doubt == {} && s.torn == []
  {
    FewDoubts(key, events);
  }

  ghost predicate StoresStorable(key: Naming, events: seq<Event>) {
    forall e :: e in events && e.Store? ==> Storable(key, e.path)
  }

  lemma OnlyStorable(key: Naming, events: seq<Event>)
    requires Run(Start(key), events).Some?
    ensures StoresStorable(key, events)
  {
    forall e | e in events && e.Store? ensures Storable(key, e.path) {
      var i :| 0 <= i < |events| && events[i] == e;
      StoredAt(key, events, i);
    }
  }

  lemma {:induction false} StoredAt(key: Naming, events: seq<Event>, i: nat)
    requires Run(Start(key), events).Some? && i < |events| && events[i].Store?
    ensures Storable(key, events[i].path)
    decreases |events|
  {
    var init := events[..|events| - 1];
    RunLast(Start(key), events);
    if i < |init| {
      StoredAt(key, init, i);
    } else {
      SameNaming(key, init);
      StoreIsStorable(Run(Start(key), init).value, events[i]);
    }
  }

  lemma StoreIsStorable(s: State, e: Event)
    requires Next(s, e).Some? && e.Store?
    ensures Storable(s.key, e.path)
  {}

  /** Memory is the replay of the log at the loop head. */
  ghost predicate MemoryIsReplay(key: Naming, events: seq<Event>) {
    var r := Run(Start(key), events);
    r.Some? && r.value.point.Idle? ==> r.value.committed == Replay(r.value)
  }

  /** Moreover log and database, and judge and database, part only where a kill cut an operation off. */
  ghost predicate Sound(key: Naming, events: seq<Event>) {
    MemoryIsReplay(key, events) && (Run(Start(key), events).Some? ==> SoundAt(Run(Start(key), events).value))
  }

  ghost predicate SoundAt(s: State) {
    && Replay(s) - s.database <= UnloggedDeletes(s) && s.database - Replay(s) <= UnloggedStores(s)
    && Judged(s) - s.database <= UnloggedDeletes(s)
  }

  /** The path fits a line, is the name of its file, and holds no tab. */
  predicate Fits(key: Naming, path: Bytes) {
    Loggable(path) && key(path) == path && TAB !in path
  }

  /** One path stored, logged and remembered, and nothing else. */
  lemma OnlyStored(key: Naming, path: Bytes)
    requires Storable(key, path)
    ensures Run(Start(key), StoreWhole(path)) == Some(AfterStore(Start(key), path))
    ensures var s := AfterStore(Start(key), path);
            && s.point.Idle? && s.database == {key(path)} && s.committed == {path} && s.log == [Added(path)]
            && UnloggedDeletes(s) == {} && UnloggedStores(s) == {} && LogBytes(s) == Print([Added(path)])
  {
    StoredWhole(Start(key), path);
    FirstStore(key, path, key(path), AfterStore(Start(key), path));
  }

  lemma FirstStore(key: Naming, path: Bytes, name: Bytes, s: State)
    requires var begun := Start(key).(database := {} + {name}, point := Stored(path));
             s == Appended(begun, Added(path), path, AddLogged(path)).(committed := {} + {path}, point := Idle)
    ensures s.point.Idle? && s.database == {name} && s.committed == {path} && s.log == [Added(path)] && s.torn == []
    ensures UnloggedDeletes(s) == {} && UnloggedStores(s) == {} && LogBytes(s) == Print([Added(path)])
  {
    RecordOfContent(path);
    assert [] + Content(Added(path)) == Content(Added(path)) && [] + [Added(path)] == [Added(path)];
    assert Print([Added(path)]) + [] == Print([Added(path)]);
  }

  lemma MemoryIsReplayWhenLoggable(key: Naming, events: seq<Event>)
    requires StoresLoggable(events) && WholeLines(events)
    ensures MemoryIsReplay(key, events)
  {
    WholeLinesTearNothing(events);
    if Run(Start(key), events).Some? {
      NothingInDoubt(key, events);
      MemoryRuns(key, events);
      ReadIsReplay(Run(Start(key), events).value);
    }
  }

  lemma OneUnloggable(key: Naming, path: Bytes)
    requires Storable(key, path) && !Loggable(path)
    ensures !MemoryIsReplay(key, StoreWhole(path))
  {
    OnlyStored(key, path);
    ReadsBackExactly(path);
  }

  lemma OneStore(path: Bytes, paths: set<Bytes>)
    requires path in paths
    ensures StoresWithin(StoreWhole(path), paths) && WholeLines(StoreWhole(path))
  {}

  lemma MemoryIsReplayWithin(key: Naming, events: seq<Event>, paths: set<Bytes>)
    requires StoresWithin(events, paths) && WholeLines(events)
    requires forall p :: p in paths && Storable(key, p) ==> Loggable(p)
    ensures MemoryIsReplay(key, events)
  {
    if Run(Start(key), events).Some? {
      OnlyStorable(key, events);
      MemoryIsReplayWhenLoggable(key, events);
    }
  }

  /**
   Over the runs that store paths of a set, memory is the replay at every loop head exactly when a
   line can hold all of them that can be stored.
   */
  lemma MemoryIsReplayExactly(key: Naming, paths: set<Bytes>)
    ensures (forall events :: StoresWithin(events, paths) && WholeLines(events) ==> MemoryIsReplay(key, events)) <==>
              forall p :: p in paths && Storable(key, p) ==> Loggable(p)
  {
    if p :| p in paths && Storable(key, p) && !Loggable(p) {
      OneUnloggable(key, p);
      OneStore(p, paths);
    } else {
      forall events | StoresWithin(events, paths) && WholeLines(events) ensures MemoryIsReplay(key, events) {
        MemoryIsReplayWithin(key, events, paths);
      }
    }
  }

  lemma SoundWhenFitting(key: Naming, events: seq<Event>)
    requires WholeLines(events) && forall e :: e in events && e.Store? ==> Fits(key, e.path)
    ensures Sound(key, events)
  {
    MemoryIsReplayWhenLoggable(key, events);
    WholeLinesTearNothing(events);
    if Run(Start(key), events).Some? {
      NothingInDoubt(key, events);
      EveryRun(key, events);
      DiffBlamesKills(key, events);
    }
  }

  lemma SoundWithin(key: Naming, events: seq<Event>, paths: set<Bytes>)
    requires StoresWithin(events, paths) && WholeLines(events)
    requires forall p :: p in paths && Storable(key, p) ==> Fits(key, p)
    ensures Sound(key, events)
  {
    if Run(Start(key), events).Some? {
      OnlyStorable(key, events);
      SoundWhenFitting(key, events);
    }
  }

  /** A single path that does not fit is enough. */
  lemma OneUnfitting(key: Naming, path: Bytes)
    requires Storable(key, path) && !Fits(key, path)
    ensures !Sound(key, StoreWhole(path))
  {
    OnlyStored(key, path);
    ReadsBackExactly(path);
    if Loggable(path) && key(path) == path { TabIsCut(path); }
  }

  lemma TabIsCut(path: Bytes)
    requires Loggable(path) && TAB in path
    ensures Diffed(Lines(Print([Added(path)]))) != {} && path !in Diffed(Lines(Print([Added(path)])))
  {
    var r := Added(path);
    LinesOfPrint([r], []);
    assert Contents([r]) + [] == [Content(r)] && Print([r]) + [] == Print([r]);
    CutLine(Content(r), path);
  }

  lemma CutLine(line: Bytes, path: Bytes)
    requires line == Content(Added(path)) && TAB in path
    ensures Diffed([line]) != {} && path !in Diffed([line])
  {
    assert Diffed([line]) == DiffLine(Diffed([]), line);
    assert line[2..] == path;
    SplitTabNone(path);
    assert SplitTab(path).value.0 in Diffed([line]);
  }

  /**
   Over the runs that store paths of a set and whose kills fall between lines: memory, log, database
   and judge agree but for the operations cut off, exactly when every path of the set that can be
   stored fits a line, is the name of its file, and holds no tab.
   */
  lemma EveryRunExactly(key: Naming, paths: set<Bytes>)
    ensures (forall events :: StoresWithin(events, paths) && WholeLines(events) ==> Sound(key, events)) <==>
              forall p :: p in paths && Storable(key, p) ==> Fits(key, p)
  {
    if p :| p in paths && Storable(key, p) && !Fits(key, p) {
      OneUnfitting(key, p);
      OneStore(p, paths);
    } else {
      forall events | StoresWithin(events, paths) && WholeLines(events) ensures Sound(key, events) {
        SoundWithin(key, events, paths);
      }
    }
  }

  /** The same of the engine as it names its files: every path that can be stored fits a line and is canonical. */
  lemma EngineRunsExactly(paths: set<Bytes>)
    ensures (forall events :: StoresWithin(events, paths) && WholeLines(events) ==>
               Sound(EnginePath.Normalize, events)) <==>
              forall p :: p in paths && Storable(EnginePath.Normalize, p) ==>
                Loggable(p) && EnginePath.Canonical(p) && TAB !in p
  {
    EveryRunExactly(EnginePath.Normalize, paths);
    forall p | p in paths
      ensures Fits(EnginePath.Normalize, p) <==> Loggable(p) && EnginePath.Canonical(p) && TAB !in p
    {
      EnginePath.CanonicalExactly(p);
    }
  }

  // ---------------------------------------------------------------------------
  // Paths that do not fit
  // ---------------------------------------------------------------------------

  /** A space behind a path that fits makes one that does not: the same file, another line. */
  lemma SpaceDoesNotFit(path: Bytes)
    requires Fits(EnginePath.Normalize, path) && Storable(EnginePath.Normalize, path)
    ensures EnginePath.Normalize(path + [32]) == path && Loggable(path + [32])
    ensures !Fits(EnginePath.Normalize, path + [32])
  {
    NamedItself(path);
    EnginePath.SpaceIsTrimmed(path);
    SpaceIsLoggable(path);
  }

  lemma NamedItself(path: Bytes)
    requires Owns(EnginePath.Normalize, path)
    ensures EnginePath.Rooted(path) && EnginePath.WhiteEnd(path) == 0
  {
    EnginePath.CanonicalExactly(path);
  }

  lemma SpaceIsLoggable(path: Bytes)
    requires Loggable(path)
    ensures Loggable(path + [32])
  {
    var line := Content(Added(path));
    assert ValidUtf8([32]) && LineText([32]);
    LineTextThen(line, [32]);
    assert line + [32] == Content(Added(path + [32]));
    BothLines(path + [32]);
  }

  /** A file below the soak folder. */
  function SoakPath(name: Bytes): Bytes {
    EnginePath.Joined([Ascii("soak"), name])
  }

  lemma SoakName(name: Bytes)
    requires SLASH !in name && EnginePath.NUL !in name && EnginePath.Name(name)
    ensures EnginePath.Rooted(SoakPath(name)) && SoakPath(name) == Ascii("/soak/") + name
  {
    var pieces := [Ascii("soak"), name];
    AsciiIsPlain("soak");
    assert Ascii("soak")[0] == 115;
    EnginePath.SplitJoined(pieces);
    EnginePath.JoinedKeepsOut(pieces, EnginePath.NUL);
    EnginePath.JoinedFront(Ascii("soak"), [name]);
    EnginePath.JoinedFront(name, []);
    assert [Ascii("soak")] + [name] == pieces && [name] + [] == [name];
    assert Ascii("/soak/") == [SLASH] + Ascii("soak") + [SLASH];
  }

  /** A file whose name holds a newline is stored under its own name, and its line cannot be read back. */
  lemma NewlineDoesNotFit()
    ensures var path := Ascii("/soak/") + [97, NEWLINE, 98];
            Owns(EnginePath.Normalize, path) && !Loggable(path)
  {
    var name := [97, NEWLINE, 98];
    SoakName(name);
    NewlineName(SoakPath(name));
  }

  lemma NewlineName(path: Bytes)
    requires EnginePath.Rooted(path) && |path| > 2 && path[|path| - 2..] == [NEWLINE, 98]
    ensures Owns(EnginePath.Normalize, path) && !Loggable(path)
  {
    assert path[|path| - 2] == [NEWLINE, 98][0] && path[|path| - 1] == [NEWLINE, 98][1];
    PlainEnd(path);
    EnginePath.KeptExactly(path);
    NewlineIsNotLoggable(path);
  }

  lemma NewlineIsNotLoggable(path: Bytes)
    requires NEWLINE in path
    ensures !Loggable(path)
  {
    var i :| 0 <= i < |path| && path[i] == NEWLINE;
    assert Content(Added(path))[i + 2] == NEWLINE;
  }

  lemma PlainEnd(s: Bytes)
    requires s != [] && 32 < s[|s| - 1] < 127
    ensures EnginePath.WhiteEnd(s) == 0
  {}

  /** Two names of one file: deleting one loses the other, without any kill. */
  lemma OneFileTwoNames(key: Naming, p: Bytes, q: Bytes)
    requires p != q && key(p) == key(q) && Storable(key, p) && Loggable(p) && Loggable(q)
    ensures var r := Run(Start(key), StoreWhole(p) + StoreWhole(q) + DeleteWhole(p));
            && r.Some? && r.value.point.Idle? && r.value.deleteKills == [] && r.value.storeKills == []
            && Replay(r.value) == {q} && r.value.database == {}
  {
    OnlyStored(key, p);
    var s1 := AfterStore(Start(key), p);
    RunConcat(Start(key), StoreWhole(p), StoreWhole(q));
    StoredWhole(s1, q);
    var s2 := AfterStore(s1, q);
    RunConcat(Start(key), StoreWhole(p) + StoreWhole(q), DeleteWhole(p));
    DeletedWhole(s2, p);
    var s3 := AfterDelete(s2, p);
    OneAdded(p);
    StoreLogs(s1, q);
    DeleteLogs(s2, p);
    TwoNamesRead(s1, s2, s3, p, q);
    assert {key(p)} + {key(q)} - {key(p)} == {};
  }

  lemma TwoNamesRead(s1: State, s2: State, s3: State, p: Bytes, q: Bytes)
    requires p != q && Loggable(p) && Loggable(q)
    requires SoakLog(s1.log) && s1.torn == [] && Recall(s1.log) == {p}
    requires Logs(s1, s2, Added(q)) && Logs(s2, s3, Deleted(p))
    ensures Replay(s3) == {q}
  {
    WholeAppend(s1, s2, Added(q));
    WholeAppend(s2, s3, Deleted(p));
    TwoLines({p}, p, q);
    ReadIsReplay(s3);
  }

  lemma TwoLines(committed: set<Bytes>, p: Bytes, q: Bytes)
    requires p != q && committed == {p}
    ensures LoadLine(LoadLine(committed, Content(Added(q))), Content(Deleted(p))) == {q}
  {
    LoadOneLine(committed, q);
    LoadOneLine(committed + {q}, p);
  }

  /** One line more. */
  ghost predicate Logs(s: State, s': State, r: Record) {
    s'.log == s.log + [RecordOf(s.torn + Content(r))] && s'.torn == []
  }

  lemma StoreLogs(s: State, path: Bytes)
    ensures Logs(s, AfterStore(s, path), Added(path))
  {}

  lemma DeleteLogs(s: State, path: Bytes)
    ensures Logs(s, AfterDelete(s, path), Deleted(path))
  {}

  lemma WholeAppend(s: State, s': State, r: Record)
    requires SoakLog(s.log) && s.torn == [] && OneLine(r) && Logs(s, s', r)
    ensures SoakLog(s'.log) && Recall(s'.log) == LoadLine(Recall(s.log), Content(r)) && Read(s') == Recall(s'.log)
  {
    assert s.torn + Content(r) == Content(r);
    SoakLogMore(s.log, RecordOf(Content(r)));
    RecallMore(s.log, RecordOf(Content(r)));
    NoLineNoDiff(Recall(s'.log));
  }

  // ---------------------------------------------------------------------------
  // The bound is reached
  // ---------------------------------------------------------------------------

  function LoseOne(path: Bytes): seq<Event> {
    StoreWhole(path) + [Delete(path), Kill([]), Restart]
  }

  /** A path that is stored under its own name and read back from its line. */
  predicate Keeps(key: Naming, path: Bytes) {
    Loggable(path) && Owns(key, path)
  }

  ghost predicate AllKept(key: Naming, paths: seq<Bytes>) {
    forall i :: 0 <= i < |paths| ==> Keeps(key, paths[i])
  }

  ghost predicate Lost(s: State, paths: seq<Bytes>) {
    && s.point.Idle? && s.torn == [] && SoakLog(s.log) && s.database == {}
    && s.deleteKills == paths && Recall(s.log) == Elements(paths)
  }

  lemma CutOff(s: State, path: Bytes)
    requires s.point.Idle? && path in s.committed && s.key(path) in s.database && s.torn == [] && SoakLog(s.log)
    ensures Run(s, [Delete(path), Kill([]), Restart])
         == Some(s.(database := s.database - {s.key(path)}, committed := Recall(s.log),
                    deleteKills := s.deleteKills + [path]))
  {
    var begun := s.(database := s.database - {s.key(path)}, point := Removed(path));
    var down := begun.(point := Down, deleteKills := s.deleteKills + [path]);
    KillStep(begun, []);
    RestartStep(down);
    ReadIsReplay(down);
    NoLineNoDiff(Recall(s.log));
    ThreeSteps(s, Delete(path), begun, Kill([]), down, Restart, down.(committed := Recall(s.log), point := Idle));
  }

  /** Stored, logged and remembered; then deleted, killed before the line, and restarted. */
  lemma LostOneMore(s: State, paths: seq<Bytes>, path: Bytes)
    requires Lost(s, paths) && Keeps(s.key, path)
    ensures var r := Run(s, LoseOne(path));
            r.Some? && Lost(r.value, paths + [path])
  {
    var stored := AfterStore(s, path);
    StoredWhole(s, path);
    RunConcat(s, StoreWhole(path), [Delete(path), Kill([]), Restart]);
    StoreLogs(s, path);
    WholeAppend(s, stored, Added(path));
    LoadOneLine(Recall(s.log), path);
    ElementsMore(paths, path);
    StoreKeeps(s, path);
    CutOff(stored, path);
    assert {} + {path} - {path} == {};
  }

  lemma StoreKeeps(s: State, path: Bytes)
    ensures var s' := AfterStore(s, path);
            && s'.point.Idle? && s'.database == s.database + {s.key(path)} && path in s'.committed
            && s'.deleteKills == s.deleteKills
  {}

  ghost predicate LostBy(key: Naming, events: seq<Event>, paths: seq<Bytes>) {
    Run(Start(key), events).Some? && Lost(Run(Start(key), events).value, paths)
  }

  function LoseAll(paths: seq<Bytes>): seq<Event> {
    if paths == [] then [] else LoseAll(paths[..|paths| - 1]) + LoseOne(paths[|paths| - 1])
  }

  lemma {:induction false} LoseThemAll(key: Naming, paths: seq<Bytes>)
    requires AllKept(key, paths)
    ensures LostBy(key, LoseAll(paths), paths)
  {
    if paths == [] {
      LostNothing(key);
    } else {
      var init, last := paths[..|paths| - 1], paths[|paths| - 1];
      LoseThemAll(key, init);
      InitAndLast(paths);
      LostNext(key, LoseAll(init), init, last, paths);
    }
  }

  lemma InitAndLast(paths: seq<Bytes>)
    requires paths != []
    ensures paths == paths[..|paths| - 1] + [paths[|paths| - 1]]
  {}

  lemma LostNothing(key: Naming)
    ensures LostBy(key, [], [])
  {
    assert Recall([]) == {};
  }

  lemma LostNext(key: Naming, events: seq<Event>, paths: seq<Bytes>, path: Bytes, more: seq<Bytes>)
    requires LostBy(key, events, paths) && Keeps(key, path) && more == paths + [path]
    ensures LostBy(key, events + LoseOne(path), more)
  {
    SameNaming(key, events);
    LostOneMore(Run(Start(key), events).value, paths, path);
    RunConcat(Start(key), events, LoseOne(path));
  }

  /** An atomic database and any number of kills: each can cost one path the log still promises. */
  lemma EachKillCanCostAPath(key: Naming, paths: seq<Bytes>) returns (events: seq<Event>)
    requires AllKept(key, paths)
    ensures var r := Run(Start(key), events);
            && r.Some? && r.value.point.Idle? && KillsAt(Start(key), events, true) == |paths|
            && Replay(r.value) - r.value.database == Elements(paths)
  {
    LoseThemAll(key, paths);
    events := LoseAll(paths);
    var s := Run(Start(key), events).value;
    KillsCounted(key, events);
    ReadIsReplay(s);
    NoLineNoDiff(Recall(s.log));
  }
}
