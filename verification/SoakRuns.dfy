/**
 What every run of the soak worker keeps, over kills between lines and inside them: memory against
 the log, the log against the database, and the judge of `diff_checkpoint` against the log.
 */
module SoakRuns {
  import opened Common
  import opened Bytes
  import opened Checkpoint
  import opened SoakWorker
  import Words

  // ---------------------------------------------------------------------------
  // Memory and log
  // ---------------------------------------------------------------------------

  /** The paths in one set and not the other. */
  function Apart(a: set<Bytes>, b: set<Bytes>): set<Bytes> {
    (a - b) + (b - a)
  }

  /** What is read of the log as it stands. */
  function Read(s: State): set<Bytes> {
    LoadLine(Recall(s.log), s.torn)
  }

  lemma ReadIsReplay(s: State)
    requires SoakLog(s.log) && LineText(s.torn)
    ensures Replay(s) == Read(s)
  {
    LoadWholeLog(s.log, s.torn);
  }

  /** A line changes what is believed of its own path only. */
  lemma LineIsSaid(key: Naming, committed: set<Bytes>, line: Bytes)
    ensures Apart(LoadLine(committed, line), committed) <= Said(key, line)
  {}

  lemma LinesAreSaid(key: Naming, committed: set<Bytes>, line: Bytes, line': Bytes)
    ensures Apart(LoadLine(committed, line), LoadLine(committed, line')) <= Said(key, line) + Said(key, line')
  {
    LineIsSaid(key, committed, line);
    LineIsSaid(key, committed, line');
  }

  ghost predicate Loggables(paths: set<Bytes>) {
    forall p :: p in paths ==> Loggable(p)
  }

  /** Memory with the operation in flight, against the log, outside the paths in doubt. */
  ghost predicate MemoryFollowsLog(s: State) {
    match s.point
    case Down => true
    case AddLogged(path) => Apart(s.committed + {path}, Read(s)) <= s.doubt
    case DeleteLogged(path) => Apart(s.committed - {path}, Read(s)) <= s.doubt
    case _ => Apart(s.committed, Read(s)) <= s.doubt
  }

  ghost predicate MemoryInv(s: State) {
    && SoakLog(s.log) && LineText(s.torn) && (s.torn != [] ==> Said(s.key, s.torn) <= s.doubt)
    && Loggables(s.committed) && (!s.point.Idle? && !s.point.Down? ==> Loggable(s.point.path))
    && MemoryFollowsLog(s)
  }

  lemma {:induction false} RecallLoggable(log: seq<Record>)
    requires SoakLog(log)
    ensures Loggables(Recall(log))
  {
    if log != [] {
      var init, last := log[..|log| - 1], log[|log| - 1];
      RecallLoggable(init);
      assert SoakLogRecord(last);
      SaidLoggable(Recall(init), Content(last));
    }
  }

  lemma SaidLoggable(committed: set<Bytes>, line: Bytes)
    requires Loggables(committed) && LineText(line)
    ensures Loggables(LoadLine(committed, line))
  {
    if IsAdd(line) {
      assert Content(RecordOf(line)) == line;
      BothLines(line[2..]);
    }
  }

  lemma TextConcat(torn: Bytes, tail: Bytes)
    requires LineText(torn) && LineText(tail)
    ensures LineText(torn + tail)
  {
    if tail == [] { assert torn + tail == torn; } else { LineTextThen(torn, tail); }
  }

  lemma AppendedLog(s: State, r: Record, path: Bytes, point: Point)
    requires SoakLog(s.log) && LineText(s.torn) && OneLine(r)
    ensures var s' := Appended(s, r, path, point);
            SoakLog(s'.log) && LineText(s'.torn) && Read(s') == LoadLine(Recall(s.log), s.torn + Content(r))
  {
    var line := s.torn + Content(r);
    TextConcat(s.torn, Content(r));
    SoakLogMore(s.log, RecordOf(line));
    RecallMore(s.log, RecordOf(line));
    assert !IsAdd([]) && !IsDelete([]);
  }

  /** What is read after an append: the operation's effect, but for the paths now in doubt. */
  lemma AppendedReads(s: State, r: Record, path: Bytes, point: Point, after: set<Bytes>)
    requires SoakLog(s.log) && LineText(s.torn) && OneLine(r) && (s.torn != [] ==> Said(s.key, s.torn) <= s.doubt)
    requires r == Added(path) || r == Deleted(path)
    requires after == if r.Added? then Read(s) + {path} else Read(s) - {path}
    ensures var s' := Appended(s, r, path, point);
            Apart(Read(s'), after) <= s'.doubt && (s.torn == [] ==> Read(s') == after)
  {
    var line, before := s.torn + Content(r), Recall(s.log);
    AppendedLog(s, r, path, point);
    LoadOneLine(before, path);
    if s.torn == [] {
      assert line == Content(r) && !IsAdd([]) && !IsDelete([]);
    } else {
      LinesAreSaid(s.key, before, line, s.torn);
    }
  }

  lemma AppendMemory(s: State, r: Record, path: Bytes, point: Point)
    requires MemoryInv(s) && Loggable(path)
    requires (s.point == Stored(path) && r == Added(path) && point == AddLogged(path))
          || (s.point == Removed(path) && r == Deleted(path) && point == DeleteLogged(path))
    ensures MemoryInv(Appended(s, r, path, point))
  {
    AppendedLog(s, r, path, point);
    var s', after := Appended(s, r, path, point), if r.Added? then Read(s) + {path} else Read(s) - {path};
    AppendedReads(s, r, path, point, after);
    AppendedFollows(s.committed, Read(s), Read(s'), after, s.doubt, s'.doubt, path, r.Added?);
  }

  lemma AppendedFollows(committed: set<Bytes>, before: set<Bytes>, read: set<Bytes>, after: set<Bytes>,
                        doubt: set<Bytes>, doubt': set<Bytes>, path: Bytes, added: bool)
    requires Apart(committed, before) <= doubt <= doubt' && Apart(read, after) <= doubt'
    requires after == if added then before + {path} else before - {path}
    ensures Apart(if added then committed + {path} else committed - {path}, read) <= doubt'
  {
    var now := if added then committed + {path} else committed - {path};
    forall p | p in Apart(now, read) ensures p in doubt' {
      if p !in Apart(read, after) { assert p in Apart(now, after) && p in Apart(committed, before); }
    }
  }

  lemma TornMemory(s: State, path: Bytes, tail: Bytes)
    requires MemoryInv(s) && LineText(tail)
    ensures MemoryInv(Torn(s, path, tail))
  {
    TextConcat(s.torn, tail);
  }

  lemma MemoryNext(s: State, e: Event, s': State)
    requires MemoryInv(s) && Next(s, e) == Some(s')
    requires e.Store? ==> Loggable(e.path)
    requires e.Kill? ==> LineText(e.tail)
    ensures MemoryInv(s')
  {
    match e
    case Append =>
      if s.point.Stored? {
        AppendMemory(s, Added(s.point.path), s.point.path, s'.point);
      } else {
        AppendMemory(s, Deleted(s.point.path), s.point.path, s'.point);
      }
    case Kill(tail) =>
      if tail != [] { TornMemory(s, s.point.path, tail); }
    case Restart =>
      ReadIsReplay(s);
      RecallLoggable(s.log);
      SaidLoggable(Recall(s.log), s.torn);
    case _ =>
  }

  // ---------------------------------------------------------------------------
  // Log and database
  // ---------------------------------------------------------------------------

  function Elements(paths: seq<Bytes>): set<Bytes> {
    set p | p in paths
  }

  /** Deletions done but not logged: the running one, and those a kill cut off. */
  function UnloggedDeletes(s: State): set<Bytes> {
    Elements(s.deleteKills) + if s.point.Removed? then {s.point.path} else {}
  }

  function UnloggedStores(s: State): set<Bytes> {
    Elements(s.storeKills) + if s.point.Stored? then {s.point.path} else {}
  }

  /** The log promises too much or knows too little only where an operation was cut off or a path is in doubt. */
  ghost predicate Bounded(replay: set<Bytes>, database: set<Bytes>, deletes: set<Bytes>, stores: set<Bytes>,
                          doubt: set<Bytes>)
  {
    replay - database <= deletes + doubt && database - replay <= stores + doubt
  }

  /** A path is the name of its file, or both are in doubt. */
  ghost predicate OwnNames(key: Naming, paths: set<Bytes>, doubt: set<Bytes>) {
    forall p :: p in paths ==> Owns(key, p) || (p in doubt && key(p) in doubt)
  }

  /** The operation in flight has been done in the database. */
  ghost predicate InFlight(s: State) {
    match s.point
    case Stored(path) => Owns(s.key, path) && path in s.database
    case AddLogged(path) => Owns(s.key, path)
    case Removed(path) => OwnNames(s.key, {path}, s.doubt) && s.key(path) !in s.database
    case DeleteLogged(path) => OwnNames(s.key, {path}, s.doubt)
    case _ => true
  }

  ghost predicate DatabaseInv(s: State) {
    && OwnNames(s.key, s.committed, s.doubt) && OwnNames(s.key, Recall(s.log), s.doubt) && InFlight(s)
    && Bounded(Read(s), s.database, UnloggedDeletes(s), UnloggedStores(s), s.doubt)
  }

  lemma OwnNamesMore(key: Naming, paths: set<Bytes>, doubt: set<Bytes>, doubt': set<Bytes>)
    requires OwnNames(key, paths, doubt) && doubt <= doubt'
    ensures OwnNames(key, paths, doubt')
  {}

  lemma OwnNamesSaid(key: Naming, committed: set<Bytes>, line: Bytes, doubt: set<Bytes>)
    requires OwnNames(key, committed, doubt) && Said(key, line) <= doubt
    ensures OwnNames(key, LoadLine(committed, line), doubt)
  {}

  /** Logging a store takes it off the unlogged ones, or puts it in doubt. */
  lemma BoundedAdd(replay: set<Bytes>, replay': set<Bytes>, database: set<Bytes>, deletes: set<Bytes>,
                   stores: set<Bytes>, doubt: set<Bytes>, doubt': set<Bytes>, path: Bytes)
    requires Bounded(replay, database, deletes, stores + {path}, doubt) && path in database
    requires doubt <= doubt' && Apart(replay', replay + {path}) <= doubt'
    ensures Bounded(replay', database, deletes, stores, doubt')
  {
    forall p | p in database - replay' ensures p in stores + doubt' {
      if p !in doubt' { assert p !in replay + {path} && p in database - replay; }
    }
    forall p | p in replay' - database ensures p in deletes + doubt' {
      if p !in doubt' { assert p in replay - database; }
    }
  }

  lemma BoundedDelete(replay: set<Bytes>, replay': set<Bytes>, database: set<Bytes>, deletes: set<Bytes>,
                      stores: set<Bytes>, doubt: set<Bytes>, doubt': set<Bytes>, path: Bytes)
    requires Bounded(replay, database, deletes + {path}, stores, doubt) && (path !in database || path in doubt')
    requires doubt <= doubt' && Apart(replay', replay - {path}) <= doubt'
    ensures Bounded(replay', database, deletes, stores, doubt')
  {
    forall p | p in database - replay' ensures p in stores + doubt' {
      if p !in doubt' { assert p in database - replay; }
    }
    forall p | p in replay' - database ensures p in deletes + doubt' {
      if p !in doubt' { assert p in replay - database && p != path; }
    }
  }

  lemma AppendNames(s: State, r: Record, path: Bytes, point: Point)
    requires DatabaseInv(s) && OwnNames(s.key, {path}, s.doubt) && (r == Added(path) || r == Deleted(path))
    ensures var s' := Appended(s, r, path, point);
            OwnNames(s.key, s'.committed, s'.doubt) && OwnNames(s.key, Recall(s'.log), s'.doubt)
  {
    var s', line := Appended(s, r, path, point), s.torn + Content(r);
    RecallMore(s.log, RecordOf(line));
    if s.torn == [] {
      assert line == Content(r);
      LoadOneLine(Recall(s.log), path);
    } else {
      OwnNamesMore(s.key, Recall(s.log), s.doubt, s'.doubt);
      OwnNamesSaid(s.key, Recall(s.log), line, s'.doubt);
    }
  }

  lemma AppendAdded(s: State, path: Bytes)
    requires MemoryInv(s) && DatabaseInv(s) && s.point == Stored(path)
    ensures DatabaseInv(Appended(s, Added(path), path, AddLogged(path)))
  {
    var s' := Appended(s, Added(path), path, AddLogged(path));
    AppendNames(s, Added(path), path, AddLogged(path));
    AppendedReads(s, Added(path), path, AddLogged(path), Read(s) + {path});
    assert UnloggedDeletes(s') == UnloggedDeletes(s) && UnloggedStores(s') == Elements(s.storeKills);
    BoundedAdd(Read(s), Read(s'), s.database, UnloggedDeletes(s), Elements(s.storeKills), s.doubt, s'.doubt, path);
  }

  lemma AppendDeleted(s: State, path: Bytes)
    requires MemoryInv(s) && DatabaseInv(s) && s.point == Removed(path)
    ensures DatabaseInv(Appended(s, Deleted(path), path, DeleteLogged(path)))
  {
    var s' := Appended(s, Deleted(path), path, DeleteLogged(path));
    AppendNames(s, Deleted(path), path, DeleteLogged(path));
    AppendedReads(s, Deleted(path), path, DeleteLogged(path), Read(s) - {path});
    assert UnloggedStores(s') == UnloggedStores(s) && UnloggedDeletes(s') == Elements(s.deleteKills);
    BoundedDelete(Read(s), Read(s'), s.database, Elements(s.deleteKills), UnloggedStores(s), s.doubt, s'.doubt, path);
  }

  lemma ElementsMore(paths: seq<Bytes>, path: Bytes)
    ensures Elements(paths + [path]) == Elements(paths) + {path}
  {}

  /** What was in flight is now among the kills. */
  lemma KillBlames(s: State, s': State)
    requires Next(s, Kill([])) == Some(s')
    ensures UnloggedDeletes(s') == UnloggedDeletes(s) && UnloggedStores(s') == UnloggedStores(s)
    ensures s'.torn == s.torn && s'.doubt == s.doubt
  {
    assert s.torn + [] == s.torn;
    if s.point.Removed? { ElementsMore(s.deleteKills, s.point.path); }
    if s.point.Stored? { ElementsMore(s.storeKills, s.point.path); }
  }

  lemma TornReads(s: State, path: Bytes, tail: Bytes)
    requires s.torn != [] ==> Said(s.key, s.torn) <= s.doubt
    ensures Apart(Read(Torn(s, path, tail)), Read(s)) <= Torn(s, path, tail).doubt
  {
    assert !IsAdd([]) && !IsDelete([]);
    LinesAreSaid(s.key, Recall(s.log), s.torn + tail, s.torn);
    LineIsSaid(s.key, Recall(s.log), s.torn + tail);
  }

  lemma BoundedTorn(replay: set<Bytes>, replay': set<Bytes>, database: set<Bytes>, deletes: set<Bytes>,
                    stores: set<Bytes>, doubt: set<Bytes>, doubt': set<Bytes>, path: Bytes)
    requires Bounded(replay, database, deletes + {path}, stores + {path}, doubt)
    requires doubt + {path} <= doubt' && Apart(replay', replay) <= doubt'
    ensures Bounded(replay', database, deletes, stores, doubt')
  {
    forall p | p in Apart(replay', database) && p !in doubt' ensures p in Apart(replay, database) && p != path {
      assert p !in Apart(replay', replay);
    }
  }

  /** What was in flight is now in doubt, and so is what the cut line says. */
  lemma TornDatabase(s: State, path: Bytes, tail: Bytes)
    requires MemoryInv(s) && DatabaseInv(s) && (s.point == Stored(path) || s.point == Removed(path))
    ensures DatabaseInv(Torn(s, path, tail))
  {
    var s' := Torn(s, path, tail);
    TornReads(s, path, tail);
    OwnNamesMore(s.key, s.committed, s.doubt, s'.doubt);
    OwnNamesMore(s.key, Recall(s.log), s.doubt, s'.doubt);
    var deletes, stores := Elements(s.deleteKills), Elements(s.storeKills);
    assert UnloggedDeletes(s') == deletes && UnloggedStores(s') == stores;
    BoundedTorn(Read(s), Read(s'), s.database, deletes, stores, s.doubt, s'.doubt, path);
  }

  lemma BoundedBegin(replay: set<Bytes>, database: set<Bytes>, database': set<Bytes>, deletes: set<Bytes>,
                     stores: set<Bytes>, doubt: set<Bytes>, name: Bytes)
    requires Bounded(replay, database, deletes, stores, doubt)
    ensures database' == database + {name} ==> Bounded(replay, database', deletes, stores + {name}, doubt)
    ensures database' == database - {name} ==> Bounded(replay, database', deletes + {name}, stores, doubt)
  {
    assert database + {name} - replay <= (database - replay) + {name};
    assert replay - (database - {name}) <= (replay - database) + {name};
  }

  lemma StoreDatabase(s: State, path: Bytes)
    requires DatabaseInv(s) && s.point.Idle? && Owns(s.key, path)
    ensures DatabaseInv(s.(database := s.database + {path}, point := Stored(path)))
  {
    var s' := s.(database := s.database + {path}, point := Stored(path));
    assert Read(s') == Read(s);
    assert UnloggedDeletes(s') == UnloggedDeletes(s) && UnloggedStores(s') == UnloggedStores(s) + {path};
    BoundedBegin(Read(s), s.database, s'.database, UnloggedDeletes(s), UnloggedStores(s), s.doubt, path);
  }

  lemma DeleteDatabase(s: State, path: Bytes)
    requires DatabaseInv(s) && s.point.Idle? && path in s.committed
    ensures DatabaseInv(s.(database := s.database - {s.key(path)}, point := Removed(path)))
  {
    var s' := s.(database := s.database - {s.key(path)}, point := Removed(path));
    assert Read(s') == Read(s) && OwnNames(s.key, {path}, s.doubt);
    assert UnloggedDeletes(s') == UnloggedDeletes(s) + {path} && UnloggedStores(s') == UnloggedStores(s);
    BoundedBegin(Read(s), s.database, s'.database, UnloggedDeletes(s), UnloggedStores(s), s.doubt, s.key(path));
  }

  lemma RememberDatabase(s: State, s': State)
    requires DatabaseInv(s) && Next(s, Remember) == Some(s')
    ensures DatabaseInv(s')
  {
    assert UnloggedDeletes(s') == UnloggedDeletes(s) && UnloggedStores(s') == UnloggedStores(s);
    assert Read(s') == Read(s);
  }

  lemma ReloadedDatabase(s: State)
    requires DatabaseInv(s) && s.point.Down? && (s.torn != [] ==> Said(s.key, s.torn) <= s.doubt)
    ensures DatabaseInv(s.(committed := Read(s), point := Idle))
  {
    var s' := s.(committed := Read(s), point := Idle);
    assert Read(s') == Read(s) && !IsAdd([]) && !IsDelete([]);
    assert UnloggedDeletes(s') == UnloggedDeletes(s) && UnloggedStores(s') == UnloggedStores(s);
    if s.torn != [] { OwnNamesSaid(s.key, Recall(s.log), s.torn, s.doubt); }
  }

  lemma KillDatabase(s: State, s': State)
    requires DatabaseInv(s) && Next(s, Kill([])) == Some(s')
    ensures DatabaseInv(s')
  {
    KillBlames(s, s');
    assert Read(s') == Read(s);
  }

  lemma DatabaseNext(s: State, e: Event, s': State)
    requires MemoryInv(s) && DatabaseInv(s) && Next(s, e) == Some(s')
    requires e.Store? ==> s.key(e.path) == e.path
    ensures DatabaseInv(s')
  {
    match e
    case Store(path) => StoreDatabase(s, path);
    case Delete(path) => DeleteDatabase(s, path);
    case Append => if s.point.Stored? { AppendAdded(s, s.point.path); } else { AppendDeleted(s, s.point.path); }
    case Remember => RememberDatabase(s, s');
    case Kill(tail) => if tail == [] { KillDatabase(s, s'); } else { TornDatabase(s, s.point.path, tail); }
    case Restart =>
      ReadIsReplay(s);
      ReloadedDatabase(s);
  }

  // ---------------------------------------------------------------------------
  // Judge and log
  // ---------------------------------------------------------------------------

  /** What `diff_checkpoint` reads. */
  function Judged(s: State): set<Bytes> {
    Diffed(Lines(LogBytes(s)))
  }

  /** The judge follows the log outside the paths in doubt. */
  ghost predicate JudgeInv(s: State) {
    && (s.point.Stored? ==> TAB !in s.point.path)
    && Apart(Diffed(Contents(s.log)), Recall(s.log)) <= s.doubt
  }

  lemma DiffIsSaid(key: Naming, committed: set<Bytes>, line: Bytes)
    ensures Apart(DiffLine(committed, line), committed) <= Said(key, line)
  {}

  lemma NoLineNoDiff(committed: set<Bytes>)
    ensures DiffLine(committed, []) == committed && LoadLine(committed, []) == committed
  {
    assert !IsAdd([]) && !IsDelete([]);
  }

  lemma JudgedIsDiffed(s: State)
    requires SoakLog(s.log) && LineText(s.torn)
    ensures Judged(s) == DiffLine(Diffed(Contents(s.log)), s.torn)
  {
    forall i | 0 <= i < |s.log| ensures OneLine(s.log[i]) { assert SoakLogRecord(s.log[i]); }
    LinesOfPrint(s.log, s.torn);
    LastLine(s.torn);
    if s.torn == [] {
      NoLineNoDiff(Diffed(Contents(s.log)));
      assert Contents(s.log) + [] == Contents(s.log);
    } else {
      assert (Contents(s.log) + [s.torn])[..|s.log|] == Contents(s.log);
    }
  }

  /** The judge of a run, against what the worker would load. */
  lemma JudgedFollows(s: State)
    requires MemoryInv(s) && JudgeInv(s)
    ensures Apart(Judged(s), Read(s)) <= s.doubt
  {
    JudgedIsDiffed(s);
    var diffed, recalled := Diffed(Contents(s.log)), Recall(s.log);
    if s.torn == [] {
      NoLineNoDiff(diffed);
      NoLineNoDiff(recalled);
    } else {
      BothSaid(s.key, diffed, recalled, s.torn);
    }
  }

  lemma BothSaid(key: Naming, diffed: set<Bytes>, recalled: set<Bytes>, line: Bytes)
    ensures Apart(DiffLine(diffed, line), LoadLine(recalled, line)) <= Apart(diffed, recalled) + Said(key, line)
  {
    DiffIsSaid(key, diffed, line);
    LineIsSaid(key, recalled, line);
  }

  /** On a line of the worker's own both readers do the same. */
  lemma BothRead(diffed: set<Bytes>, recalled: set<Bytes>, r: Record)
    requires (r.Added? && TAB !in r.path) || r.Deleted?
    ensures Apart(DiffLine(diffed, Content(r)), LoadLine(recalled, Content(r))) <= Apart(diffed, recalled)
  {
    RecordOfContent(r.path);
    SameAsLoadExactly(Content(r));
    assert Content(r)[2..] == r.path;
    LoadOneLine(diffed, r.path);
    LoadOneLine(recalled, r.path);
  }

  lemma AppendJudge(s: State, r: Record, path: Bytes, point: Point)
    requires JudgeInv(s) && !point.Stored? && ((r == Added(path) && TAB !in path) || r == Deleted(path))
    ensures JudgeInv(Appended(s, r, path, point))
  {
    var s', line := Appended(s, r, path, point), s.torn + Content(r);
    var diffed, recalled := Diffed(Contents(s.log)), Recall(s.log);
    RecallMore(s.log, RecordOf(line));
    assert Contents(s'.log) == Contents(s.log) + [line];
    assert (Contents(s.log) + [line])[..|s.log|] == Contents(s.log);
    if s.torn == [] {
      assert line == Content(r);
      BothRead(diffed, recalled, r);
    } else {
      BothSaid(s.key, diffed, recalled, line);
    }
  }

  lemma JudgeNext(s: State, e: Event, s': State)
    requires JudgeInv(s) && Next(s, e) == Some(s') && (e.Store? ==> TAB !in e.path)
    ensures JudgeInv(s')
  {
    if e.Append? {
      if s.point.Stored? {
        AppendJudge(s, Added(s.point.path), s.point.path, s'.point);
      } else {
        AppendJudge(s, Deleted(s.point.path), s.point.path, s'.point);
      }
    }
  }

  // ---------------------------------------------------------------------------
  // Every run
  // ---------------------------------------------------------------------------

  /** Every path the run stores can be read back from its line. */
  ghost predicate StoresLoggable(events: seq<Event>) {
    forall e :: e in events && e.Store? ==> Loggable(e.path)
  }

  /** Every path the run stores is the name of its file. */
  ghost predicate StoresOwnNames(key: Naming, events: seq<Event>) {
    forall e :: e in events && e.Store? ==> key(e.path) == e.path
  }

  ghost predicate StoresTabFree(events: seq<Event>) {
    forall e :: e in events && e.Store? ==> TAB !in e.path
  }

  /** No kill cuts a line inside a character or behind a return. */
  ghost predicate CleanCuts(events: seq<Event>) {
    forall e :: e in events && e.Kill? ==> LineText(e.tail)
  }

  lemma {:induction false} MemoryRuns(key: Naming, events: seq<Event>)
    requires Run(Start(key), events).Some? && StoresLoggable(events) && CleanCuts(events)
    ensures MemoryInv(Run(Start(key), events).value)
    decreases |events|
  {
    if events == [] {
      NoLineNoDiff({});
    } else {
      var init := events[..|events| - 1];
      MemoryRuns(key, init);
      MemoryNext(Run(Start(key), init).value, events[|events| - 1], Run(Start(key), events).value);
    }
  }

  lemma {:induction false} SameNaming(key: Naming, events: seq<Event>)
    requires Run(Start(key), events).Some?
    ensures Run(Start(key), events).value.key == key
    decreases |events|
  {
    if events != [] {
      var init := events[..|events| - 1];
      SameNaming(key, init);
      NextNames(Run(Start(key), init).value, events[|events| - 1]);
    }
  }

  lemma NextNames(s: State, e: Event)
    requires Next(s, e).Some?
    ensures Next(s, e).value.key == s.key
  {}

  lemma {:induction false} DatabaseRuns(key: Naming, events: seq<Event>)
    requires Run(Start(key), events).Some? && StoresLoggable(events) && StoresOwnNames(key, events) && CleanCuts(events)
    ensures DatabaseInv(Run(Start(key), events).value)
    decreases |events|
  {
    if events == [] {
      NoLineNoDiff({});
    } else {
      var init := events[..|events| - 1];
      DatabaseRuns(key, init);
      MemoryRuns(key, init);
      SameNaming(key, init);
      LastIsOwnName(key, events);
      DatabaseNext(Run(Start(key), init).value, events[|events| - 1], Run(Start(key), events).value);
    }
  }

  lemma LastIsOwnName(key: Naming, events: seq<Event>)
    requires StoresOwnNames(key, events) && events != []
    ensures StoresOwnNames(key, events[..|events| - 1])
    ensures var last := events[|events| - 1];
            last.Store? ==> key(last.path) == last.path
  {
    assert events[|events| - 1] in events;
  }

  lemma {:induction false} JudgeRuns(key: Naming, events: seq<Event>)
    requires Run(Start(key), events).Some? && StoresTabFree(events)
    ensures JudgeInv(Run(Start(key), events).value)
    decreases |events|
  {
    if events != [] {
      var init := events[..|events| - 1];
      JudgeRuns(key, init);
      JudgeNext(Run(Start(key), init).value, events[|events| - 1], Run(Start(key), events).value);
    }
  }

  /** How many kills of each kind a run had: before a delete's line or a store's, and inside a line. */
  function KillsAt(s: State, events: seq<Event>, atDelete: bool): nat
    decreases |events|
  {
    if events == [] then 0 else
    var init, last := events[..|events| - 1], events[|events| - 1];
    KillsAt(s, init, atDelete) +
    match Run(s, init)
    case None => 0
    case Some(t) => if last == Kill([]) && (if atDelete then t.point.Removed? else t.point.Stored?) then 1 else 0
  }

  function Tears(events: seq<Event>): nat {
    if events == [] then 0 else
    var last := events[|events| - 1];
    Tears(events[..|events| - 1]) + if last.Kill? && last.tail != [] then 1 else 0
  }

  lemma {:induction false} KillsCounted(key: Naming, events: seq<Event>)
    requires Run(Start(key), events).Some?
    ensures var s := Run(Start(key), events).value;
            |s.deleteKills| == KillsAt(Start(key), events, true) && |s.storeKills| == KillsAt(Start(key), events, false)
    decreases |events|
  {
    if events != [] { KillsCounted(key, events[..|events| - 1]); }
  }

  lemma UnionSize(a: set<Bytes>, b: set<Bytes>)
    ensures |a + b| <= |a| + |b|
  {
    assert a + b == a + (b - a);
    Words.SubsetSize(b - a, b);
  }

  lemma FewSaid(key: Naming, doubt: set<Bytes>, path: Bytes, line: Bytes)
    ensures |doubt + {path} + Said(key, line)| <= |doubt| + 4
  {
    var named := if IsAdd(line) || IsDelete(line) then {line[2..], key(line[2..])} else {};
    var diffed := match DiffPath(line) case Some(p) => {p} case None => {};
    UnionSize(named, diffed);
    UnionSize(doubt, {path});
    UnionSize(doubt + {path}, Said(key, line));
  }

  /** A line cut in two puts at most eight paths in doubt: four when it is cut, four when the next line runs into it. */
  lemma {:induction false} FewDoubts(key: Naming, events: seq<Event>)
    requires Run(Start(key), events).Some?
    ensures var s := Run(Start(key), events).value;
            |s.doubt| + (if s.torn == [] then 0 else 4) <= 8 * Tears(events)
    decreases |events|
  {
    if events != [] {
      var init, last := events[..|events| - 1], events[|events| - 1];
      FewDoubts(key, init);
      DoubtsNext(Run(Start(key), init).value, last, Run(Start(key), events).value);
    }
  }

  lemma DoubtsNext(s: State, e: Event, s': State)
    requires Next(s, e) == Some(s')
    ensures |s'.doubt| + (if s'.torn == [] then 0 else 4)
         <= |s.doubt| + (if s.torn == [] then 0 else 4) + if e.Kill? && e.tail != [] then 8 else 0
  {
    match e
    case Append =>
      if s.point.Stored? {
        AppendDoubts(s, Added(s.point.path), s.point.path, s'.point);
      } else {
        AppendDoubts(s, Deleted(s.point.path), s.point.path, s'.point);
      }
    case Kill(tail) => KillDoubts(s, tail, s');
    case _ =>
  }

  lemma AppendDoubts(s: State, r: Record, path: Bytes, point: Point)
    ensures |Appended(s, r, path, point).doubt| <= |s.doubt| + if s.torn == [] then 0 else 4
  {
    FewSaid(s.key, s.doubt, path, s.torn + Content(r));
  }

  lemma KillDoubts(s: State, tail: Bytes, s': State)
    requires Next(s, Kill(tail)) == Some(s')
    ensures if tail == [] then s'.doubt == s.doubt && s'.torn == s.torn else |s'.doubt| <= |s.doubt| + 4
  {
    if tail == [] { assert s.torn + tail == s.torn; } else { TornDoubts(s, s.point.path, tail); }
  }

  lemma TornDoubts(s: State, path: Bytes, tail: Bytes)
    ensures |Torn(s, path, tail).doubt| <= |s.doubt| + 4
  {
    FewSaid(s.key, s.doubt, path, s.torn + tail);
  }

  lemma {:induction false} FewElements(paths: seq<Bytes>)
    ensures |Elements(paths)| <= |paths|
  {
    if paths != [] {
      var init, last := paths[..|paths| - 1], paths[|paths| - 1];
      FewElements(init);
      ElementsMore(init, last);
      assert init + [last] == paths;
    }
  }

  /** A set within the kills of one kind, the operation in flight and the doubts. */
  lemma Counted(part: set<Bytes>, kills: seq<Bytes>, flight: set<Bytes>, doubt: set<Bytes>)
    requires part <= Elements(kills) + flight + doubt
    ensures |part| <= |kills| + |flight| + |doubt|
  {
    FewElements(kills);
    UnionSize(Elements(kills), flight);
    UnionSize(Elements(kills) + flight, doubt);
    Words.SubsetSize(part, Elements(kills) + flight + doubt);
  }

  /**
   After any run of stores, deletes, kills between lines or inside them, and restarts. At the head of
   the loop memory is the replay of the log's bytes, but for the paths in doubt. The paths the log
   promises and the database lacks are no more than the kills between a delete and its line, with
   the delete now running, and eight for each line cut in two; the paths the log does not know are no
   more than the kills between a store and its line, with the store now running, and those eight.
   The stored paths must be ones a line can hold and the engine keeps: `SoakExact.EveryRunExactly`
   says that no less will do.
   */
  lemma EveryRun(key: Naming, events: seq<Event>)
    requires Run(Start(key), events).Some? && StoresLoggable(events) && StoresOwnNames(key, events) && CleanCuts(events)
    ensures var s := Run(Start(key), events).value;
            && (s.point.Idle? ==> Apart(s.committed, Replay(s)) <= s.doubt)
            && Replay(s) - s.database <= UnloggedDeletes(s) + s.doubt
            && s.database - Replay(s) <= UnloggedStores(s) + s.doubt
            && |s.doubt| <= 8 * Tears(events)
            && |Replay(s) - s.database|
               <= KillsAt(Start(key), events, true) + 8 * Tears(events) + (if s.point.Removed? then 1 else 0)
            && |s.database - Replay(s)|
               <= KillsAt(Start(key), events, false) + 8 * Tears(events) + (if s.point.Stored? then 1 else 0)
  {
    var s := Run(Start(key), events).value;
    MemoryRuns(key, events);
    DatabaseRuns(key, events);
    ReadIsReplay(s);
    FewDoubts(key, events);
    KillsCounted(key, events);
    Counted(Replay(s) - s.database, s.deleteKills, if s.point.Removed? then {s.point.path} else {}, s.doubt);
    Counted(s.database - Replay(s), s.storeKills, if s.point.Stored? then {s.point.path} else {}, s.doubt);
  }

  /** The judge of `diff_checkpoint`, on a run whose paths hold no tab: it blames no more paths than kills allow. */
  lemma DiffBlamesKills(key: Naming, events: seq<Event>)
    requires Run(Start(key), events).Some? && StoresLoggable(events) && StoresOwnNames(key, events) && CleanCuts(events)
    requires StoresTabFree(events)
    ensures var s := Run(Start(key), events).value;
            && Judged(s) - s.database <= UnloggedDeletes(s) + s.doubt
            && |Judged(s) - s.database|
               <= KillsAt(Start(key), events, true) + 8 * Tears(events) + (if s.point.Removed? then 1 else 0)
  {
    var s := Run(Start(key), events).value;
    MemoryRuns(key, events);
    DatabaseRuns(key, events);
    JudgeRuns(key, events);
    JudgedFollows(s);
    FewDoubts(key, events);
    KillsCounted(key, events);
    forall p | p in Judged(s) - s.database ensures p in UnloggedDeletes(s) + s.doubt {
      if p !in s.doubt { assert p !in Apart(Judged(s), Read(s)); }
    }
    Counted(Judged(s) - s.database, s.deleteKills, if s.point.Removed? then {s.point.path} else {}, s.doubt);
  }
}
