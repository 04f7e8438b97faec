/**
 The soak worker's protocol: store or delete in the database, then append a line to the checkpoint
 log, then update the set in memory; a kill may fall between any two of these or inside the line,
 and a restart reads the log back. The worker logs and remembers the path it was given, the engine
 keeps the file under its normalized name; the database is the set of those names, and its
 operations are atomic.
 */
module SoakWorker {
  import opened Common
  import opened Bytes
  import opened Checkpoint
  import EnginePath

  // ---------------------------------------------------------------------------
  // What a log recalls
  // ---------------------------------------------------------------------------

  /** A path whose lines can be read back. */
  predicate Loggable(path: Bytes) {
    OneLine(Added(path)) && OneLine(Deleted(path))
  }

  lemma BothLines(path: Bytes)
    ensures Loggable(path) <==> OneLine(Added(path))
    ensures Loggable(path) <==> OneLine(Deleted(path))
  {
    var a, d := Content(Added(path)), Content(Deleted(path));
    assert a[1..] == d[1..] && a[1..][1..] == d[1..][1..] == path;
  }

  /** What a line says. */
  function RecordOf(line: Bytes): (r: Record)
    ensures Content(r) == line
  {
    if IsAdd(line) then
      assert line == [PLUS, TAB] + line[2..];
      Added(line[2..])
    else if IsDelete(line) then
      assert line == [MINUS, TAB] + line[2..];
      Deleted(line[2..])
    else Stray(line)
  }

  lemma RecordOfContent(path: Bytes)
    ensures RecordOf(Content(Added(path))) == Added(path) && RecordOf(Content(Deleted(path))) == Deleted(path)
  {
    var a, d := Content(Added(path)), Content(Deleted(path));
    assert a[2..] == path && d[2..] == path && d[0] == MINUS && [PLUS, TAB][0] == PLUS;
  }

  /** A record that takes one line and is what its line says. */
  predicate SoakLogRecord(r: Record) {
    OneLine(r) && r == RecordOf(Content(r))
  }

  ghost predicate SoakLog(log: seq<Record>) {
    forall i :: 0 <= i < |log| ==> SoakLogRecord(log[i])
  }

  lemma SoakLogMore(log: seq<Record>, r: Record)
    requires SoakLog(log) && SoakLogRecord(r)
    ensures SoakLog(log + [r])
  {}

  function Recall(log: seq<Record>): set<Bytes> {
    if log == [] then {} else LoadLine(Recall(log[..|log| - 1]), Content(log[|log| - 1]))
  }

  lemma RecallMore(log: seq<Record>, r: Record)
    ensures Recall(log + [r]) == LoadLine(Recall(log), Content(r))
  {}

  lemma LoadOneLine(committed: set<Bytes>, path: Bytes)
    ensures LoadLine(committed, Content(Added(path))) == committed + {path}
    ensures LoadLine(committed, Content(Deleted(path))) == committed - {path}
  {
    RecordOfContent(path);
  }

  lemma {:induction false} LoadedIsRecalled(log: seq<Record>)
    ensures Loaded(Contents(log)) == Recall(log)
  {
    if log != [] {
      var n := |log| - 1;
      LoadedIsRecalled(log[..n]);
      assert Contents(log)[..n] == Contents(log[..n]);
    }
  }

  /** What `load_checkpoint` reads from whole lines and a part of one is what they say, the part included. */
  lemma LoadWholeLog(log: seq<Record>, torn: Bytes)
    requires SoakLog(log) && LineText(torn)
    ensures Loaded(Lines(Print(log) + torn)) == LoadLine(Recall(log), torn)
  {
    forall i | 0 <= i < |log| ensures OneLine(log[i]) { assert SoakLogRecord(log[i]); }
    LinesOfPrint(log, torn);
    LoadedIsRecalled(log);
    LastLine(torn);
    if torn == [] {
      assert Contents(log) + [] == Contents(log) && Print(log) + torn == Print(log);
    } else {
      assert (Contents(log) + [torn])[..|log|] == Contents(log);
    }
  }

  lemma LastLine(torn: Bytes)
    requires LineText(torn)
    ensures Lines(torn) == if torn == [] then [] else [torn]
  {
    if torn != [] {
      IndexOfIs(torn, NEWLINE, |torn|);
      assert torn[..|torn|] == torn;
    }
  }

  // ---------------------------------------------------------------------------
  // The protocol
  // ---------------------------------------------------------------------------

  /** How an engine names files. */
  type Naming = Bytes -> Bytes

  /** Nothing can be stored at the root. */
  predicate Storable(key: Naming, path: Bytes) {
    key(path) != EnginePath.ROOT
  }

  /** The path is what the engine calls its file. */
  predicate Owns(key: Naming, path: Bytes) {
    key(path) == path && path != EnginePath.ROOT
  }

  /** Where the worker is: at the head of its loop, between two effects of an operation, or dead. */
  datatype Point =
    | Idle | Stored(path: Bytes) | AddLogged(path: Bytes) | Removed(path: Bytes) | DeleteLogged(path: Bytes) | Down

  /**
   The engine's naming, the database, the log and the part of a line at its end, memory; the paths
   whose operation a kill cut off before its line, and the paths in doubt since a kill cut a line in two.
   */
  datatype State = State(
    key: Naming, database: set<Bytes>, log: seq<Record>, torn: Bytes, committed: set<Bytes>, point: Point,
    storeKills: seq<Bytes>, deleteKills: seq<Bytes>, doubt: set<Bytes>)

  /** A kill leaves some of the running line, short of its newline. */
  datatype Event = Store(path: Bytes) | Delete(path: Bytes) | Append | Remember | Kill(tail: Bytes) | Restart

  function Start(key: Naming): State {
    State(key, {}, [], [], {}, Idle, [], [], {})
  }

  function LogBytes(s: State): Bytes {
    Print(s.log) + s.torn
  }

  function Replay(s: State): set<Bytes> {
    Loaded(Lines(LogBytes(s)))
  }

  /** What a line makes a reader believe something about: its path, that file, and the path `diff_checkpoint` takes. */
  function Said(key: Naming, line: Bytes): set<Bytes> {
    (if IsAdd(line) || IsDelete(line) then {line[2..], key(line[2..])} else {}) +
    match DiffPath(line) case Some(path) => {path} case None => {}
  }

  predicate CanCut(point: Point, tail: Bytes) {
    match point
    case Stored(path) => tail <= Content(Added(path))
    case Removed(path) => tail <= Content(Deleted(path))
    case _ => tail == []
  }

  /** The line goes right behind what is there. */
  function Appended(s: State, r: Record, path: Bytes, point: Point): State {
    var line := s.torn + Content(r);
    s.(log := s.log + [RecordOf(line)], torn := [], point := point,
       doubt := if s.torn == [] then s.doubt else s.doubt + {path} + Said(s.key, line))
  }

  function Torn(s: State, path: Bytes, tail: Bytes): State {
    s.(torn := s.torn + tail, point := Down, doubt := s.doubt + {path} + Said(s.key, s.torn + tail))
  }

  /** The state after an event, when the event can happen. */
  function Next(s: State, e: Event): Option<State> {
    match (e, s.point)
    case (Store(path), Idle) =>
      if Storable(s.key, path) then Some(s.(database := s.database + {s.key(path)}, point := Stored(path))) else None
    case (Delete(path), Idle) =>
      if path in s.committed && s.key(path) in s.database
      then Some(s.(database := s.database - {s.key(path)}, point := Removed(path)))
      else None
    case (Append, Stored(path)) => Some(Appended(s, Added(path), path, AddLogged(path)))
    case (Append, Removed(path)) => Some(Appended(s, Deleted(path), path, DeleteLogged(path)))
    case (Remember, AddLogged(path)) => Some(s.(committed := s.committed + {path}, point := Idle))
    case (Remember, DeleteLogged(path)) => Some(s.(committed := s.committed - {path}, point := Idle))
    case (Kill(_), Down) => None
    case (Kill(tail), _) => if CanCut(s.point, tail) then Some(Killed(s, tail)) else None
    case (Restart, Down) => Some(s.(committed := Replay(s), point := Idle))
    case _ => None
  }

  function Killed(s: State, tail: Bytes): State
    requires CanCut(s.point, tail)
  {
    match s.point
    case Stored(path) =>
      if tail != [] then Torn(s, path, tail) else s.(point := Down, storeKills := s.storeKills + [path])
    case Removed(path) =>
      if tail != [] then Torn(s, path, tail) else s.(point := Down, deleteKills := s.deleteKills + [path])
    case _ => s.(point := Down)
  }

  /** The state after a list of events, when each can happen. */
  function Run(s: State, events: seq<Event>): Option<State>
    decreases |events|
  {
    if events == [] then Some(s) else
    match Run(s, events[..|events| - 1])
    case None => None
    case Some(t) => Next(t, events[|events| - 1])
  }

  lemma RunLast(s: State, events: seq<Event>)
    requires events != [] && Run(s, events).Some?
    ensures var init := events[..|events| - 1];
            Run(s, init).Some? && Next(Run(s, init).value, events[|events| - 1]) == Run(s, events)
  {}

  lemma {:induction false} RunConcat(s: State, a: seq<Event>, b: seq<Event>)
    requires Run(s, a).Some?
    ensures Run(s, a + b) == Run(Run(s, a).value, b)
    decreases |b|
  {
    if b == [] {
      assert a + b == a;
    } else {
      var init := b[..|b| - 1];
      RunConcat(s, a, init);
      assert (a + b)[..|a + b| - 1] == a + init;
    }
  }

  lemma AppendedBytes(s: State, r: Record, path: Bytes, point: Point)
    ensures LogBytes(Appended(s, r, path, point)) == LogBytes(s) + (Content(r) + [NEWLINE])
  {
    var line, log := s.torn + Content(r), Print(s.log);
    PrintMore(s.log, RecordOf(line));
    Regroup(s.torn, Content(r), [NEWLINE]);
    Regroup(log, s.torn, Content(r) + [NEWLINE]);
    assert log + (line + [NEWLINE]) + [] == log + (line + [NEWLINE]);
  }

  /** What an event adds to the bytes of the log: a line, the part of one a kill leaves, or nothing. */
  function Written(s: State, e: Event): Bytes {
    match (e, s.point)
    case (Append, Stored(path)) => Content(Added(path)) + [NEWLINE]
    case (Append, Removed(path)) => Content(Deleted(path)) + [NEWLINE]
    case (Kill(tail), _) => tail
    case _ => []
  }

  /** The log only grows, by what is written, behind whatever a kill left. */
  lemma LogOnlyGrows(s: State, e: Event, s': State)
    requires Next(s, e) == Some(s')
    ensures LogBytes(s') == LogBytes(s) + Written(s, e)
  {
    match e
    case Append => AppendGrows(s, s');
    case Kill(tail) => KillGrows(s, tail, s');
    case _ => SameLog(s, e, s');
  }

  lemma AppendGrows(s: State, s': State)
    requires Next(s, Append) == Some(s')
    ensures LogBytes(s') == LogBytes(s) + Written(s, Append)
  {
    match s.point
    case Stored(path) => AppendedBytes(s, Added(path), path, AddLogged(path));
    case Removed(path) => AppendedBytes(s, Deleted(path), path, DeleteLogged(path));
  }

  lemma KillGrows(s: State, tail: Bytes, s': State)
    requires Next(s, Kill(tail)) == Some(s')
    ensures LogBytes(s') == LogBytes(s) + tail
  {
    assert s'.log == s.log && s'.torn == s.torn + tail;
    Regroup(Print(s.log), s.torn, tail);
  }

  lemma SameLog(s: State, e: Event, s': State)
    requires Next(s, e) == Some(s') && !e.Append? && !e.Kill?
    ensures LogBytes(s') == LogBytes(s) + []
  {
    assert s'.log == s.log && s'.torn == s.torn;
  }

  // ---------------------------------------------------------------------------
  // One iteration of the workload loop
  // ---------------------------------------------------------------------------

  datatype Action = WriteFile | ReadFile | DeleteFile

  class Worker {
    const key: Naming
    var database: set<Bytes>
    var log: seq<Record>
    var torn: Bytes
    var committed: set<Bytes>
    ghost var storeKills: seq<Bytes>
    ghost var deleteKills: seq<Bytes>
    ghost var doubt: set<Bytes>

    constructor (key: Naming)
      ensures Seen() == Start(key)
    {
      this.key := key;
      database, log, torn, committed := {}, [], [], {};
      storeKills, deleteKills, doubt := [], [], {};
    }

    ghost function Seen(): State
      reads this
    {
      State(key, database, log, torn, committed, Idle, storeKills, deleteKills, doubt)
    }

    /** Past the size cap a write is demoted to a read; reads and deletes need something committed. */
    method Iterate(action: Action, capped: bool, source: Option<Bytes>) returns (ghost events: seq<Event>)
      modifies this
      ensures Run(old(Seen()), events) == Some(Seen())
      ensures action.WriteFile? && !capped && source.Some? && Storable(key, source.value) ==>
                Seen() == AfterStore(old(Seen()), source.value)
      ensures action.ReadFile? || (action.WriteFile? && (capped || source.None? || !Storable(key, source.value))) ==>
                Seen() == old(Seen())
      ensures action.DeleteFile? ==>
                || (Seen() == old(Seen())
                    && (old(committed) == {} || exists path :: path in old(committed) && key(path) !in old(database)))
                || exists path :: path in old(committed) && key(path) in old(database)
                                  && Seen() == AfterDelete(old(Seen()), path)
    {
      events := [];
      var chosen := if capped && action.WriteFile? then ReadFile else action;
      match chosen {
        case WriteFile =>
          if source.Some? { events := StoreLogRemember(source.value); }
        case ReadFile =>
        case DeleteFile =>
          if committed == {} { return; }
          var path :| path in committed;
          events := DeleteLogForget(path);
      }
    }

    /** One line, behind whatever a kill left in the file. */
    method AppendLine(r: Record, path: Bytes)
      modifies this`log, this`torn, this`doubt
      ensures log == old(log) + [RecordOf(old(torn) + Content(r))] && torn == []
      ensures doubt == if old(torn) == [] then old(doubt) else old(doubt) + {path} + Said(key, old(torn) + Content(r))
      ensures Print(log) + torn == Print(old(log)) + old(torn) + Content(r) + [NEWLINE]
    {
      var line := torn + Content(r);
      PrintMore(log, RecordOf(line));
      Regroup(torn, Content(r), [NEWLINE]);
      log, doubt := log + [RecordOf(line)], if torn == [] then doubt else doubt + {path} + Said(key, line);
      torn := [];
    }

    /** Stored under its name, logged and remembered as given; a store the engine refuses changes nothing. */
    method StoreLogRemember(path: Bytes) returns (ghost events: seq<Event>)
      modifies this
      ensures Run(old(Seen()), events) == Some(Seen())
      ensures Seen() == if Storable(key, path) then AfterStore(old(Seen()), path) else old(Seen())
      ensures Storable(key, path) ==>
                && database == old(database) + {key(path)} && committed == old(committed) + {path}
                && Print(log) + torn == Print(old(log)) + old(torn) + Content(Added(path)) + [NEWLINE]
    {
      events := [];
      if !Storable(key, path) { return; }
      StoredWhole(Seen(), path);
      database := database + {key(path)};
      AppendLine(Added(path), path);
      committed := committed + {path};
      events := StoreWhole(path);
    }

    /** A delete of a file that is not there changes nothing. */
    method DeleteLogForget(path: Bytes) returns (ghost events: seq<Event>)
      requires path in committed
      modifies this
      ensures Run(old(Seen()), events) == Some(Seen())
      ensures Seen() == if key(path) in old(database) then AfterDelete(old(Seen()), path) else old(Seen())
      ensures key(path) in old(database) ==>
                && database == old(database) - {key(path)} && committed == old(committed) - {path}
                && Print(log) + torn == Print(old(log)) + old(torn) + Content(Deleted(path)) + [NEWLINE]
    {
      events := [];
      if key(path) !in database { return; }
      DeletedWhole(Seen(), path);
      database := database - {key(path)};
      AppendLine(Deleted(path), path);
      committed := committed - {path};
      events := DeleteWhole(path);
    }

    /** A process that starts on an existing log reads its bytes. */
    method Reopen()
      modifies this`committed
      ensures Next(old(Seen()).(point := Down), Restart) == Some(Seen())
    {
      committed := LoadCheckpoint(Some(Print(log) + torn));
    }
  }

  function StoreWhole(path: Bytes): seq<Event> {
    [Store(path), Append, Remember]
  }

  function DeleteWhole(path: Bytes): seq<Event> {
    [Delete(path), Append, Remember]
  }

  function AfterStore(s: State, path: Bytes): State {
    var begun := s.(database := s.database + {s.key(path)}, point := Stored(path));
    var logged := Appended(begun, Added(path), path, AddLogged(path));
    logged.(committed := s.committed + {path}, point := Idle)
  }

  function AfterDelete(s: State, path: Bytes): State {
    var begun := s.(database := s.database - {s.key(path)}, point := Removed(path));
    var logged := Appended(begun, Deleted(path), path, DeleteLogged(path));
    logged.(committed := s.committed - {path}, point := Idle)
  }

  lemma StoredWhole(s: State, path: Bytes)
    requires s.point.Idle? && Storable(s.key, path)
    ensures Run(s, StoreWhole(path)) == Some(AfterStore(s, path))
  {
    var begun := s.(database := s.database + {s.key(path)}, point := Stored(path));
    AppendStep(begun, Added(path), path, AddLogged(path));
    var logged := Appended(begun, Added(path), path, AddLogged(path));
    RememberStep(logged, path);
    ThreeSteps(s, Store(path), begun, Append, logged, Remember, AfterStore(s, path));
  }

  lemma DeletedWhole(s: State, path: Bytes)
    requires s.point.Idle? && path in s.committed && s.key(path) in s.database
    ensures Run(s, DeleteWhole(path)) == Some(AfterDelete(s, path))
  {
    var begun := s.(database := s.database - {s.key(path)}, point := Removed(path));
    AppendStep(begun, Deleted(path), path, DeleteLogged(path));
    var logged := Appended(begun, Deleted(path), path, DeleteLogged(path));
    RememberStep(logged, path);
    ThreeSteps(s, Delete(path), begun, Append, logged, Remember, AfterDelete(s, path));
  }

  lemma AppendStep(s: State, r: Record, path: Bytes, point: Point)
    requires (s.point == Stored(path) && r == Added(path) && point == AddLogged(path))
          || (s.point == Removed(path) && r == Deleted(path) && point == DeleteLogged(path))
    ensures var s' := Appended(s, r, path, point);
            && Next(s, Append) == Some(s') && s'.point == point
            && s'.database == s.database && s'.committed == s.committed
  {}

  lemma RememberStep(s: State, path: Bytes)
    ensures s.point == AddLogged(path) ==>
              Next(s, Remember) == Some(s.(committed := s.committed + {path}, point := Idle))
    ensures s.point == DeleteLogged(path) ==>
              Next(s, Remember) == Some(s.(committed := s.committed - {path}, point := Idle))
  {}

  lemma ThreeSteps(s: State, a: Event, s1: State, b: Event, s2: State, c: Event, s3: State)
    requires Next(s, a) == Some(s1) && Next(s1, b) == Some(s2) && Next(s2, c) == Some(s3)
    ensures Run(s, [a, b, c]) == Some(s3)
  {
    var events := [a, b, c];
    assert events[..2][..1] == events[..1] && events[..1][..0] == [];
    assert Run(s, events[..1]) == Next(s, a) && Run(s, events[..2]) == Next(s1, b);
  }

  lemma KillStep(s: State, tail: Bytes)
    requires !s.point.Down? && CanCut(s.point, tail)
    ensures Next(s, Kill(tail)) == Some(Killed(s, tail)) && Killed(s, tail).point.Down?
  {}

  lemma RestartStep(s: State)
    requires s.point.Down?
    ensures Next(s, Restart) == Some(s.(committed := Replay(s), point := Idle))
  {}
}
