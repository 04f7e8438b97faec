/**
 What the crash worker's writes and mixed modes leave in the database: which numbered files there
 are after any number of rounds of one run.
 */
module DataFiles {
  import opened Common
  import opened Bytes
  import opened Checkpoint
  import opened CrashWorker

  /** In mixed mode every seventh round but the first deletes the file of five rounds before. */
  predicate Gone(mode: Mode, c: nat, n: nat) {
    mode.Mixed? && c + 5 < n && (c + 5) % 7 == 0
  }

  /** What the file of a round holds after `n` rounds, if it is there. */
  function Kept(mode: Mode, c: nat, n: nat): Option<Bytes> {
    if c < n && !Gone(mode, c, n) then Some(DataBody(c)) else None
  }

  ghost predicate IsNumbered(path: Bytes) {
    exists c: nat :: path == DataPath(c)
  }

  /** Exactly the files of the first `n` rounds. */
  ghost predicate Holds(mode: Mode, db: Database, n: nat) {
    && (forall c: nat :: Get(db, DataPath(c)) == Kept(mode, c, n))
    && forall path :: path in db ==> IsNumbered(path)
  }

  /** The file of the next round is there too. */
  ghost predicate HoldsOneMore(mode: Mode, db: Database, n: nat) {
    && (forall c: nat :: Get(db, DataPath(c)) == if c == n then Some(DataBody(n)) else Kept(mode, c, n))
    && forall path :: path in db ==> IsNumbered(path)
  }

  lemma Stores(mode: Mode, db: Database, n: nat)
    requires Holds(mode, db, n)
    ensures HoldsOneMore(mode, db[DataPath(n) := DataBody(n)], n)
  {
    var db' := db[DataPath(n) := DataBody(n)];
    forall c: nat ensures Get(db', DataPath(c)) == if c == n then Some(DataBody(n)) else Kept(mode, c, n) {
      if c != n && DataPath(c) == DataPath(n) { DataPathInjective(c, n); }
    }
  }

  lemma RoundWithoutDelete(mode: Mode, db: Database, n: nat)
    requires HoldsOneMore(mode, db, n) && !(mode.Mixed? && n > 0 && n % 7 == 0)
    ensures Holds(mode, db, n + 1)
  {
    forall c: nat ensures Get(db, DataPath(c)) == Kept(mode, c, n + 1) {
      assert Gone(mode, c, n + 1) <==> Gone(mode, c, n) || (mode.Mixed? && c + 5 == n && n % 7 == 0);
    }
  }

  lemma DeletesFifth(db: Database, n: nat)
    requires HoldsOneMore(Mixed, db, n) && n >= 5 && n % 7 == 0
    ensures Holds(Mixed, db - {DataPath(n - 5)}, n + 1)
  {
    var db' := db - {DataPath(n - 5)};
    forall c: nat ensures Get(db', DataPath(c)) == Kept(Mixed, c, n + 1) {
      if c != n - 5 && DataPath(c) == DataPath(n - 5) { DataPathInjective(c, n - 5); }
    }
  }

  // ---------------------------------------------------------------------------
  // Every run
  // ---------------------------------------------------------------------------

  /** Before a round, before its delete, or after its last operation, lines perhaps still to come. */
  ghost predicate DataInv(mode: Mode, s: State) {
    if s.todo == [] then Holds(mode, s.database, s.counter)
    else if s.counter > 0 && s.todo == DataOps(mode, s.counter - 1) then
      s.pending == [] && Holds(mode, s.database, s.counter - 1)
    else
      && s.counter > 5 && s.todo == [DeleteFile(DataPath(s.counter - 6))] && mode.Mixed?
      && (s.counter - 1) % 7 == 0 && HoldsOneMore(mode, s.database, s.counter - 1)
  }

  function DataOps(mode: Mode, c: nat): seq<Op> {
    var store := StoreFiles([(DataPath(c), DataBody(c))]);
    if mode.Mixed? && c > 0 && c % 7 == 0 then [store, DeleteFile(DataPath(c - 5))] else [store]
  }

  lemma StoreRecords(w: Workload, db: Database, c: nat)
    ensures var rs := OpRecords(w, StoreFiles([(DataPath(c), DataBody(c))]), db);
            PerformAll(db, rs) == db[DataPath(c) := DataBody(c)]
  {
    var r := Committed(DataPath(c), DataBody(c));
    assert OpRecords(w, StoreFiles([(DataPath(c), DataBody(c))]), db) == [r] && [r][1..] == [];
    assert PerformAll(db, [r]) == PerformAll(Performed(db, r), []);
  }

  lemma DeleteRecords(w: Workload, db: Database, path: Bytes)
    ensures PerformAll(db, OpRecords(w, DeleteFile(path), db)) == db - {path}
  {
    if path in db {
      assert [Deleted(path)][1..] == [];
      assert PerformAll(db, [Deleted(path)]) == PerformAll(db - {path}, []);
    } else {
      assert db - {path} == db;
    }
  }

  lemma DataRound(w: Workload, mode: Mode, s: State, s': State)
    requires (mode.Writes? || mode.Mixed?) && DataInv(mode, s) && Next(w, mode, s, Round) == Some(s')
    ensures DataInv(mode, s')
  {
    assert Ops(w, mode, s.counter) == DataOps(mode, s.counter);
  }

  lemma DataBegin(w: Workload, mode: Mode, s: State, s': State)
    requires (mode.Writes? || mode.Mixed?) && DataInv(mode, s) && Next(w, mode, s, Begin) == Some(s')
    ensures DataInv(mode, s')
  {
    var c := s.counter - 1;
    if s.todo == DataOps(mode, c) {
      StoreRecords(w, s.database, c);
      Stores(mode, s.database, c);
      if |s.todo| == 1 { RoundWithoutDelete(mode, s'.database, c); }
    } else {
      DeleteRecords(w, s.database, DataPath(c - 5));
      DeletesFifth(s.database, c);
    }
  }

  lemma DataNext(w: Workload, mode: Mode, s: State, e: Event, s': State)
    requires (mode.Writes? || mode.Mixed?) && DataInv(mode, s) && Next(w, mode, s, e) == Some(s') && !e.Kill?
    ensures DataInv(mode, s')
  {
    match e
    case Round => DataRound(w, mode, s, s');
    case Begin => DataBegin(w, mode, s, s');
    case Append =>
  }

  lemma NothingAtFirst(mode: Mode)
    ensures DataInv(mode, Start(mode))
  {}

  lemma {:induction false} DataRuns(w: Workload, mode: Mode, events: seq<Event>)
    requires (mode.Writes? || mode.Mixed?) && OneRun(events) && Run(w, mode, events).Some?
    ensures DataInv(mode, Run(w, mode, events).value)
    decreases |events|
  {
    if events == [] {
      NothingAtFirst(mode);
    } else {
      var init := events[..|events| - 1];
      DataRuns(w, mode, init);
      DataNext(w, mode, Run(w, mode, init).value, events[|events| - 1], Run(w, mode, events).value);
    }
  }

  /**
   At every loop head of one run, database and log hold exactly the numbered files: in writes mode
   those of all rounds, in mixed mode without those deleted five rounds later.
   */
  lemma DataHolds(w: Workload, mode: Mode, events: seq<Event>)
    requires (mode.Writes? || mode.Mixed?) && OneRun(events) && Run(w, mode, events).Some?
    ensures var s := Run(w, mode, events).value;
            s.pending == [] && s.todo == [] ==> Holds(mode, s.database, s.counter) && Final(s.log) == s.database
  {
    DataRuns(w, mode, events);
    RunAhead(w, mode, events);
  }
}
