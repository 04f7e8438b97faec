/** The crash worker's loop, step by step. */
module CrashLoop {
  import opened Common
  import opened Bytes
  import opened Checkpoint
  import opened CrashWorker
  import DataFiles
  import StressFiles

  /** The events lead to the state without a restart. */
  ghost predicate Reached(w: Workload, mode: Mode, events: seq<Event>, s: State) {
    OneRun(events) && Run(w, mode, events) == Some(s)
  }

  lemma ReachedNext(w: Workload, mode: Mode, events: seq<Event>, s: State, e: Event, s': State)
    requires Reached(w, mode, events, s) && Next(w, mode, s, e) == Some(s') && !e.Kill?
    ensures Reached(w, mode, events + [e], s')
  {}

  lemma MergeRecordsDistinct(w: Workload, c: nat, db: Database)
    ensures Separate(OpRecords(w, MergeFiles(c, BatchPatches(c)), db))
  {
    var rs := OpRecords(w, MergeFiles(c, BatchPatches(c)), db);
    forall j: nat, k: nat | j < k < |rs| ensures rs[j].path != rs[k].path {
      assert BatchPatches(c)[j].0 == MergePath(c, j) && BatchPatches(c)[k].0 == MergePath(c, k);
      MergePathsDistinct(c, j, k);
    }
  }

  /** The delete that follows a store, now and then, in mixed mode. */
  function DataDeletes(mode: Mode, c: nat): seq<Op> {
    if mode.Mixed? && c > 0 && c % 7 == 0 then [DeleteFile(DataPath(c - 5))] else []
  }

  function Target(mode: Mode, c: nat): Option<Bytes> {
    if mode.Mixed? && c > 0 && c % 7 == 0 then Some(DataPath(c - 5)) else None
  }

  lemma DataOps(w: Workload, mode: Mode, c: nat)
    requires mode.Writes? || mode.Mixed?
    ensures Ops(w, mode, c) == [StoreFiles([(DataPath(c), DataBody(c))])] + DataDeletes(mode, c)
    ensures DataDeletes(mode, c) == if Target(mode, c).Some? then [DeleteFile(Target(mode, c).value)] else []
  {}

  /** What one line more does to what is read back. */
  lemma LogMore(log: seq<Record>, r: Record)
    ensures Final(log + [r]) == Performed(Final(log), r)
    ensures CrashRecords(log) && CrashRecord(r) ==>
              Replayed(Lines(Print(log + [r]))) == Performed(Replayed(Lines(Print(log))), r)
  {
    FinalMore(log, r);
    if CrashRecords(log) && CrashRecord(r) {
      PrintableMore(log, r);
      ReadWholeLog(log);
      ReadWholeLog(log + [r]);
    }
  }

  lemma FilesAtHead(w: Workload, mode: Mode, events: seq<Event>, s: State)
    requires Reached(w, mode, events, s) && s.pending == [] && s.todo == []
    ensures mode.Stress? ==> StressFiles.Holds(w, s.database, s.counter)
    ensures mode.Writes? || mode.Mixed? ==> DataFiles.Holds(mode, s.database, s.counter)
  {
    match mode
    case Stress => StressFiles.StressHolds(w, events);
    case Gc =>
    case _ => DataFiles.DataHolds(w, mode, events);
  }

  class Worker {
    const w: Workload
    const mode: Mode
    var database: Database
    var log: seq<Record>
    var counter: nat

    constructor (w: Workload, mode: Mode)
      ensures this.w == w && this.mode == mode && Reached(w, mode, [], Seen([], [], counter))
    {
      this.w, this.mode := w, mode;
      database, log, counter := map[], [Banner(mode)], 0;
    }

    ghost function Seen(pending: seq<Record>, todo: seq<Op>, c: nat): State
      reads this
    {
      State(database, log, pending, todo, c)
    }

    /** From then on whoever reads the file of lines finds this body, and whatever else was found before. */
    method CheckpointCommitted(path: Bytes, body: Bytes)
      modifies this`log
      ensures log == old(log) + [Committed(path, body)]
      ensures Final(log) == Final(old(log))[path := body]
      ensures CrashRecords(old(log)) && CrashRecord(Committed(path, body)) ==>
                Replayed(Lines(Print(log))) == Replayed(Lines(Print(old(log))))[path := body]
      ensures Differing(database, Final(log)) - {path} == Differing(database, Final(old(log))) - {path}
    {
      LogMore(log, Committed(path, body));
      log := log + [Committed(path, body)];
    }

    /** From then on whoever reads the file of lines does not find the path; it cannot be found wrong. */
    method CheckpointDeleted(path: Bytes)
      modifies this`log
      ensures log == old(log) + [Deleted(path)]
      ensures Final(log) == Final(old(log)) - {path}
      ensures CrashRecords(old(log)) && CrashRecord(Deleted(path)) ==>
                Replayed(Lines(Print(log))) == Replayed(Lines(Print(old(log)))) - {path}
      ensures Differing(database, Final(log)) == Differing(database, Final(old(log))) - {path}
    {
      LogMore(log, Deleted(path));
      log := log + [Deleted(path)];
    }

    /** Logs what the file holds now: the path cannot be found wrong, every other one as before. */
    method CheckpointCurrentJson(path: Bytes)
      requires path in database
      modifies this`log
      ensures log == old(log) + [Committed(path, database[path])]
      ensures Differing(database, Final(log)) == Differing(database, Final(old(log))) - {path}
    {
      var body := database[path];
      CheckpointCommitted(path, body);
    }

    /** The files go into the database together. */
    method StoreBatch(files: seq<(Bytes, Bytes)>)
      modifies this`database
      ensures database == PerformAll(old(database), OpRecords(w, StoreFiles(files), old(database)))
    {
      ghost var rs := OpRecords(w, StoreFiles(files), database);
      for i := 0 to |files|
        invariant database == PerformAll(old(database), rs[..i])
      {
        database := database[files[i].0 := files[i].1];
        PerformAllMore(old(database), rs[..i], rs[i]);
        assert rs[..i + 1] == rs[..i] + [rs[i]];
      }
      assert rs[..|files|] == rs;
    }

    /** The patches are merged into their files together. */
    method MergeBatch(patches: seq<(Bytes, nat)>, count: nat)
      requires Separate(OpRecords(w, MergeFiles(count, patches), database))
      modifies this`database
      ensures database == PerformAll(old(database), OpRecords(w, MergeFiles(count, patches), old(database)))
    {
      ghost var rs := OpRecords(w, MergeFiles(count, patches), database);
      for i := 0 to |patches|
        invariant database == PerformAll(old(database), rs[..i])
      {
        NotAmongOthers(rs, i, 0, i);
        UntouchedPath(old(database), rs[..i], rs[i].path);
        database := database[patches[i].0 := w.merged(Get(database, patches[i].0), count, patches[i].1)];
        PerformAllMore(old(database), rs[..i], rs[i]);
        assert rs[..i + 1] == rs[..i] + [rs[i]];
      }
      assert rs[..|patches|] == rs;
    }

    /** Appending a line of the running operation is a step of the protocol. */
    lemma AppendStep(events: seq<Event>, before: seq<Record>, rs: seq<Record>, i: nat, todo: seq<Op>, c: nat)
      requires i < |rs| && Reached(w, mode, events, State(database, before + rs[..i], rs[i..], todo, c))
      ensures Reached(w, mode, events + [Append], State(database, before + rs[..i + 1], rs[i + 1..], todo, c))
    {
      assert rs[i..][1..] == rs[i + 1..] && before + rs[..i] + [rs[i]] == before + rs[..i + 1];
      ReachedNext(w, mode, events, State(database, before + rs[..i], rs[i..], todo, c), Append,
                  State(database, before + rs[..i + 1], rs[i + 1..], todo, c));
    }

    method LogCommitted(files: seq<(Bytes, Bytes)>, ghost rs: seq<Record>, ghost todo: seq<Op>, ghost c: nat,
                        ghost events: seq<Event>)
      returns (ghost events': seq<Event>)
      requires |rs| == |files| && forall i :: 0 <= i < |files| ==> rs[i] == Committed(files[i].0, files[i].1)
      requires Reached(w, mode, events, Seen(rs, todo, c))
      modifies this`log
      ensures log == old(log) + rs && Reached(w, mode, events', Seen([], todo, c))
    {
      events' := events;
      assert old(log) + rs[..0] == old(log) && rs[0..] == rs;
      for i := 0 to |files|
        invariant log == old(log) + rs[..i]
        invariant Reached(w, mode, events', State(database, old(log) + rs[..i], rs[i..], todo, c))
      {
        AppendStep(events', old(log), rs, i, todo, c);
        events' := events' + [Append];
        CheckpointCommitted(files[i].0, files[i].1);
        assert old(log) + rs[..i] + [rs[i]] == old(log) + rs[..i + 1];
      }
      assert rs[..|files|] == rs && rs[|files|..] == [];
    }

    method LogCurrent(patches: seq<(Bytes, nat)>, ghost rs: seq<Record>, ghost todo: seq<Op>, ghost c: nat,
                      ghost events: seq<Event>)
      returns (ghost events': seq<Event>)
      requires |rs| == |patches| && forall i :: 0 <= i < |rs| ==>
                 rs[i].Committed? && rs[i].path == patches[i].0 && Get(database, rs[i].path) == Some(rs[i].body)
      requires Reached(w, mode, events, Seen(rs, todo, c))
      modifies this`log
      ensures log == old(log) + rs && Reached(w, mode, events', Seen([], todo, c))
    {
      events' := events;
      assert old(log) + rs[..0] == old(log) && rs[0..] == rs;
      for i := 0 to |patches|
        invariant log == old(log) + rs[..i]
        invariant Reached(w, mode, events', State(database, old(log) + rs[..i], rs[i..], todo, c))
      {
        AppendStep(events', old(log), rs, i, todo, c);
        events' := events' + [Append];
        assert Get(database, rs[i].path) == Some(rs[i].body);
        CheckpointCurrentJson(patches[i].0);
        assert old(log) + rs[..i] + [rs[i]] == old(log) + rs[..i + 1];
      }
      assert rs[..|patches|] == rs && rs[|patches|..] == [];
    }

    /** An operation done in the database, with its lines to come, is a step of the protocol. */
    lemma BeginStep(events: seq<Event>, before: Database, op: Op, todo: seq<Op>, c: nat)
      requires Reached(w, mode, events, State(before, log, [], [op] + todo, c))
      requires database == PerformAll(before, OpRecords(w, op, before))
      ensures Reached(w, mode, events + [Begin], Seen(OpRecords(w, op, before), todo, c))
    {
      assert ([op] + todo)[1..] == todo;
      ReachedNext(w, mode, events, State(before, log, [], [op] + todo, c), Begin,
          Seen(OpRecords(w, op, before), todo, c));
    }

    method StoreAndLog(files: seq<(Bytes, Bytes)>, ghost todo: seq<Op>, ghost c: nat, ghost events: seq<Event>)
      returns (ghost events': seq<Event>)
      requires Reached(w, mode, events, Seen([], [StoreFiles(files)] + todo, c))
      modifies this`database, this`log
      ensures Reached(w, mode, events', Seen([], todo, c))
      ensures var rs := OpRecords(w, StoreFiles(files), old(database));
              database == PerformAll(old(database), rs) && log == old(log) + rs
    {
      ghost var rs := OpRecords(w, StoreFiles(files), database);
      StoreBatch(files);
      BeginStep(events, old(database), StoreFiles(files), todo, c);
      events' := LogCommitted(files, rs, todo, c, events + [Begin]);
    }

    /** Each merged file is read back and its content logged. */
    method MergeAndLog(patches: seq<(Bytes, nat)>, count: nat, ghost todo: seq<Op>, ghost c: nat,
                       ghost events: seq<Event>)
      returns (ghost events': seq<Event>)
      requires Reached(w, mode, events, Seen([], [MergeFiles(count, patches)] + todo, c))
      requires Separate(OpRecords(w, MergeFiles(count, patches), database))
      modifies this`database, this`log
      ensures Reached(w, mode, events', Seen([], todo, c))
      ensures var rs := OpRecords(w, MergeFiles(count, patches), old(database));
              database == PerformAll(old(database), rs) && log == old(log) + rs
    {
      ghost var rs := OpRecords(w, MergeFiles(count, patches), database);
      MergeBatch(patches, count);
      BeginStep(events, old(database), MergeFiles(count, patches), todo, c);
      forall i | 0 <= i < |rs|
        ensures Get(database, rs[i].path) == Some(rs[i].body)
      {
        PerformedOnce(old(database), rs, i);
      }
      events' := LogCurrent(patches, rs, todo, c, events + [Begin]);
    }

    /** A delete that fails is not logged. */
    method DeleteAndLog(path: Bytes, ghost c: nat, ghost events: seq<Event>) returns (ghost events': seq<Event>)
      requires Reached(w, mode, events, Seen([], [DeleteFile(path)], c))
      modifies this`database, this`log
      ensures Reached(w, mode, events', Seen([], [], c))
      ensures var rs := OpRecords(w, DeleteFile(path), old(database));
              database == PerformAll(old(database), rs) && log == old(log) + rs
    {
      assert [DeleteFile(path)] + [] == [DeleteFile(path)];
      if path in database {
        ghost var rs := [Deleted(path)];
        database := database - {path};
        assert rs[1..] == [] && PerformAll(old(database), rs) == PerformAll(Performed(old(database), rs[0]), []);
        BeginStep(events, old(database), DeleteFile(path), [], c);
        assert log + rs[..0] == log && rs[0..] == rs && rs[..1] == rs;
        AppendStep(events + [Begin], log, rs, 0, [], c);
        CheckpointDeleted(path);
        events' := events + [Begin] + [Append];
      } else {
        BeginStep(events, database, DeleteFile(path), [], c);
        events' := events + [Begin];
      }
    }

    /** `run_stress_iteration` */
    method StressIteration(ghost events: seq<Event>) returns (ghost events': seq<Event>)
      requires mode.Stress? && Reached(w, mode, events, Seen([], [StressOp(w, counter)] + [], counter + 1))
      modifies this`database, this`log
      ensures Reached(w, mode, events', Seen([], [], counter + 1))
    {
      var kind := counter % 10;
      if kind == 0 {
        events' := StoreAndLog(BatchFiles(w, counter), [], counter + 1, events);
      } else if kind <= 4 {
        events' := StressMerge(events);
      } else if kind <= 6 {
        events' := StressMergeBatch(events);
      } else if kind <= 8 {
        events' := StressStore(OverwritePath(counter), w.overwriteBody(counter), events);
      } else {
        events' := StressStore(TinyPath(counter), w.tinyBody(counter), events);
      }
    }

    method StressStore(path: Bytes, body: Bytes, ghost events: seq<Event>) returns (ghost events': seq<Event>)
      requires Reached(w, mode, events, Seen([], [StoreFiles([(path, body)])] + [], counter + 1))
      modifies this`database, this`log
      ensures Reached(w, mode, events', Seen([], [], counter + 1))
    {
      events' := StoreAndLog([(path, body)], [], counter + 1, events);
    }

    method StressMerge(ghost events: seq<Event>) returns (ghost events': seq<Event>)
      requires Reached(w, mode, events,
                 Seen([], [MergeFiles(counter, [(StatePath(counter), counter % 64)])] + [], counter + 1))
      modifies this`database, this`log
      ensures Reached(w, mode, events', Seen([], [], counter + 1))
    {
      events' := MergeAndLog([(StatePath(counter), counter % 64)], counter, [], counter + 1, events);
    }

    method StressMergeBatch(ghost events: seq<Event>) returns (ghost events': seq<Event>)
      requires Reached(w, mode, events, Seen([], [MergeFiles(counter, BatchPatches(counter))] + [], counter + 1))
      modifies this`database, this`log
      ensures Reached(w, mode, events', Seen([], [], counter + 1))
    {
      MergeRecordsDistinct(w, counter, database);
      events' := MergeAndLog(BatchPatches(counter), counter, [], counter + 1, events);
    }

    /** Storing a numbered file and, in mixed mode, now and then deleting an older one. */
    method DataIteration(ghost events: seq<Event>) returns (ghost events': seq<Event>)
      requires (mode.Writes? || mode.Mixed?) && Reached(w, mode, events, Seen([], Ops(w, mode, counter), counter + 1))
      modifies this`database, this`log
      ensures Reached(w, mode, events', Seen([], [], counter + 1))
    {
      DataOps(w, mode, counter);
      var target := Target(mode, counter);
      events' := StoreThenDelete(DataPath(counter), DataBody(counter), target, events);
    }

    method StoreThenDelete(path: Bytes, body: Bytes, target: Option<Bytes>, ghost events: seq<Event>)
      returns (ghost events': seq<Event>)
      requires var deletes := if target.Some? then [DeleteFile(target.value)] else [];
               Reached(w, mode, events, Seen([], [StoreFiles([(path, body)])] + deletes, counter + 1))
      modifies this`database, this`log
      ensures Reached(w, mode, events', Seen([], [], counter + 1))
    {
      ghost var todo := if target.Some? then [DeleteFile(target.value)] else [];
      events' := StoreAndLog([(path, body)], todo, counter + 1, events);
      if target.Some? { events' := DeleteAndLog(target.value, counter + 1, events'); }
    }

    method GcIteration(ghost events: seq<Event>) returns (ghost events': seq<Event>)
      requires mode.Gc? && Reached(w, mode, events, Seen([], Ops(w, mode, counter), counter + 1))
      modifies this`database, this`log
      ensures Reached(w, mode, events', Seen([], [], counter + 1))
    {
      var path, body := GcPath(counter), w.gcBody(counter);
      assert Ops(w, mode, counter) == [StoreFiles([(path, body)])] + [];
      events' := StoreAndLog([(path, body)], [], counter + 1, events);
    }

    /** One round of the loop takes a run of the protocol to its next loop head; there log and database agree. */
    method Iterate(ghost events: seq<Event>) returns (ghost events': seq<Event>)
      requires Reached(w, mode, events, Seen([], [], counter))
      modifies this
      ensures counter == old(counter) + 1
      ensures Reached(w, mode, events', Seen([], [], counter)) && database == Final(log)
      ensures mode.Stress? ==> StressFiles.Holds(w, database, counter)
      ensures mode.Writes? || mode.Mixed? ==> DataFiles.Holds(mode, database, counter)
    {
      ReachedNext(w, mode, events, Seen([], [], counter), Round, Seen([], Ops(w, mode, counter), counter + 1));
      events' := events + [Round];
      if mode == Stress {
        assert Ops(w, mode, counter) == [StressOp(w, counter)] + [];
        events' := StressIteration(events');
      } else if mode == Gc {
        events' := GcIteration(events');
      } else {
        events' := DataIteration(events');
      }
      counter := counter + 1;
      RunAhead(w, mode, events');
      FilesAtHead(w, mode, events', Seen([], [], counter));
    }
  }
}
