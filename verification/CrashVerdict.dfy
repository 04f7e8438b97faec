/**
 What the crash verdict can find wrong: exactly what in one run, and over any number of kills, inside
 lines too, and restarts from zero, no more than what the kills cut off.
 */
module CrashVerdict {
  import opened Common
  import opened Words
  import opened Bytes
  import opened Decimal
  import opened Checkpoint
  import opened CrashWorker

  // ---------------------------------------------------------------------------
  // Contents that never change
  // ---------------------------------------------------------------------------

  ghost predicate IsBatch(w: Workload, path: Bytes, body: Bytes) {
    exists c: nat, i: nat :: i < 16 && path == BatchPath(c, i) && body == w.batchBody(c, i)
  }

  /** Numbered files in writes mode and batch files in stress mode have one body each, whenever they are written. */
  ghost predicate Fixed(w: Workload, mode: Mode, path: Bytes, body: Bytes) {
    (mode.Writes? && IsData(path, body)) || (mode.Stress? && IsBatch(w, path, body))
  }

  ghost predicate FixedPath(w: Workload, mode: Mode, path: Bytes) {
    exists body :: Fixed(w, mode, path, body)
  }

  lemma FixedIsDetermined(w: Workload, mode: Mode, path: Bytes, a: Bytes, b: Bytes)
    requires Fixed(w, mode, path, a) && Fixed(w, mode, path, b)
    ensures a == b
  {
    if mode.Writes? {
      DataIsDetermined(path, a, b);
    } else {
      var c: nat, i: nat :| i < 16 && path == BatchPath(c, i) && a == w.batchBody(c, i);
      var c': nat, i': nat :| i' < 16 && path == BatchPath(c', i') && b == w.batchBody(c', i');
      BatchPathInjective(c, i, c', i');
    }
  }

  lemma OnlyBatchIsFixed(w: Workload, mode: Mode, path: Bytes)
    requires NotBatch(path) && !mode.Writes?
    ensures !FixedPath(w, mode, path)
  {}

  /** The round before this count writes fixed contents only. */
  predicate SettledAt(mode: Mode, counter: nat) {
    mode.Writes? || (mode.Stress? && counter > 0 && (counter - 1) % 10 == 0)
  }

  /** How many paths one kill can put in doubt. */
  function PerKill(mode: Mode): nat {
    if mode.Stress? then 8 else 1
  }

  ghost predicate OpSeparate(op: Op) {
    match op
    case StoreFiles(files) => forall i, j :: 0 <= i < j < |files| ==> files[i].0 != files[j].0
    case MergeFiles(_, patches) => forall i, j :: 0 <= i < j < |patches| ==> patches[i].0 != patches[j].0
    case DeleteFile(_) => true
  }

  /** A settled round stores fixed contents; any other touches few paths and none of those. */
  ghost predicate OpFits(w: Workload, mode: Mode, counter: nat, op: Op) {
    && OpSeparate(op)
    && if SettledAt(mode, counter) then
         op.StoreFiles? && forall i :: 0 <= i < |op.files| ==> Fixed(w, mode, op.files[i].0, op.files[i].1)
       else
         match op
         case StoreFiles(files) =>
           |files| <= PerKill(mode) && forall i :: 0 <= i < |files| ==> !FixedPath(w, mode, files[i].0)
         case MergeFiles(_, patches) =>
           |patches| <= PerKill(mode) && forall i :: 0 <= i < |patches| ==> !FixedPath(w, mode, patches[i].0)
         case DeleteFile(path) => !FixedPath(w, mode, path)
  }

  ghost predicate RecordsFit(w: Workload, mode: Mode, counter: nat, rs: seq<Record>) {
    && Separate(rs)
    && if SettledAt(mode, counter) then
         forall i :: 0 <= i < |rs| ==> rs[i].Committed? && Fixed(w, mode, rs[i].path, rs[i].body)
       else
         |rs| <= PerKill(mode) && forall i :: 0 <= i < |rs| ==> !FixedPath(w, mode, rs[i].path)
  }

  lemma OpRecordsFit(w: Workload, mode: Mode, counter: nat, op: Op, db: Database)
    requires OpFits(w, mode, counter, op)
    ensures RecordsFit(w, mode, counter, OpRecords(w, op, db))
  {
    var rs := OpRecords(w, op, db);
    match op
    case StoreFiles(files) => assert forall i :: 0 <= i < |rs| ==> rs[i] == Committed(files[i].0, files[i].1);
    case MergeFiles(c, patches) => assert forall i :: 0 <= i < |rs| ==> rs[i].Committed? && rs[i].path == patches[i].0;
    case DeleteFile(path) =>
  }

  lemma BatchFits(w: Workload, c: nat)
    requires c % 10 == 0
    ensures OpFits(w, Stress, c + 1, StoreFiles(BatchFiles(w, c)))
  {
    var files := BatchFiles(w, c);
    forall i: nat | i < 16 ensures Fixed(w, Stress, files[i].0, files[i].1) {
      assert files[i] == (BatchPath(c, i), w.batchBody(c, i));
      assert IsBatch(w, files[i].0, files[i].1);
    }
    forall i: nat, j: nat | i < j < 16 ensures files[i].0 != files[j].0 {
      if BatchPath(c, i) == BatchPath(c, j) { BatchPathInjective(c, i, c, j); }
    }
  }

  lemma MergesFit(w: Workload, c: nat)
    requires c % 10 != 0
    ensures OpFits(w, Stress, c + 1, MergeFiles(c, BatchPatches(c)))
  {
    var patches := BatchPatches(c);
    forall i: nat | i < 8 ensures !FixedPath(w, Stress, patches[i].0) {
      assert patches[i] == (MergePath(c, i), i);
      MergeFamily(c, i);
      OnlyBatchIsFixed(w, Stress, patches[i].0);
    }
    forall i: nat, j: nat | i < j < 8 ensures patches[i].0 != patches[j].0 { MergePathsDistinct(c, i, j); }
  }

  lemma OneFileFits(w: Workload, c: nat)
    requires c % 10 != 0
    ensures OpFits(w, Stress, c + 1, MergeFiles(c, [(StatePath(c), c % 64)]))
    ensures OpFits(w, Stress, c + 1, StoreFiles([(OverwritePath(c), w.overwriteBody(c))]))
    ensures OpFits(w, Stress, c + 1, StoreFiles([(TinyPath(c), w.tinyBody(c))]))
  {
    OtherFamilies(c);
    OnlyBatchIsFixed(w, Stress, StatePath(c));
    OnlyBatchIsFixed(w, Stress, OverwritePath(c));
    OnlyBatchIsFixed(w, Stress, TinyPath(c));
  }

  lemma StressOpFits(w: Workload, c: nat)
    ensures OpFits(w, Stress, c + 1, StressOp(w, c))
  {
    if c % 10 == 0 {
      BatchFits(w, c);
    } else {
      MergesFit(w, c);
      OneFileFits(w, c);
    }
  }

  lemma RoundFits(w: Workload, mode: Mode, c: nat)
    ensures forall op :: op in Ops(w, mode, c) ==> OpFits(w, mode, c + 1, op)
  {
    match mode
    case Stress => StressOpFits(w, c);
    case Writes => assert IsData(DataPath(c), DataBody(c));
    case _ =>
  }

  // ---------------------------------------------------------------------------
  // What every run keeps
  // ---------------------------------------------------------------------------

  /** The part of a commit past its tab was written: the line will name the path and some other body. */
  predicate PastTab(s: State, tail: Bytes) {
    s.pending != [] && s.pending[0].Committed? && |tail| > |s.pending[0].path|
  }

  /** The paths a kill puts in doubt: those of the lines it cut off, or of fixed contents the one line it cut in two. */
  function Blame(mode: Mode, s: State, tail: Bytes): set<Bytes> {
    if SettledAt(mode, s.counter) then if PastTab(s, tail) then {s.pending[0].path} else {}
    else PathsOf(s.pending)
  }

  /** The paths put in doubt by the kills of a run and not logged again since. */
  function Blamed(w: Workload, mode: Mode, events: seq<Event>): set<Bytes>
    decreases |events|
  {
    if events == [] then {} else
    var init, last := events[..|events| - 1], events[|events| - 1];
    var before := Blamed(w, mode, init);
    match Run(w, mode, init)
    case None => before
    case Some(s) =>
      match last
      case Append => if s.pending == [] then before else before - PathsOf([s.pending[0]])
      case Kill(tail) => before + Blame(mode, s, tail)
      case _ => before
  }

  function Kills(events: seq<Event>): nat {
    if events == [] then 0 else Kills(events[..|events| - 1]) + if events[|events| - 1].Kill? then 1 else 0
  }

  /** The database has what the entries say, except perhaps at these paths. */
  ghost predicate Agrees(db: Database, entries: Database, except: set<Bytes>) {
    forall p :: p in entries && p !in except ==> p in db && db[p] == entries[p]
  }

  ghost predicate AllDone(db: Database, rs: seq<Record>) {
    forall i :: 0 <= i < |rs| ==> DoneBy(db, rs[i])
  }

  /** Fixed paths have their own bodies, except perhaps at these paths. */
  ghost predicate Kept(w: Workload, mode: Mode, m: Database, except: set<Bytes>) {
    forall p :: p in m && p !in except && FixedPath(w, mode, p) ==> Fixed(w, mode, p, m[p])
  }

  ghost predicate Inv(w: Workload, mode: Mode, s: State, blamed: set<Bytes>) {
    && Agrees(s.database, Final(s.log), blamed + PathsOf(s.pending))
    && AllDone(s.database, s.pending)
    && RecordsFit(w, mode, s.counter, s.pending)
    && Kept(w, mode, s.database, {}) && Kept(w, mode, Final(s.log), blamed)
    && forall op :: op in s.todo ==> OpFits(w, mode, s.counter, op)
  }

  lemma PathHasRecord(rs: seq<Record>, path: Bytes) returns (k: nat)
    requires path in PathsOf(rs)
    ensures k < |rs| && (rs[k].Committed? || rs[k].Deleted?) && rs[k].path == path
  {
    var r :| r in rs && (r.Committed? || r.Deleted?) && r.path == path;
    k :| 0 <= k < |rs| && rs[k] == r;
  }

  lemma BeginDone(w: Workload, mode: Mode, counter: nat, db: Database, rs: seq<Record>)
    requires RecordsFit(w, mode, counter, rs) && Kept(w, mode, db, {})
    ensures AllDone(PerformAll(db, rs), rs) && Kept(w, mode, PerformAll(db, rs), {})
  {
    var db' := PerformAll(db, rs);
    forall i | 0 <= i < |rs| ensures DoneBy(db', rs[i]) { PerformedOnce(db, rs, i); }
    forall p | p in db' && FixedPath(w, mode, p) ensures Fixed(w, mode, p, db'[p]) {
      if p in PathsOf(rs) {
        var k := PathHasRecord(rs, p);
        assert DoneBy(db', rs[k]);
      } else {
        UntouchedPath(db, rs, p);
      }
    }
  }

  lemma BeginAgrees(db: Database, entries: Database, except: set<Bytes>, rs: seq<Record>)
    requires Agrees(db, entries, except)
    ensures Agrees(PerformAll(db, rs), entries, except + PathsOf(rs))
  {
    forall p | p in entries && p !in except + PathsOf(rs)
      ensures p in PerformAll(db, rs) && PerformAll(db, rs)[p] == entries[p]
    {
      UntouchedPath(db, rs, p);
    }
  }

  lemma BeginInv(w: Workload, mode: Mode, s: State, s': State, blamed: set<Bytes>)
    requires Inv(w, mode, s, blamed) && Next(w, mode, s, Begin) == Some(s')
    ensures Inv(w, mode, s', blamed)
  {
    assert s.todo[0] in s.todo;
    OpRecordsFit(w, mode, s.counter, s.todo[0], s.database);
    BeginDone(w, mode, s.counter, s.database, s'.pending);
    assert blamed + PathsOf([]) == blamed;
    BeginAgrees(s.database, Final(s.log), blamed, s'.pending);
  }

  lemma AppendAgrees(db: Database, entries: Database, blamed: set<Bytes>, rs: seq<Record>)
    requires rs != [] && Separate(rs) && DoneBy(db, rs[0]) && Agrees(db, entries, blamed + PathsOf(rs))
    ensures Agrees(db, Performed(entries, rs[0]), blamed - PathsOf([rs[0]]) + PathsOf(rs[1..]))
  {
    assert PathsOf([rs[0]]) == {rs[0].path} && rs == [rs[0]] + rs[1..];
    assert PathsOf(rs) == {rs[0].path} + PathsOf(rs[1..]);
  }

  lemma AppendKept(w: Workload, mode: Mode, entries: Database, blamed: set<Bytes>, r: Record)
    requires Kept(w, mode, entries, blamed) && (r.Committed? || r.Deleted?)
    requires r.Committed? && FixedPath(w, mode, r.path) ==> Fixed(w, mode, r.path, r.body)
    ensures Kept(w, mode, Performed(entries, r), blamed - PathsOf([r]))
  {
    assert PathsOf([r]) == {r.path};
  }

  lemma AppendInv(w: Workload, mode: Mode, s: State, s': State, blamed: set<Bytes>)
    requires Inv(w, mode, s, blamed) && Next(w, mode, s, Append) == Some(s')
    ensures Inv(w, mode, s', blamed - PathsOf([s.pending[0]]))
  {
    var r := s.pending[0];
    FinalMore(s.log, r);
    AppendAgrees(s.database, Final(s.log), blamed, s.pending);
    AppendFits(w, mode, s.counter, s.database, s.pending);
    AppendKept(w, mode, Final(s.log), blamed, r);
  }

  lemma AppendFits(w: Workload, mode: Mode, counter: nat, db: Database, rs: seq<Record>)
    requires rs != [] && RecordsFit(w, mode, counter, rs) && AllDone(db, rs)
    ensures RecordsFit(w, mode, counter, rs[1..]) && AllDone(db, rs[1..])
    ensures rs[0].Committed? && FixedPath(w, mode, rs[0].path) ==> Fixed(w, mode, rs[0].path, rs[0].body)
  {}

  /** The entries say nothing new but what a line cut past its tab says. */
  ghost predicate Weakened(s: State, tail: Bytes, entries: Database) {
    forall p :: p in entries && !(PastTab(s, tail) && p == s.pending[0].path) ==>
                  p in Final(s.log) && entries[p] == Final(s.log)[p]
  }

  /** Whatever a kill leaves of the log, only the paths it is blamed for can be wrong. */
  lemma CutAgrees(w: Workload, mode: Mode, s: State, blamed: set<Bytes>, tail: Bytes, entries: Database)
    requires Inv(w, mode, s, blamed) && Weakened(s, tail, entries)
    ensures Agrees(s.database, entries, blamed + Blame(mode, s, tail))
  {
    forall p | p in entries && p !in blamed + Blame(mode, s, tail)
      ensures p in s.database && s.database[p] == entries[p]
    {
      if PastTab(s, tail) { assert s.pending[0] in s.pending; }
      if p in PathsOf(s.pending) {
        var k := PathHasRecord(s.pending, p);
        assert DoneBy(s.database, s.pending[k]);
        FixedIsDetermined(w, mode, p, Final(s.log)[p], s.pending[k].body);
      }
    }
  }

  lemma FusedWeakens(mode: Mode, s: State, tail: Bytes)
    requires CanCut(s, tail)
    ensures Weakened(s, tail, Performed(Final(s.log), Fused(s, tail, mode)))
  {}

  lemma KillInv(w: Workload, mode: Mode, s: State, s': State, blamed: set<Bytes>, tail: Bytes)
    requires Inv(w, mode, s, blamed) && Next(w, mode, s, Kill(tail)) == Some(s')
    ensures Inv(w, mode, s', blamed + Blame(mode, s, tail))
  {
    FinalMore(s.log, Fused(s, tail, mode));
    FusedWeakens(mode, s, tail);
    CutAgrees(w, mode, s, blamed, tail, Final(s'.log));
    var except := blamed + Blame(mode, s, tail);
    assert except + PathsOf([]) == except;
    CutKept(w, mode, s, blamed, tail, Final(s'.log));
  }

  lemma CutKept(w: Workload, mode: Mode, s: State, blamed: set<Bytes>, tail: Bytes, entries: Database)
    requires Inv(w, mode, s, blamed) && Weakened(s, tail, entries)
    ensures Kept(w, mode, entries, blamed + Blame(mode, s, tail))
  {
    if PastTab(s, tail) { assert s.pending[0] in s.pending; }
  }

  lemma NextInv(w: Workload, mode: Mode, s: State, e: Event, s': State, blamed: set<Bytes>)
    requires Inv(w, mode, s, blamed) && Next(w, mode, s, e) == Some(s')
    ensures var blamed' := match e
                           case Append => blamed - PathsOf([s.pending[0]])
                           case Kill(tail) => blamed + Blame(mode, s, tail)
                           case _ => blamed;
            Inv(w, mode, s', blamed')
  {
    match e
    case Round => RoundFits(w, mode, s.counter);
    case Begin => BeginInv(w, mode, s, s', blamed);
    case Append => AppendInv(w, mode, s, s', blamed);
    case Kill(tail) => KillInv(w, mode, s, s', blamed, tail);
  }

  lemma {:induction false} RunInv(w: Workload, mode: Mode, events: seq<Event>)
    requires Run(w, mode, events).Some?
    ensures Inv(w, mode, Run(w, mode, events).value, Blamed(w, mode, events))
    decreases |events|
  {
    if events == [] {
      assert Final([Banner(mode)]) == Performed(Final([]), Banner(mode));
    } else {
      var init := events[..|events| - 1];
      RunInv(w, mode, init);
      NextInv(w, mode, Run(w, mode, init).value, events[|events| - 1], Run(w, mode, events).value,
          Blamed(w, mode, init));
    }
  }

  // ---------------------------------------------------------------------------
  // Exactly what differs in one run
  // ---------------------------------------------------------------------------

  /** The line changes what the log says of a path it knows. */
  predicate Changes(r: Record, entries: Database) {
    match r
    case Committed(path, body) => path in entries && entries[path] != body
    case Deleted(path) => path in entries
    case _ => false
  }

  function Changed(rs: seq<Record>, entries: Database): set<Bytes> {
    set r | r in rs && (r.Committed? || r.Deleted?) && Changes(r, entries) :: r.path
  }

  lemma {:induction false} OneRunIsBlameless(w: Workload, mode: Mode, events: seq<Event>)
    requires OneRun(events)
    ensures Blamed(w, mode, events) == {}
    decreases |events|
  {
    if events != [] {
      OneRunIsBlameless(w, mode, events[..|events| - 1]);
      assert events[|events| - 1] in events;
    }
  }

  /**
   Apart from the paths earlier kills are blamed for, a logged path differs exactly when a line to
   come changes it.
   */
  lemma DifferingIsChanged(w: Workload, mode: Mode, events: seq<Event>)
    requires Run(w, mode, events).Some?
    ensures var s, blamed := Run(w, mode, events).value, Blamed(w, mode, events);
            Differing(s.database, Final(s.log)) - blamed == Changed(s.pending, Final(s.log)) - blamed
  {
    RunInv(w, mode, events);
    var s := Run(w, mode, events).value;
    DoneRecordsDecide(s.database, Final(s.log), Blamed(w, mode, events), s.pending);
  }

  lemma DoneRecordsDecide(db: Database, m: Database, blamed: set<Bytes>, rs: seq<Record>)
    requires Agrees(db, m, blamed + PathsOf(rs)) && AllDone(db, rs)
    ensures Differing(db, m) - blamed == Changed(rs, m) - blamed
  {
    forall p | p in Differing(db, m) && p !in blamed ensures p in Changed(rs, m) {
      var k := PathHasRecord(rs, p);
      assert DoneBy(db, rs[k]);
    }
    forall p | p in Changed(rs, m) ensures p in Differing(db, m) {
      var r :| r in rs && (r.Committed? || r.Deleted?) && Changes(r, m) && r.path == p;
      var k :| 0 <= k < |rs| && rs[k] == r;
      assert DoneBy(db, rs[k]);
    }
  }

  /** At every kill point of one run, whatever the operation, exactly the paths its remaining lines change differ. */
  lemma VerdictIsDecidedByTheLines(w: Workload, mode: Mode, events: seq<Event>)
    requires OneRun(events) && Run(w, mode, events).Some?
    ensures var s := Run(w, mode, events).value;
            Differing(s.database, Final(s.log)) == Changed(s.pending, Final(s.log))
  {
    DifferingIsChanged(w, mode, events);
    OneRunIsBlameless(w, mode, events);
    var s := Run(w, mode, events).value;
    var differing, changed := Differing(s.database, Final(s.log)), Changed(s.pending, Final(s.log));
    assert differing - {} == differing && changed - {} == changed;
  }

  // ---------------------------------------------------------------------------
  // Over any number of kills
  // ---------------------------------------------------------------------------

  lemma FewBlamedAtOnce(w: Workload, mode: Mode, events: seq<Event>, tail: Bytes)
    requires Run(w, mode, events).Some?
    ensures |Blame(mode, Run(w, mode, events).value, tail)| <= PerKill(mode)
  {
    RunInv(w, mode, events);
    FewPaths(Run(w, mode, events).value.pending);
  }

  lemma UnionSize(a: set<Bytes>, b: set<Bytes>)
    ensures |a + b| <= |a| + |b|
  {
    assert a + b == a + (b - a);
    SubsetSize(b - a, b);
  }

  lemma {:induction false} FewBlamed(w: Workload, mode: Mode, events: seq<Event>)
    requires Run(w, mode, events).Some?
    ensures |Blamed(w, mode, events)| <= PerKill(mode) * Kills(events)
    decreases |events|
  {
    if events != [] {
      var init, last := events[..|events| - 1], events[|events| - 1];
      FewBlamed(w, mode, init);
      BlamedByTheLast(w, mode, events);
      if last.Kill? {
        FewBlamedAtOnce(w, mode, init, last.tail);
        var blame := Blame(mode, Run(w, mode, init).value, last.tail);
        OneKillMore(Blamed(w, mode, init), blame, PerKill(mode), Kills(init));
      } else {
        SubsetSize(Blamed(w, mode, events), Blamed(w, mode, init));
      }
    }
  }

  /** Only a kill adds to the blame. */
  lemma BlamedByTheLast(w: Workload, mode: Mode, events: seq<Event>)
    requires events != [] && Run(w, mode, events).Some?
    ensures var init, last := events[..|events| - 1], events[|events| - 1];
            if last.Kill? then
              && Blamed(w, mode, events) == Blamed(w, mode, init) + Blame(mode, Run(w, mode, init).value, last.tail)
              && Kills(events) == Kills(init) + 1
            else Blamed(w, mode, events) <= Blamed(w, mode, init) && Kills(events) == Kills(init)
  {}

  lemma OneKillMore(before: set<Bytes>, blame: set<Bytes>, each: nat, kills: nat)
    requires |before| <= each * kills && |blame| <= each
    ensures |before + blame| <= each * (kills + 1)
  {
    UnionSize(before, blame);
  }

  lemma AgreesMeansWithin(db: Database, entries: Database, except: set<Bytes>)
    requires Agrees(db, entries, except)
    ensures Differing(db, entries) <= except
  {}

  /** A log and the start of one more line is a prefix of the longer log. */
  lemma CutLog(log: seq<Record>, r: Record, tail: Bytes)
    requires tail <= Content(r)
    ensures TornAt(log + [r], |Print(log)| + |tail|, |log|, tail)
  {
    var rs := log + [r];
    PrintMore(log, r);
    assert rs[..|log|] == log && rs[|log|] == r;
    PrefixOfConcat(Print(log), Content(r) + [NEWLINE], |Print(log)| + |tail|);
    assert (Content(r) + [NEWLINE])[..|tail|] == tail;
  }

  lemma ReadCutLog(log: seq<Record>, r: Record, tail: Bytes)
    requires CrashRecords(log) && CrashRecord(r) && tail <= Content(r) && ValidUtf8(tail)
    ensures Replayed(Lines(Print(log) + tail)) == TornEffect(Final(log), r, tail)
  {
    var rs := log + [r];
    PrintableMore(log, r);
    CutLog(log, r, tail);
    ReadTornLog(rs, |Print(log)| + |tail|, |log|, tail);
    assert rs[..|log|] == log && rs[|log|] == r;
  }

  /** What the verdict reads after a kill: the log's bytes and the part of a line the kill left. */
  function ReadAfter(s: State, tail: Bytes): Database {
    Replayed(Lines(Print(s.log) + tail))
  }

  lemma ReadWeakens(s: State, tail: Bytes)
    requires Printable(s) && CanCut(s, tail)
    ensures Weakened(s, tail, ReadAfter(s, tail))
  {
    if s.pending == [] {
      assert Print(s.log) + tail == Print(s.log);
      ReadWholeLog(s.log);
    } else {
      PlainRecordPrints(s.pending[0]);
      CutIsUtf8(s.pending[0], tail);
      ReadCutLog(s.log, s.pending[0], tail);
    }
  }

  /**
   Killed anywhere, inside a line too, after any number of such kills and restarts: what the verdict
   finds wrong lies within the paths the kills are blamed for and that were not logged again since,
   at most eight for each kill in stress mode and one in the others.
   */
  lemma EveryKillIsBlamed(w: Workload, mode: Mode, events: seq<Event>, tail: Bytes)
    requires PrintsLines(w) && Run(w, mode, events).Some? && CanCut(Run(w, mode, events).value, tail)
    ensures var s := Run(w, mode, events).value;
            var wrong := Differing(s.database, ReadAfter(s, tail));
            && wrong <= Blamed(w, mode, events) + Blame(mode, s, tail)
            && |wrong| <= PerKill(mode) * (Kills(events) + 1)
  {
    var s, blamed := Run(w, mode, events).value, Blamed(w, mode, events);
    RunInv(w, mode, events);
    RunPrints(w, mode, events);
    ReadWeakens(s, tail);
    CutAgrees(w, mode, s, blamed, tail, ReadAfter(s, tail));
    AgreesMeansWithin(s.database, ReadAfter(s, tail), blamed + Blame(mode, s, tail));
    FewBlamed(w, mode, events);
    FewBlamedAtOnce(w, mode, events, tail);
    OneKillMore(blamed, Blame(mode, s, tail), PerKill(mode), Kills(events));
    SubsetSize(Differing(s.database, ReadAfter(s, tail)), blamed + Blame(mode, s, tail));
  }

  lemma {:induction false} OneRunHasNoKills(events: seq<Event>)
    requires OneRun(events)
    ensures Kills(events) == 0
  {
    if events != [] {
      OneRunHasNoKills(events[..|events| - 1]);
      assert events[|events| - 1] in events;
    }
  }

  /**
   The verdict on the bytes at a whole-line kill point of one run: how many entries it can find wrong
   in each mode.
   */
  lemma VerdictAtEveryKill(w: Workload, mode: Mode, events: seq<Event>)
    requires PrintsLines(w) && OneRun(events) && Run(w, mode, events).Some?
    ensures var s := Run(w, mode, events).value;
            var wrong := Differing(s.database, Replayed(Lines(Print(s.log))));
            && wrong <= PathsOf(s.pending)
            && (SettledAt(mode, s.counter) ==> wrong == {})
            && |wrong| <= PerKill(mode)
  {
    OneRunHasNoKills(events);
    OneRunIsBlameless(w, mode, events);
    var s := Run(w, mode, events).value;
    EveryKillIsBlamed(w, mode, events, []);
    assert Print(s.log) + [] == Print(s.log);
  }

  // ---------------------------------------------------------------------------
  // When the verdict fails in mixed mode
  // ---------------------------------------------------------------------------

  ghost predicate AllData(m: Database) {
    forall p :: p in m ==> IsData(p, m[p])
  }

  ghost predicate DataOp(op: Op) {
    op.DeleteFile? || (op.StoreFiles? && |op.files| == 1 && IsData(op.files[0].0, op.files[0].1))
  }

  /** The log knows numbered files only, and a file whose delete is to be logged. */
  ghost predicate MixedInv(s: State) {
    && AllData(Final(s.log)) && |s.pending| <= 1
    && (forall op :: op in s.todo ==> DataOp(op))
    && (s.pending != [] ==>
          match s.pending[0]
          case Committed(path, body) => IsData(path, body)
          case Deleted(path) => path in Final(s.log)
          case _ => false)
  }

  lemma MixedBegin(w: Workload, s: State, s': State)
    requires MixedInv(s) && Ahead(s) && Next(w, Mixed, s, Begin) == Some(s')
    ensures MixedInv(s')
  {
    assert s.todo[0] in s.todo;
    assert PerformAll(Final(s.log), []) == Final(s.log);
  }

  lemma MixedNext(w: Workload, s: State, e: Event, s': State)
    requires MixedInv(s) && Ahead(s) && Next(w, Mixed, s, e) == Some(s') && !e.Kill?
    ensures MixedInv(s')
  {
    match e
    case Round => assert IsData(DataPath(s.counter), DataBody(s.counter));
    case Begin => MixedBegin(w, s, s');
    case Append => FinalMore(s.log, s.pending[0]);
  }

  lemma {:induction false} MixedRuns(w: Workload, events: seq<Event>)
    requires OneRun(events) && Run(w, Mixed, events).Some?
    ensures MixedInv(Run(w, Mixed, events).value)
    decreases |events|
  {
    if events == [] {
      assert Final([Banner(Mixed)]) == Performed(Final([]), Banner(Mixed));
    } else {
      var init := events[..|events| - 1];
      MixedRuns(w, init);
      RunAhead(w, Mixed, init);
      MixedNext(w, Run(w, Mixed, init).value, events[|events| - 1], Run(w, Mixed, events).value);
    }
  }

  /** In mixed mode the verdict fails at a kill point of one run exactly when a delete is done and its line is not. */
  lemma MixedFailsExactly(w: Workload, events: seq<Event>)
    requires OneRun(events) && Run(w, Mixed, events).Some?
    ensures var s := Run(w, Mixed, events).value;
            Differing(s.database, Final(s.log)) != {} <==> s.pending != [] && s.pending[0].Deleted?
  {
    VerdictIsDecidedByTheLines(w, Mixed, events);
    MixedRuns(w, events);
    var s := Run(w, Mixed, events).value;
    if s.pending != [] {
      var r := s.pending[0];
      assert s.pending == [r];
      if r.Committed? && r.path in Final(s.log) { DataIsDetermined(r.path, r.body, Final(s.log)[r.path]); }
      if r.Deleted? { assert r.path in Changed(s.pending, Final(s.log)); }
    }
  }

  // ---------------------------------------------------------------------------
  // When the verdict fails in gc mode
  // ---------------------------------------------------------------------------

  /** Rounds less than 256 apart write different files. */
  lemma GcPathApart(c: nat, n: nat)
    requires c < n < c + 256
    ensures GcPath(c) != GcPath(n)
  {
    assert c % 256 != n % 256;
    if GcPath(c) == GcPath(n) { FramedInjective(Ascii("/gc/file-"), c % 256, n % 256, 4, Ascii(".json")); }
  }

  lemma GcPathAgain(n: nat)
    requires n >= 256
    ensures GcPath(n - 256) == GcPath(n)
  {
    assert (n - 256) % 256 == n % 256;
  }

  /** After `n` rounds each slot holds the last body written to it. */
  ghost predicate Slots(w: Workload, m: Database, n: nat) {
    && (forall c: nat :: c < n <= c + 256 ==> GcPath(c) in m && m[GcPath(c)] == w.gcBody(c))
    && forall p :: p in m ==> IsSlot(p, n)
  }

  ghost predicate IsSlot(p: Bytes, n: nat) {
    exists c: nat :: c < n <= c + 256 && p == GcPath(c)
  }

  lemma NextSlot(w: Workload, m: Database, n: nat)
    requires Slots(w, m, n)
    ensures Slots(w, m[GcPath(n) := w.gcBody(n)], n + 1)
  {
    var m' := m[GcPath(n) := w.gcBody(n)];
    forall c: nat | c < n + 1 <= c + 256 ensures GcPath(c) in m' && m'[GcPath(c)] == w.gcBody(c) {
      if c < n { GcPathApart(c, n); }
    }
    forall p | p in m' ensures IsSlot(p, n + 1) {
      if p != GcPath(n) { SlotStays(p, n); }
    }
  }

  lemma SlotStays(p: Bytes, n: nat)
    requires IsSlot(p, n) && p != GcPath(n)
    ensures IsSlot(p, n + 1)
  {
    var c: nat :| c < n <= c + 256 && p == GcPath(c);
    if c + 256 == n { GcPathAgain(n); }
    assert c < n + 1 <= c + 256;
  }

  /** The slot of the next round is taken exactly from the 257th round on, by the body of 256 rounds before. */
  lemma TakenSlot(w: Workload, m: Database, n: nat)
    requires Slots(w, m, n)
    ensures GcPath(n) in m <==> n >= 256
    ensures n >= 256 ==> m[GcPath(n)] == w.gcBody(n - 256)
  {
    if n >= 256 {
      GcPathAgain(n);
      assert n - 256 < n <= n - 256 + 256;
    } else if GcPath(n) in m {
      assert IsSlot(GcPath(n), n);
      var c: nat :| c < n <= c + 256 && GcPath(n) == GcPath(c);
      GcPathApart(c, n);
    }
  }

  function GcOp(w: Workload, c: nat): Op {
    StoreFiles([(GcPath(c), w.gcBody(c))])
  }

  /** Before, in and after a round. */
  ghost predicate GcInv(w: Workload, s: State) {
    if s.todo == [] && s.pending == [] then Slots(w, Final(s.log), s.counter)
    else
      && s.counter > 0 && Slots(w, Final(s.log), s.counter - 1)
      && ((s.todo == [GcOp(w, s.counter - 1)] && s.pending == [])
          || (s.todo == [] && s.pending == [Committed(GcPath(s.counter - 1), w.gcBody(s.counter - 1))]))
  }

  lemma GcNext(w: Workload, s: State, e: Event, s': State)
    requires GcInv(w, s) && Next(w, Gc, s, e) == Some(s') && !e.Kill?
    ensures GcInv(w, s')
  {
    if e.Append? { GcAppend(w, s, s'); } else if e.Begin? { GcBegin(w, s, s'); }
  }

  lemma GcAppend(w: Workload, s: State, s': State)
    requires GcInv(w, s) && Next(w, Gc, s, Append) == Some(s')
    ensures GcInv(w, s')
  {
    var n := s.counter - 1;
    assert s'.todo == [] && s'.pending == [] && s'.counter == n + 1;
    assert Final(s'.log) == Final(s.log)[GcPath(n) := w.gcBody(n)] by { FinalMore(s.log, s.pending[0]); }
    NextSlot(w, Final(s.log), n);
  }

  lemma GcBegin(w: Workload, s: State, s': State)
    requires GcInv(w, s) && Next(w, Gc, s, Begin) == Some(s')
    ensures GcInv(w, s')
  {
    assert s'.pending == [Committed(GcPath(s.counter - 1), w.gcBody(s.counter - 1))];
  }

  lemma {:induction false} GcRuns(w: Workload, events: seq<Event>)
    requires OneRun(events) && Run(w, Gc, events).Some?
    ensures GcInv(w, Run(w, Gc, events).value)
    decreases |events|
  {
    if events == [] {
      assert Final([Banner(Gc)]) == Performed(Final([]), Banner(Gc));
    } else {
      var init := events[..|events| - 1];
      GcRuns(w, init);
      GcNext(w, Run(w, Gc, init).value, events[|events| - 1], Run(w, Gc, events).value);
    }
  }

  /**
   In gc mode the verdict fails at a kill point of one run exactly when a file is overwritten, its
   line is not appended, and the body of 256 rounds before was another.
   */
  lemma GcFailsExactly(w: Workload, events: seq<Event>)
    requires OneRun(events) && Run(w, Gc, events).Some?
    ensures var s := Run(w, Gc, events).value;
            Differing(s.database, Final(s.log)) != {} <==>
              s.pending != [] && s.counter > 256 && w.gcBody(s.counter - 1) != w.gcBody(s.counter - 257)
  {
    VerdictIsDecidedByTheLines(w, Gc, events);
    GcRuns(w, events);
    GcChanges(w, Run(w, Gc, events).value);
  }

  lemma GcChanges(w: Workload, s: State)
    requires GcInv(w, s)
    ensures Changed(s.pending, Final(s.log)) != {} <==>
              s.pending != [] && s.counter > 256 && w.gcBody(s.counter - 1) != w.gcBody(s.counter - 257)
  {
    if s.pending != [] {
      var r := s.pending[0];
      TakenSlot(w, Final(s.log), s.counter - 1);
      ChangedByOne(r, Final(s.log));
      assert s.pending == [r];
    }
  }

  lemma ChangedByOne(r: Record, entries: Database)
    requires r.Committed? || r.Deleted?
    ensures Changed([r], entries) == if Changes(r, entries) then {r.path} else {}
  {}

  /** The body is an object whose first member is the counter, and it has others. */
  ghost predicate HoldsCounter(w: Workload) {
    forall c: nat :: StartsWithCounter(w.gcBody(c), c)
  }

  predicate StartsWithCounter(body: Bytes, c: nat) {
    Ascii("{\"counter\":") + Padded(c, 1) + [COMMA] <= body
  }

  /** With the bodies the worker formats, exactly when a file is overwritten and its line is not appended. */
  lemma GcFailsOnEveryOverwrite(w: Workload, events: seq<Event>)
    requires OneRun(events) && Run(w, Gc, events).Some? && HoldsCounter(w)
    ensures var s := Run(w, Gc, events).value;
            Differing(s.database, Final(s.log)) != {} <==> s.pending != [] && s.counter > 256
  {
    var n := Run(w, Gc, events).value.counter;
    GcFailsExactly(w, events);
    if n > 256 && w.gcBody(n - 1) == w.gcBody(n - 257) {
      NumberEndsAtComma(Ascii("{\"counter\":"), n - 1, n - 257, w.gcBody(n - 1));
    }
  }
}
