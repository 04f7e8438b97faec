/**
 What the crash worker's stress mode leaves in the database: which files there are after any number
 of rounds of one run, and what each holds.
 */
module StressFiles {
  import opened Common
  import opened Bytes
  import opened Decimal
  import opened Checkpoint
  import opened CrashWorker

  // ---------------------------------------------------------------------------
  // The files, by their places
  // ---------------------------------------------------------------------------

  type Item = i: nat | i < 16
  type StateSlot = k: nat | k < 64
  type MergeSlot = k: nat | k < 96
  type OverwriteSlot = k: nat | k < 128

  datatype Place =
    | BatchFile(counter: nat, item: Item)
    | StateDoc(stateSlot: StateSlot)
    | MergeDoc(mergeSlot: MergeSlot)
    | Overwritten(overwriteSlot: OverwriteSlot)
    | TinyFile(counter: nat)

  function PathOf(p: Place): Bytes {
    match p
    case BatchFile(c, item) => BatchPath(c, item)
    case StateDoc(k) => StatePath(k)
    case MergeDoc(k) => MergePath(k, 0)
    case Overwritten(k) => OverwritePath(k)
    case TinyFile(c) => TinyPath(c)
  }

  /** Rounds 1 to 4 of ten merge into a document of their own, rounds 5 and 6 into eight in a row. */
  function StateContent(w: Workload, k: StateSlot, n: nat): Option<Bytes> {
    if n == 0 then None else
    var before, c := StateContent(w, k, n - 1), n - 1;
    if 1 <= c % 10 <= 4 && c % 64 == k then Some(w.merged(before, c, k)) else before
  }

  /** How far a slot lies behind the first one of a round, around the 96. */
  function Distance(c: nat, k: MergeSlot): (d: nat)
    ensures d < 96 && (c + d) % 96 == k
  {
    (k + 96 - c % 96) % 96
  }

  function MergeContent(w: Workload, k: MergeSlot, n: nat): Option<Bytes> {
    if n == 0 then None else
    var before, c := MergeContent(w, k, n - 1), n - 1;
    if 5 <= c % 10 <= 6 && Distance(c, k) < 8 then Some(w.merged(before, c, Distance(c, k))) else before
  }

  /** Rounds 7 and 8 of ten overwrite. */
  function OverwriteContent(w: Workload, k: OverwriteSlot, n: nat): Option<Bytes> {
    if n == 0 then None else
    var c := n - 1;
    if 7 <= c % 10 <= 8 && c % 128 == k then Some(w.overwriteBody(c)) else OverwriteContent(w, k, n - 1)
  }

  /** What a file holds after `n` rounds, if it is there. */
  function Content(w: Workload, p: Place, n: nat): Option<Bytes> {
    match p
    case BatchFile(c, item) => if c < n && c % 10 == 0 then Some(w.batchBody(c, item)) else None
    case StateDoc(k) => StateContent(w, k, n)
    case MergeDoc(k) => MergeContent(w, k, n)
    case Overwritten(k) => OverwriteContent(w, k, n)
    case TinyFile(c) => if c < n && c % 10 == 9 then Some(w.tinyBody(c)) else None
  }

  ghost predicate IsPlace(path: Bytes) {
    exists p :: path == PathOf(p)
  }

  /** Exactly the files of the first `n` rounds. */
  ghost predicate Holds(w: Workload, db: Database, n: nat) {
    && (forall p: Place :: Get(db, PathOf(p)) == Content(w, p, n))
    && forall path :: path in db ==> IsPlace(path)
  }

  // ---------------------------------------------------------------------------
  // No two places share a path
  // ---------------------------------------------------------------------------

  /** The byte that tells the folders apart, but for the two that start with `batch`. */
  lemma FolderLetters(p: Place)
    ensures |PathOf(p)| > 13
    ensures PathOf(p)[8] == match p
                            case BatchFile(_, _) => 98
                            case StateDoc(_) => 115
                            case MergeDoc(_) => 98
                            case Overwritten(_) => 111
                            case TinyFile(_) => 116
    ensures p.BatchFile? ==> PathOf(p)[13] == 101
    ensures p.MergeDoc? ==> PathOf(p)[13] == 45
  {}

  lemma SameKind(p: Place, q: Place)
    requires PathOf(p) == PathOf(q)
    ensures (p.BatchFile? <==> q.BatchFile?) && (p.StateDoc? <==> q.StateDoc?) && (p.MergeDoc? <==> q.MergeDoc?)
    ensures (p.Overwritten? <==> q.Overwritten?) && (p.TinyFile? <==> q.TinyFile?)
  {
    FolderLetters(p);
    FolderLetters(q);
  }

  lemma StateDocsApart(k: StateSlot, l: StateSlot)
    requires StatePath(k) == StatePath(l)
    ensures k == l
  {
    assert k % 64 == k && l % 64 == l;
    FramedInjective(Ascii("/stress/state/doc-"), k, l, 3, Ascii(".json"));
  }

  lemma MergeDocsApart(k: MergeSlot, l: MergeSlot)
    requires MergePath(k, 0) == MergePath(l, 0)
    ensures k == l
  {
    assert (k + 0) % 96 == k && (l + 0) % 96 == l;
    FramedInjective(Ascii("/stress/batch-merge/doc-"), k, l, 3, Ascii(".json"));
  }

  lemma OverwrittenApart(k: OverwriteSlot, l: OverwriteSlot)
    requires OverwritePath(k) == OverwritePath(l)
    ensures k == l
  {
    assert k % 128 == k && l % 128 == l;
    FramedInjective(Ascii("/stress/overwrites/file-"), k, l, 3, Ascii(".json"));
  }

  lemma TinyFilesApart(c: nat, d: nat)
    requires TinyPath(c) == TinyPath(d)
    ensures c == d
  {
    FramedInjective(Ascii("/stress/tiny/file-"), c, d, 8, Ascii(".json"));
  }

  lemma PathsApart(p: Place, q: Place)
    requires PathOf(p) == PathOf(q)
    ensures p == q
  {
    SameKind(p, q);
    match p
    case BatchFile(c, i) => BatchPathInjective(c, i, q.counter, q.item);
    case StateDoc(k) => StateDocsApart(k, q.stateSlot);
    case MergeDoc(k) => MergeDocsApart(k, q.mergeSlot);
    case Overwritten(k) => OverwrittenApart(k, q.overwriteSlot);
    case TinyFile(c) => TinyFilesApart(c, q.counter);
  }

  // ---------------------------------------------------------------------------
  // One round
  // ---------------------------------------------------------------------------

  /** Which file the record `i` of a round is of. */
  function PlaceAt(n: nat, i: nat): Place {
    match n % 10
    case 0 => BatchFile(n, if i < 16 then i else 0)
    case 1 | 2 | 3 | 4 => StateDoc(n % 64)
    case 5 | 6 => MergeDoc((n + i) % 96)
    case 7 | 8 => Overwritten(n % 128)
    case _ => TinyFile(n)
  }

  /** How many files a round writes. */
  function Width(n: nat): nat {
    if n % 10 == 0 then 16 else if 5 <= n % 10 <= 6 then 8 else 1
  }

  /** What a round makes of the files it concerns, and that it concerns no others. */
  ghost predicate RoundWrites(w: Workload, db: Database, n: nat, rs: seq<Record>) {
    && |rs| == Width(n)
    && forall i: nat :: i < |rs| ==>
         var p := PlaceAt(n, i);
         rs[i].Committed? && rs[i].path == PathOf(p) && Content(w, p, n + 1) == Some(rs[i].body)
  }

  lemma StatePathSlot(n: nat)
    ensures StatePath(n) == PathOf(StateDoc(n % 64))
  {
    assert (n % 64) % 64 == n % 64;
  }

  lemma MergePathSlot(n: nat, i: nat)
    ensures MergePath(n, i) == PathOf(MergeDoc((n + i) % 96))
  {
    assert ((n + i) % 96 + 0) % 96 == (n + i) % 96;
  }

  lemma OverwritePathSlot(n: nat)
    ensures OverwritePath(n) == PathOf(Overwritten(n % 128))
  {
    assert (n % 128) % 128 == n % 128;
  }

  lemma BatchWrites(w: Workload, db: Database, n: nat)
    requires n % 10 == 0
    ensures RoundWrites(w, db, n, OpRecords(w, StressOp(w, n), db))
  {
    var rs := OpRecords(w, StressOp(w, n), db);
    forall i: nat | i < |rs| ensures rs[i] == Committed(BatchPath(n, i), w.batchBody(n, i)) {
      assert BatchFiles(w, n)[i] == (BatchPath(n, i), w.batchBody(n, i));
    }
  }

  lemma StateWrites(w: Workload, db: Database, n: nat)
    requires 1 <= n % 10 <= 4 && Holds(w, db, n)
    ensures RoundWrites(w, db, n, OpRecords(w, StressOp(w, n), db))
  {
    StatePathSlot(n);
    assert Get(db, PathOf(StateDoc(n % 64))) == Content(w, StateDoc(n % 64), n);
  }

  lemma DistanceIs(n: nat, i: nat)
    requires i < 8
    ensures Distance(n, (n + i) % 96) == i
  {}

  lemma MergeWrites(w: Workload, db: Database, n: nat)
    requires 5 <= n % 10 <= 6 && Holds(w, db, n)
    ensures RoundWrites(w, db, n, OpRecords(w, StressOp(w, n), db))
  {
    var rs := OpRecords(w, StressOp(w, n), db);
    forall i: nat | i < |rs|
      ensures rs[i].Committed? && rs[i].path == PathOf(PlaceAt(n, i))
      ensures Content(w, PlaceAt(n, i), n + 1) == Some(rs[i].body)
    {
      MergeWritesOne(w, db, n, i);
    }
  }

  lemma MergeWritesOne(w: Workload, db: Database, n: nat, i: nat)
    requires 5 <= n % 10 <= 6 && Holds(w, db, n) && i < 8
    ensures var r := OpRecords(w, StressOp(w, n), db)[i];
            r.Committed? && r.path == PathOf(PlaceAt(n, i)) && Content(w, PlaceAt(n, i), n + 1) == Some(r.body)
  {
    assert BatchPatches(n)[i] == (MergePath(n, i), i);
    MergePathSlot(n, i);
    DistanceIs(n, i);
    assert Get(db, PathOf(MergeDoc((n + i) % 96))) == Content(w, MergeDoc((n + i) % 96), n);
  }

  lemma OverwriteWrites(w: Workload, db: Database, n: nat)
    requires 7 <= n % 10 <= 8
    ensures RoundWrites(w, db, n, OpRecords(w, StressOp(w, n), db))
  {
    OverwritePathSlot(n);
  }

  lemma TinyWrites(w: Workload, db: Database, n: nat)
    requires n % 10 == 9
    ensures RoundWrites(w, db, n, OpRecords(w, StressOp(w, n), db))
  {}

  lemma EveryRoundWrites(w: Workload, db: Database, n: nat)
    requires Holds(w, db, n)
    ensures RoundWrites(w, db, n, OpRecords(w, StressOp(w, n), db))
  {
    if n % 10 == 0 {
      BatchWrites(w, db, n);
    } else if n % 10 <= 4 {
      StateWrites(w, db, n);
    } else if n % 10 <= 6 {
      MergeWrites(w, db, n);
    } else if n % 10 <= 8 {
      OverwriteWrites(w, db, n);
    } else {
      TinyWrites(w, db, n);
    }
  }

  /** A file changes only in a round that writes it. */
  lemma ChangedIsWritten(w: Workload, p: Place, n: nat) returns (i: nat)
    requires Content(w, p, n + 1) != Content(w, p, n)
    ensures i < Width(n) && PlaceAt(n, i) == p
  {
    i := match p case BatchFile(_, item) => item case MergeDoc(k) => Distance(n, k) case _ => 0;
  }

  lemma PlacesDiffer(n: nat, i: nat, j: nat)
    requires i < j < Width(n)
    ensures PlaceAt(n, i) != PlaceAt(n, j)
  {}

  lemma RecordsSeparate(w: Workload, db: Database, n: nat, rs: seq<Record>)
    requires RoundWrites(w, db, n, rs)
    ensures Separate(rs)
  {
    forall i: nat, j: nat | i < j < |rs| ensures rs[i].path != rs[j].path {
      PlacesDiffer(n, i, j);
      if PathOf(PlaceAt(n, i)) == PathOf(PlaceAt(n, j)) { PathsApart(PlaceAt(n, i), PlaceAt(n, j)); }
    }
  }

  lemma AfterRound(w: Workload, db: Database, n: nat, rs: seq<Record>, p: Place)
    requires Holds(w, db, n) && RoundWrites(w, db, n, rs) && Separate(rs)
    ensures Get(PerformAll(db, rs), PathOf(p)) == Content(w, p, n + 1)
  {
    if i: nat :| i < |rs| && PlaceAt(n, i) == p {
      PerformedOnce(db, rs, i);
    } else {
      forall r | r in rs ensures r.path != PathOf(p) {
        var i: nat :| i < |rs| && rs[i] == r;
        if PathOf(PlaceAt(n, i)) == PathOf(p) { PathsApart(PlaceAt(n, i), p); }
      }
      UntouchedPath(db, rs, PathOf(p));
      if Content(w, p, n + 1) != Content(w, p, n) {
        var i := ChangedIsWritten(w, p, n);
        assert false;
      }
    }
  }

  lemma OnlyPlaces(w: Workload, db: Database, n: nat, rs: seq<Record>, path: Bytes)
    requires Holds(w, db, n) && RoundWrites(w, db, n, rs) && path in PerformAll(db, rs)
    ensures IsPlace(path)
  {
    if path in PathsOf(rs) {
      var r :| r in rs && (r.Committed? || r.Deleted?) && r.path == path;
      var i: nat :| i < |rs| && rs[i] == r;
      assert path == PathOf(PlaceAt(n, i));
    } else {
      UntouchedPath(db, rs, path);
    }
  }

  /** One round more. */
  lemma RoundHolds(w: Workload, db: Database, n: nat)
    requires Holds(w, db, n)
    ensures Holds(w, PerformAll(db, OpRecords(w, StressOp(w, n), db)), n + 1)
  {
    var rs := OpRecords(w, StressOp(w, n), db);
    EveryRoundWrites(w, db, n);
    RecordsSeparate(w, db, n, rs);
    forall p: Place ensures Get(PerformAll(db, rs), PathOf(p)) == Content(w, p, n + 1) { AfterRound(w, db, n, rs, p); }
    forall path | path in PerformAll(db, rs) ensures IsPlace(path) { OnlyPlaces(w, db, n, rs, path); }
  }

  // ---------------------------------------------------------------------------
  // Every run
  // ---------------------------------------------------------------------------

  /** Before the operation of a round, or after it, its lines perhaps still to come. */
  ghost predicate StressInv(w: Workload, s: State) {
    if s.todo == [] then Holds(w, s.database, s.counter)
    else s.counter > 0 && s.pending == [] && s.todo == [StressOp(w, s.counter - 1)]
           && Holds(w, s.database, s.counter - 1)
  }

  lemma StressNext(w: Workload, s: State, e: Event, s': State)
    requires StressInv(w, s) && Next(w, Stress, s, e) == Some(s') && !e.Kill?
    ensures StressInv(w, s')
  {
    if e.Begin? { StressBegins(w, s, s'); }
  }

  lemma StressBegins(w: Workload, s: State, s': State)
    requires StressInv(w, s) && Next(w, Stress, s, Begin) == Some(s')
    ensures StressInv(w, s')
  {
    RoundHolds(w, s.database, s.counter - 1);
    assert s.todo[1..] == [];
  }

  lemma {:induction false} StressRuns(w: Workload, events: seq<Event>)
    requires OneRun(events) && Run(w, Stress, events).Some?
    ensures StressInv(w, Run(w, Stress, events).value)
    decreases |events|
  {
    if events == [] {
      forall p: Place ensures Content(w, p, 0) == None {}
    } else {
      var init := events[..|events| - 1];
      StressRuns(w, init);
      StressNext(w, Run(w, Stress, init).value, events[|events| - 1], Run(w, Stress, events).value);
    }
  }

  /**
   At every loop head of one run of stress mode, database and log hold exactly these files: all
   sixteen of every batch, every tiny file, the last body of every overwritten slot, and every
   document as the merges that concern it, in order, have made it.
   */
  lemma StressHolds(w: Workload, events: seq<Event>)
    requires OneRun(events) && Run(w, Stress, events).Some?
    ensures var s := Run(w, Stress, events).value;
            s.pending == [] && s.todo == [] ==> Holds(w, s.database, s.counter) && Final(s.log) == s.database
  {
    StressRuns(w, events);
    RunAhead(w, Stress, events);
  }
}
