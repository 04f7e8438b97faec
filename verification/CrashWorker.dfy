/**
 The crash worker's protocol: each operation changes the database at once, then its lines are
 appended one by one; a kill may fall before any of them. The database is a map from paths to
 contents whose operations are atomic.
 */
module CrashWorker {
  import opened Common
  import opened Words
  import opened Mixers
  import opened Bytes
  import opened Decimal
  import opened Checkpoint

  type Database = map<Bytes, Bytes>

  // ---------------------------------------------------------------------------
  // What the worker does at each count
  // ---------------------------------------------------------------------------

  datatype Mode = Writes | Mixed | Gc | Stress

  /** Contents the worker formats as JSON, and what merging a patch makes of a file's content. */
  datatype Workload = Workload(
    gcBody: nat -> Bytes, batchBody: (nat, nat) -> Bytes, overwriteBody: nat -> Bytes, tinyBody: nat -> Bytes,
    merged: (Option<Bytes>, nat, nat) -> Bytes)

  /** Store files in one go, merge a patch into each file in one go, or delete a file. */
  datatype Op =
    | StoreFiles(files: seq<(Bytes, Bytes)>)
    | MergeFiles(counter: nat, patches: seq<(Bytes, nat)>)
    | DeleteFile(path: Bytes)

  function DataPath(c: nat): Bytes {
    Ascii("/data/file-") + Padded(c, 8) + Ascii(".txt")
  }

  function DataBody(c: nat): Bytes {
    Ascii("entry ") + Padded(c, 1) + Ascii(" payload ") + Padded(FastishHash(c % WORDS), 1)
  }

  function GcPath(c: nat): Bytes {
    Ascii("/gc/file-") + Padded(c % 256, 4) + Ascii(".json")
  }

  function BatchPath(c: nat, item: nat): Bytes {
    BatchFolder(c) + Padded(c, 8) + BatchEnd(item)
  }

  function BatchFolder(c: nat): Bytes {
    Ascii("/stress/batches/") + Padded(c % 512, 4) + Ascii("/file-")
  }

  function BatchEnd(item: nat): Bytes {
    Ascii("-") + Padded(item, 2) + Ascii(".json")
  }

  function StatePath(c: nat): Bytes {
    Ascii("/stress/state/doc-") + Padded(c % 64, 3) + Ascii(".json")
  }

  function MergePath(c: nat, item: nat): Bytes {
    Ascii("/stress/batch-merge/doc-") + Padded((c + item) % 96, 3) + Ascii(".json")
  }

  function OverwritePath(c: nat): Bytes {
    Ascii("/stress/overwrites/file-") + Padded(c % 128, 3) + Ascii(".json")
  }

  function TinyPath(c: nat): Bytes {
    Ascii("/stress/tiny/file-") + Padded(c, 8) + Ascii(".json")
  }

  function BatchFiles(w: Workload, c: nat): seq<(Bytes, Bytes)> {
    seq(16, (i: nat) => (BatchPath(c, i), w.batchBody(c, i)))
  }

  function BatchPatches(c: nat): seq<(Bytes, nat)> {
    seq(8, (i: nat) => (MergePath(c, i), i))
  }

  function StressOp(w: Workload, c: nat): Op {
    match c % 10
    case 0 => StoreFiles(BatchFiles(w, c))
    case 1 | 2 | 3 | 4 => MergeFiles(c, [(StatePath(c), c % 64)])
    case 5 | 6 => MergeFiles(c, BatchPatches(c))
    case 7 | 8 => StoreFiles([(OverwritePath(c), w.overwriteBody(c))])
    case _ => StoreFiles([(TinyPath(c), w.tinyBody(c))])
  }

  /** The operations of one round of the loop; collections and snapshots change no file. */
  function Ops(w: Workload, mode: Mode, c: nat): seq<Op> {
    match mode
    case Writes => [StoreFiles([(DataPath(c), DataBody(c))])]
    case Mixed =>
      [StoreFiles([(DataPath(c), DataBody(c))])] + if c > 0 && c % 7 == 0 then [DeleteFile(DataPath(c - 5))] else []
    case Gc => [StoreFiles([(GcPath(c), w.gcBody(c))])]
    case Stress => [StressOp(w, c)]
  }

  /** The lines an operation is followed by: its effect, file by file. */
  function OpRecords(w: Workload, op: Op, db: Database): seq<Record> {
    match op
    case StoreFiles(files) => seq(|files|, i requires 0 <= i < |files| => Committed(files[i].0, files[i].1))
    case MergeFiles(c, patches) =>
      seq(|patches|, i requires 0 <= i < |patches| =>
            Committed(patches[i].0, w.merged(Get(db, patches[i].0), c, patches[i].1)))
    case DeleteFile(path) => if path in db then [Deleted(path)] else []
  }

  function Get(db: Database, path: Bytes): Option<Bytes> {
    if path in db then Some(db[path]) else None
  }

  function PerformAll(db: Database, rs: seq<Record>): Database
    decreases |rs|
  {
    if rs == [] then db else PerformAll(Performed(db, rs[0]), rs[1..])
  }

  lemma FinalMore(log: seq<Record>, r: Record)
    ensures Final(log + [r]) == Performed(Final(log), r)
  {}

  // ---------------------------------------------------------------------------
  // Runs and kill points
  // ---------------------------------------------------------------------------

  /** `pending` are the lines the running operation still has to append. */
  datatype State = State(database: Database, log: seq<Record>, pending: seq<Record>, todo: seq<Op>, counter: nat)

  /** A kill may leave any part of the next line, short of its newline, behind. */
  datatype Event = Round | Begin | Append | Kill(tail: Bytes)

  function ModeName(mode: Mode): string {
    match mode
    case Writes => "writes"
    case Mixed => "mixed"
    case Gc => "gc"
    case Stress => "stress"
  }

  function Banner(mode: Mode): Record {
    Comment(Ascii(" worker up mode=") + Ascii(ModeName(mode)))
  }

  function Start(mode: Mode): State {
    State(map[], [Banner(mode)], [], [], 0)
  }

  predicate CanCut(s: State, tail: Bytes) {
    if s.pending == [] then tail == [] else tail <= Content(s.pending[0])
  }

  /** A cut line and the comment of the next worker are one line. */
  function FusedWith(r: Record, tail: Bytes, comment: Bytes): Record {
    match r
    case Committed(path, _) =>
      if |tail| <= |path| then Stray(tail + comment) else Committed(path, tail[|path| + 1..] + comment)
    case Deleted(_) => if |tail| < 2 then Stray(tail + comment) else Deleted(tail[2..] + comment)
    case _ => Stray(tail + comment)
  }

  function Fused(s: State, tail: Bytes, mode: Mode): Record
    requires CanCut(s, tail)
  {
    if tail == [] then Banner(mode) else FusedWith(s.pending[0], tail, Content(Banner(mode)))
  }

  /** One step; every state is a point where the worker may be killed. A restart begins again at zero. */
  function Next(w: Workload, mode: Mode, s: State, e: Event): Option<State> {
    match e
    case Round =>
      if s.pending == [] && s.todo == [] then
        Some(s.(todo := Ops(w, mode, s.counter), counter := s.counter + 1))
      else None
    case Begin =>
      if s.pending == [] && s.todo != [] then
        var rs := OpRecords(w, s.todo[0], s.database);
        Some(s.(database := PerformAll(s.database, rs), pending := rs, todo := s.todo[1..]))
      else None
    case Append =>
      if s.pending == [] then None else Some(s.(log := s.log + [s.pending[0]], pending := s.pending[1..]))
    case Kill(tail) =>
      if CanCut(s, tail) then Some(State(s.database, s.log + [Fused(s, tail, mode)], [], [], 0)) else None
  }

  function Run(w: Workload, mode: Mode, events: seq<Event>): Option<State>
    decreases |events|
  {
    if events == [] then Some(Start(mode)) else
    match Run(w, mode, events[..|events| - 1])
    case None => None
    case Some(s) => Next(w, mode, s, events[|events| - 1])
  }

  predicate OneRun(events: seq<Event>) {
    forall e :: e in events ==> !e.Kill?
  }

  lemma FusedContent(r: Record, tail: Bytes, comment: Bytes)
    requires tail <= Content(r)
    ensures Content(FusedWith(r, tail, comment)) == tail + comment
  {
    match r
    case Committed(path, body) => if |tail| > |path| { CutBehind(path + [TAB], body, tail, comment); }
    case Deleted(path) => if |tail| >= 2 { CutBehind([MINUS, TAB], path, tail, comment); }
    case _ =>
  }

  /** A line cut behind its front still has the front. */
  lemma CutBehind(front: Bytes, rest: Bytes, tail: Bytes, comment: Bytes)
    requires tail <= front + rest && |tail| >= |front|
    ensures front + (tail[|front|..] + comment) == tail + comment
  {
    assert tail == front + tail[|front|..];
  }

  /** A kill may leave any part of the line being written, all of it included, but no newline. */
  lemma AnyPartMayRemain(w: Workload, mode: Mode, s: State, tail: Bytes)
    ensures Next(w, mode, s, Kill(tail)).Some?
        <==> if s.pending == [] then tail == []
             else exists k :: 0 <= k <= |Content(s.pending[0])| && tail == Content(s.pending[0])[..k]
  {
    if s.pending != [] && tail <= Content(s.pending[0]) { assert tail == Content(s.pending[0])[..|tail|]; }
  }

  /** The bytes a kill and a restart leave: the log, the part of the line, and the new comment right after it. */
  lemma KillLeavesTheBytes(w: Workload, mode: Mode, s: State, tail: Bytes)
    requires CanCut(s, tail)
    ensures var s' := Next(w, mode, s, Kill(tail));
            s'.Some? && Print(s'.value.log) == Print(s.log) + (tail + Content(Banner(mode)) + [NEWLINE])
  {
    if tail != [] {
      FusedContent(s.pending[0], tail, Content(Banner(mode)));
    } else {
      assert tail + Content(Banner(mode)) == Content(Banner(mode));
    }
    PrintMore(s.log, Fused(s, tail, mode));
  }

  // ---------------------------------------------------------------------------
  // The verdict
  // ---------------------------------------------------------------------------

  /** The logged paths whose content in the database is not the logged one. */
  function Differing(db: Database, entries: Database): set<Bytes> {
    set p | p in entries && (p !in db || db[p] != entries[p])
  }

  predicate Missing(p: Bytes, entries: Database, db: Database) {
    p in entries && p !in db
  }

  /** A path, what was logged for it, and what the database holds instead. */
  predicate Corrupted(c: (Bytes, Bytes, Bytes), entries: Database, db: Database) {
    c.0 in entries && c.0 in db && c.1 == entries[c.0] && c.2 == db[c.0] && c.1 != c.2
  }

  /** The loop of `run_sigkill_iteration` over the entries of the log. */
  method Judge(entries: Database, db: Database) returns (missing: seq<Bytes>, corrupted: seq<(Bytes, Bytes, Bytes)>)
    ensures Distinct(missing) && forall p :: p in missing <==> Missing(p, entries, db)
    ensures Distinct(corrupted) && forall c :: c in corrupted <==> Corrupted(c, entries, db)
    ensures missing == [] && corrupted == [] <==> Differing(db, entries) == {}
  {
    missing, corrupted := [], [];
    var rest := entries.Keys;
    while rest != {}
      invariant rest <= entries.Keys
      invariant Distinct(missing) && forall p :: p in missing <==> Missing(p, entries, db) && p !in rest
      invariant Distinct(corrupted) && forall c :: c in corrupted <==> Corrupted(c, entries, db) && c.0 !in rest
    {
      var path :| path in rest;
      var expected := entries[path];
      if path in db {
        var actual := db[path];
        if actual != expected {
          OneMoreOnce(corrupted, (path, expected, actual));
          corrupted := corrupted + [(path, expected, actual)];
        }
      } else {
        OneMoreOnce(missing, path);
        missing := missing + [path];
      }
      rest := rest - {path};
    }
    NothingDiffers(entries, db, missing, corrupted);
  }

  lemma OneMoreOnce<T>(s: seq<T>, x: T)
    requires Distinct(s) && x !in s
    ensures Distinct(s + [x])
  {}

  lemma NothingDiffers(entries: Database, db: Database, missing: seq<Bytes>, corrupted: seq<(Bytes, Bytes, Bytes)>)
    requires forall p :: p in missing <==> Missing(p, entries, db)
    requires forall c :: c in corrupted <==> Corrupted(c, entries, db)
    ensures missing == [] && corrupted == [] <==> Differing(db, entries) == {}
  {
    forall p | p in Differing(db, entries) ensures p in missing || (p in db && (p, entries[p], db[p]) in corrupted) {
      if p in db { assert Corrupted((p, entries[p], db[p]), entries, db); }
    }
    if missing != [] { assert missing[0] in missing; assert missing[0] in Differing(db, entries); }
    if corrupted != [] { assert corrupted[0] in corrupted; assert corrupted[0].0 in Differing(db, entries); }
  }

  // ---------------------------------------------------------------------------
  // Performing records
  // ---------------------------------------------------------------------------

  function PathsOf(rs: seq<Record>): set<Bytes> {
    set r | r in rs && (r.Committed? || r.Deleted?) :: r.path
  }

  lemma PathsOfMore(rs: seq<Record>, r: Record)
    ensures PathsOf(rs + [r]) == PathsOf(rs) + if r.Committed? || r.Deleted? then {r.path} else {}
  {}

  lemma {:induction false} FewPaths(rs: seq<Record>)
    ensures |PathsOf(rs)| <= |rs|
  {
    if rs != [] {
      var init, last := rs[..|rs| - 1], rs[|rs| - 1];
      FewPaths(init);
      assert rs == init + [last];
      PathsOfMore(init, last);
    }
  }

  lemma {:induction false} UntouchedPath(db: Database, rs: seq<Record>, path: Bytes)
    requires path !in PathsOf(rs)
    ensures Get(PerformAll(db, rs), path) == Get(db, path)
    decreases |rs|
  {
    if rs != [] {
      assert rs[0] in rs;
      UntouchedPath(Performed(db, rs[0]), rs[1..], path);
    }
  }

  lemma {:induction false} PerformAllConcat(db: Database, a: seq<Record>, b: seq<Record>)
    ensures PerformAll(db, a + b) == PerformAll(PerformAll(db, a), b)
    decreases |a|
  {
    if a == [] {
      assert a + b == b;
    } else {
      PerformAllConcat(Performed(db, a[0]), a[1..], b);
      assert (a + b)[1..] == a[1..] + b;
    }
  }

  lemma PerformAllMore(db: Database, rs: seq<Record>, r: Record)
    ensures PerformAll(db, rs + [r]) == Performed(PerformAll(db, rs), r)
  {
    PerformAllConcat(db, rs, [r]);
    assert [r][1..] == [];
    assert PerformAll(PerformAll(db, rs), [r]) == PerformAll(Performed(PerformAll(db, rs), r), []);
  }

  /** Commits and deletes of different paths. */
  ghost predicate Separate(rs: seq<Record>) {
    && (forall j :: 0 <= j < |rs| ==> rs[j].Committed? || rs[j].Deleted?)
    && forall j, k :: 0 <= j < k < |rs| ==> rs[j].path != rs[k].path
  }

  lemma NotAmongOthers(rs: seq<Record>, k: nat, lo: nat, hi: nat)
    requires Separate(rs) && k < |rs| && lo <= hi <= |rs| && !(lo <= k < hi)
    ensures rs[k].path !in PathsOf(rs[lo..hi])
  {}

  /** The database holds what the record says of its path. */
  predicate DoneBy(db: Database, r: Record) {
    match r
    case Committed(path, body) => path in db && db[path] == body
    case Deleted(path) => path !in db
    case _ => true
  }

  /** A path concerned once among others is left as its record says. */
  lemma PerformedOnce(db: Database, rs: seq<Record>, k: nat)
    requires Separate(rs) && k < |rs|
    ensures DoneBy(PerformAll(db, rs), rs[k])
  {
    var before, after := rs[..k], rs[k + 1..];
    assert rs == before + ([rs[k]] + after);
    PerformAllConcat(db, before, [rs[k]] + after);
    assert ([rs[k]] + after)[1..] == after;
    NotAmongOthers(rs, k, k + 1, |rs|);
    UntouchedPath(Performed(PerformAll(db, before), rs[k]), after, rs[k].path);
  }

  // ---------------------------------------------------------------------------
  // One run: the database is what the log will say
  // ---------------------------------------------------------------------------

  ghost predicate Ahead(s: State) {
    s.database == PerformAll(Final(s.log), s.pending)
  }

  lemma NextAhead(w: Workload, mode: Mode, s: State, e: Event, s': State)
    requires Ahead(s) && Next(w, mode, s, e) == Some(s') && !e.Kill?
    ensures Ahead(s')
  {
    if e.Append? { FinalMore(s.log, s.pending[0]); }
  }

  lemma {:induction false} RunAhead(w: Workload, mode: Mode, events: seq<Event>)
    requires OneRun(events) && Run(w, mode, events).Some?
    ensures Ahead(Run(w, mode, events).value)
    decreases |events|
  {
    if events == [] {
      assert Final([Banner(mode)]) == Performed(Final([]), Banner(mode));
    } else {
      var init := events[..|events| - 1];
      RunAhead(w, mode, init);
      NextAhead(w, mode, Run(w, mode, init).value, events[|events| - 1], Run(w, mode, events).value);
    }
  }

  // ---------------------------------------------------------------------------
  // The paths of a round
  // ---------------------------------------------------------------------------

  lemma BatchFolderWidth(c: nat)
    ensures |BatchFolder(c)| == 26
  {
    assert Pow10(2) == 100 && Pow10(4) == 10000;
    PaddedWidth(c % 512, 4);
  }

  lemma BatchEndWidth(item: nat)
    requires item < 16
    ensures |BatchEnd(item)| == 8
  {
    assert Pow10(2) == 100;
    PaddedWidth(item, 2);
  }

  /** A batch path tells its count and its item. */
  lemma BatchPathInjective(c: nat, i: nat, c': nat, i': nat)
    requires i < 16 && i' < 16 && BatchPath(c, i) == BatchPath(c', i')
    ensures c == c' && i == i'
  {
    BatchFolderWidth(c);
    BatchFolderWidth(c');
    BatchEndWidth(i);
    BatchEndWidth(i');
    MiddleAgrees(BatchFolder(c), Padded(c, 8), BatchEnd(i), BatchFolder(c'), Padded(c', 8), BatchEnd(i'));
    PaddedRoundTrip(c, 8);
    PaddedRoundTrip(c', 8);
    FramedInjective(Ascii("-"), i, i', 2, Ascii(".json"));
  }

  lemma MiddleAgrees(a: Bytes, b: Bytes, c: Bytes, a': Bytes, b': Bytes, c': Bytes)
    requires a + b + c == a' + b' + c' && |a| == |a'| && |c| == |c'|
    ensures b == b' && c == c'
  {
    var s, s' := a + b + c, a' + b' + c';
    assert |b| == |b'|;
    assert s[|a|..|a| + |b|] == b && s'[|a'|..|a'| + |b'|] == b';
    assert s[|a| + |b|..] == c && s'[|a'| + |b'|..] == c';
  }

  /** The path is not one of a batch. */
  ghost predicate NotBatch(path: Bytes) {
    forall c: nat, i: nat :: i < 16 ==> path != BatchPath(c, i)
  }

  lemma OtherFamilies(c: nat)
    ensures NotBatch(StatePath(c)) && NotBatch(OverwritePath(c)) && NotBatch(TinyPath(c))
  {
    forall c': nat, i: nat | i < 16
      ensures StatePath(c) != BatchPath(c', i) && OverwritePath(c) != BatchPath(c', i)
                && TinyPath(c) != BatchPath(c', i)
    {
      assert BatchPath(c', i)[8] == 98;
      assert StatePath(c)[8] == 115 && OverwritePath(c)[8] == 111 && TinyPath(c)[8] == 116;
    }
  }

  lemma MergeFamily(c: nat, item: nat)
    ensures NotBatch(MergePath(c, item))
  {
    forall c': nat, i: nat | i < 16 ensures MergePath(c, item) != BatchPath(c', i) {
      assert BatchPath(c', i)[13] == 101 && MergePath(c, item)[13] == 45;
    }
  }

  lemma MergePathsDistinct(c: nat, i: nat, j: nat)
    requires i < j < 8
    ensures MergePath(c, i) != MergePath(c, j)
  {
    assert (c + i) % 96 != (c + j) % 96;
    if MergePath(c, i) == MergePath(c, j) {
      FramedInjective(Ascii("/stress/batch-merge/doc-"), (c + i) % 96, (c + j) % 96, 3, Ascii(".json"));
    }
  }

  lemma DataPathInjective(c: nat, c': nat)
    requires DataPath(c) == DataPath(c')
    ensures c == c'
  {
    FramedInjective(Ascii("/data/file-"), c, c', 8, Ascii(".txt"));
  }

  ghost predicate IsData(path: Bytes, body: Bytes) {
    exists c: nat :: path == DataPath(c) && body == DataBody(c)
  }

  lemma DataIsDetermined(path: Bytes, a: Bytes, b: Bytes)
    requires IsData(path, a) && IsData(path, b)
    ensures a == b
  {
    var c: nat :| path == DataPath(c) && a == DataBody(c);
    var c': nat :| path == DataPath(c') && b == DataBody(c');
    DataPathInjective(c, c');
  }

  // ---------------------------------------------------------------------------
  // The bytes of the log
  // ---------------------------------------------------------------------------

  /** JSON of numbers and ASCII names, printed on one line; merging into such JSON gives such JSON. */
  ghost predicate PrintsLines(w: Workload) {
    && (forall c: nat :: Plain(w.gcBody(c))) && (forall c: nat, i: nat :: Plain(w.batchBody(c, i)))
    && (forall c: nat :: Plain(w.overwriteBody(c))) && (forall c: nat :: Plain(w.tinyBody(c)))
    && forall before: Option<Bytes>, c: nat, i: nat ::
         (before.Some? ==> Plain(before.value)) ==> Plain(w.merged(before, c, i))
  }

  predicate PlainPath(path: Bytes) {
    Plain(path) && path != [] && path[0] == SLASH
  }

  lemma CommitPrints(path: Bytes, body: Bytes)
    requires PlainPath(path) && Plain(body)
    ensures CrashRecord(Committed(path, body))
  {
    PlainIsUtf8(path);
    PlainIsUtf8(body);
    assert ValidUtf8([TAB]);
    Utf8Concat(path, [TAB]);
    Utf8Concat(path + [TAB], body);
    var line := path + [TAB] + body;
    assert body != [] ==> line[|line| - 1] == body[|body| - 1];
  }

  lemma DeletePrints(path: Bytes)
    requires PlainPath(path)
    ensures CrashRecord(Deleted(path))
  {
    PlainIsUtf8(path);
    assert [MINUS, TAB][1..] == [TAB] && ValidUtf8([TAB]) && ValidUtf8([MINUS, TAB]);
    Utf8Concat([MINUS, TAB], path);
    var line := [MINUS, TAB] + path;
    assert line[|line| - 1] == path[|path| - 1];
  }

  lemma BannerPrints(mode: Mode)
    ensures CrashRecord(Banner(mode))
  {
    AsciiIsPlain(" worker up mode=");
    AsciiIsPlain(ModeName(mode));
    PlainIsUtf8(Content(Banner(mode)));
  }

  /** What an operation may write is printable. */
  ghost predicate PrintableOp(op: Op) {
    match op
    case StoreFiles(files) => forall i :: 0 <= i < |files| ==> PlainPath(files[i].0) && Plain(files[i].1)
    case MergeFiles(_, patches) => forall i :: 0 <= i < |patches| ==> PlainPath(patches[i].0)
    case DeleteFile(path) => PlainPath(path)
  }

  ghost predicate PrintableOps(ops: seq<Op>) {
    forall op :: op in ops ==> PrintableOp(op)
  }

  /** The commit or delete of a plain path, with a plain body. */
  predicate PlainRecord(r: Record) {
    match r
    case Committed(path, body) => PlainPath(path) && Plain(body)
    case Deleted(path) => PlainPath(path)
    case _ => false
  }

  ghost predicate PlainRecords(rs: seq<Record>) {
    forall i :: 0 <= i < |rs| ==> PlainRecord(rs[i])
  }

  ghost predicate PlainBodies(db: Database) {
    forall p :: p in db ==> Plain(db[p])
  }

  lemma RecordsPrint(w: Workload, op: Op, db: Database)
    requires PrintsLines(w) && PrintableOp(op) && PlainBodies(db)
    ensures PlainRecords(OpRecords(w, op, db))
  {
    if op.MergeFiles? {
      forall i | 0 <= i < |op.patches|
        ensures Plain(w.merged(Get(db, op.patches[i].0), op.counter, op.patches[i].1))
      {
        assert Get(db, op.patches[i].0).Some? ==> Plain(Get(db, op.patches[i].0).value);
      }
    }
  }

  lemma {:induction false} PerformedPlain(db: Database, rs: seq<Record>)
    requires PlainBodies(db) && PlainRecords(rs)
    ensures PlainBodies(PerformAll(db, rs))
    decreases |rs|
  {
    if rs != [] {
      assert PlainRecord(rs[0]);
      PerformedPlain(Performed(db, rs[0]), rs[1..]);
    }
  }

  lemma PlainRecordPrints(r: Record)
    requires PlainRecord(r)
    ensures CrashRecord(r)
  {
    match r
    case Committed(path, body) => CommitPrints(path, body);
    case Deleted(path) => DeletePrints(path);
  }

  /** Seven-bit bytes are UTF-8, however they are cut. */
  lemma {:induction false} SevenBitIsUtf8(b: Bytes)
    requires forall i :: 0 <= i < |b| ==> b[i] < 0x80
    ensures ValidUtf8(b)
    decreases |b|
  {
    if b != [] { SevenBitIsUtf8(b[1..]); }
  }

  lemma LineIsSevenBit(r: Record, i: nat)
    requires PlainRecord(r) && i < |Content(r)|
    ensures Content(r)[i] < 0x80
  {
    match r
    case Committed(path, body) => if i > |path| { assert Content(r)[i] == body[i - |path| - 1]; }
    case Deleted(path) => if i > 1 { assert Content(r)[i] == path[i - 2]; }
  }

  /** Wherever a kill cuts a line, what is left is whole characters. */
  lemma CutIsUtf8(r: Record, tail: Bytes)
    requires PlainRecord(r) && tail <= Content(r)
    ensures ValidUtf8(tail)
  {
    forall i | 0 <= i < |tail| ensures tail[i] < 0x80 {
      assert tail[i] == Content(r)[i];
      LineIsSevenBit(r, i);
    }
    SevenBitIsUtf8(tail);
  }

  lemma BatchPathPrints(c: nat, i: nat)
    ensures PlainPath(BatchPath(c, i))
  {
    FramedIsPlain("/stress/batches/", c % 512, 4, "/file-");
    PaddedIsPlain(c, 8);
    FramedIsPlain("-", i, 2, ".json");
    assert BatchPath(c, i)[0] == SLASH;
  }

  lemma OtherPathsPrint(c: nat)
    ensures PlainPath(StatePath(c)) && PlainPath(OverwritePath(c)) && PlainPath(TinyPath(c))
  {
    FramedIsPlain("/stress/state/doc-", c % 64, 3, ".json");
    FramedIsPlain("/stress/overwrites/file-", c % 128, 3, ".json");
    FramedIsPlain("/stress/tiny/file-", c, 8, ".json");
    assert StatePath(c)[0] == SLASH && OverwritePath(c)[0] == SLASH && TinyPath(c)[0] == SLASH;
  }

  lemma MergePathPrints(c: nat, i: nat)
    ensures PlainPath(MergePath(c, i))
  {
    FramedIsPlain("/stress/batch-merge/doc-", (c + i) % 96, 3, ".json");
    assert MergePath(c, i)[0] == SLASH;
  }

  lemma BatchPrints(w: Workload, c: nat)
    requires PrintsLines(w)
    ensures PrintableOp(StoreFiles(BatchFiles(w, c))) && PrintableOp(MergeFiles(c, BatchPatches(c)))
  {
    forall i: nat | i < 16
      ensures PlainPath(BatchFiles(w, c)[i].0) && Plain(BatchFiles(w, c)[i].1)
    {
      BatchPathPrints(c, i);
    }
    forall i: nat | i < 8 ensures PlainPath(BatchPatches(c)[i].0) { MergePathPrints(c, i); }
  }

  lemma StressOpPrints(w: Workload, c: nat)
    requires PrintsLines(w)
    ensures PrintableOp(StressOp(w, c))
  {
    BatchPrints(w, c);
    OtherPathsPrint(c);
  }

  lemma OpsPrint(w: Workload, mode: Mode, c: nat)
    requires PrintsLines(w)
    ensures PrintableOps(Ops(w, mode, c))
  {
    match mode
    case Stress =>
      StressOpPrints(w, c);
      OneOpPrints(StressOp(w, c));
    case Gc =>
      GcPrints(w, c);
      OneOpPrints(StoreFiles([(GcPath(c), w.gcBody(c))]));
    case Writes =>
      StorePrints(c);
      OneOpPrints(StoreFiles([(DataPath(c), DataBody(c))]));
    case Mixed => MixedPrints(w, c);
  }

  lemma MixedPrints(w: Workload, c: nat)
    ensures PrintableOps(Ops(w, Mixed, c))
  {
    StorePrints(c);
    DeletesPrint(c);
    MoreOpsPrint(StoreFiles([(DataPath(c), DataBody(c))]),
                 if c > 0 && c % 7 == 0 then [DeleteFile(DataPath(c - 5))] else []);
  }

  lemma OneOpPrints(op: Op)
    requires PrintableOp(op)
    ensures PrintableOps([op])
  {}

  lemma MoreOpsPrint(op: Op, ops: seq<Op>)
    requires PrintableOp(op) && PrintableOps(ops)
    ensures PrintableOps([op] + ops)
  {}

  lemma StorePrints(c: nat)
    ensures PrintableOp(StoreFiles([(DataPath(c), DataBody(c))]))
  {
    DataPrints(c);
  }

  lemma DeletesPrint(c: nat)
    ensures PrintableOps(if c > 0 && c % 7 == 0 then [DeleteFile(DataPath(c - 5))] else [])
  {
    if c > 0 && c % 7 == 0 {
      DataPrints(c - 5);
      OneOpPrints(DeleteFile(DataPath(c - 5)));
    }
  }

  lemma GcPrints(w: Workload, c: nat)
    requires PrintsLines(w)
    ensures PrintableOp(StoreFiles([(GcPath(c), w.gcBody(c))]))
  {
    FramedIsPlain("/gc/file-", c % 256, 4, ".json");
    assert GcPath(c)[0] == SLASH;
  }

  lemma DataPrints(c: nat)
    ensures PlainPath(DataPath(c)) && Plain(DataBody(c))
  {
    FramedIsPlain("/data/file-", c, 8, ".txt");
    FramedIsPlain("entry ", c, 1, " payload ");
    PaddedIsPlain(FastishHash(c % WORDS), 1);
    assert DataPath(c)[0] == SLASH;
  }

  ghost predicate Printable(s: State) {
    CrashRecords(s.log) && PlainRecords(s.pending) && PrintableOps(s.todo) && PlainBodies(s.database)
  }

  lemma PrintableMore(log: seq<Record>, r: Record)
    requires CrashRecords(log) && CrashRecord(r)
    ensures CrashRecords(log + [r])
  {}

  lemma FusedPrints(mode: Mode, s: State, tail: Bytes)
    requires Printable(s) && CanCut(s, tail)
    ensures CrashRecord(Fused(s, tail, mode))
  {
    BannerPrints(mode);
    if tail != [] {
      PlainRecordPrints(s.pending[0]);
      CutIsUtf8(s.pending[0], tail);
      FusedWithPrints(s.pending[0], tail, Content(Banner(mode)));
    }
  }

  lemma FusedWithPrints(r: Record, tail: Bytes, comment: Bytes)
    requires CrashRecord(r) && tail <= Content(r) && ValidUtf8(tail)
    requires comment != [] && LineText(comment) && TAB !in comment
    ensures CrashRecord(FusedWith(r, tail, comment))
  {
    FusedContent(r, tail, comment);
    LineTextThen(tail, comment);
    FusedShape(r, tail, comment);
  }

  lemma FusedShape(r: Record, tail: Bytes, comment: Bytes)
    requires CrashShape(r) && tail <= Content(r) && TAB !in comment
    ensures CrashShape(FusedWith(r, tail, comment))
  {
    match r
    case Committed(path, _) => if |tail| <= |path| { assert tail == path[..|tail|]; }
    case Deleted(_) => if |tail| == 1 { assert tail == [MINUS]; }
    case _ =>
  }

  lemma NextPrints(w: Workload, mode: Mode, s: State, e: Event, s': State)
    requires PrintsLines(w) && Printable(s) && Next(w, mode, s, e) == Some(s')
    ensures Printable(s')
  {
    match e
    case Round => OpsPrint(w, mode, s.counter);
    case Begin =>
      assert s.todo[0] in s.todo;
      RecordsPrint(w, s.todo[0], s.database);
      PerformedPlain(s.database, s'.pending);
    case Append =>
      PlainRecordPrints(s.pending[0]);
      PrintableMore(s.log, s.pending[0]);
    case Kill(tail) =>
      FusedPrints(mode, s, tail);
      PrintableMore(s.log, Fused(s, tail, mode));
  }

  lemma {:induction false} RunPrints(w: Workload, mode: Mode, events: seq<Event>)
    requires PrintsLines(w) && Run(w, mode, events).Some?
    ensures Printable(Run(w, mode, events).value)
    decreases |events|
  {
    if events == [] {
      BannerPrints(mode);
    } else {
      var init := events[..|events| - 1];
      RunPrints(w, mode, init);
      NextPrints(w, mode, Run(w, mode, init).value, events[|events| - 1], Run(w, mode, events).value);
    }
  }

  /** What `read_checkpoint` reads from the log of any runs is what its records say, lines run together included. */
  lemma EveryLogReadsBack(w: Workload, mode: Mode, events: seq<Event>)
    requires PrintsLines(w) && Run(w, mode, events).Some?
    ensures var s := Run(w, mode, events).value;
            Replayed(Lines(Print(s.log))) == Final(s.log)
  {
    RunPrints(w, mode, events);
    ReadWholeLog(Run(w, mode, events).value.log);
  }
}
