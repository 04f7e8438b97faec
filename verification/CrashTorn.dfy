/**
 Writes mode to the byte: over any number of kills, each anywhere inside a line or between two, and
 restarts from zero, exactly what the verdict finds wrong.
 */
module CrashTorn {
  import opened Bytes
  import opened Decimal
  import opened Checkpoint
  import opened CrashWorker
  import opened CrashVerdict
  import Mixers
  import Words

  // ---------------------------------------------------------------------------
  // The bodies of numbered files
  // ---------------------------------------------------------------------------

  lemma {:induction false} PaddedHasNoHash(n: nat, w: nat)
    ensures HASH !in Padded(n, w)
    decreases n + w
  {
    if !(n < 10 && w <= 1) { PaddedHasNoHash(n / 10, if w == 0 then 0 else w - 1); }
  }

  /** The body of a numbered file holds no mark of a comment. */
  lemma DataHasNoHash(path: Bytes, body: Bytes)
    requires IsData(path, body)
    ensures HASH !in body
  {
    var c: nat :| path == DataPath(c) && body == DataBody(c);
    PaddedHasNoHash(c, 1);
    PaddedHasNoHash(Mixers.FastishHash(c % Words.WORDS), 1);
    assert HASH !in Ascii("entry ") && HASH !in Ascii(" payload ");
  }

  // ---------------------------------------------------------------------------
  // What the kills leave in the log
  // ---------------------------------------------------------------------------

  lemma WritesAreSettled(s: State, blamed: set<Bytes>, w: Workload)
    requires Inv(w, Writes, s, blamed) && s.pending != []
    ensures s.pending[0].Committed? && IsData(s.pending[0].path, s.pending[0].body)
  {}

  ghost predicate IsDataPath(path: Bytes) {
    exists body :: IsData(path, body)
  }

  /** A path in doubt is logged with a comment run into its body. */
  ghost predicate Spoilt(entries: Database, blamed: set<Bytes>) {
    forall p :: p in blamed ==> IsDataPath(p) && p in entries && HASH in entries[p]
  }

  lemma SpoiltAppend(entries: Database, blamed: set<Bytes>, r: Record)
    requires Spoilt(entries, blamed) && r.Committed?
    ensures Spoilt(Performed(entries, r), blamed - PathsOf([r]))
  {
    assert r in [r];
  }

  lemma SpoiltKill(w: Workload, s: State, blamed: set<Bytes>, tail: Bytes)
    requires Inv(w, Writes, s, blamed) && Spoilt(Final(s.log), blamed) && CanCut(s, tail)
    ensures Spoilt(Performed(Final(s.log), Fused(s, tail, Writes)), blamed + Blame(Writes, s, tail))
  {
    if s.pending != [] && tail != [] {
      WritesAreSettled(s, blamed, w);
      var r, comment := s.pending[0], Content(Banner(Writes));
      assert comment[0] == HASH;
      if |tail| > |r.path| { assert (tail[|r.path| + 1..] + comment)[|tail| - |r.path| - 1] == HASH; }
    }
  }

  lemma {:induction false} WritesSpoilt(w: Workload, events: seq<Event>)
    requires Run(w, Writes, events).Some?
    ensures Spoilt(Final(Run(w, Writes, events).value.log), Blamed(w, Writes, events))
    decreases |events|
  {
    if events != [] {
      var init, last := events[..|events| - 1], events[|events| - 1];
      WritesSpoilt(w, init);
      RunInv(w, Writes, init);
      var s, blamed := Run(w, Writes, init).value, Blamed(w, Writes, init);
      match last
      case Round =>
      case Begin =>
      case Append => AppendStaysSpoilt(w, s, blamed);
      case Kill(tail) => KillStaysSpoilt(w, s, blamed, tail);
    }
  }

  lemma AppendStaysSpoilt(w: Workload, s: State, blamed: set<Bytes>)
    requires Inv(w, Writes, s, blamed) && Spoilt(Final(s.log), blamed) && s.pending != []
    ensures Spoilt(Final(s.log + [s.pending[0]]), blamed - PathsOf([s.pending[0]]))
  {
    WritesAreSettled(s, blamed, w);
    FinalMore(s.log, s.pending[0]);
    SpoiltAppend(Final(s.log), blamed, s.pending[0]);
  }

  lemma KillStaysSpoilt(w: Workload, s: State, blamed: set<Bytes>, tail: Bytes)
    requires Inv(w, Writes, s, blamed) && Spoilt(Final(s.log), blamed) && CanCut(s, tail)
    ensures Spoilt(Final(s.log + [Fused(s, tail, Writes)]), blamed + Blame(Writes, s, tail))
  {
    FinalMore(s.log, Fused(s, tail, Writes));
    SpoiltKill(w, s, blamed, tail);
  }

  /** Whole lines: exactly the paths whose commit a comment ran into, and that were not logged again, differ. */
  lemma WritesDifferExactly(w: Workload, events: seq<Event>)
    requires Run(w, Writes, events).Some?
    ensures var s := Run(w, Writes, events).value;
            Differing(s.database, Final(s.log)) == Blamed(w, Writes, events)
  {
    var s, blamed := Run(w, Writes, events).value, Blamed(w, Writes, events);
    RunInv(w, Writes, events);
    WritesSpoilt(w, events);
    CutAgrees(w, Writes, s, blamed, [], Final(s.log));
    assert blamed + Blame(Writes, s, []) == blamed;
    AgreesMeansWithin(s.database, Final(s.log), blamed);
    forall p | p in blamed
      ensures p in Differing(s.database, Final(s.log))
    {
      SpoiltDiffers(w, s.database, Final(s.log), blamed, p);
    }
  }

  lemma SpoiltDiffers(w: Workload, db: Database, entries: Database, blamed: set<Bytes>, p: Bytes)
    requires Kept(w, Writes, db, {}) && Spoilt(entries, blamed) && p in blamed
    ensures p in Differing(db, entries)
  {
    var body :| IsData(p, body);
    assert Fixed(w, Writes, p, body);
    if p in db { DataHasNoHash(p, db[p]); }
  }

  // ---------------------------------------------------------------------------
  // The verdict after a last kill
  // ---------------------------------------------------------------------------

  lemma OneEntryMore(db: Database, entries: Database, path: Bytes, read: Bytes)
    requires path in db
    ensures Differing(db, entries[path := read])
         == Differing(db, entries) - {path} + if read == db[path] then {} else {path}
  {}

  /** What is read of a cut commit is the stored body exactly when the line was whole. */
  lemma PartIsWhole(r: Record, tail: Bytes)
    requires r.Committed? && tail <= Content(r) && |tail| > |r.path|
    ensures tail[|r.path| + 1..] == r.body <==> tail == Content(r)
  {
    var line, part := Content(r), tail[|r.path| + 1..];
    assert line[|r.path| + 1..] == r.body && tail == line[..|tail|];
    assert part == r.body[..|part|];
  }

  /**
   Killed anywhere, over any earlier kills anywhere and restarts: what the verdict finds wrong is
   exactly the paths whose commit a comment ran into and that were not logged again since, without
   the path of the line now cut if its body is whole, and with it if only a part of the body is there.
   */
  lemma WritesTornVerdict(w: Workload, events: seq<Event>, tail: Bytes)
    requires PrintsLines(w) && Run(w, Writes, events).Some? && CanCut(Run(w, Writes, events).value, tail)
    ensures var s, blamed := Run(w, Writes, events).value, Blamed(w, Writes, events);
            Differing(s.database, ReadAfter(s, tail))
            == if !PastTab(s, tail) then blamed
               else if tail == Content(s.pending[0]) then blamed - {s.pending[0].path}
               else blamed + {s.pending[0].path}
  {
    var s, blamed := Run(w, Writes, events).value, Blamed(w, Writes, events);
    RunInv(w, Writes, events);
    RunPrints(w, Writes, events);
    WritesDifferExactly(w, events);
    if s.pending == [] {
      assert Print(s.log) + tail == Print(s.log);
      ReadWholeLog(s.log);
    } else {
      LastCut(w, s, blamed, tail);
    }
  }

  lemma LastCut(w: Workload, s: State, blamed: set<Bytes>, tail: Bytes)
    requires Inv(w, Writes, s, blamed) && Printable(s) && s.pending != [] && CanCut(s, tail)
    requires Differing(s.database, Final(s.log)) == blamed
    ensures Differing(s.database, ReadAfter(s, tail))
         == if !PastTab(s, tail) then blamed
            else if tail == Content(s.pending[0]) then blamed - {s.pending[0].path}
            else blamed + {s.pending[0].path}
  {
    var r := s.pending[0];
    WritesAreSettled(s, blamed, w);
    assert DoneBy(s.database, r);
    PlainRecordPrints(r);
    CutIsUtf8(r, tail);
    ReadCutLog(s.log, r, tail);
    if PastTab(s, tail) {
      OneEntryMore(s.database, Final(s.log), r.path, tail[|r.path| + 1..]);
      PartIsWhole(r, tail);
    }
  }

  /**
   The verdict passes exactly when every such path was logged again and the last cut leaves no part
   of the body or all of it.
   */
  lemma WritesPassExactly(w: Workload, events: seq<Event>, tail: Bytes)
    requires PrintsLines(w) && Run(w, Writes, events).Some? && CanCut(Run(w, Writes, events).value, tail)
    ensures var s, blamed := Run(w, Writes, events).value, Blamed(w, Writes, events);
            Differing(s.database, ReadAfter(s, tail)) == {} <==>
              if PastTab(s, tail) then tail == Content(s.pending[0]) && blamed <= {s.pending[0].path} else blamed == {}
  {
    WritesTornVerdict(w, events, tail);
  }

  /** Kills that leave no byte past a tab leave nothing wrong, however many there are. */
  lemma WritesNeverDiffer(w: Workload, events: seq<Event>)
    requires Run(w, Writes, events).Some? && forall e :: e in events && e.Kill? ==> TAB !in e.tail
    ensures var s := Run(w, Writes, events).value;
            Differing(s.database, Final(s.log)) == {}
  {
    WritesDifferExactly(w, events);
    NoTabNoBlame(w, events);
  }

  lemma PastTabHasTab(s: State, tail: Bytes)
    requires CanCut(s, tail)
    ensures PastTab(s, tail) ==> TAB in tail
  {
    if PastTab(s, tail) { assert tail[|s.pending[0].path|] == Content(s.pending[0])[|s.pending[0].path|]; }
  }

  lemma {:induction false} NoTabNoBlame(w: Workload, events: seq<Event>)
    requires Run(w, Writes, events).Some? && forall e :: e in events && e.Kill? ==> TAB !in e.tail
    ensures Blamed(w, Writes, events) == {}
    decreases |events|
  {
    if events != [] {
      var init, last := events[..|events| - 1], events[|events| - 1];
      NoTabNoBlame(w, init);
      if last.Kill? { PastTabHasTab(Run(w, Writes, init).value, last.tail); }
    }
  }
}
