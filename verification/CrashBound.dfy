/**
 Runs of mixed mode over a correct database that the verdict condemns: for any number of kills there
 is one in which each kill costs a path.
 */
module CrashBound {
  import opened Common
  import opened Bytes
  import opened Checkpoint
  import opened CrashWorker
  import opened CrashVerdict

  // ---------------------------------------------------------------------------
  // States on the way
  // ---------------------------------------------------------------------------

  /** At the head of the loop, at this count. */
  predicate AtHead(s: State, c: nat) {
    s.pending == [] && s.todo == [] && s.counter == c
  }

  predicate DeletesAt(c: nat) {
    c >= 7 && c % 7 == 0
  }

  function Deletes(c: nat): seq<Op> {
    if DeletesAt(c) then [DeleteFile(DataPath(c - 5))] else []
  }

  /** A file stored and logged, at the start of a round. */
  function AfterStore(s: State, c: nat): State {
    s.(database := s.database[DataPath(c) := DataBody(c)], log := s.log + [Committed(DataPath(c), DataBody(c))],
       todo := Deletes(c), counter := c + 1)
  }

  /** A file deleted, its line still to come. */
  function Cut(s: State, path: Bytes): State {
    s.(database := s.database - {path}, pending := [Deleted(path)], todo := [])
  }

  function AfterDelete(s: State, path: Bytes): State {
    s.(database := s.database - {path}, log := s.log + [Deleted(path)], todo := [])
  }

  function AfterRound(s: State, c: nat): State {
    if DeletesAt(c) then AfterDelete(AfterStore(s, c), DataPath(c - 5)) else AfterStore(s, c)
  }

  function AfterRounds(s: State, c: nat): State {
    if c == 0 then s else AfterRound(AfterRounds(s, c - 1), c - 1)
  }

  /** From a restart on to the delete of this round, killed before its line. */
  function CutOff(s: State, c: nat): State
    requires c >= 5
  {
    Cut(AfterStore(AfterRounds(s, c), c), DataPath(c - 5))
  }

  function Restarted(s: State): State {
    State(s.database, s.log + [Banner(Mixed)], [], [], 0)
  }

  /** Killed at the deletes of the rounds `7 * n`, `7 * (n - 1)` and so on down to `7 * m`, one after the other. */
  function Costly(m: nat, n: nat): State
    requires 0 < m <= n
    decreases n - m
  {
    CutOff(if m == n then Start(Mixed) else Restarted(Costly(m + 1, n)), 7 * m)
  }

  // ---------------------------------------------------------------------------
  // The events that lead there
  // ---------------------------------------------------------------------------

  const STORE_EVENTS: seq<Event> := [Round, Begin, Append]

  function RoundEvents(c: nat): seq<Event> {
    STORE_EVENTS + if DeletesAt(c) then [Begin, Append] else []
  }

  function RoundsEvents(c: nat): seq<Event> {
    if c == 0 then [] else RoundsEvents(c - 1) + RoundEvents(c - 1)
  }

  function CutOffEvents(c: nat): seq<Event> {
    RoundsEvents(c) + STORE_EVENTS + [Begin]
  }

  function CostlyEvents(m: nat, n: nat): seq<Event>
    requires 0 < m <= n
    decreases n - m
  {
    (if m == n then [] else CostlyEvents(m + 1, n) + [Kill([])]) + CutOffEvents(7 * m)
  }

  /** Each state is the one before after its event. */
  ghost predicate Walk(w: Workload, states: seq<State>, events: seq<Event>) {
    && |states| == |events| + 1
    && forall i {:trigger events[i]} ::
         0 <= i < |events| ==> Next(w, Mixed, states[i], events[i]) == Some(states[i + 1])
  }

  /** The events lead from one state to the other. */
  ghost predicate Leads(w: Workload, s: State, events: seq<Event>, s': State) {
    exists states :: Walk(w, states, events) && states[0] == s && states[|events|] == s'
  }

  lemma WalkStep(w: Workload, states: seq<State>, events: seq<Event>, i: nat)
    requires Walk(w, states, events) && i < |events|
    ensures Next(w, Mixed, states[i], events[i]) == Some(states[i + 1])
  {}

  lemma WalkConcat(w: Workload, a: seq<State>, x: seq<Event>, b: seq<State>, y: seq<Event>)
    requires Walk(w, a, x) && Walk(w, b, y) && a[|x|] == b[0]
    ensures Walk(w, a + b[1..], x + y)
  {
    var states, events := a + b[1..], x + y;
    forall i | 0 <= i < |events| ensures Next(w, Mixed, states[i], events[i]) == Some(states[i + 1]) {
      if i < |x| { WalkStep(w, a, x, i); } else { WalkStep(w, b, y, i - |x|); }
    }
  }

  lemma LeadsConcat(w: Workload, s: State, x: seq<Event>, t: State, y: seq<Event>, u: State)
    requires Leads(w, s, x, t) && Leads(w, t, y, u)
    ensures Leads(w, s, x + y, u)
  {
    var a :| Walk(w, a, x) && a[0] == s && a[|x|] == t;
    var b :| Walk(w, b, y) && b[0] == t && b[|y|] == u;
    WalkConcat(w, a, x, b, y);
    assert (a + b[1..])[|x + y|] == u;
  }

  lemma LeadsNowhere(w: Workload, s: State)
    ensures Leads(w, s, [], s)
  {
    assert Walk(w, [s], []);
  }

  lemma LeadsOne(w: Workload, s: State, e: Event, s': State)
    requires Next(w, Mixed, s, e) == Some(s')
    ensures Leads(w, s, [e], s')
  {
    var states := [s, s'];
    assert Walk(w, states, [e]);
    assert states[0] == s && states[1] == s';
  }

  lemma {:induction false} LeadsIsRun(w: Workload, states: seq<State>, events: seq<Event>)
    requires Walk(w, states, events) && states[0] == Start(Mixed)
    ensures Run(w, Mixed, events) == Some(states[|events|])
    decreases |events|
  {
    if events != [] {
      var n := |events| - 1;
      WalkStep(w, states, events, n);
      WalkInit(w, states, events);
      LeadsIsRun(w, states[..n + 1], events[..n]);
    }
  }

  lemma WalkInit(w: Workload, states: seq<State>, events: seq<Event>)
    requires Walk(w, states, events) && events != []
    ensures Walk(w, states[..|events|], events[..|events| - 1])
  {
    var n := |events| - 1;
    forall i | 0 <= i < n
      ensures Next(w, Mixed, states[..n + 1][i], events[..n][i]) == Some(states[..n + 1][i + 1])
    {
      WalkStep(w, states, events, i);
    }
  }

  lemma StoreBegins(w: Workload, s: State, path: Bytes, body: Bytes, todo: seq<Op>)
    requires s.pending == [] && s.todo == [StoreFiles([(path, body)])] + todo
    ensures Next(w, Mixed, s, Begin)
         == Some(s.(database := s.database[path := body], pending := [Committed(path, body)], todo := todo))
  {
    var r := Committed(path, body);
    assert s.todo[0] == StoreFiles([(path, body)]) && s.todo[1..] == todo;
    assert OpRecords(w, StoreFiles([(path, body)]), s.database) == [r] && [r][1..] == [];
    assert PerformAll(s.database, [r]) == PerformAll(Performed(s.database, r), []);
  }

  lemma ThreeLead(w: Workload, s: State, s1: State, s2: State, s3: State)
    requires Next(w, Mixed, s, Round) == Some(s1) && Next(w, Mixed, s1, Begin) == Some(s2)
    requires Next(w, Mixed, s2, Append) == Some(s3)
    ensures Leads(w, s, STORE_EVENTS, s3)
  {
    var states := [s, s1, s2, s3];
    assert Walk(w, states, STORE_EVENTS);
    assert states[0] == s && states[3] == s3;
  }

  lemma MixedOps(w: Workload, c: nat)
    ensures Ops(w, Mixed, c) == [StoreFiles([(DataPath(c), DataBody(c))])] + Deletes(c)
  {
    SeventhRound(c);
  }

  lemma SeventhRound(c: nat)
    ensures DeletesAt(c) <==> c > 0 && c % 7 == 0
  {}

  lemma FileLeads(w: Workload, s: State, c: nat, path: Bytes, body: Bytes, todo: seq<Op>)
    requires AtHead(s, c) && Ops(w, Mixed, c) == [StoreFiles([(path, body)])] + todo
    ensures Leads(w, s, STORE_EVENTS, s.(database := s.database[path := body],
                                         log := s.log + [Committed(path, body)], todo := todo, counter := c + 1))
  {
    var r := Committed(path, body);
    var begun := s.(todo := Ops(w, Mixed, c), counter := c + 1);
    var stored := begun.(database := s.database[path := body], pending := [r], todo := todo);
    StoreBegins(w, begun, path, body, todo);
    assert [r][1..] == [];
    ThreeLead(w, s, begun, stored, stored.(log := s.log + [r], pending := []));
  }

  lemma StoreLeads(w: Workload, s: State, c: nat)
    requires AtHead(s, c)
    ensures Leads(w, s, STORE_EVENTS, AfterStore(s, c))
  {
    MixedOps(w, c);
    FileLeads(w, s, c, DataPath(c), DataBody(c), Deletes(c));
  }

  lemma DeleteBegins(w: Workload, s: State, path: Bytes)
    requires s.pending == [] && s.todo == [DeleteFile(path)] && path in s.database
    ensures Next(w, Mixed, s, Begin) == Some(Cut(s, path)) && Leads(w, s, [Begin], Cut(s, path))
  {
    var r := Deleted(path);
    assert s.todo[1..] == [] && OpRecords(w, s.todo[0], s.database) == [r] && [r][1..] == [];
    assert PerformAll(s.database, [r]) == PerformAll(s.database - {path}, []);
    LeadsOne(w, s, Begin, Cut(s, path));
  }

  lemma DeleteLeads(w: Workload, s: State, path: Bytes)
    requires s.pending == [] && s.todo == [DeleteFile(path)] && path in s.database
    ensures Leads(w, s, [Begin, Append], AfterDelete(s, path))
  {
    DeleteBegins(w, s, path);
    assert [Deleted(path)][1..] == [];
    LeadsOne(w, Cut(s, path), Append, AfterDelete(s, path));
    LeadsConcat(w, s, [Begin], Cut(s, path), [Append], AfterDelete(s, path));
    assert [Begin] + [Append] == [Begin, Append];
  }

  /** The files of the last five rounds are there, and logged. */
  ghost predicate Recent(s: State, c: nat) {
    forall i: nat :: i < c <= i + 5 ==> DataPath(i) in s.database && DataPath(i) in Final(s.log)
  }

  lemma DataPathsDiffer(i: nat, j: nat)
    requires i != j
    ensures DataPath(i) != DataPath(j)
  {
    if DataPath(i) == DataPath(j) { DataPathInjective(i, j); }
  }

  /** The file to delete is still there. */
  lemma Deletable(s: State, c: nat)
    requires Recent(s, c) && c >= 5
    ensures DataPath(c - 5) in AfterStore(s, c).database && DataPath(c - 5) in Final(AfterStore(s, c).log)
  {
    FinalMore(s.log, Committed(DataPath(c), DataBody(c)));
  }

  lemma RoundLeads(w: Workload, s: State, c: nat)
    requires AtHead(s, c) && Recent(s, c)
    ensures Leads(w, s, RoundEvents(c), AfterRound(s, c)) && AtHead(AfterRound(s, c), c + 1)
  {
    StoreLeads(w, s, c);
    if DeletesAt(c) {
      Deletable(s, c);
      DeleteLeads(w, AfterStore(s, c), DataPath(c - 5));
      LeadsConcat(w, s, STORE_EVENTS, AfterStore(s, c), [Begin, Append], AfterRound(s, c));
    } else {
      assert STORE_EVENTS + [] == STORE_EVENTS;
    }
  }

  lemma StoreIsRecent(s: State, c: nat)
    requires Recent(s, c)
    ensures forall i: nat :: i <= c <= i + 5 ==>
              DataPath(i) in AfterStore(s, c).database && DataPath(i) in Final(AfterStore(s, c).log)
  {
    FinalMore(s.log, Committed(DataPath(c), DataBody(c)));
  }

  lemma RoundIsRecent(s: State, c: nat)
    requires Recent(s, c)
    ensures Recent(AfterRound(s, c), c + 1)
  {
    StoreIsRecent(s, c);
    if DeletesAt(c) { DeleteIsRecent(AfterStore(s, c), c); }
  }

  lemma DeleteIsRecent(s: State, c: nat)
    requires c >= 5
    requires forall i: nat :: i <= c <= i + 5 ==> DataPath(i) in s.database && DataPath(i) in Final(s.log)
    ensures Recent(AfterDelete(s, DataPath(c - 5)), c + 1)
  {
    var s' := AfterDelete(s, DataPath(c - 5));
    FinalMore(s.log, Deleted(DataPath(c - 5)));
    forall i: nat | i < c + 1 <= i + 5 ensures DataPath(i) in s'.database && DataPath(i) in Final(s'.log) {
      DataPathsDiffer(i, c - 5);
    }
  }

  lemma RoundAfter(w: Workload, s: State, before: seq<Event>, t: State, c: nat)
    requires Leads(w, s, before, t) && AtHead(t, c) && Recent(t, c)
    ensures Leads(w, s, before + RoundEvents(c), AfterRound(t, c))
    ensures AtHead(AfterRound(t, c), c + 1) && Recent(AfterRound(t, c), c + 1)
  {
    RoundLeads(w, t, c);
    RoundIsRecent(t, c);
    LeadsConcat(w, s, before, t, RoundEvents(c), AfterRound(t, c));
  }

  /** What holds at the first count, and of each count after a round of it at the next, holds at every count. */
  lemma {:induction false} RoundByRound(holds: (State, nat) -> bool, s: State, c: nat)
    requires holds(s, 0)
    requires forall t, k: nat :: k < c && holds(t, k) ==> holds(AfterRound(t, k), k + 1)
    ensures holds(AfterRounds(s, c), c)
  {
    if c > 0 {
      RoundByRound(holds, s, c - 1);
      assert holds(AfterRound(AfterRounds(s, c - 1), c - 1), c);
    }
  }

  ghost predicate LedTo(w: Workload, s: State, t: State, c: nat) {
    Leads(w, s, RoundsEvents(c), t) && AtHead(t, c) && Recent(t, c)
  }

  lemma RoundsLead(w: Workload, s: State, c: nat)
    requires AtHead(s, 0)
    ensures LedTo(w, s, AfterRounds(s, c), c)
  {
    LeadsNowhere(w, s);
    forall t, k: nat | LedTo(w, s, t, k) ensures LedTo(w, s, AfterRound(t, k), k + 1) {
      RoundAfter(w, s, RoundsEvents(k), t, k);
    }
    RoundByRound((t, k: nat) => LedTo(w, s, t, k), s, c);
  }

  lemma LastDelete(w: Workload, s: State, c: nat)
    requires AtHead(s, c) && Recent(s, c) && DeletesAt(c)
    ensures Leads(w, AfterStore(s, c), [Begin], Cut(AfterStore(s, c), DataPath(c - 5)))
  {
    Deletable(s, c);
    DeleteBegins(w, AfterStore(s, c), DataPath(c - 5));
  }

  lemma CutOffAfter(w: Workload, s: State, before: seq<Event>, t: State, c: nat)
    requires Leads(w, s, before, t) && AtHead(t, c) && Recent(t, c) && DeletesAt(c)
    ensures Leads(w, s, before + STORE_EVENTS + [Begin], Cut(AfterStore(t, c), DataPath(c - 5)))
  {
    var stored := AfterStore(t, c);
    StoreLeads(w, t, c);
    LeadsConcat(w, s, before, t, STORE_EVENTS, stored);
    LastDelete(w, t, c);
    LeadsConcat(w, s, before + STORE_EVENTS, stored, [Begin], Cut(stored, DataPath(c - 5)));
  }

  lemma CutOffLeads(w: Workload, s: State, c: nat)
    requires AtHead(s, 0) && DeletesAt(c)
    ensures Leads(w, s, CutOffEvents(c), CutOff(s, c))
  {
    RoundsLead(w, s, c);
    CutOffAfter(w, s, RoundsEvents(c), AfterRounds(s, c), c);
  }

  lemma RestartLeads(w: Workload, s: State)
    ensures Leads(w, s, [Kill([])], Restarted(s))
  {
    LeadsOne(w, s, Kill([]), Restarted(s));
  }

  lemma CostlyAfter(w: Workload, before: seq<Event>, s: State, c: nat)
    requires Leads(w, Start(Mixed), before, s) && DeletesAt(c)
    ensures Leads(w, Start(Mixed), before + [Kill([])] + CutOffEvents(c), CutOff(Restarted(s), c))
  {
    RestartLeads(w, s);
    LeadsConcat(w, Start(Mixed), before, s, [Kill([])], Restarted(s));
    CutOffLeads(w, Restarted(s), c);
    LeadsConcat(w, Start(Mixed), before + [Kill([])], Restarted(s), CutOffEvents(c), CutOff(Restarted(s), c));
  }

  lemma SeventhDeletes(m: nat)
    requires m > 0
    ensures DeletesAt(7 * m)
  {}

  lemma {:induction false} CostlyLeads(w: Workload, m: nat, n: nat)
    requires 0 < m <= n
    ensures Leads(w, Start(Mixed), CostlyEvents(m, n), Costly(m, n))
    decreases n - m
  {
    SeventhDeletes(m);
    if m == n {
      CutOffLeads(w, Start(Mixed), 7 * m);
      assert [] + CutOffEvents(7 * m) == CutOffEvents(7 * m);
    } else {
      CostlyLeads(w, m + 1, n);
      CostlyAfter(w, CostlyEvents(m + 1, n), Costly(m + 1, n), 7 * m);
    }
  }

  // ---------------------------------------------------------------------------
  // How many kills there are
  // ---------------------------------------------------------------------------

  lemma {:induction false} KillsConcat(a: seq<Event>, b: seq<Event>)
    ensures Kills(a + b) == Kills(a) + Kills(b)
    decreases |b|
  {
    if b == [] {
      assert a + b == a;
    } else {
      KillsConcat(a, b[..|b| - 1]);
      assert (a + b)[..|a + b| - 1] == a + b[..|b| - 1];
    }
  }

  lemma {:induction false} NoKills(events: seq<Event>)
    requires OneRun(events)
    ensures Kills(events) == 0
  {
    OneRunHasNoKills(events);
  }

  lemma {:induction false} RoundsAreOneRun(c: nat)
    ensures OneRun(RoundsEvents(c))
  {
    if c > 0 { RoundsAreOneRun(c - 1); }
  }

  lemma CutOffIsOneRun(c: nat)
    ensures OneRun(CutOffEvents(c))
  {
    RoundsAreOneRun(c);
  }

  lemma {:induction false} CostlyKills(m: nat, n: nat)
    requires 0 < m <= n
    ensures Kills(CostlyEvents(m, n)) == n - m
    decreases n - m
  {
    CutOffIsOneRun(7 * m);
    NoKills(CutOffEvents(7 * m));
    if m == n {
      assert [] + CutOffEvents(7 * m) == CutOffEvents(7 * m);
    } else {
      CostlyKills(m + 1, n);
      KillsConcat(CostlyEvents(m + 1, n), [Kill([])]);
      assert [Kill([])][..0] == [];
      KillsConcat(CostlyEvents(m + 1, n) + [Kill([])], CutOffEvents(7 * m));
    }
  }

  // ---------------------------------------------------------------------------
  // What is wrong
  // ---------------------------------------------------------------------------

  function WrongIn(s: State): set<Bytes> {
    Differing(s.database, Final(s.log))
  }

  /** None of these paths is of a count below. */
  ghost predicate Above(paths: set<Bytes>, c: nat) {
    forall i: nat :: i < c ==> DataPath(i) !in paths
  }

  lemma StoreKeepsWrong(s: State, c: nat)
    requires DataPath(c) !in WrongIn(s)
    ensures WrongIn(AfterStore(s, c)) == WrongIn(s)
  {
    FinalMore(s.log, Committed(DataPath(c), DataBody(c)));
  }

  lemma DeleteKeepsWrong(s: State, path: Bytes)
    requires path !in WrongIn(s)
    ensures WrongIn(AfterDelete(s, path)) == WrongIn(s)
  {
    FinalMore(s.log, Deleted(path));
  }

  lemma RoundKeepsWrong(s: State, c: nat)
    requires Above(WrongIn(s), c + 1)
    ensures WrongIn(AfterRound(s, c)) == WrongIn(s)
  {
    StoreKeepsWrong(s, c);
    if DeletesAt(c) { DeleteKeepsWrong(AfterStore(s, c), DataPath(c - 5)); }
  }

  lemma RoundsKeepWrong(s: State, c: nat)
    requires Above(WrongIn(s), c)
    ensures WrongIn(AfterRounds(s, c)) == WrongIn(s)
  {
    var wrong := WrongIn(s);
    forall t, k: nat | k < c && WrongIn(t) == wrong ensures WrongIn(AfterRound(t, k)) == wrong {
      RoundKeepsWrong(t, k);
    }
    RoundByRound((t, k) => WrongIn(t) == wrong, s, c);
  }

  lemma CutIsWrong(s: State, path: Bytes)
    requires path in Final(s.log)
    ensures WrongIn(Cut(s, path)) == WrongIn(s) + {path}
  {}

  lemma CutOffIsWrong(w: Workload, s: State, c: nat)
    requires c >= 5 && AtHead(s, 0) && Above(WrongIn(s), c + 1)
    ensures WrongIn(CutOff(s, c)) == WrongIn(s) + {DataPath(c - 5)}
  {
    var t := AfterRounds(s, c);
    RoundsKeepWrong(s, c);
    StoreKeepsWrong(t, c);
    RoundsLead(w, s, c);
    Deletable(t, c);
    CutIsWrong(AfterStore(t, c), DataPath(c - 5));
  }

  lemma RestartKeepsWrong(s: State)
    ensures WrongIn(Restarted(s)) == WrongIn(s)
  {
    FinalMore(s.log, Banner(Mixed));
  }

  /** The paths deleted in the rounds `7 * m` up to `7 * n`. */
  function Cost(m: nat, n: nat): set<Bytes>
    requires 0 < m
    decreases n + 1 - m
  {
    if m > n then {} else Cost(m + 1, n) + {DataPath(7 * m - 5)}
  }

  lemma {:induction false} CostIsAbove(m: nat, n: nat, i: nat)
    requires 0 < m && i < 7 * m - 5
    ensures DataPath(i) !in Cost(m, n)
    decreases n + 1 - m
  {
    if m <= n {
      CostIsAbove(m + 1, n, i);
      DataPathsDiffer(i, 7 * m - 5);
    }
  }

  lemma {:induction false} CostCounted(m: nat, n: nat)
    requires 0 < m <= n + 1
    ensures |Cost(m, n)| == n + 1 - m
    decreases n + 1 - m
  {
    if m <= n {
      CostCounted(m + 1, n);
      CostIsAbove(m + 1, n, 7 * m - 5);
    }
  }

  lemma CostIsAboveAll(m: nat, n: nat)
    requires 0 < m
    ensures Above(Cost(m + 1, n), 7 * m + 1)
  {
    forall i: nat | i < 7 * m + 1 ensures DataPath(i) !in Cost(m + 1, n) { CostIsAbove(m + 1, n, i); }
  }

  lemma NothingWrongAtFirst()
    ensures WrongIn(Start(Mixed)) == {}
  {
    FinalMore([], Banner(Mixed));
    assert [] + [Banner(Mixed)] == [Banner(Mixed)];
  }

  lemma {:induction false} CostlyIsWrong(w: Workload, m: nat, n: nat)
    requires 0 < m <= n
    ensures WrongIn(Costly(m, n)) == Cost(m, n)
    decreases n - m
  {
    if m == n {
      NothingWrongAtFirst();
      CostsOneMore(w, Start(Mixed), m, n);
    } else {
      CostlyIsWrong(w, m + 1, n);
      RestartKeepsWrong(Costly(m + 1, n));
      CostsOneMore(w, Restarted(Costly(m + 1, n)), m, n);
    }
  }

  lemma CostsOneMore(w: Workload, s: State, m: nat, n: nat)
    requires 0 < m <= n && AtHead(s, 0) && WrongIn(s) == Cost(m + 1, n)
    ensures WrongIn(CutOff(s, 7 * m)) == Cost(m, n)
  {
    CostIsAboveAll(m, n);
    CutOffIsWrong(w, s, 7 * m);
  }

  lemma CostlyRuns(w: Workload, m: nat, n: nat)
    requires 0 < m <= n
    ensures Run(w, Mixed, CostlyEvents(m, n)) == Some(Costly(m, n))
  {
    var events := CostlyEvents(m, n);
    CostlyLeads(w, m, n);
    var states :| Walk(w, states, events) && states[0] == Start(Mixed) && states[|events|] == Costly(m, n);
    LeadsIsRun(w, states, events);
  }

  lemma CostlyRun(w: Workload, m: nat, n: nat) returns (events: seq<Event>, s: State)
    requires 0 < m <= n
    ensures Run(w, Mixed, events) == Some(s) && Kills(events) == n - m && |WrongIn(s)| == n + 1 - m
  {
    events, s := CostlyEvents(m, n), Costly(m, n);
    CostlyCounted(w, m, n);
    CostlyRuns(w, m, n);
  }

  lemma CostlyCounted(w: Workload, m: nat, n: nat)
    requires 0 < m <= n
    ensures Kills(CostlyEvents(m, n)) == n - m && |WrongIn(Costly(m, n))| == n + 1 - m
  {
    CostlyKills(m, n);
    CostlyIsWrong(w, m, n);
    CostCounted(m, n);
  }

  /**
   In mixed mode each kill can cost a path: for any number of them, the last at the end of the run,
   some run over a correct database ends with as many logged paths wrong, as many as there can be.
   */
  lemma EachKillCanCostAPath(w: Workload, n: nat) returns (events: seq<Event>, s: State)
    requires n > 0
    ensures Run(w, Mixed, events) == Some(s)
    ensures |Differing(s.database, Final(s.log))| == n == Kills(events) + 1
  {
    events, s := CostlyRun(w, 1, n);
  }

  /** In mixed mode a kill after the first delete, before its line, fails the verdict though nothing was lost. */
  lemma MixedVerdictCanFail(w: Workload) returns (events: seq<Event>, s: State)
    ensures OneRun(events) && Run(w, Mixed, events) == Some(s)
    ensures Differing(s.database, Final(s.log)) == {DataPath(2)}
  {
    CostlyRuns(w, 1, 1);
    FirstCost(w);
    events, s := CostlyEvents(1, 1), Costly(1, 1);
  }

  lemma FirstCost(w: Workload)
    ensures OneRun(CostlyEvents(1, 1)) && WrongIn(Costly(1, 1)) == {DataPath(2)}
  {
    CutOffIsOneRun(7);
    assert [] + CutOffEvents(7) == CutOffEvents(7);
    CostlyIsWrong(w, 1, 1);
    assert Cost(2, 1) == {} && Cost(1, 1) == {DataPath(2)};
  }
}
