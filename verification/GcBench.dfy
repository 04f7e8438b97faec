/** The bookkeeping of the collection benchmark's build loop: files written, deleted and still live. */
module GcBench {
  import opened Common
  import opened Words
  import opened Mixers
  import opened Bytes
  import opened Decimal
  import opened Checkpoint

  // ---------------------------------------------------------------------------
  // Paths
  // ---------------------------------------------------------------------------

  function Folder(a: nat, b: nat): Bytes {
    Ascii("/dir") + Padded(a, 1) + Ascii("/dir") + Padded(b, 1) + Ascii("/file")
  }

  function FilePath(a: nat, b: nat, i: nat): Bytes {
    Folder(a, b) + [MINUS] + (Padded(i, 6) + Ascii(".bin"))
  }

  lemma {:induction false} PaddedHasNoDash(n: nat, w: nat)
    ensures MINUS !in Padded(n, w)
    decreases n + w
  {
    if !(n < 10 && w <= 1) { PaddedHasNoDash(n / 10, if w == 0 then 0 else w - 1); }
  }

  lemma FolderHasNoDash(a: nat, b: nat)
    ensures MINUS !in Folder(a, b)
  {
    PaddedHasNoDash(a, 1);
    PaddedHasNoDash(b, 1);
    assert MINUS !in Ascii("/dir") && MINUS !in Ascii("/file");
  }

  lemma SplitAtDash(before: Bytes, after: Bytes)
    requires MINUS !in before
    ensures var s := before + [MINUS] + after;
            IndexOf(s, MINUS) == |before| && s[|before| + 1..] == after
  {
    var s := before + [MINUS] + after;
    assert s[..|before|] == before;
    IndexOfIs(s, MINUS, |before|);
  }

  /** Whatever the folders, a path tells the number of its file. */
  lemma FilePathInjective(a: nat, b: nat, i: nat, a': nat, b': nat, i': nat)
    requires FilePath(a, b, i) == FilePath(a', b', i')
    ensures i == i'
  {
    FolderHasNoDash(a, b);
    FolderHasNoDash(a', b');
    SplitAtDash(Folder(a, b), Padded(i, 6) + Ascii(".bin"));
    SplitAtDash(Folder(a', b'), Padded(i', 6) + Ascii(".bin"));
    var before: Bytes := [];
    assert before + Padded(i, 6) == Padded(i, 6) && before + Padded(i', 6) == Padded(i', 6);
    FramedInjective(before, i, i', 6, Ascii(".bin"));
  }

  // ---------------------------------------------------------------------------
  // The list of live files
  // ---------------------------------------------------------------------------

  /** The last element takes the place of the one removed. */
  function SwapRemoved<T>(s: seq<T>, i: nat): (t: seq<T>)
    requires i < |s|
    ensures |t| == |s| - 1
    ensures forall j :: 0 <= j < |t| ==> t[j] == if j == i then s[|s| - 1] else s[j]
  {
    var last := s[|s| - 1];
    if i == |s| - 1 then s[..i] else s[..|s| - 1][i := last]
  }

  /** The list holds exactly these paths, each once. */
  ghost predicate ListsExactly(list: seq<Bytes>, paths: set<Bytes>) {
    Distinct(list) && |list| == |paths| && forall p :: p in list <==> p in paths
  }

  lemma PushLists(list: seq<Bytes>, paths: set<Bytes>, path: Bytes)
    requires ListsExactly(list, paths) && path !in paths
    ensures ListsExactly(list + [path], paths + {path})
  {}

  lemma SwapRemovedLists(list: seq<Bytes>, paths: set<Bytes>, i: nat)
    requires ListsExactly(list, paths) && i < |list|
    ensures list[i] in paths && ListsExactly(SwapRemoved(list, i), paths - {list[i]})
  {}

  // ---------------------------------------------------------------------------
  // What the draws decide
  // ---------------------------------------------------------------------------

  /** What a generator yields, draw by draw. */
  type Draws = nat -> Word

  /** The draws a round starts after: six for each round before, and one more for each that deletes. */
  function Before(draw: Draws, percent: nat, n: nat): nat
    decreases n, 0
  {
    if n == 0 then 0 else Before(draw, percent, n - 1) + if Deletes(draw, percent, n - 1) then 7 else 6
  }

  /** The sixth draw of a round decides whether it deletes. */
  predicate Deletes(draw: Draws, percent: nat, n: nat)
    decreases n, 1
  {
    draw(Before(draw, percent, n) + 5) % 100 < percent
  }

  /** The file a round stores, under folders picked by its first two draws. */
  function StoredIn(draw: Draws, percent: nat, n: nat): Bytes {
    var k := Before(draw, percent, n);
    FilePath(draw(k) % 20, draw(k + 1) % 20, n)
  }

  /** The size picked by a draw for the band and one within it. */
  function SizeFrom(pick: nat, within: nat): (size: nat)
    ensures 1024 <= size < 3145728
    ensures pick % 100 < 80 ==> size < 263168 && (size - 1024) % 262144 == within % 262144
    ensures 80 <= pick % 100 < 95 ==> 262144 <= size < 1310720 && (size - 262144) % 1048576 == within % 1048576
    ensures 95 <= pick % 100 ==> 1048576 <= size && (size - 1048576) % 2097152 == within % 2097152
  {
    if pick % 100 < 80 then 1024 + within % (256 * 1024)
    else if pick % 100 < 95 then 256 * 1024 + within % (1024 * 1024)
    else 1024 * 1024 + within % (2 * 1024 * 1024)
  }

  function SizeIn(draw: Draws, percent: nat, n: nat): nat {
    var k := Before(draw, percent, n);
    SizeFrom(draw(k + 2), draw(k + 3))
  }

  function TotalBytes(draw: Draws, percent: nat, n: nat): nat {
    if n == 0 then 0 else TotalBytes(draw, percent, n - 1) + SizeIn(draw, percent, n - 1)
  }

  /** The rounds that delete. */
  function DeletingRounds(draw: Draws, percent: nat, n: nat): set<nat> {
    set i: nat | i < n && Deletes(draw, percent, i)
  }

  lemma DeletingRoundsMore(draw: Draws, percent: nat, n: nat)
    ensures |DeletingRounds(draw, percent, n + 1)|
         == |DeletingRounds(draw, percent, n)| + if Deletes(draw, percent, n) then 1 else 0
  {
    assert DeletingRounds(draw, percent, n + 1)
        == DeletingRounds(draw, percent, n) + if Deletes(draw, percent, n) then {n} else {};
  }

  /** A round takes six draws, and one more if it deletes. */
  lemma {:induction false} DrawsTaken(draw: Draws, percent: nat, n: nat)
    ensures Before(draw, percent, n) == 6 * n + |DeletingRounds(draw, percent, n)|
  {
    if n == 0 {
      assert DeletingRounds(draw, percent, 0) == {};
    } else {
      DrawsTaken(draw, percent, n - 1);
      DeletingRoundsMore(draw, percent, n - 1);
    }
  }

  lemma {:induction false} FewDelete(draw: Draws, percent: nat, n: nat)
    ensures |DeletingRounds(draw, percent, n)| <= n
  {
    if n == 0 {
      assert DeletingRounds(draw, percent, 0) == {};
    } else {
      FewDelete(draw, percent, n - 1);
      DeletingRoundsMore(draw, percent, n - 1);
    }
  }

  /** Without a percentage no round deletes, from a hundred on every one does. */
  lemma DeletesAtEnds(draw: Draws, percent: nat, n: nat)
    ensures percent == 0 ==> DeletingRounds(draw, percent, n) == {}
    ensures percent >= 100 ==> |DeletingRounds(draw, percent, n)| == n
  {
    if percent >= 100 { assert DeletingRounds(draw, percent, n) == Below(n); }
  }

  /** What a round does to the list: a file more, and perhaps one taken out. */
  datatype Choice = Keep(path: Bytes) | Swap(path: Bytes, victim: nat)

  /** The seventh draw of a round that deletes picks the victim, the new file among them. */
  function ChoiceOf(draw: Draws, percent: nat, n: nat): Choice {
    var path := StoredIn(draw, percent, n);
    FewDelete(draw, percent, n);
    if Deletes(draw, percent, n) then
      Swap(path, draw(Before(draw, percent, n) + 6) % (n + 1 - |DeletingRounds(draw, percent, n)|))
    else Keep(path)
  }

  function Chosen(list: seq<Bytes>, choice: Choice): seq<Bytes> {
    var longer := list + [choice.path];
    if choice.Swap? && choice.victim < |longer| then SwapRemoved(longer, choice.victim) else longer
  }

  /** The live files after `n` rounds, in the order of the list. */
  function Live(choices: nat -> Choice, n: nat): seq<Bytes> {
    if n == 0 then [] else Chosen(Live(choices, n - 1), choices(n - 1))
  }

  lemma {:induction false} TotalBounded(draw: Draws, percent: nat, n: nat)
    ensures 1024 * n <= TotalBytes(draw, percent, n) <= 3145728 * n
  {
    if n > 0 { TotalBounded(draw, percent, n - 1); }
  }

  // ---------------------------------------------------------------------------
  // The build loop
  // ---------------------------------------------------------------------------

  /** From here on the generator yields these draws. */
  ghost predicate Yields(state: Word, draw: Draws, k: nat) {
    forall j: nat :: Draw(state, j) == draw(k + j)
  }

  lemma {:induction false} DrawLater(state: Word, j: nat)
    ensures Advance(Advance(state, 1), j) == Advance(state, j + 1)
  {
    if j > 0 { DrawLater(state, j - 1); }
  }

  lemma YieldsNext(state: Word, draw: Draws, k: nat)
    requires Yields(state, draw, k)
    ensures Draw(state, 0) == draw(k) && Yields(Advance(state, 1), draw, k + 1)
  {
    assert Draw(state, 0) == draw(k + 0);
    forall j: nat ensures Draw(Advance(state, 1), j) == draw(k + 1 + j) {
      DrawLater(state, j + 1);
      assert Draw(state, j + 1) == draw(k + (j + 1));
    }
  }

  /** The next draw, reduced below a bound. */
  method Roll(rng: SplitMix, bound: nat, ghost draw: Draws, ghost k: nat) returns (r: nat)
    requires bound > 0 && Yields(rng.state, draw, k)
    modifies rng
    ensures r == draw(k) % bound && Yields(rng.state, draw, k + 1)
  {
    YieldsNext(rng.state, draw, k);
    var next := rng.Next();
    r := next % bound;
  }

  /** Sizes are picked in three bands. */
  method PickSize(rng: SplitMix, ghost draw: Draws, ghost k: nat) returns (size: nat)
    requires Yields(rng.state, draw, k)
    modifies rng
    ensures size == SizeFrom(draw(k), draw(k + 1)) && Yields(rng.state, draw, k + 2)
  {
    var pick := Roll(rng, 100, draw, k);
    if pick < 80 {
      size := Roll(rng, 256 * 1024, draw, k + 1);
      size := size + 1024;
    } else if pick < 95 {
      size := Roll(rng, 1024 * 1024, draw, k + 1);
      size := size + 256 * 1024;
    } else {
      size := Roll(rng, 2 * 1024 * 1024, draw, k + 1);
      size := size + 1024 * 1024;
    }
  }

  method PickPath(rng: SplitMix, i: nat, ghost draw: Draws, ghost k: nat) returns (path: Bytes)
    requires Yields(rng.state, draw, k)
    modifies rng
    ensures path == FilePath(draw(k) % 20, draw(k + 1) % 20, i) && Yields(rng.state, draw, k + 2)
  {
    var a := Roll(rng, 20, draw, k);
    var b := Roll(rng, 20, draw, k + 1);
    path := FilePath(a, b, i);
  }

  /** A path of a file numbered below `n`. */
  ghost predicate NumberedBelow(path: Bytes, n: nat) {
    exists a: nat, b: nat, i: nat :: i < n && path == FilePath(a, b, i)
  }

  ghost predicate AllBelow(paths: set<Bytes>, n: nat) {
    forall p :: p in paths ==> NumberedBelow(p, n)
  }

  lemma NewPathIsNew(paths: set<Bytes>, a: nat, b: nat, n: nat)
    requires AllBelow(paths, n)
    ensures FilePath(a, b, n) !in paths && AllBelow(paths + {FilePath(a, b, n)}, n + 1)
  {
    var path := FilePath(a, b, n);
    if path in paths {
      var a': nat, b': nat, i: nat :| i < n && path == FilePath(a', b', i);
      FilePathInjective(a, b, n, a', b', i);
    }
    forall p | p in paths ensures NumberedBelow(p, n + 1) {
      var a': nat, b': nat, i: nat :| i < n && p == FilePath(a', b', i);
      assert i < n + 1;
    }
    assert NumberedBelow(path, n + 1);
  }

  /** The counts after some rounds of the loop. */
  ghost predicate Accounts(committed: seq<Bytes>, database: set<Bytes>, written: set<Bytes>, deleted: set<Bytes>,
                           deletes: nat, n: nat)
  {
    && ListsExactly(committed, database) && database == written - deleted && deleted <= written
    && |written| == n && |deleted| == deletes && AllBelow(written, n)
  }

  /** A file of a new path and a random size. */
  method StoreNew(rng: SplitMix, committed: seq<Bytes>, database: set<Bytes>, i: nat, ghost draw: Draws, ghost k: nat,
                  ghost written: set<Bytes>, ghost deleted: set<Bytes>, ghost deletes: nat)
    returns (committed': seq<Bytes>, database': set<Bytes>, size: nat, ghost written': set<Bytes>)
    requires Accounts(committed, database, written, deleted, deletes, i) && Yields(rng.state, draw, k)
    modifies rng
    ensures Accounts(committed', database', written', deleted, deletes, i + 1) && Yields(rng.state, draw, k + 5)
    ensures committed' == committed + [FilePath(draw(k) % 20, draw(k + 1) % 20, i)]
    ensures size == SizeFrom(draw(k + 2), draw(k + 3))
  {
    var path := PickPath(rng, i, draw, k);
    size := PickSize(rng, draw, k + 2);
    YieldsNext(rng.state, draw, k + 4);
    var filler := rng.Next();
    NewPathIsNew(written, draw(k) % 20, draw(k + 1) % 20, i);
    StoreAccounts(committed, database, written, deleted, deletes, i, path);
    database', written' := database + {path}, written + {path};
    committed' := committed + [path];
  }

  /** The list and the count after a draw that decides on a deletion and one that picks the victim. */
  ghost predicate MaybeGone(committed: seq<Bytes>, deletes: nat, committed': seq<Bytes>, deletes': nat, chance: nat,
                            pick: nat, percent: nat)
    requires committed != []
  {
    if chance % 100 < percent then
      && deletes' == deletes + 1 && |committed'| == |committed| - 1
      && forall j :: 0 <= j < |committed'| ==>
           committed'[j] == committed[if j == pick % |committed| then |committed| - 1 else j]
    else deletes' == deletes && committed' == committed
  }

  /** One draw decides whether a live file is deleted; if so the next one picks it. */
  method MaybeDelete(rng: SplitMix, committed: seq<Bytes>, database: set<Bytes>, deletes: nat, deletePercent: nat,
                     ghost draw: Draws, ghost k: nat, ghost written: set<Bytes>, ghost deleted: set<Bytes>,
                     ghost n: nat)
    returns (committed': seq<Bytes>, database': set<Bytes>, deletes': nat, ghost deleted': set<Bytes>)
    requires Accounts(committed, database, written, deleted, deletes, n) && Yields(rng.state, draw, k)
    modifies rng
    ensures Accounts(committed', database', written, deleted', deletes', n)
    ensures committed == [] ==> committed' == [] && deletes' == deletes && rng.state == old(rng.state)
    ensures committed != [] ==>
              && MaybeGone(committed, deletes, committed', deletes', draw(k), draw(k + 1), deletePercent)
              && Yields(rng.state, draw, if draw(k) % 100 < deletePercent then k + 2 else k + 1)
  {
    committed', database', deletes', deleted' := committed, database, deletes, deleted;
    if committed == [] { return; }
    var chance := Roll(rng, 100, draw, k);
    if chance < deletePercent {
      var index := Roll(rng, |committed|, draw, k + 1);
      var victim := committed[index];
      DeleteAccounts(committed, database, written, deleted, deletes, n, index);
      committed' := SwapRemoved(committed, index);
      database', deleted', deletes' := database - {victim}, deleted + {victim}, deletes + 1;
    }
  }

  /** What the generator yields from a seed on. */
  function Drawn(seed: Word): Draws {
    (k: nat) => Draw(seed, k)
  }

  /**
   `cmd_build`: every round stores a new file and may delete a live one, as the draws from the seed
   decide. At the end the list is the live files without duplicates, and live and deleted add up to
   written.
   */
  method Build(files: nat, seed: Word, deletePercent: nat)
    returns (committed: seq<Bytes>, database: set<Bytes>, deletes: nat, totalBytes: nat, ghost written: set<Bytes>,
             ghost deleted: set<Bytes>)
    ensures Accounts(committed, database, written, deleted, deletes, files)
    ensures |committed| + deletes == files
    ensures |set p | p in committed| == |committed|
    ensures committed == Live((n: nat) => ChoiceOf(Drawn(seed), deletePercent, n), files)
    ensures deletes == |DeletingRounds(Drawn(seed), deletePercent, files)|
    ensures 1024 * files <= totalBytes == TotalBytes(Drawn(seed), deletePercent, files) <= 3145728 * files
    ensures deletePercent >= 100 ==> committed == []
    ensures deletePercent == 0 ==> deletes == 0
  {
    var rng := new SplitMix(seed);
    ghost var draw := Drawn(seed);
    ghost var choices := (n: nat) => ChoiceOf(draw, deletePercent, n);
    committed, database, deletes, totalBytes, written, deleted := Rounds(rng, files, deletePercent, draw, choices);
    AllCounted(rng.state, committed, database, deletes, totalBytes, written, deleted, draw, deletePercent, choices,
        files);
  }

  /** Where the loop stands after `n` rounds. */
  ghost predicate BuiltTo(state: Word, committed: seq<Bytes>, database: set<Bytes>, deletes: nat, totalBytes: nat,
                          written: set<Bytes>, deleted: set<Bytes>, draw: Draws, percent: nat,
                          choices: nat -> Choice, n: nat)
  {
    && Accounts(committed, database, written, deleted, deletes, n)
    && Yields(state, draw, Before(draw, percent, n))
    && committed == Live(choices, n)
    && deletes == |DeletingRounds(draw, percent, n)|
    && totalBytes == TotalBytes(draw, percent, n)
  }

  method Rounds(rng: SplitMix, files: nat, deletePercent: nat, ghost draw: Draws, ghost choices: nat -> Choice)
    returns (committed: seq<Bytes>, database: set<Bytes>, deletes: nat, totalBytes: nat, ghost written: set<Bytes>,
             ghost deleted: set<Bytes>)
    requires Yields(rng.state, draw, 0) && forall n :: choices(n) == ChoiceOf(draw, deletePercent, n)
    modifies rng
    ensures BuiltTo(rng.state, committed, database, deletes, totalBytes, written, deleted, draw, deletePercent,
                    choices, files)
  {
    committed, database, deletes, totalBytes, written, deleted := [], {}, 0, 0, {}, {};
    assert DeletingRounds(draw, deletePercent, 0) == {};
    for i := 0 to files
      invariant BuiltTo(rng.state, committed, database, deletes, totalBytes, written, deleted, draw, deletePercent,
                        choices, i)
    {
      committed, database, deletes, totalBytes, written, deleted :=
        OneRound(rng, committed, database, deletes, totalBytes, deletePercent, i, draw, choices, written, deleted);
    }
  }

  method OneRound(rng: SplitMix, committed: seq<Bytes>, database: set<Bytes>, deletes: nat, totalBytes: nat,
                  deletePercent: nat, i: nat, ghost draw: Draws, ghost choices: nat -> Choice,
                  ghost written: set<Bytes>, ghost deleted: set<Bytes>)
    returns (committed': seq<Bytes>, database': set<Bytes>, deletes': nat, totalBytes': nat,
             ghost written': set<Bytes>, ghost deleted': set<Bytes>)
    requires BuiltTo(rng.state, committed, database, deletes, totalBytes, written, deleted, draw, deletePercent,
                     choices, i)
    requires choices(i) == ChoiceOf(draw, deletePercent, i)
    modifies rng
    ensures BuiltTo(rng.state, committed', database', deletes', totalBytes', written', deleted', draw, deletePercent,
                    choices, i + 1)
  {
    ghost var k := Before(draw, deletePercent, i);
    var size: nat;
    committed', database', size, written', deletes', deleted' :=
      StoreAndMaybeDelete(rng, committed, database, deletes, deletePercent, i, draw, k, written, deleted);
    totalBytes' := totalBytes + size;
    ListAfter(committed, deletes, committed', deletes', draw, deletePercent, choices, i, k);
    CountsAfter(committed, deletes, committed', deletes', draw, deletePercent, i, k);
  }

  /** A round's draws are the ones from `k` on. */
  method StoreAndMaybeDelete(rng: SplitMix, committed: seq<Bytes>, database: set<Bytes>, deletes: nat,
                             deletePercent: nat, i: nat, ghost draw: Draws, ghost k: nat, ghost written: set<Bytes>,
                             ghost deleted: set<Bytes>)
    returns (committed': seq<Bytes>, database': set<Bytes>, size: nat, ghost written': set<Bytes>, deletes': nat,
             ghost deleted': set<Bytes>)
    requires Accounts(committed, database, written, deleted, deletes, i) && Yields(rng.state, draw, k)
    modifies rng
    ensures Accounts(committed', database', written', deleted', deletes', i + 1)
    ensures Yields(rng.state, draw, if draw(k + 5) % 100 < deletePercent then k + 7 else k + 6)
    ensures size == SizeFrom(draw(k + 2), draw(k + 3)) && |committed| + deletes == i
    ensures MaybeGone(committed + [FilePath(draw(k) % 20, draw(k + 1) % 20, i)], deletes, committed', deletes',
                      draw(k + 5), draw(k + 6), deletePercent)
  {
    CountLive(committed, database, written, deleted);
    committed', database', size, written' := StoreNew(rng, committed, database, i, draw, k, written, deleted, deletes);
    committed', database', deletes', deleted' :=
      MaybeDelete(rng, committed', database', deletes, deletePercent, draw, k + 5, written', deleted, i + 1);
  }

  lemma AllCounted(state: Word, committed: seq<Bytes>, database: set<Bytes>, deletes: nat, totalBytes: nat,
                   written: set<Bytes>, deleted: set<Bytes>, draw: Draws, percent: nat,
                   choices: nat -> Choice, n: nat)
    requires BuiltTo(state, committed, database, deletes, totalBytes, written, deleted, draw, percent, choices, n)
    ensures |committed| + deletes == n && |set p | p in committed| == |committed|
    ensures 1024 * n <= totalBytes <= 3145728 * n
    ensures (percent >= 100 ==> committed == []) && (percent == 0 ==> deletes == 0)
  {
    CountLive(committed, database, written, deleted);
    DeletesAtEnds(draw, percent, n);
    TotalBounded(draw, percent, n);
  }

  /** What a round does to the counts, by its own draws. */
  lemma CountsAfter(before: seq<Bytes>, deletes: nat, committed: seq<Bytes>, deletes': nat, draw: Draws, percent: nat,
                    n: nat, k: nat)
    requires k == Before(draw, percent, n) && deletes == |DeletingRounds(draw, percent, n)|
    requires MaybeGone(before + [FilePath(draw(k) % 20, draw(k + 1) % 20, n)], deletes, committed, deletes',
                       draw(k + 5), draw(k + 6), percent)
    ensures Before(draw, percent, n + 1) == (if draw(k + 5) % 100 < percent then k + 7 else k + 6)
    ensures TotalBytes(draw, percent, n + 1) == TotalBytes(draw, percent, n) + SizeFrom(draw(k + 2), draw(k + 3))
    ensures deletes' == |DeletingRounds(draw, percent, n + 1)|
  {
    DeletingRoundsMore(draw, percent, n);
  }

  lemma ListAfter(before: seq<Bytes>, deletes: nat, committed: seq<Bytes>, deletes': nat, draw: Draws, percent: nat,
                  choices: nat -> Choice, n: nat, k: nat)
    requires before == Live(choices, n) && choices(n) == ChoiceOf(draw, percent, n) && k == Before(draw, percent, n)
    requires deletes == |DeletingRounds(draw, percent, n)| && |before| + deletes == n
    requires MaybeGone(before + [FilePath(draw(k) % 20, draw(k + 1) % 20, n)], deletes, committed, deletes',
                       draw(k + 5), draw(k + 6), percent)
    ensures committed == Live(choices, n + 1)
  {
    ChoiceIs(draw, percent, n, k, |before| + 1);
    SameList(before, before + [FilePath(draw(k) % 20, draw(k + 1) % 20, n)], committed, choices(n));
  }

  lemma ChoiceIs(draw: Draws, percent: nat, n: nat, k: nat, live: nat)
    requires k == Before(draw, percent, n) && live > 0 && live + |DeletingRounds(draw, percent, n)| == n + 1
    ensures var path := FilePath(draw(k) % 20, draw(k + 1) % 20, n);
            ChoiceOf(draw, percent, n)
            == if draw(k + 5) % 100 < percent then Swap(path, draw(k + 6) % live) else Keep(path)
  {}

  lemma SameList(before: seq<Bytes>, list: seq<Bytes>, committed: seq<Bytes>, choice: Choice)
    requires list == before + [choice.path]
    requires match choice
             case Keep(_) => committed == list
             case Swap(_, victim) =>
               && victim < |list| && |committed| == |list| - 1
               && forall j :: 0 <= j < |committed| ==> committed[j] == list[if j == victim then |list| - 1 else j]
    ensures committed == Chosen(before, choice)
  {
    if choice.Swap? { assert SwapRemoved(list, choice.victim) == committed; }
  }

  lemma StoredSets(database: set<Bytes>, written: set<Bytes>, deleted: set<Bytes>, path: Bytes)
    requires database == written - deleted && deleted <= written && path !in written
    ensures database + {path} == written + {path} - deleted && |written + {path}| == |written| + 1
  {}

  lemma StoreAccounts(committed: seq<Bytes>, database: set<Bytes>, written: set<Bytes>, deleted: set<Bytes>,
                      deletes: nat, n: nat, path: Bytes)
    requires Accounts(committed, database, written, deleted, deletes, n)
    requires path !in written && AllBelow(written + {path}, n + 1)
    ensures Accounts(committed + [path], database + {path}, written + {path}, deleted, deletes, n + 1)
  {
    assert path !in database && path !in deleted;
    PushLists(committed, database, path);
    StoredSets(database, written, deleted, path);
  }

  lemma DeleteAccounts(committed: seq<Bytes>, database: set<Bytes>, written: set<Bytes>, deleted: set<Bytes>,
                       deletes: nat, n: nat, index: nat)
    requires Accounts(committed, database, written, deleted, deletes, n) && index < |committed|
    ensures var victim := committed[index];
            Accounts(SwapRemoved(committed, index), database - {victim}, written, deleted + {victim}, deletes + 1, n)
  {
    var victim := committed[index];
    SwapRemovedLists(committed, database, index);
    DeletedSets(database, written, deleted, victim);
  }

  lemma DeletedSets(database: set<Bytes>, written: set<Bytes>, deleted: set<Bytes>, victim: Bytes)
    requires database == written - deleted && deleted <= written && victim in database
    ensures database - {victim} == written - (deleted + {victim}) && deleted + {victim} <= written
              && |deleted + {victim}| == |deleted| + 1
  {}

  lemma CountLive(committed: seq<Bytes>, database: set<Bytes>, written: set<Bytes>, deleted: set<Bytes>)
    requires ListsExactly(committed, database) && database == written - deleted && deleted <= written
    ensures |committed| + |deleted| == |written| && |set p | p in committed| == |committed|
  {
    assert written == database + deleted && database !! deleted;
    assert (set p | p in committed) == database;
  }
}
