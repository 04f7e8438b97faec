/**
 When a bulk-built directory reads back. Up to 3120 entries, as many as fit in leaves of forty under
 one node, the root lists exactly the sorted entries. Past that, every group of children after the
 first is stored with as many keys as children, such a node does not decode, and listing the root
 reports corruption.
 */
module BTreeBulkReads {
  import opened Common
  import opened Bytes
  import opened DirectoryCodec
  import opened SortedEntries
  import opened BTree
  import opened BTreeStore
  import opened BTreeRefinement
  import opened BTreeBulk

  // ---------------------------------------------------------------------------
  // The leaves
  // ---------------------------------------------------------------------------

  function ChunkOf(es: seq<ChildEntry>, j: nat): seq<ChildEntry> {
    es[Min(40 * j, |es|)..Min(40 * (j + 1), |es|)]
  }

  function LeafTrees(es: seq<ChildEntry>, n: nat): seq<Tree> {
    seq(n, (j: nat) => LeafTree(ChunkOf(es, j)))
  }

  /** The first `n` chunks are leaves of the level, with the first name of each but the first as key. */
  ghost predicate LeafLevel(store: Store, algo: Algo, es: seq<ChildEntry>, level: Level, n: nat) {
    && ChildrenRepresent(store, algo, level.hashes, LeafTrees(es, n))
    && |level.keys| == (if n == 0 then 0 else n - 1)
    && FirstNames(es, level.keys)
  }

  predicate IsFirstName(es: seq<ChildEntry>, j: nat, key: Bytes) {
    40 * j < |es| && key == es[40 * j].name
  }

  /** The keys are the first names of the chunks after the first. */
  ghost predicate FirstNames(es: seq<ChildEntry>, keys: seq<Bytes>) {
    forall j: nat :: j < |keys| ==> IsFirstName(es, j + 1, keys[j])
  }

  /** How many chunks there are. */
  ghost predicate ChunkCount(es: seq<ChildEntry>, n: nat) {
    40 * n - 40 < |es| <= 40 * n
  }

  lemma {:induction false} LeavesKeepWrites(algo: Algo, es: seq<ChildEntry>, i: nat, made: Level, writes: seq<Write>)
    requires i <= |es|
    ensures writes <= StoreLeaves(algo, es, i, made, writes).writes
    decreases |es| - i
  {
    if i < |es| {
      var chunk := es[i..Min(i + MAX_LEAF_ENTRIES, |es|)];
      var w := PutNode(algo, Leaf(chunk));
      if w.Ok? {
        LeavesKeepWrites(algo, es, i + |chunk|, WithLeaf(made, w.value.hash, chunk[0].name), writes + [w.value]);
      }
    }
  }

  lemma {:induction false} LeavesStored(store: Store, algo: Algo, es: seq<ChildEntry>, i: nat, made: Level,
                                        writes: seq<Write>, n: nat)
    returns (count: nat)
    requires HashesFit(algo) && EntriesFit(es, algo.length) && es != []
    requires i == Min(40 * n, |es|) && (n > 0 ==> 40 * (n - 1) < |es|)
               && LeafLevel(store, algo, es, made, n)
    requires Has(store, StoreLeaves(algo, es, i, made, writes).writes)
    ensures var r := StoreLeaves(algo, es, i, made, writes).outcome;
            r.Ok? && ChunkCount(es, count) && LeafLevel(store, algo, es, r.value, count)
    decreases |es| - i
  {
    if i == |es| {
      count := n;
    } else {
      ChunkWritten(store, algo, es, i, n);
      var made', writes' := LeavesUnfold(algo, es, i, made, writes);
      LeafLevelGrows(store, algo, es, made, n, made'.hashes[n]);
      count := LeavesStored(store, algo, es, Min(i + MAX_LEAF_ENTRIES, |es|), made', writes', n + 1);
    }
  }

  lemma ChunkWritten(store: Store, algo: Algo, es: seq<ChildEntry>, i: nat, n: nat)
    requires HashesFit(algo) && EntriesFit(es, algo.length) && i == MAX_LEAF_ENTRIES * n < |es|
    ensures var w := PutNode(algo, Leaf(es[i..Min(i + MAX_LEAF_ENTRIES, |es|)]));
            w.Ok? && (Has(store, [w.value]) ==> Represents(store, algo, w.value.hash, LeafTree(ChunkOf(es, n))))
  {
    var chunk := es[i..Min(i + MAX_LEAF_ENTRIES, |es|)];
    assert chunk == ChunkOf(es, n);
    assert EntriesFit(chunk, algo.length);
    WrittenLeaf(store, algo, chunk);
  }

  lemma LeavesUnfold(algo: Algo, es: seq<ChildEntry>, i: nat, made: Level, writes: seq<Write>)
    returns (made': Level, writes': seq<Write>)
    requires i < |es| && PutNode(algo, Leaf(es[i..Min(i + MAX_LEAF_ENTRIES, |es|)])).Ok?
    ensures var w := PutNode(algo, Leaf(es[i..Min(i + MAX_LEAF_ENTRIES, |es|)])).value;
            var step := StoreLeaves(algo, es, i, made, writes);
            && made' == WithLeaf(made, w.hash, es[i].name)
            && step == StoreLeaves(algo, es, Min(i + MAX_LEAF_ENTRIES, |es|), made', writes') && w in step.writes
  {
    var chunk := es[i..Min(i + MAX_LEAF_ENTRIES, |es|)];
    var w := PutNode(algo, Leaf(chunk)).value;
    made' := WithLeaf(made, w.hash, chunk[0].name);
    writes' := writes + [w];
    LeavesKeepWrites(algo, es, i + |chunk|, made', writes');
    assert writes'[|writes|] == w;
  }

  lemma LeafLevelGrows(store: Store, algo: Algo, es: seq<ChildEntry>, made: Level, n: nat, hash: Bytes)
    requires LeafLevel(store, algo, es, made, n) && MAX_LEAF_ENTRIES * n < |es|
    requires Represents(store, algo, hash, LeafTree(ChunkOf(es, n)))
    ensures LeafLevel(store, algo, es, WithLeaf(made, hash, es[MAX_LEAF_ENTRIES * n].name), n + 1)
  {
    LeavesGrow(store, algo, es, made.hashes, n, hash);
    if made.hashes != [] { FirstNamesGrow(es, made.keys, es[MAX_LEAF_ENTRIES * n].name); }
  }

  lemma LeavesGrow(store: Store, algo: Algo, es: seq<ChildEntry>, hashes: seq<Bytes>, n: nat, hash: Bytes)
    requires ChildrenRepresent(store, algo, hashes, LeafTrees(es, n))
               && Represents(store, algo, hash, LeafTree(ChunkOf(es, n)))
    ensures ChildrenRepresent(store, algo, hashes + [hash], LeafTrees(es, n + 1))
  {
    LeafTreesGrow(es, n);
    ChildAppended(store, algo, hashes, LeafTrees(es, n), hash, LeafTree(ChunkOf(es, n)));
  }

  lemma LeafTreesGrow(es: seq<ChildEntry>, n: nat)
    ensures LeafTrees(es, n + 1) == LeafTrees(es, n) + [LeafTree(ChunkOf(es, n))]
  {}

  lemma ChildAppended(store: Store, algo: Algo, hashes: seq<Bytes>, ts: seq<Tree>, hash: Bytes, t: Tree)
    requires ChildrenRepresent(store, algo, hashes, ts) && Represents(store, algo, hash, t)
    ensures ChildrenRepresent(store, algo, hashes + [hash], ts + [t])
  {
    forall j | 0 <= j < |ts + [t]| ensures Represents(store, algo, (hashes + [hash])[j], (ts + [t])[j]) {
      if j < |ts| { assert Represents(store, algo, hashes[j], ts[j]); }
    }
  }

  lemma FirstNamesGrow(es: seq<ChildEntry>, keys: seq<Bytes>, key: Bytes)
    requires FirstNames(es, keys) && IsFirstName(es, |keys| + 1, key)
    ensures FirstNames(es, keys + [key])
  {
    forall j: nat | j < |keys + [key]| ensures IsFirstName(es, j + 1, (keys + [key])[j]) {
      if j < |keys| { assert IsFirstName(es, j + 1, keys[j]); }
    }
  }

  /** The chunks in order are the entries. */
  lemma {:induction false} ChunksList(es: seq<ChildEntry>, n: nat)
    ensures Listings(LeafTrees(es, n)) == es[..Min(MAX_LEAF_ENTRIES * n, |es|)]
  {
    if n > 0 {
      ChunksList(es, n - 1);
      var ts := LeafTrees(es, n);
      assert ts[..n - 1] == LeafTrees(es, n - 1) && ts[..n] == ts;
      ListingsStep(ts, n);
    }
  }

  // ---------------------------------------------------------------------------
  // The levels above
  // ---------------------------------------------------------------------------

  ghost predicate HashesSized(hashes: seq<Bytes>, length: nat) {
    forall i :: 0 <= i < |hashes| ==> |hashes[i]| == length
  }

  /** A level whose nodes can be written. */
  ghost predicate Writable(level: Level, length: nat) {
    |level.hashes| == |level.keys| + 1 && KeysFit(level.keys) && HashesSized(level.hashes, length)
  }

  lemma GroupWritten(algo: Algo, level: Level, i: nat, end: nat)
    requires HashesFit(algo) && algo.length > 0 && Writable(level, algo.length)
    requires i < end <= |level.hashes| && end - i <= MAX_CHILDREN
    ensures var w := PutNode(algo, Internal(GroupKeys(level.keys, i, end), level.hashes[i..end]));
            && w.Ok? && |w.value.hash| == algo.length
            && DecodeNode(w.value.data, algo.length)
               == if i == 0 then Ok(Internal(level.keys[..end - 1], level.hashes[..end])) else Err(Corrupt)
  {
    var keys, hashes := GroupKeys(level.keys, i, end), level.hashes[i..end];
    forall j | 0 <= j < |keys| ensures IsString(keys[j]) && |keys[j]| <= MAX_STRING {
      assert keys[j] == level.keys[if i == 0 then j else i - 1 + j];
      assert KeyFits(level.keys[if i == 0 then j else i - 1 + j]);
    }
    if i == 0 {
      assert hashes == level.hashes[..end];
      NodeRoundTrip(Internal(keys, hashes), algo.length);
    } else {
      TooFewChildren(keys, hashes, algo.length);
    }
  }

  ghost predicate WritableSoFar(level: Level, length: nat) {
    level == Level([], []) || Writable(level, length)
  }

  /** Writing a level succeeds and keeps what was already made. */
  lemma {:induction false} GroupsWritten(algo: Algo, level: Level, i: nat, made: Level, writes: seq<Write>)
    requires HashesFit(algo) && algo.length > 0 && Writable(level, algo.length) && i <= |level.hashes|
    requires WritableSoFar(made, algo.length) && (made == Level([], []) <==> i == 0)
    ensures var step := StoreGroups(algo, level, i, made, writes);
            && step.outcome.Ok? && Writable(step.outcome.value, algo.length)
            && made.hashes <= step.outcome.value.hashes && writes <= step.writes
    decreases |level.hashes| - i
  {
    if i < |level.hashes| {
      var end := Min(i + MAX_CHILDREN, |level.hashes|);
      GroupWritten(algo, level, i, end);
      var w := PutNode(algo, Internal(GroupKeys(level.keys, i, end), level.hashes[i..end])).value;
      var made' := WithGroup(made, w.hash, level.keys, i);
      assert KeysFit(made'.keys) by { if i > 0 { assert KeyFits(level.keys[i - 1]); } }
      GroupsWritten(algo, level, end, made', writes + [w]);
      assert made.hashes <= made'.hashes && writes <= writes + [w];
    }
  }

  /** One round of the loop: its node is written, and is the next of the level. */
  lemma GroupsUnfold(algo: Algo, level: Level, i: nat, made: Level, writes: seq<Write>)
    returns (w: Write, made': Level, writes': seq<Write>)
    requires HashesFit(algo) && algo.length > 0 && Writable(level, algo.length) && i < |level.hashes|
    requires WritableSoFar(made, algo.length) && (made == Level([], []) <==> i == 0)
    ensures var step, end := StoreGroups(algo, level, i, made, writes), Min(i + MAX_CHILDREN, |level.hashes|);
            && step == StoreGroups(algo, level, end, made', writes')
            && Writable(made', algo.length) && made'.hashes == made.hashes + [w.hash] && writes <= step.writes
            && w in step.writes
            && step.outcome.Ok? && Writable(step.outcome.value, algo.length)
            && made'.hashes <= step.outcome.value.hashes
            && step.outcome.value.hashes[|made.hashes|] == w.hash
            && DecodeNode(w.data, algo.length)
               == if i == 0 then Ok(Internal(level.keys[..end - 1], level.hashes[..end])) else Err(Corrupt)
  {
    var end := Min(i + MAX_CHILDREN, |level.hashes|);
    GroupWritten(algo, level, i, end);
    w := PutNode(algo, Internal(GroupKeys(level.keys, i, end), level.hashes[i..end])).value;
    made', writes' := WithGroup(made, w.hash, level.keys, i), writes + [w];
    assert KeysFit(made'.keys) by { if i > 0 { assert KeyFits(level.keys[i - 1]); } }
    GroupsWritten(algo, level, end, made', writes');
    assert writes'[|writes|] == w && made'.hashes[|made.hashes|] == w.hash;
  }

  /**
   The node over children `78 * g` up to `78 * (g + 1)`: the keys between them, and past the first
   node the key in front of them too.
   */
  ghost predicate IsGroup(algo: Algo, level: Level, g: nat, hash: Bytes) {
    78 * g < |level.hashes| == |level.keys| + 1 &&
    var lo, hi := 78 * g, Min(78 * (g + 1), |level.hashes|);
    var node := Internal(if g == 0 then level.keys[..hi - 1] else level.keys[lo - 1..hi - 1], level.hashes[lo..hi]);
    PutNode(algo, node).Ok? && hash == PutNode(algo, node).value.hash
  }

  /** The first `n` nodes of the level above, parted by the keys between their children. */
  ghost predicate Grouped(algo: Algo, level: Level, above: Level, n: nat) {
    && |above.hashes| == n && |above.keys| == (if n == 0 then 0 else n - 1)
    && (forall g: nat :: g < n ==> IsGroup(algo, level, g, above.hashes[g]))
    && forall g: nat :: g < |above.keys| ==>
         78 * (g + 1) - 1 < |level.keys| && above.keys[g] == level.keys[78 * (g + 1) - 1]
  }

  lemma GroupedMore(algo: Algo, level: Level, made: Level, n: nat, hash: Bytes)
    requires Grouped(algo, level, made, n) && IsGroup(algo, level, n, hash)
    ensures Grouped(algo, level, WithGroup(made, hash, level.keys, 78 * n), n + 1)
  {
    var more := WithGroup(made, hash, level.keys, 78 * n);
    forall g: nat | g < n + 1 ensures IsGroup(algo, level, g, more.hashes[g]) {
      if g < n { assert more.hashes[g] == made.hashes[g]; }
    }
    forall g: nat | g < |more.keys|
      ensures 78 * (g + 1) - 1 < |level.keys| && more.keys[g] == level.keys[78 * (g + 1) - 1]
    {
      if g < |made.keys| { assert more.keys[g] == made.keys[g]; } else { assert g + 1 == n; }
    }
  }

  /** A level is cut in groups of 78 children; there are as many as it takes. */
  lemma {:induction false} GroupsStored(algo: Algo, level: Level, i: nat, made: Level, writes: seq<Write>, n: nat)
    returns (count: nat)
    requires |level.hashes| == |level.keys| + 1 && i == Min(78 * n, |level.hashes|)
    requires (n > 0 ==> 78 * (n - 1) < |level.hashes|) && Grouped(algo, level, made, n)
    requires StoreGroups(algo, level, i, made, writes).outcome.Ok?
    ensures Grouped(algo, level, StoreGroups(algo, level, i, made, writes).outcome.value, count)
    ensures 78 * count - 78 < |level.hashes| <= 78 * count
    decreases |level.hashes| - i
  {
    if i == |level.hashes| {
      count := n;
    } else {
      var end, w := NextGroup(algo, level, made, writes, n);
      GroupedMore(algo, level, made, n, w.hash);
      count := GroupsStored(algo, level, end, WithGroup(made, w.hash, level.keys, i), writes + [w], n + 1);
    }
  }

  lemma NextGroup(algo: Algo, level: Level, made: Level, writes: seq<Write>, n: nat) returns (end: nat, w: Write)
    requires 78 * n < |level.hashes| == |level.keys| + 1
    requires StoreGroups(algo, level, 78 * n, made, writes).outcome.Ok?
    ensures end == Min(78 * (n + 1), |level.hashes|) && IsGroup(algo, level, n, w.hash)
    ensures StoreGroups(algo, level, 78 * n, made, writes)
         == StoreGroups(algo, level, end, WithGroup(made, w.hash, level.keys, 78 * n), writes + [w])
  {
    end := Min(78 * n + MAX_CHILDREN, |level.hashes|);
    w := PutNode(algo, Internal(GroupKeys(level.keys, 78 * n, end), level.hashes[78 * n..end])).value;
  }

  /** The first node of the next level stands over the first children; a second does not decode. */
  lemma FirstGroups(store: Store, algo: Algo, level: Level, writes: seq<Write>)
    requires HashesFit(algo) && algo.length > 0 && Writable(level, algo.length) && |level.hashes| > 1
    requires Has(store, StoreGroups(algo, level, 0, Level([], []), writes).writes)
    ensures var step, end := StoreGroups(algo, level, 0, Level([], []), writes), Min(MAX_CHILDREN, |level.hashes|);
            && step.outcome.Ok? && Writable(step.outcome.value, algo.length)
            && Load(store, algo, step.outcome.value.hashes[0])
            == Ok(Internal(level.keys[..end - 1], level.hashes[..end]))
            && (|step.outcome.value.hashes| == 1 <==> |level.hashes| <= MAX_CHILDREN)
            && (|level.hashes| > MAX_CHILDREN ==> Load(store, algo, step.outcome.value.hashes[1]) == Err(Corrupt))
  {
    var w, made, writes' := GroupsUnfold(algo, level, 0, Level([], []), writes);
    if |level.hashes| > MAX_CHILDREN {
      var _, _, _ := GroupsUnfold(algo, level, MAX_CHILDREN, made, writes');
    }
  }

  // ---------------------------------------------------------------------------
  // Listing what was built
  // ---------------------------------------------------------------------------

  /** Listing the node reports corruption, however deep the reader is allowed to go. */
  ghost predicate ListsCorrupt(store: Store, algo: Algo, hash: Bytes) {
    forall depth: nat :: GroundedAt(store, algo, hash, depth) ==> ListAt(store, algo, hash, depth) == Err(Corrupt)
  }

  ghost predicate Lists(store: Store, algo: Algo, hash: Bytes) {
    forall depth: nat :: GroundedAt(store, algo, hash, depth) ==> ListAt(store, algo, hash, depth).Ok?
  }

  /** The level starts with a corrupt node, or with a good one and then a corrupt one. */
  ghost predicate StartsCorrupt(store: Store, algo: Algo, hashes: seq<Bytes>) {
    && |hashes| > 1
    && (ListsCorrupt(store, algo, hashes[0]) || (Lists(store, algo, hashes[0]) && ListsCorrupt(store, algo, hashes[1])))
  }

  lemma CorruptionRises(store: Store, algo: Algo, hash: Bytes, keys: seq<Bytes>, children: seq<Bytes>)
    requires Load(store, algo, hash) == Ok(Internal(keys, children)) && StartsCorrupt(store, algo, children)
    ensures ListsCorrupt(store, algo, hash)
  {
    forall depth: nat | GroundedAt(store, algo, hash, depth) ensures ListAt(store, algo, hash, depth) == Err(Corrupt) {
      assert GroundedAt(store, algo, children[0], depth - 1) && GroundedAt(store, algo, children[1], depth - 1);
      var i := if ListsCorrupt(store, algo, children[0]) then 0 else 1;
      assert ListAll(store, algo, children, 0, depth - 1) == Ok([]);
      ListFails(store, algo, children, i, |children|, depth - 1);
    }
  }

  lemma {:induction false} LevelsCorrupt(store: Store, algo: Algo, level: Level, writes: seq<Write>)
    requires HashesFit(algo) && algo.length > 0 && Writable(level, algo.length)
    requires StartsCorrupt(store, algo, level.hashes) && Has(store, BuildLevel(algo, level, writes).writes)
    ensures var r := BuildLevel(algo, level, writes).outcome;
            r.Ok? && ListsCorrupt(store, algo, r.value)
    decreases |level.hashes|
  {
    GroupsCounted(algo, level, 0, Level([], []), writes);
    var step, end := StoreGroups(algo, level, 0, Level([], []), writes), Min(MAX_CHILDREN, |level.hashes|);
    GroupsWritten(algo, level, 0, Level([], []), writes);
    var above := step.outcome.value;
    if |above.hashes| > 1 { LevelsKeepWrites(algo, above, step.writes); }
    FirstGroups(store, algo, level, writes);
    assert StartsCorrupt(store, algo, level.hashes[..end]);
    CorruptionRises(store, algo, above.hashes[0], level.keys[..end - 1], level.hashes[..end]);
    if |above.hashes| > 1 { LevelsCorrupt(store, algo, above, step.writes); }
  }

  lemma {:induction false} GroupsKeepWrites(algo: Algo, level: Level, i: nat, made: Level, writes: seq<Write>)
    requires i <= |level.hashes| == |level.keys| + 1
    ensures writes <= StoreGroups(algo, level, i, made, writes).writes
    decreases |level.hashes| - i
  {
    if i < |level.hashes| {
      var end := Min(i + MAX_CHILDREN, |level.hashes|);
      var w := PutNode(algo, Internal(GroupKeys(level.keys, i, end), level.hashes[i..end]));
      if w.Ok? {
        GroupsKeepWrites(algo, level, end, WithGroup(made, w.value.hash, level.keys, i), writes + [w.value]);
      }
    }
  }

  lemma {:induction false} LevelsKeepWrites(algo: Algo, level: Level, writes: seq<Write>)
    requires |level.hashes| == |level.keys| + 1
    ensures writes <= BuildLevel(algo, level, writes).writes
    decreases |level.hashes|
  {
    if |level.hashes| > 1 {
      GroupsCounted(algo, level, 0, Level([], []), writes);
      GroupsKeepWrites(algo, level, 0, Level([], []), writes);
      var step := StoreGroups(algo, level, 0, Level([], []), writes);
      if step.outcome.Ok? { LevelsKeepWrites(algo, step.outcome.value, step.writes); }
    }
  }

  // ---------------------------------------------------------------------------
  // The whole build
  // ---------------------------------------------------------------------------

  lemma ChunkStorable(es: seq<ChildEntry>, n: nat, length: nat)
    requires EntriesFit(es, length)
    ensures forall j :: 0 <= j < n ==> Storable(LeafTrees(es, n)[j], length)
  {
    forall j: nat | j < n ensures Storable(LeafTrees(es, n)[j], length) {
      var chunk := ChunkOf(es, j);
      assert LeafTrees(es, n)[j] == LeafTree(chunk);
      forall x | x in chunk ensures Encodable(x, length) { assert x in es; }
    }
  }

  /** The chunks of sorted entries are routed by their first names. */
  lemma ChunksRouted(es: seq<ChildEntry>, keys: seq<Bytes>, n: nat)
    requires Sorted(es) && ChunkCount(es, n) && n > 1 && |keys| == n - 1
    requires FirstNames(es, keys)
    ensures Valid(NodeTree(keys, LeafTrees(es, n)))
  {
    forall i, j | 0 <= i < j < |keys| ensures Less(keys[i], keys[j]) {
      assert IsFirstName(es, i + 1, keys[i]) && IsFirstName(es, j + 1, keys[j]);
      SortedBetween(es, MAX_LEAF_ENTRIES * (i + 1), MAX_LEAF_ENTRIES * (j + 1));
    }
    var ts := LeafTrees(es, n);
    forall i: nat | i < n ensures ValidChild(ts[i], keys, i) {
      var chunk := ChunkOf(es, i);
      SortedSlice(es, MAX_LEAF_ENTRIES * i, Min(MAX_LEAF_ENTRIES * (i + 1), |es|));
      forall x | x in chunk ensures ChildIndex(keys, x.name) == i { ChunkRouted(es, keys, n, i, x); }
    }
  }

  lemma ChunkRouted(es: seq<ChildEntry>, keys: seq<Bytes>, n: nat, i: nat, x: ChildEntry)
    requires Sorted(es) && ChunkCount(es, n) && |keys| == n - 1 && i < n && Increasing(keys) && x in ChunkOf(es, i)
    requires FirstNames(es, keys)
    ensures ChildIndex(keys, x.name) == i
  {
    var lo := MAX_LEAF_ENTRIES * i;
    var k :| 0 <= k < |ChunkOf(es, i)| && ChunkOf(es, i)[k] == x;
    assert es[lo + k] == x;
    if i > 0 { assert IsFirstName(es, i - 1 + 1, keys[i - 1]); SortedBetween(es, lo + k, lo); }
    if i < |keys| { assert IsFirstName(es, i + 1, keys[i]); SortedBetween(es, lo + k, lo + MAX_LEAF_ENTRIES); }
    ChildIndexIs(keys, x.name, i);
  }

  /** What the root of a small build stands for. */
  ghost predicate Built(store: Store, algo: Algo, es: seq<ChildEntry>, root: Bytes, t: Tree) {
    && Represents(store, algo, root, t) && Listing(t) == es && Storable(t, algo.length) && (Sorted(es) ==> Valid(t))
  }

  lemma LevelWritable(store: Store, algo: Algo, es: seq<ChildEntry>, level: Level, n: nat)
    requires LeafLevel(store, algo, es, level, n) && n > 0 && EntriesFit(es, algo.length)
    ensures Writable(level, algo.length)
  {
    forall i | 0 <= i < |level.hashes| ensures |level.hashes[i]| == algo.length {
      assert Represents(store, algo, level.hashes[i], LeafTrees(es, n)[i]);
    }
    forall i | 0 <= i < |level.keys| ensures KeyFits(level.keys[i]) {
      assert IsFirstName(es, i + 1, level.keys[i]);
      assert Encodable(es[MAX_LEAF_ENTRIES * (i + 1)], algo.length);
    }
  }

  /** One internal node over at most `MAX_CHILDREN` leaves. */
  lemma OneNodeBuilt(store: Store, algo: Algo, es: seq<ChildEntry>, level: Level, n: nat, writes: seq<Write>)
    requires HashesFit(algo) && algo.length > 0 && EntriesFit(es, algo.length)
    requires LeafLevel(store, algo, es, level, n) && ChunkCount(es, n) && 1 < n <= MAX_CHILDREN
    requires Has(store, BuildLevel(algo, level, writes).writes)
    ensures var r := BuildLevel(algo, level, writes).outcome;
            r.Ok? && Built(store, algo, es, r.value, NodeTree(level.keys, LeafTrees(es, n)))
  {
    LevelWritable(store, algo, es, level, n);
    GroupsCounted(algo, level, 0, Level([], []), writes);
    GroupsWritten(algo, level, 0, Level([], []), writes);
    var step := StoreGroups(algo, level, 0, Level([], []), writes);
    FirstGroups(store, algo, level, writes);
    assert level.keys[..n - 1] == level.keys && level.hashes[..n] == level.hashes;
    ChunksList(es, n);
    assert es[..|es|] == es;
    ChunkStorable(es, n, algo.length);
    if Sorted(es) { ChunksRouted(es, level.keys, n); }
  }

  /** More than `MAX_CHILDREN` leaves: the second node above them is corrupt, and so is the root. */
  lemma ManyNodesCorrupt(store: Store, algo: Algo, es: seq<ChildEntry>, level: Level, n: nat, writes: seq<Write>)
    requires HashesFit(algo) && algo.length > 0 && EntriesFit(es, algo.length)
    requires LeafLevel(store, algo, es, level, n) && n > MAX_CHILDREN
    requires Has(store, BuildLevel(algo, level, writes).writes)
    ensures var r := BuildLevel(algo, level, writes).outcome;
            r.Ok? && ListsCorrupt(store, algo, r.value)
  {
    LevelWritable(store, algo, es, level, n);
    GroupsCounted(algo, level, 0, Level([], []), writes);
    GroupsWritten(algo, level, 0, Level([], []), writes);
    var step := StoreGroups(algo, level, 0, Level([], []), writes);
    var above := step.outcome.value;
    LevelsKeepWrites(algo, above, step.writes);
    FirstGroups(store, algo, level, writes);
    FirstNodeLists(store, algo, es, level, n, above.hashes[0]);
    assert ListsCorrupt(store, algo, above.hashes[1]);
    LevelsCorrupt(store, algo, above, step.writes);
  }

  lemma FirstNodeLists(store: Store, algo: Algo, es: seq<ChildEntry>, level: Level, n: nat, hash: Bytes)
    requires LeafLevel(store, algo, es, level, n) && n > MAX_CHILDREN && |hash| == algo.length
    requires Load(store, algo, hash) == Ok(Internal(level.keys[..MAX_CHILDREN - 1], level.hashes[..MAX_CHILDREN]))
    ensures Lists(store, algo, hash)
  {
    var ts := LeafTrees(es, n)[..MAX_CHILDREN];
    var t := NodeTree(level.keys[..MAX_CHILDREN - 1], ts);
    forall i | 0 <= i < |ts| ensures Represents(store, algo, level.hashes[..MAX_CHILDREN][i], ts[i]) {
      assert Represents(store, algo, level.hashes[i], LeafTrees(es, n)[i]);
    }
    assert Represents(store, algo, hash, t);
    forall depth: nat | GroundedAt(store, algo, hash, depth) ensures ListAt(store, algo, hash, depth).Ok? {
      ListRefines(store, algo, hash, t, depth);
    }
  }

  /** Building from sorted entries gives a root for exactly those, or a corrupt one: the length decides. */
  lemma FromSortedBuilds(store: Store, algo: Algo, es: seq<ChildEntry>)
    requires HashesFit(algo) && algo.length > 0 && EntriesFit(es, algo.length)
    requires Has(store, FromSorted(algo, es).writes)
    ensures var r := FromSorted(algo, es).outcome;
            && r.Ok?
            && (|es| <= 3120 ==> exists t :: Built(store, algo, es, r.value, t))
            && (|es| > 3120 ==> ListsCorrupt(store, algo, r.value))
  {
    var root := FromSorted(algo, es).outcome;
    if es == [] {
      WrittenLeaf(store, algo, es);
      assert Built(store, algo, es, root.value, LeafTree(es));
    } else {
      var leaves := StoreLeaves(algo, es, 0, Level([], []), []);
      LeavesCounted(algo, es, 0, Level([], []), []);
      if leaves.outcome.Ok? { LevelsKeepWrites(algo, leaves.outcome.value, leaves.writes); }
      assert Has(store, leaves.writes);
      var n := LeavesStored(store, algo, es, 0, Level([], []), [], 0);
      var level := leaves.outcome.value;
      if n == 1 {
        assert ChunkOf(es, 0) == es;
        ChunkStorable(es, 1, algo.length);
        assert LeafTrees(es, 1)[0] == LeafTree(es);
        assert Built(store, algo, es, root.value, LeafTree(es));
      } else if n <= MAX_CHILDREN {
        OneNodeBuilt(store, algo, es, level, n, leaves.writes);
        assert Built(store, algo, es, root.value, NodeTree(level.keys, LeafTrees(es, n)));
      } else {
        ManyNodesCorrupt(store, algo, es, level, n, leaves.writes);
      }
    }
  }

  // ---------------------------------------------------------------------------
  // Every build can be walked to the bottom
  // ---------------------------------------------------------------------------

  ghost predicate AllGrounded(store: Store, algo: Algo, hashes: seq<Bytes>, depth: nat) {
    forall i :: 0 <= i < |hashes| ==> GroundedAt(store, algo, hashes[i], depth)
  }

  lemma {:induction false} GroupsGrounded(store: Store, algo: Algo, level: Level, i: nat, made: Level,
                                          writes: seq<Write>, depth: nat)
    requires HashesFit(algo) && algo.length > 0 && Writable(level, algo.length) && i <= |level.hashes|
    requires WritableSoFar(made, algo.length) && (made == Level([], []) <==> i == 0)
    requires Has(store, StoreGroups(algo, level, i, made, writes).writes)
    requires AllGrounded(store, algo, level.hashes, depth) && AllGrounded(store, algo, made.hashes, depth + 1)
    ensures var step := StoreGroups(algo, level, i, made, writes);
            step.outcome.Ok? && AllGrounded(store, algo, step.outcome.value.hashes, depth + 1)
    decreases |level.hashes| - i
  {
    if i < |level.hashes| {
      var w, made', writes' := GroupsUnfold(algo, level, i, made, writes);
      assert GroundedAt(store, algo, w.hash, depth + 1);
      GroupsGrounded(store, algo, level, Min(i + MAX_CHILDREN, |level.hashes|), made', writes', depth);
    }
  }

  lemma {:induction false} LevelsGrounded(store: Store, algo: Algo, level: Level, writes: seq<Write>, depth: nat)
    returns (top: nat)
    requires HashesFit(algo) && algo.length > 0 && Writable(level, algo.length)
    requires Has(store, BuildLevel(algo, level, writes).writes) && AllGrounded(store, algo, level.hashes, depth)
    ensures var r := BuildLevel(algo, level, writes).outcome;
            r.Ok? && GroundedAt(store, algo, r.value, top)
    decreases |level.hashes|
  {
    if |level.hashes| == 1 {
      top := depth;
    } else {
      GroupsCounted(algo, level, 0, Level([], []), writes);
      GroupsWritten(algo, level, 0, Level([], []), writes);
      var step := StoreGroups(algo, level, 0, Level([], []), writes);
      LevelsKeepWrites(algo, step.outcome.value, step.writes);
      GroupsGrounded(store, algo, level, 0, Level([], []), writes, depth);
      top := LevelsGrounded(store, algo, step.outcome.value, step.writes, depth + 1);
    }
  }

  lemma LeavesGrounded(store: Store, algo: Algo, es: seq<ChildEntry>, hashes: seq<Bytes>, n: nat)
    requires ChildrenRepresent(store, algo, hashes, LeafTrees(es, n))
    ensures AllGrounded(store, algo, hashes, 0)
  {
    forall i | 0 <= i < n ensures GroundedAt(store, algo, hashes[i], 0) {
      assert Represents(store, algo, hashes[i], LeafTrees(es, n)[i]);
      RepresentedIsGrounded(store, algo, Load(store, algo, hashes[i]).value, LeafTrees(es, n)[i], 0);
    }
  }

  lemma FromSortedGrounded(store: Store, algo: Algo, es: seq<ChildEntry>) returns (depth: nat)
    requires HashesFit(algo) && algo.length > 0 && EntriesFit(es, algo.length)
    requires Has(store, FromSorted(algo, es).writes)
    ensures var r := FromSorted(algo, es).outcome;
            r.Ok? && GroundedAt(store, algo, r.value, depth)
  {
    if es == [] {
      WrittenLeaf(store, algo, es);
      depth := 0;
    } else {
      var leaves := StoreLeaves(algo, es, 0, Level([], []), []);
      LeavesCounted(algo, es, 0, Level([], []), []);
      if leaves.outcome.Ok? { LevelsKeepWrites(algo, leaves.outcome.value, leaves.writes); }
      assert Has(store, leaves.writes);
      var n := LeavesStored(store, algo, es, 0, Level([], []), [], 0);
      var level := leaves.outcome.value;
      LevelWritable(store, algo, es, level, n);
      LeavesGrounded(store, algo, es, level.hashes, n);
      depth := LevelsGrounded(store, algo, level, leaves.writes, 0);
    }
  }
}
