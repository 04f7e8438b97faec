/**
 Runs of insertions, deletions and builds over one store, each starting from any root an earlier
 step produced: every root ever returned goes on listing exactly the directory it was returned for.
 */
module BTreeRuns {
  import opened Common
  import opened Bytes
  import opened DirectoryCodec
  import opened SortedEntries
  import opened BTree
  import opened BTreeStore
  import opened BTreeRefinement
  import opened BTreeBulk
  import opened BTreeBulkReads
  import opened BTreeEntries

  // ---------------------------------------------------------------------------
  // Content addressing
  // ---------------------------------------------------------------------------

  ghost predicate WellKeyed(algo: Algo, store: Store) {
    forall h :: h in store ==> h == ContentHash(algo, store[h])
  }

  ghost predicate AllKeyed(algo: Algo, writes: seq<Write>) {
    forall w :: w in writes ==> w.hash == ContentHash(algo, w.data)
  }

  ghost function DataOf(writes: seq<Write>): set<Bytes> {
    set w | w in writes :: w.data
  }

  /** No two different nodes among these have the same hash. */
  ghost predicate CollisionFree(algo: Algo, nodes: set<Bytes>) {
    forall a, b :: a in nodes && b in nodes && ContentHash(algo, a) == ContentHash(algo, b) ==> a == b
  }

  lemma PutAdds(algo: Algo, store: Store, w: Write, nodes: set<Bytes>)
    requires WellKeyed(algo, store) && w.hash == ContentHash(algo, w.data)
    requires CollisionFree(algo, nodes) && store.Values <= nodes && w.data in nodes
    ensures var store' := store[w.hash := w.data];
            Extends(store, store') && WellKeyed(algo, store') && store'.Values <= nodes
  {}

  /** Writes whose nodes collide with nothing stored only ever add to a store. */
  lemma {:induction false} ApplyAddsWithin(algo: Algo, store: Store, writes: seq<Write>, nodes: set<Bytes>)
    requires WellKeyed(algo, store) && AllKeyed(algo, writes)
    requires CollisionFree(algo, nodes) && store.Values <= nodes && forall w :: w in writes ==> w.data in nodes
    ensures Extends(store, Apply(store, writes)) && Has(Apply(store, writes), writes)
    ensures WellKeyed(algo, Apply(store, writes)) && Apply(store, writes).Values <= nodes
  {
    if writes != [] {
      var init, last := writes[..|writes| - 1], writes[|writes| - 1];
      assert writes == init + [last];
      ApplyAddsWithin(algo, store, init, nodes);
      assert last in writes;
      PutAdds(algo, Apply(store, init), last, nodes);
      HasMore(Apply(store, init), init, last);
    }
  }

  lemma HasMore(store: Store, writes: seq<Write>, w: Write)
    requires Has(store, writes) && Extends(store, store[w.hash := w.data])
    ensures Has(store[w.hash := w.data], writes + [w])
  {}

  lemma ApplyAdds(algo: Algo, store: Store, writes: seq<Write>)
    requires WellKeyed(algo, store) && AllKeyed(algo, writes)
    requires CollisionFree(algo, store.Values + DataOf(writes))
    ensures Extends(store, Apply(store, writes)) && Has(Apply(store, writes), writes)
              && WellKeyed(algo, Apply(store, writes))
  {
    ApplyAddsWithin(algo, store, writes, store.Values + DataOf(writes));
  }

  lemma KeyedOne(algo: Algo, node: BTreeNode, before: seq<Write>)
    requires AllKeyed(algo, before)
    ensures AllKeyed(algo, StoreOne(algo, node, before).writes)
    ensures AllKeyed(algo, StoreChanged(algo, node, before).writes)
  {}

  lemma KeyedParent(algo: Algo, keys: seq<Bytes>, children: seq<Bytes>, i: nat, below: Step<Outcome>)
    requires |children| == |keys| + 1 && i < |children| && AllKeyed(algo, below.writes)
    ensures AllKeyed(algo, StoreParent(algo, keys, children, i, below).writes)
  {}

  lemma KeyedLeaf(algo: Algo, es: seq<ChildEntry>)
    ensures AllKeyed(algo, StoreLeaf(algo, es).writes)
  {}

  lemma {:induction false} InsertWritesKeyed(store: Store, algo: Algo, node: BTreeNode, e: ChildEntry, depth: nat)
    requires Shaped(node) && Grounded(store, algo, node, depth)
    ensures AllKeyed(algo, InsertStep(store, algo, node, e, depth).writes)
    decreases depth
  {
    match node
    case Leaf(es) => KeyedLeaf(algo, Upsert(es, e));
    case Internal(keys, children) =>
      var i := ChildIndex(keys, e.name);
      if Load(store, algo, children[i]).Ok? {
        var child := Load(store, algo, children[i]).value;
        DecodedIsShaped(store[children[i]], algo.length);
        InsertWritesKeyed(store, algo, child, e, depth - 1);
        KeyedParent(algo, keys, children, i, InsertStep(store, algo, child, e, depth - 1));
      }
  }

  lemma InsertDataKeyed(store: Store, algo: Algo, rootData: Bytes, e: ChildEntry, depth: nat)
    requires DataGrounded(store, algo, rootData, depth)
    ensures AllKeyed(algo, InsertData(store, algo, rootData, e, depth).writes)
  {
    var root := DecodeNode(rootData, algo.length);
    if root.Ok? {
      DecodedIsShaped(rootData, algo.length);
      InsertWritesKeyed(store, algo, root.value, e, depth);
    }
  }

  lemma {:induction false} DeleteWritesKeyed(store: Store, algo: Algo, hash: Bytes, name: Bytes, depth: nat)
    requires GroundedAt(store, algo, hash, depth)
    ensures AllKeyed(algo, DeleteStep(store, algo, hash, name, depth).writes)
    decreases depth
  {
    match Load(store, algo, hash)
    case Err(_) =>
    case Ok(Leaf(es)) => KeyedOne(algo, Leaf(Remove(es, name)), []);
    case Ok(Internal(keys, children)) =>
      DecodedIsShaped(store[hash], algo.length);
      var i := ChildIndex(keys, name);
      DeleteWritesKeyed(store, algo, children[i], name, depth - 1);
      KeyedWithout(algo, keys, children, i, DeleteStep(store, algo, children[i], name, depth - 1));
  }

  lemma KeyedWithout(algo: Algo, keys: seq<Bytes>, children: seq<Bytes>, i: nat, below: Step<Option<Bytes>>)
    requires |children| == |keys| + 1 && i < |children| && AllKeyed(algo, below.writes)
    ensures AllKeyed(algo, StoreWithout(algo, keys, children, i, below).writes)
  {}

  // ---------------------------------------------------------------------------
  // One operation
  // ---------------------------------------------------------------------------

  /** The root stands for a directory with exactly these entries. */
  ghost predicate Holds(store: Store, algo: Algo, root: Bytes, directory: map<Bytes, ChildEntry>) {
    exists t :: IsTreeOf(store, algo, root, t, directory)
  }

  ghost predicate IsTreeOf(store: Store, algo: Algo, root: Bytes, t: Tree, directory: map<Bytes, ChildEntry>) {
    && Represents(store, algo, root, t) && Valid(t) && Storable(t, algo.length)
    && Sorted(Listing(t)) && Directory(Listing(t)) == directory
  }

  lemma HeldIsGrounded(store: Store, algo: Algo, root: Bytes, directory: map<Bytes, ChildEntry>) returns (depth: nat)
    requires Holds(store, algo, root, directory)
    ensures GroundedAt(store, algo, root, depth)
  {
    var t :| IsTreeOf(store, algo, root, t, directory);
    depth := Height(t);
    RepresentedIsGrounded(store, algo, Load(store, algo, root).value, t, depth);
  }

  /** What an insertion writes only ever adds to the store, whether it succeeds or fails. */
  lemma InsertAdds(store: Store, algo: Algo, root: Bytes, e: ChildEntry, depth: nat)
    requires WellKeyed(algo, store) && root in store && GroundedAt(store, algo, root, depth)
    requires CollisionFree(algo, store.Values + DataOf(InsertData(store, algo, store[root], e, depth).writes))
    ensures var step := InsertData(store, algo, store[root], e, depth);
            var store' := Apply(store, step.writes);
            Extends(store, store') && WellKeyed(algo, store') && Has(store', step.writes)
  {
    InsertDataKeyed(store, algo, store[root], e, depth);
    ApplyAdds(algo, store, InsertData(store, algo, store[root], e, depth).writes);
  }

  lemma EncodableHolds(store: Store, algo: Algo, root: Bytes, directory: map<Bytes, ChildEntry>, e: ChildEntry,
                       depth: nat)
    requires HashesFit(algo) && WellKeyed(algo, store) && Holds(store, algo, root, directory)
    requires Encodable(e, algo.length) && GroundedAt(store, algo, root, depth)
    requires CollisionFree(algo, store.Values + DataOf(InsertData(store, algo, store[root], e, depth).writes))
    ensures var step := InsertData(store, algo, store[root], e, depth);
            var store' := Apply(store, step.writes);
            && step.outcome.Ok? && Holds(store', algo, step.outcome.value.hash, directory[e.name := e])
            && store'[step.outcome.value.hash] == step.outcome.value.data
  {
    var t :| IsTreeOf(store, algo, root, t, directory);
    var step := InsertData(store, algo, store[root], e, depth);
    InsertAdds(store, algo, root, e, depth);
    var store' := Apply(store, step.writes);
    var node := Load(store, algo, root).value;
    DecodedIsShaped(store[root], algo.length);
    var below := InsertStep(store, algo, node, e, depth);
    RootKeepsWrites(algo, below);
    var more :| step.writes == below.writes + more;
    HasPart(store', below.writes, more);
    InsertRefines(store, algo, node, t, e, depth, store');
    RootMatches(store', algo, below, Insert(t, e));
    InsertRootCorrect(t, e);
    UpsertDirectory(Listing(t), e);
    assert IsTreeOf(store', algo, step.outcome.value.hash, InsertRoot(t, e), directory[e.name := e]);
  }

  /**
   `btree_insert` and `btree_insert_batched` from a held root: the store only grows; the insertion
   succeeds exactly when the entry can be written, and then the new root holds the directory with the
   entry put in as it will be read.
   */
  lemma InsertHolds(store: Store, algo: Algo, root: Bytes, directory: map<Bytes, ChildEntry>, e: ChildEntry, depth: nat)
    requires HashesFit(algo) && WellKeyed(algo, store) && Holds(store, algo, root, directory)
    requires Proper(e, algo.length) && GroundedAt(store, algo, root, depth)
    requires CollisionFree(algo, store.Values + DataOf(InsertData(store, algo, store[root], e, depth).writes))
    ensures var step := InsertData(store, algo, store[root], e, depth);
            var store' := Apply(store, step.writes);
            && Extends(store, store') && WellKeyed(algo, store') && (step.outcome.Ok? <==> EncodeEntry(e).Ok?)
            && (step.outcome.Ok? ==>
                  && Holds(store', algo, step.outcome.value.hash, directory[e.name := AsRead(e)])
                  && store'[step.outcome.value.hash] == step.outcome.value.data)
  {
    InsertAdds(store, algo, root, e, depth);
    if EncodeEntry(e).Ok? {
      InsertDataSame(store, algo, store[root], e, depth);
      AsReadIsEncodable(e, algo.length);
      EncodableHolds(store, algo, root, directory, AsRead(e), depth);
    } else {
      InsertDataFails(store, algo, store[root], e, depth);
    }
  }

  lemma RootKeepsWrites(algo: Algo, below: Step<Outcome>)
    ensures exists more :: StoreRoot(algo, below).writes == below.writes + more
  {
    var all := StoreRoot(algo, below).writes;
    assert all == below.writes + all[|below.writes|..];
  }

  /**
   `btree_delete` from a held root: the new root holds the directory without the name, and there is
   none if nothing is left.
   */
  lemma DeleteHolds(store: Store, algo: Algo, root: Bytes, directory: map<Bytes, ChildEntry>, name: Bytes, depth: nat)
    requires HashesFit(algo) && WellKeyed(algo, store) && Holds(store, algo, root, directory)
    requires GroundedAt(store, algo, root, depth)
    requires CollisionFree(algo, store.Values + DataOf(DeleteStep(store, algo, root, name, depth).writes))
    ensures var step := DeleteStep(store, algo, root, name, depth);
            var store' := Apply(store, step.writes);
            && step.outcome.Ok? && Extends(store, store') && WellKeyed(algo, store')
            && (step.outcome.value.None? <==> directory - {name} == map[])
            && (step.outcome.value.Some? ==> Holds(store', algo, step.outcome.value.value, directory - {name}))
  {
    var t :| IsTreeOf(store, algo, root, t, directory);
    var step := DeleteStep(store, algo, root, name, depth);
    DeleteWritesKeyed(store, algo, root, name, depth);
    ApplyAdds(algo, store, step.writes);
    var store' := Apply(store, step.writes);
    DeleteRefines(store, algo, root, t, name, depth, store');
    DeleteCorrect(t, name);
    RemoveDirectory(Listing(t), name);
    EmptyDirectory(Remove(Listing(t), name));
    match Delete(t, name)
    case None =>
    case Some(t') =>
      assert IsTreeOf(store', algo, step.outcome.value.value, t', directory - {name});
  }

  lemma EmptyDirectory(es: seq<ChildEntry>)
    requires Sorted(es)
    ensures es == [] <==> Directory(es) == map[]
  {
    if es != [] { assert es[0].name in Directory(es); }
  }

  /** Listing a held root gives its entries in name order; looking a name up gives its entry. */
  lemma HeldReads(store: Store, algo: Algo, root: Bytes, directory: map<Bytes, ChildEntry>, name: Bytes, depth: nat)
    requires Holds(store, algo, root, directory) && GroundedAt(store, algo, root, depth)
    ensures var listed := ListAt(store, algo, root, depth);
            listed.Ok? && Sorted(listed.value) && Directory(listed.value) == directory
    ensures LookupAt(store, algo, root, name, depth) == Ok(if name in directory then Some(directory[name]) else None)
  {
    var t :| IsTreeOf(store, algo, root, t, directory);
    ListRefines(store, algo, root, t, depth);
    LookupRefines(store, algo, root, t, name, depth);
    LookupFinds(t, name);
    FindDirectory(Listing(t), name);
  }

  lemma HoldsExtends(store: Store, larger: Store, algo: Algo, root: Bytes, directory: map<Bytes, ChildEntry>)
    requires Extends(store, larger) && Holds(store, algo, root, directory)
    ensures Holds(larger, algo, root, directory)
  {
    var t :| IsTreeOf(store, algo, root, t, directory);
    RepresentsExtends(store, larger, algo, root, t);
    assert IsTreeOf(larger, algo, root, t, directory);
  }

  // ---------------------------------------------------------------------------
  // Building from a list
  // ---------------------------------------------------------------------------

  lemma {:induction false} LeavesKeyed(algo: Algo, es: seq<ChildEntry>, i: nat, made: Level, writes: seq<Write>)
    requires i <= |es| && AllKeyed(algo, writes)
    ensures AllKeyed(algo, StoreLeaves(algo, es, i, made, writes).writes)
    decreases |es| - i
  {
    if i < |es| {
      var chunk := es[i..Min(i + MAX_LEAF_ENTRIES, |es|)];
      var w := PutNode(algo, Leaf(chunk));
      if w.Ok? {
        LeavesKeyed(algo, es, i + |chunk|, WithLeaf(made, w.value.hash, chunk[0].name), writes + [w.value]);
      }
    }
  }

  lemma {:induction false} GroupsKeyed(algo: Algo, level: Level, i: nat, made: Level, writes: seq<Write>)
    requires i <= |level.hashes| == |level.keys| + 1 && AllKeyed(algo, writes)
    ensures AllKeyed(algo, StoreGroups(algo, level, i, made, writes).writes)
    decreases |level.hashes| - i
  {
    if i < |level.hashes| {
      var end := Min(i + MAX_CHILDREN, |level.hashes|);
      var w := PutNode(algo, Internal(GroupKeys(level.keys, i, end), level.hashes[i..end]));
      if w.Ok? {
        GroupsKeyed(algo, level, end, WithGroup(made, w.value.hash, level.keys, i), writes + [w.value]);
      }
    }
  }

  lemma {:induction false} LevelsKeyed(algo: Algo, level: Level, writes: seq<Write>)
    requires |level.hashes| == |level.keys| + 1 && AllKeyed(algo, writes)
    ensures AllKeyed(algo, BuildLevel(algo, level, writes).writes)
    decreases |level.hashes|
  {
    if |level.hashes| > 1 {
      GroupsCounted(algo, level, 0, Level([], []), writes);
      GroupsKeyed(algo, level, 0, Level([], []), writes);
      var step := StoreGroups(algo, level, 0, Level([], []), writes);
      if step.outcome.Ok? { LevelsKeyed(algo, step.outcome.value, step.writes); }
    }
  }

  lemma BuildKeyed(algo: Algo, es: seq<ChildEntry>)
    ensures AllKeyed(algo, FromSorted(algo, es).writes)
  {
    if es != [] {
      LeavesCounted(algo, es, 0, Level([], []), []);
      LeavesKeyed(algo, es, 0, Level([], []), []);
      var leaves := StoreLeaves(algo, es, 0, Level([], []), []);
      if leaves.outcome.Ok? { LevelsKeyed(algo, leaves.outcome.value, leaves.writes); }
    }
  }

  ghost predicate CanBuild(algo: Algo, store: Store, entries: seq<ChildEntry>) {
    && algo.length > 0 && AllProper(entries, algo.length)
    && CollisionFree(algo, store.Values + DataOf(FromSorted(algo, SortByName(entries)).writes))
  }

  /** What a build writes only ever adds to the store, whether it succeeds or fails. */
  lemma BuildAdds(algo: Algo, store: Store, entries: seq<ChildEntry>)
    requires WellKeyed(algo, store) && CanBuild(algo, store, entries)
    ensures var built := FromSorted(algo, SortByName(entries));
            var store' := Apply(store, built.writes);
            Extends(store, store') && WellKeyed(algo, store') && Has(store', built.writes)
  {
    var es := SortByName(entries);
    BuildKeyed(algo, es);
    ApplyAdds(algo, store, FromSorted(algo, es).writes);
  }

  /** What a list is built as: sorted, with each entry as it will be read. */
  function BuiltList(entries: seq<ChildEntry>): seq<ChildEntry> {
    SortByName(AllAsRead(entries))
  }

  lemma BuiltListFits(algo: Algo, entries: seq<ChildEntry>)
    requires AllProper(entries, algo.length) && AllWritten(entries)
    ensures EntriesFit(BuiltList(entries), algo.length) && |BuiltList(entries)| == |entries|
    ensures FromSorted(algo, BuiltList(entries)) == FromSorted(algo, SortByName(entries))
  {
    BuildSame(algo, entries);
    AllAsReadFit(entries, algo.length);
    SortByNameSorts(AllAsRead(entries));
    forall x | x in BuiltList(entries) ensures Encodable(x, algo.length) {
      assert x in multiset(BuiltList(entries));
      assert x in AllAsRead(entries);
    }
  }

  /**
   A build succeeds exactly when all its entries can be written. The directory it makes lists them,
   sorted and as they are read, exactly when there are at most 3120; past that its root
   is written but can no longer be listed.
   */
  lemma BuildListsExactlyWhenSmall(algo: Algo, store: Store, entries: seq<ChildEntry>, depth: nat)
    requires HashesFit(algo) && WellKeyed(algo, store) && CanBuild(algo, store, entries)
    ensures var built := FromSorted(algo, SortByName(entries));
            var store' := Apply(store, built.writes);
            && (built.outcome.Ok? <==> AllWritten(entries))
            && (built.outcome.Ok? && GroundedAt(store', algo, built.outcome.value, depth) ==>
                  var listed := ListAt(store', algo, built.outcome.value, depth);
                  && (listed == Ok(BuiltList(entries)) <==> |entries| <= 3120)
                  && (listed.Err? ==> listed == Err(Corrupt)))
  {
    if AllWritten(entries) {
      BuildAdds(algo, store, entries);
      BuiltListFits(algo, entries);
      BuiltLists(algo, Apply(store, FromSorted(algo, SortByName(entries)).writes), BuiltList(entries), depth);
    } else {
      BuildFails(algo, entries);
    }
  }

  lemma BuiltLists(algo: Algo, store: Store, es: seq<ChildEntry>, depth: nat)
    requires HashesFit(algo) && algo.length > 0 && EntriesFit(es, algo.length)
    requires Has(store, FromSorted(algo, es).writes)
    ensures var built := FromSorted(algo, es).outcome;
            && built.Ok?
            && (GroundedAt(store, algo, built.value, depth) ==>
                  var listed := ListAt(store, algo, built.value, depth);
                  && (listed == Ok(es) <==> |es| <= 3120)
                  && (listed.Err? ==> listed == Err(Corrupt)))
  {
    FromSortedBuilds(store, algo, es);
    var root := FromSorted(algo, es).outcome.value;
    if GroundedAt(store, algo, root, depth) && |es| <= 3120 {
      var t :| Built(store, algo, es, root, t);
      ListRefines(store, algo, root, t, depth);
    }
  }

  /** The listing comes to an end either way. */
  lemma BuildCanBeWalked(algo: Algo, store: Store, entries: seq<ChildEntry>) returns (depth: nat)
    requires HashesFit(algo) && WellKeyed(algo, store) && CanBuild(algo, store, entries) && AllWritten(entries)
    ensures var built := FromSorted(algo, SortByName(entries));
            built.outcome.Ok? && GroundedAt(Apply(store, built.writes), algo, built.outcome.value, depth)
  {
    BuildAdds(algo, store, entries);
    BuiltListFits(algo, entries);
    depth := FromSortedGrounded(Apply(store, FromSorted(algo, SortByName(entries)).writes), algo, BuiltList(entries));
  }

  /** The entries by name. */
  ghost function ByName(entries: seq<ChildEntry>): map<Bytes, ChildEntry>
    requires DistinctNames(entries)
  {
    SortedByName(entries);
    Directory(SortByName(entries))
  }

  lemma ByNameHasThemAll(entries: seq<ChildEntry>)
    requires DistinctNames(entries)
    ensures forall x :: x in entries ==> x.name in ByName(entries) && ByName(entries)[x.name] == x
    ensures forall n :: n in ByName(entries) ==> ByName(entries)[n] in entries && ByName(entries)[n].name == n
  {
    var es := SortByName(entries);
    SortedByName(entries);
    SortByNameSorts(entries);
    forall x ensures x in es <==> x in entries { assert x in multiset(es) <==> x in multiset(entries); }
  }

  lemma BuildHolds(algo: Algo, store: Store, entries: seq<ChildEntry>)
    requires HashesFit(algo) && WellKeyed(algo, store) && CanBuild(algo, store, entries)
    requires |entries| <= 3120 && DistinctNames(entries)
    ensures var built := FromSorted(algo, SortByName(entries));
            var store' := Apply(store, built.writes);
            && Extends(store, store') && WellKeyed(algo, store') && DistinctNames(AllAsRead(entries))
            && (built.outcome.Ok? <==> AllWritten(entries))
            && (built.outcome.Ok? ==> Holds(store', algo, built.outcome.value, ByName(AllAsRead(entries))))
  {
    BuildAdds(algo, store, entries);
    AllAsReadNames(entries);
    if AllWritten(entries) {
      BuiltListFits(algo, entries);
      SortedByName(AllAsRead(entries));
      BuiltHolds(algo, Apply(store, FromSorted(algo, SortByName(entries)).writes), BuiltList(entries));
    } else {
      BuildFails(algo, entries);
    }
  }

  lemma BuiltHolds(algo: Algo, store: Store, es: seq<ChildEntry>)
    requires HashesFit(algo) && algo.length > 0 && EntriesFit(es, algo.length) && Sorted(es)
    requires |es| <= 3120 && Has(store, FromSorted(algo, es).writes)
    ensures var built := FromSorted(algo, es).outcome;
            built.Ok? && Holds(store, algo, built.value, Directory(es))
  {
    FromSortedBuilds(store, algo, es);
    var t :| Built(store, algo, es, FromSorted(algo, es).outcome.value, t);
    assert IsTreeOf(store, algo, FromSorted(algo, es).outcome.value, t, Directory(es));
  }

  // ---------------------------------------------------------------------------
  // Runs
  // ---------------------------------------------------------------------------

  /** The roots returned so far, oldest first; a deletion that empties a directory returns none, a failure nothing. */
  datatype State = State(store: Store, roots: seq<Option<Bytes>>)

  /**
   Insertions and deletions start from any earlier root; batched and unbatched insertion take turns
   freely; a build makes a directory of its own.
   */
  datatype Op =
    | InsertOp(from: nat, entry: ChildEntry, batched: bool)
    | DeleteOp(from: nat, name: Bytes)
    | BuildOp(entries: seq<ChildEntry>)

  ghost predicate CanStep(s: State, op: Op) {
    if op.BuildOp? then DistinctNames(op.entries) && |op.entries| <= 3120
    else op.from < |s.roots| && s.roots[op.from].Some?
  }

  /** One operation, the engine meeting no hash collision. */
  ghost predicate Next(algo: Algo, s: State, op: Op, s': State) {
    CanStep(s, op) && exists depth: nat :: NextAt(algo, s, op, s', depth)
  }

  ghost predicate NextAt(algo: Algo, s: State, op: Op, s': State, depth: nat)
    requires CanStep(s, op)
  {
    match op
    case InsertOp(from, e, batched) =>
      && CanInsert(algo, s, from, e, depth)
      && s' == if batched then AfterBatched(algo, s, from, e, depth) else AfterInsert(algo, s, from, e, depth)
    case DeleteOp(from, name) => CanDelete(algo, s, from, name, depth) && s' == AfterDelete(algo, s, from, name, depth)
    case BuildOp(entries) => CanBuild(algo, s.store, entries) && s' == AfterBuild(algo, s, entries)
  }

  ghost predicate CanInsert(algo: Algo, s: State, from: nat, e: ChildEntry, depth: nat)
    requires from < |s.roots| && s.roots[from].Some?
  {
    var root := s.roots[from].value;
    && GroundedAt(s.store, algo, root, depth) && root in s.store && Proper(e, algo.length)
    && CollisionFree(algo, s.store.Values + DataOf(InsertData(s.store, algo, s.store[root], e, depth).writes))
  }

  /** Each node is stored as it is made; what a failed insertion had stored stays. */
  ghost function AfterInsert(algo: Algo, s: State, from: nat, e: ChildEntry, depth: nat): State
    requires from < |s.roots| && s.roots[from].Some? && CanInsert(algo, s, from, e, depth)
  {
    var step := InsertData(s.store, algo, s.store[s.roots[from].value], e, depth);
    State(Apply(s.store, step.writes), s.roots + if step.outcome.Ok? then [Some(step.outcome.value.hash)] else [])
  }

  /** The nodes are stored together at the end; a failed insertion stores none. */
  ghost function AfterBatched(algo: Algo, s: State, from: nat, e: ChildEntry, depth: nat): State
    requires from < |s.roots| && s.roots[from].Some? && CanInsert(algo, s, from, e, depth)
  {
    var step := InsertData(s.store, algo, s.store[s.roots[from].value], e, depth);
    if step.outcome.Err? then s
    else State(Apply(s.store, step.writes), s.roots + [Some(step.outcome.value.hash)])
  }

  ghost predicate CanDelete(algo: Algo, s: State, from: nat, name: Bytes, depth: nat)
    requires from < |s.roots| && s.roots[from].Some?
  {
    var root := s.roots[from].value;
    && GroundedAt(s.store, algo, root, depth)
    && CollisionFree(algo, s.store.Values + DataOf(DeleteStep(s.store, algo, root, name, depth).writes))
  }

  ghost function AfterDelete(algo: Algo, s: State, from: nat, name: Bytes, depth: nat): State
    requires from < |s.roots| && s.roots[from].Some? && CanDelete(algo, s, from, name, depth)
  {
    var step := DeleteStep(s.store, algo, s.roots[from].value, name, depth);
    State(Apply(s.store, step.writes), s.roots + if step.outcome.Ok? then [step.outcome.value] else [])
  }

  ghost function AfterBuild(algo: Algo, s: State, entries: seq<ChildEntry>): State {
    var built := FromSorted(algo, SortByName(entries));
    State(Apply(s.store, built.writes), s.roots + if built.outcome.Ok? then [Some(built.outcome.value)] else [])
  }

  /** The engine's own methods take the steps: each insertion the way its flag says. */
  method Perform(engine: StorageEngine, roots: seq<Option<Bytes>>, op: Op, ghost depth: nat)
    returns (roots': seq<Option<Bytes>>)
    requires CanStep(State(engine.entries, roots), op)
    requires match op
             case InsertOp(from, e, _) => CanInsert(engine.algo, State(engine.entries, roots), from, e, depth)
             case DeleteOp(from, name) => CanDelete(engine.algo, State(engine.entries, roots), from, name, depth)
             case BuildOp(entries) => CanBuild(engine.algo, engine.entries, entries)
    modifies engine
    ensures Next(engine.algo, State(old(engine.entries), roots), op, State(engine.entries, roots'))
  {
    ghost var s := State(engine.entries, roots);
    match op {
      case InsertOp(from, e, batched) =>
        var root := roots[from].value;
        if batched {
          var w := engine.InsertBatched(engine.entries[root], e, depth);
          roots' := roots + if w.Ok? then [Some(w.value.hash)] else [];
        } else {
          var w := engine.Insert(root, e, depth);
          roots' := roots + if w.Ok? then [Some(w.value)] else [];
        }
      case DeleteOp(from, name) =>
        var w := engine.Delete(roots[from].value, name, depth);
        roots' := roots + if w.Ok? then [w.value] else [];
      case BuildOp(entries) =>
        var w := FromEntries(engine, entries);
        roots' := roots + if w.Ok? then [Some(w.value)] else [];
    }
    assert NextAt(engine.algo, s, op, State(engine.entries, roots'), depth);
  }

  /** What the run means: a list of finite maps, each made from an earlier one; what cannot be written makes none. */
  ghost function NextDirectory(ds: seq<map<Bytes, ChildEntry>>, op: Op): seq<map<Bytes, ChildEntry>>
    requires Applies(ds, op)
  {
    match op
    case InsertOp(from, e, _) => if EncodeEntry(e).Ok? then ds + [ds[from][e.name := AsRead(e)]] else ds
    case DeleteOp(from, name) => ds + [ds[from] - {name}]
    case BuildOp(entries) =>
      AllAsReadNames(entries);
      if AllWritten(entries) then ds + [ByName(AllAsRead(entries))] else ds
  }

  ghost predicate Applies(ds: seq<map<Bytes, ChildEntry>>, op: Op) {
    if op.BuildOp? then DistinctNames(op.entries) else op.from < |ds|
  }

  ghost predicate Init(algo: Algo, s: State) {
    var w := PutNode(algo, Leaf([]));
    w.Ok? && s == State(map[w.value.hash := w.value.data], [Some(w.value.hash)])
  }

  ghost predicate Run(algo: Algo, states: seq<State>, ops: seq<Op>) {
    && |states| == |ops| + 1 && Init(algo, states[0])
    && forall i :: 0 <= i < |ops| ==> Next(algo, states[i], ops[i], states[i + 1])
  }

  ghost predicate Inv(algo: Algo, s: State, ds: seq<map<Bytes, ChildEntry>>) {
    && |s.roots| == |ds| && WellKeyed(algo, s.store)
    && forall i :: 0 <= i < |ds| ==> RootInv(algo, s, ds, i)
  }

  ghost predicate RootInv(algo: Algo, s: State, ds: seq<map<Bytes, ChildEntry>>, i: nat)
    requires i < |s.roots| && i < |ds|
  {
    if s.roots[i].Some? then Holds(s.store, algo, s.roots[i].value, ds[i]) else ds[i] == map[]
  }

  lemma InitInv(algo: Algo, s: State)
    requires HashesFit(algo) && Init(algo, s)
    ensures Inv(algo, s, [map[]])
  {
    var w := PutNode(algo, Leaf([])).value;
    WrittenLeaf(s.store, algo, []);
    assert Has(s.store, [w]);
    assert IsTreeOf(s.store, algo, w.hash, LeafTree([]), map[]);
    assert RootInv(algo, s, [map[]], 0);
  }

  lemma OldRootsKept(algo: Algo, s: State, s': State, ds: seq<map<Bytes, ChildEntry>>, ds': seq<map<Bytes, ChildEntry>>)
    requires Inv(algo, s, ds) && Extends(s.store, s'.store) && s.roots <= s'.roots && ds <= ds'
    ensures forall i :: 0 <= i < |ds| ==> RootInv(algo, s', ds', i)
  {
    forall i | 0 <= i < |ds| ensures RootInv(algo, s', ds', i) {
      assert RootInv(algo, s, ds, i);
      if s.roots[i].Some? { HoldsExtends(s.store, s'.store, algo, s.roots[i].value, ds[i]); }
    }
  }

  lemma NewRootToo(algo: Algo, s: State, s': State, ds: seq<map<Bytes, ChildEntry>>, ds': seq<map<Bytes, ChildEntry>>)
    requires Inv(algo, s, ds) && Extends(s.store, s'.store) && WellKeyed(algo, s'.store) && s.roots <= s'.roots
               && ds <= ds'
    requires |s'.roots| == |ds'| == |ds| + 1 && RootInv(algo, s', ds', |ds|)
    ensures Inv(algo, s', ds')
  {
    OldRootsKept(algo, s, s', ds, ds');
  }

  /** A failure leaves the roots and the directories as they are. */
  lemma NothingNew(algo: Algo, s: State, s': State, ds: seq<map<Bytes, ChildEntry>>)
    requires Inv(algo, s, ds) && Extends(s.store, s'.store) && WellKeyed(algo, s'.store) && s'.roots == s.roots
    ensures Inv(algo, s', ds)
  {
    OldRootsKept(algo, s, s', ds, ds);
  }

  lemma InsertInv(algo: Algo, s: State, s': State, ds: seq<map<Bytes, ChildEntry>>, from: nat, e: ChildEntry,
                  batched: bool, depth: nat)
    requires HashesFit(algo) && Inv(algo, s, ds) && from < |s.roots| && s.roots[from].Some?
    requires CanInsert(algo, s, from, e, depth)
    requires s' == if batched then AfterBatched(algo, s, from, e, depth) else AfterInsert(algo, s, from, e, depth)
    ensures Inv(algo, s', NextDirectory(ds, InsertOp(from, e, batched)))
  {
    assert RootInv(algo, s, ds, from);
    InsertHolds(s.store, algo, s.roots[from].value, ds[from], e, depth);
    if EncodeEntry(e).Ok? {
      NewRootToo(algo, s, s', ds, NextDirectory(ds, InsertOp(from, e, batched)));
    } else {
      assert s.roots + [] == s.roots;
      NothingNew(algo, s, s', ds);
    }
  }

  lemma DeleteInv(algo: Algo, s: State, s': State, ds: seq<map<Bytes, ChildEntry>>, from: nat, name: Bytes, depth: nat)
    requires HashesFit(algo) && Inv(algo, s, ds) && from < |s.roots| && s.roots[from].Some?
    requires CanDelete(algo, s, from, name, depth) && s' == AfterDelete(algo, s, from, name, depth)
    ensures Inv(algo, s', NextDirectory(ds, DeleteOp(from, name)))
  {
    assert RootInv(algo, s, ds, from);
    DeleteHolds(s.store, algo, s.roots[from].value, ds[from], name, depth);
    NewRootToo(algo, s, s', ds, NextDirectory(ds, DeleteOp(from, name)));
  }

  lemma BuildInv(algo: Algo, s: State, s': State, ds: seq<map<Bytes, ChildEntry>>, entries: seq<ChildEntry>)
    requires HashesFit(algo) && Inv(algo, s, ds) && DistinctNames(entries) && |entries| <= 3120
    requires CanBuild(algo, s.store, entries) && s' == AfterBuild(algo, s, entries)
    ensures Inv(algo, s', NextDirectory(ds, BuildOp(entries)))
  {
    BuildHolds(algo, s.store, entries);
    if AllWritten(entries) {
      NewRootToo(algo, s, s', ds, NextDirectory(ds, BuildOp(entries)));
    } else {
      assert s.roots + [] == s.roots;
      NothingNew(algo, s, s', ds);
    }
  }

  lemma NextInv(algo: Algo, s: State, op: Op, s': State, ds: seq<map<Bytes, ChildEntry>>)
    requires HashesFit(algo) && Inv(algo, s, ds) && Next(algo, s, op, s')
    ensures Inv(algo, s', NextDirectory(ds, op))
  {
    var depth: nat :| NextAt(algo, s, op, s', depth);
    match op
    case InsertOp(from, e, batched) => InsertInv(algo, s, s', ds, from, e, batched, depth);
    case DeleteOp(from, name) => DeleteInv(algo, s, s', ds, from, name, depth);
    case BuildOp(entries) => BuildInv(algo, s, s', ds, entries);
  }

  /** The directories the operations ask for, one for each root. */
  ghost function Directories(ops: seq<Op>): seq<map<Bytes, ChildEntry>> {
    if ops == [] then [map[]] else
    var init := Directories(ops[..|ops| - 1]);
    var op := ops[|ops| - 1];
    if Applies(init, op) then NextDirectory(init, op) else init
  }

  lemma DirectoriesStep(ops: seq<Op>, n: nat)
    requires n < |ops| && Applies(Directories(ops[..n]), ops[n])
    ensures Directories(ops[..n + 1]) == NextDirectory(Directories(ops[..n]), ops[n])
  {
    assert ops[..n + 1][..n] == ops[..n];
  }

  lemma {:induction false} RunInv(algo: Algo, states: seq<State>, ops: seq<Op>, n: nat)
    requires HashesFit(algo) && Run(algo, states, ops) && n <= |ops|
    ensures Inv(algo, states[n], Directories(ops[..n]))
  {
    if n == 0 {
      InitInv(algo, states[0]);
    } else {
      RunInv(algo, states, ops, n - 1);
      assert Next(algo, states[n - 1], ops[n - 1], states[n - 1 + 1]);
      DirectoriesStep(ops, n - 1);
      NextInv(algo, states[n - 1], ops[n - 1], states[n], Directories(ops[..n - 1]));
    }
  }

  /**
   Persistence and correctness over whole runs: whatever happened since, every root a run ever
   returned lists, in name order, exactly the directory its own operations built, and looks up
   every name in it; the directories that have no root are the empty ones. Operations on entries the
   format cannot hold are part of the runs: they fail and leave all of this alone.
   */
  lemma EveryRootForever(algo: Algo, states: seq<State>, ops: seq<Op>, n: nat, i: nat, name: Bytes, depth: nat)
    requires HashesFit(algo) && Run(algo, states, ops) && n <= |ops|
    requires i < |Directories(ops[..n])| && i < |states[n].roots|
    requires states[n].roots[i].Some? ==> GroundedAt(states[n].store, algo, states[n].roots[i].value, depth)
    ensures var s, directory := states[n], Directories(ops[..n])[i];
            if s.roots[i].Some? then
              var listed := ListAt(s.store, algo, s.roots[i].value, depth);
              && listed.Ok? && Sorted(listed.value) && Directory(listed.value) == directory
              && LookupAt(s.store, algo, s.roots[i].value, name, depth)
              == Ok(if name in directory then Some(directory[name]) else None)
            else directory == map[]
  {
    RunInv(algo, states, ops, n);
    var s, ds := states[n], Directories(ops[..n]);
    assert RootInv(algo, s, ds, i);
    if s.roots[i].Some? { HeldReads(s.store, algo, s.roots[i].value, ds[i], name, depth); }
  }

  /** The directory of a root is settled when the root is made. */
  lemma {:induction false} DirectoriesOnlyGrow(ops: seq<Op>, m: nat, n: nat)
    requires m <= n <= |ops|
    ensures Directories(ops[..m]) <= Directories(ops[..n])
  {
    if m < n {
      DirectoriesOnlyGrow(ops, m, n - 1);
      assert ops[..n][..n - 1] == ops[..n - 1];
    }
  }

  /**
   On a store that holds what it should, an insertion that succeeds does the same batched or not; one
   that fails returns nothing either way, and stores nothing when batched.
   */
  lemma BatchedStepIsTheSame(algo: Algo, s: State, ds: seq<map<Bytes, ChildEntry>>, from: nat, e: ChildEntry,
                             depth: nat)
    requires HashesFit(algo) && Inv(algo, s, ds) && from < |s.roots| && s.roots[from].Some?
               && CanInsert(algo, s, from, e, depth)
    ensures var one, other := AfterBatched(algo, s, from, e, depth), AfterInsert(algo, s, from, e, depth);
            if EncodeEntry(e).Ok? then one == other
            else one == s && other.roots == s.roots && Extends(s.store, other.store)
  {
    assert RootInv(algo, s, ds, from);
    InsertHolds(s.store, algo, s.roots[from].value, ds[from], e, depth);
  }

  /** The same operations, whichever insertions were batched. */
  ghost predicate SameOps(a: seq<Op>, b: seq<Op>) {
    |a| == |b| && forall i :: 0 <= i < |a| ==> SameOp(a[i], b[i])
  }

  ghost predicate SameOp(a: Op, b: Op) {
    a == b || (a.InsertOp? && b.InsertOp? && a.from == b.from && a.entry == b.entry)
  }

  lemma {:induction false} BatchingDoesNotMatter(a: seq<Op>, b: seq<Op>)
    requires SameOps(a, b)
    ensures Directories(a) == Directories(b)
  {
    if a != [] {
      var n := |a| - 1;
      BatchingDoesNotMatter(a[..n], b[..n]);
      assert SameOp(a[n], b[n]);
    }
  }

  /** Batched and unbatched runs, in stores of their own, list the same entries under every root. */
  lemma BatchedRunsListTheSame(algo: Algo, states: seq<State>, ops: seq<Op>,
                               algo': Algo, states': seq<State>, ops': seq<Op>,
                               i: nat, depth: nat, depth': nat)
    requires HashesFit(algo) && Run(algo, states, ops) && HashesFit(algo') && Run(algo', states', ops')
               && SameOps(ops, ops')
    requires var s, s' := states[|ops|], states'[|ops|];
             && i < |s.roots| && i < |s'.roots| && s.roots[i].Some? && s'.roots[i].Some?
             && GroundedAt(s.store, algo, s.roots[i].value, depth)
             && GroundedAt(s'.store, algo', s'.roots[i].value, depth')
    ensures ListAt(states[|ops|].store, algo, states[|ops|].roots[i].value, depth)
         == ListAt(states'[|ops|].store, algo', states'[|ops|].roots[i].value, depth')
  {
    var n := |ops|;
    RunInv(algo, states, ops, n);
    RunInv(algo', states', ops', n);
    assert ops[..n] == ops && ops'[..n] == ops';
    EveryRootForever(algo, states, ops, n, i, [], depth);
    EveryRootForever(algo', states', ops', n, i, [], depth');
    BatchingDoesNotMatter(ops, ops');
    ListingIsDetermined(ListAt(states[n].store, algo, states[n].roots[i].value, depth).value,
                        ListAt(states'[n].store, algo', states'[n].roots[i].value, depth').value);
  }
}
