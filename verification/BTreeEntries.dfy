/**
 Entries that are not stored as they are given: an empty content type is stored as none, and an
 entry whose strings are too long for the format is not stored at all.
 */
module BTreeEntries {
  import opened Bytes
  import opened DirectoryCodec
  import opened SortedEntries
  import opened BTree
  import opened BTreeStore
  import opened BTreeBulk

  // ---------------------------------------------------------------------------
  // Insertion
  // ---------------------------------------------------------------------------

  lemma UpsertSame(es: seq<ChildEntry>, e: ChildEntry)
    ensures ReadAlike(Upsert(es, e), Upsert(es, AsRead(e)))
  {
    var lower, upper := Lower(es, e.name), Upper(es, e.name);
    assert Upsert(es, e) == lower + ([e] + upper) && Upsert(es, AsRead(e)) == lower + ([AsRead(e)] + upper);
  }

  lemma LeafSame(algo: Algo, a: seq<ChildEntry>, b: seq<ChildEntry>)
    requires ReadAlike(a, b)
    ensures PutNode(algo, Leaf(a)) == PutNode(algo, Leaf(b))
  {
    SameBytes(a, b);
  }

  lemma StoreLeafSame(algo: Algo, a: seq<ChildEntry>, b: seq<ChildEntry>)
    requires ReadAlike(a, b)
    ensures StoreLeaf(algo, a) == StoreLeaf(algo, b)
  {
    if |a| >= MAX_LEAF_ENTRIES {
      var mid := |a| / 2;
      SameEntryBytes(a[mid], b[mid]);
      LeafSame(algo, a[..mid], b[..mid]);
      LeafSame(algo, a[mid..], b[mid..]);
    } else {
      LeafSame(algo, a, b);
    }
  }

  /** An insertion does the same with an empty content type as with none. */
  lemma {:induction false} InsertSame(store: Store, algo: Algo, node: BTreeNode, e: ChildEntry, depth: nat)
    requires Shaped(node) && Grounded(store, algo, node, depth)
    ensures InsertStep(store, algo, node, e, depth) == InsertStep(store, algo, node, AsRead(e), depth)
    decreases depth
  {
    match node
    case Leaf(es) =>
      UpsertSame(es, e);
      StoreLeafSame(algo, Upsert(es, e), Upsert(es, AsRead(e)));
    case Internal(keys, children) =>
      var i := ChildIndex(keys, e.name);
      if Load(store, algo, children[i]).Ok? {
        DecodedIsShaped(store[children[i]], algo.length);
        InsertSame(store, algo, Load(store, algo, children[i]).value, e, depth - 1);
      }
  }

  lemma InsertDataSame(store: Store, algo: Algo, rootData: Bytes, e: ChildEntry, depth: nat)
    requires DataGrounded(store, algo, rootData, depth)
    ensures InsertData(store, algo, rootData, e, depth) == InsertData(store, algo, rootData, AsRead(e), depth)
  {
    var root := DecodeNode(rootData, algo.length);
    if root.Ok? {
      DecodedIsShaped(rootData, algo.length);
      InsertSame(store, algo, root.value, e, depth);
    }
  }

  lemma LeafFails(algo: Algo, es: seq<ChildEntry>, i: nat)
    requires i < |es| && EncodeEntry(es[i]).Err?
    ensures StoreLeaf(algo, es).outcome.Err?
  {
    CannotEncode(es, i);
    if |es| >= MAX_LEAF_ENTRIES {
      var mid := |es| / 2;
      if i < mid { CannotEncode(es[..mid], i); } else { CannotEncode(es[mid..], i - mid); }
    }
  }

  /** An insertion of an entry that cannot be written fails, wherever it leads. */
  lemma {:induction false} InsertFails(store: Store, algo: Algo, node: BTreeNode, e: ChildEntry, depth: nat)
    requires Shaped(node) && Grounded(store, algo, node, depth) && EncodeEntry(e).Err?
    ensures InsertStep(store, algo, node, e, depth).outcome.Err?
    decreases depth
  {
    match node
    case Leaf(es) =>
      var i := |Lower(es, e.name)|;
      assert Upsert(es, e)[i] == e;
      LeafFails(algo, Upsert(es, e), i);
    case Internal(keys, children) =>
      var i := ChildIndex(keys, e.name);
      if Load(store, algo, children[i]).Ok? {
        DecodedIsShaped(store[children[i]], algo.length);
        InsertFails(store, algo, Load(store, algo, children[i]).value, e, depth - 1);
      }
  }

  lemma InsertDataFails(store: Store, algo: Algo, rootData: Bytes, e: ChildEntry, depth: nat)
    requires DataGrounded(store, algo, rootData, depth) && EncodeEntry(e).Err?
    ensures InsertData(store, algo, rootData, e, depth).outcome.Err?
  {
    var root := DecodeNode(rootData, algo.length);
    if root.Ok? {
      DecodedIsShaped(rootData, algo.length);
      InsertFails(store, algo, root.value, e, depth);
    }
  }

  // ---------------------------------------------------------------------------
  // Building from a list
  // ---------------------------------------------------------------------------

  function AllAsRead(es: seq<ChildEntry>): (r: seq<ChildEntry>)
    ensures |r| == |es|
  {
    if es == [] then [] else AllAsRead(es[..|es| - 1]) + [AsRead(es[|es| - 1])]
  }

  lemma {:induction false} AllAsReadAt(es: seq<ChildEntry>, i: nat)
    requires i < |es|
    ensures AllAsRead(es)[i] == AsRead(es[i])
  {
    if i < |es| - 1 { AllAsReadAt(es[..|es| - 1], i); }
  }

  lemma AllAsReadIsSame(es: seq<ChildEntry>)
    ensures ReadAlike(es, AllAsRead(es))
  {
    forall i | 0 <= i < |es| ensures AsRead(es[i]) == AsRead(AllAsRead(es)[i]) { AllAsReadAt(es, i); }
  }

  lemma {:induction false} PlaceSame(a: seq<ChildEntry>, b: seq<ChildEntry>, e: ChildEntry, f: ChildEntry)
    requires ReadAlike(a, b) && AsRead(e) == AsRead(f)
    ensures ReadAlike(PlaceStably(a, e), PlaceStably(b, f))
  {
    SameEntryBytes(e, f);
    if a != [] {
      SameEntryBytes(a[0], b[0]);
      PlaceSame(a[1..], b[1..], e, f);
    }
  }

  lemma {:induction false} SortSame(a: seq<ChildEntry>, b: seq<ChildEntry>)
    requires ReadAlike(a, b)
    ensures ReadAlike(SortByName(a), SortByName(b))
  {
    if a != [] {
      var n := |a| - 1;
      SortSame(a[..n], b[..n]);
      PlaceSame(SortByName(a[..n]), SortByName(b[..n]), a[n], b[n]);
    }
  }

  lemma {:induction false} LeavesSame(algo: Algo, a: seq<ChildEntry>, b: seq<ChildEntry>, i: nat, made: Level,
                                      writes: seq<Write>)
    requires ReadAlike(a, b) && i <= |a|
    ensures StoreLeaves(algo, a, i, made, writes) == StoreLeaves(algo, b, i, made, writes)
    decreases |a| - i
  {
    if i < |a| {
      var end := Min(i + MAX_LEAF_ENTRIES, |a|);
      var w := PutNode(algo, Leaf(a[i..end]));
      LeafSame(algo, a[i..end], b[i..end]);
      SameEntryBytes(a[i], b[i]);
      if w.Ok? { LeavesSame(algo, a, b, end, WithLeaf(made, w.value.hash, a[i].name), writes + [w.value]); }
    }
  }

  /** A build does the same with empty content types as with none. */
  lemma BuildSame(algo: Algo, entries: seq<ChildEntry>)
    ensures FromSorted(algo, SortByName(entries)) == FromSorted(algo, SortByName(AllAsRead(entries)))
  {
    AllAsReadIsSame(entries);
    SortSame(entries, AllAsRead(entries));
    var a, b := SortByName(entries), SortByName(AllAsRead(entries));
    if a != [] { LeavesSame(algo, a, b, 0, Level([], []), []); }
  }

  lemma {:induction false} LeavesFail(algo: Algo, es: seq<ChildEntry>, i: nat, made: Level, writes: seq<Write>, k: nat)
    requires i <= k < |es| && EncodeEntry(es[k]).Err?
    ensures StoreLeaves(algo, es, i, made, writes).outcome.Err?
    decreases |es| - i
  {
    var end := Min(i + MAX_LEAF_ENTRIES, |es|);
    var chunk := es[i..end];
    var w := PutNode(algo, Leaf(chunk));
    if k < end { CannotEncode(chunk, k - i); }
    if w.Ok? { LeavesFail(algo, es, end, WithLeaf(made, w.value.hash, chunk[0].name), writes + [w.value], k); }
  }

  /** All of them can be written. */
  ghost predicate AllWritten(es: seq<ChildEntry>) {
    forall x :: x in es ==> EncodeEntry(x).Ok?
  }

  /** A build of a list with an entry that cannot be written fails. */
  lemma BuildFails(algo: Algo, entries: seq<ChildEntry>)
    requires !AllWritten(entries)
    ensures FromSorted(algo, SortByName(entries)).outcome.Err?
  {
    var x :| x in entries && EncodeEntry(x).Err?;
    var es := SortByName(entries);
    SortByNameSorts(entries);
    assert x in multiset(entries) && x in multiset(es);
    var k :| 0 <= k < |es| && es[k] == x;
    LeavesFail(algo, es, 0, Level([], []), [], k);
  }

  ghost predicate AllProper(es: seq<ChildEntry>, hashLength: nat) {
    forall x :: x in es ==> Proper(x, hashLength)
  }

  lemma AllAsReadFit(es: seq<ChildEntry>, hashLength: nat)
    requires AllProper(es, hashLength) && AllWritten(es)
    ensures forall x :: x in AllAsRead(es) ==> Encodable(x, hashLength)
  {
    forall x | x in AllAsRead(es) ensures Encodable(x, hashLength) {
      var i :| 0 <= i < |es| && AllAsRead(es)[i] == x;
      AllAsReadAt(es, i);
      assert es[i] in es;
      AsReadIsEncodable(es[i], hashLength);
    }
  }

  lemma AllAsReadNames(es: seq<ChildEntry>)
    requires DistinctNames(es)
    ensures DistinctNames(AllAsRead(es))
  {
    forall i, j | 0 <= i < j < |es| ensures AllAsRead(es)[i].name != AllAsRead(es)[j].name {
      AllAsReadAt(es, i);
      AllAsReadAt(es, j);
    }
  }
}
