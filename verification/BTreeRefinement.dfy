/**
 What the stored operations do to the trees they are given: each stored root stands for a tree, and
 insertion, deletion, lookup and listing act on it as on a finite map listed in name order.
 */
module BTreeRefinement {
  import opened Common
  import opened Bytes
  import opened DirectoryCodec
  import opened SortedEntries
  import opened BTree
  import opened BTreeStore

  // ---------------------------------------------------------------------------
  // Trees in the store
  // ---------------------------------------------------------------------------

  ghost predicate RepresentsNode(store: Store, algo: Algo, node: BTreeNode, t: Tree)
    decreases t, 0
  {
    match t
    case LeafTree(es) => node == Leaf(es)
    case NodeTree(keys, ts) =>
      && node.Internal? && node.keys == keys && |node.children| == |ts|
      && forall i :: 0 <= i < |ts| ==> Represents(store, algo, node.children[i], ts[i])
  }

  ghost predicate Represents(store: Store, algo: Algo, hash: Bytes, t: Tree)
    decreases t, 1
  {
    && |hash| == algo.length
    && Load(store, algo, hash).Ok?
    && RepresentsNode(store, algo, Load(store, algo, hash).value, t)
  }

  ghost predicate Extends(store: Store, larger: Store) {
    forall h :: h in store ==> h in larger && larger[h] == store[h]
  }

  lemma {:induction false} NodeExtends(store: Store, larger: Store, algo: Algo, node: BTreeNode, t: Tree)
    requires Extends(store, larger) && RepresentsNode(store, algo, node, t)
    ensures RepresentsNode(larger, algo, node, t)
    decreases t
  {
    if t.NodeTree? {
      forall i | 0 <= i < |t.children| ensures Represents(larger, algo, node.children[i], t.children[i]) {
        assert Represents(store, algo, node.children[i], t.children[i]);
        NodeExtends(store, larger, algo, Load(store, algo, node.children[i]).value, t.children[i]);
      }
    }
  }

  lemma RepresentsExtends(store: Store, larger: Store, algo: Algo, hash: Bytes, t: Tree)
    requires Extends(store, larger) && Represents(store, algo, hash, t)
    ensures Represents(larger, algo, hash, t)
  {
    NodeExtends(store, larger, algo, Load(store, algo, hash).value, t);
  }

  function Height(t: Tree): nat {
    match t
    case LeafTree(_) => 0
    case NodeTree(_, ts) => 1 + MaxHeight(ts)
  }

  function MaxHeight(ts: seq<Tree>): nat {
    if ts == [] then 0 else
    var h, m := Height(ts[0]), MaxHeight(ts[1..]);
    if h > m then h else m
  }

  lemma {:induction false} HeightBelow(ts: seq<Tree>, i: nat)
    requires i < |ts|
    ensures Height(ts[i]) <= MaxHeight(ts)
  {
    if i > 0 { HeightBelow(ts[1..], i - 1); }
  }

  lemma {:induction false} RepresentedIsGrounded(store: Store, algo: Algo, node: BTreeNode, t: Tree, depth: nat)
    requires RepresentsNode(store, algo, node, t) && Height(t) <= depth
    ensures Grounded(store, algo, node, depth)
    decreases t
  {
    if t.NodeTree? {
      forall i | 0 <= i < |node.children| && Load(store, algo, node.children[i]).Ok?
        ensures Grounded(store, algo, Load(store, algo, node.children[i]).value, depth - 1)
      {
        assert Represents(store, algo, node.children[i], t.children[i]);
        HeightBelow(t.children, i);
        RepresentedIsGrounded(store, algo, Load(store, algo, node.children[i]).value, t.children[i], depth - 1);
      }
    }
  }

  // ---------------------------------------------------------------------------
  // Trees that fit in the store's format
  // ---------------------------------------------------------------------------

  predicate KeyFits(k: Bytes) {
    IsString(k) && |k| <= MAX_STRING
  }

  ghost predicate KeysFit(keys: seq<Bytes>) {
    forall i :: 0 <= i < |keys| ==> KeyFits(keys[i])
  }

  ghost predicate EntriesFit(es: seq<ChildEntry>, hashLength: nat) {
    forall x :: x in es ==> Encodable(x, hashLength)
  }

  ghost predicate Storable(t: Tree, hashLength: nat) {
    match t
    case LeafTree(es) => |es| <= MAX_LEAF_ENTRIES && EntriesFit(es, hashLength)
    case NodeTree(keys, ts) =>
      && |keys| <= MAX_INTERNAL_KEYS && |ts| == |keys| + 1 && KeysFit(keys)
      && forall i :: 0 <= i < |ts| ==> Storable(ts[i], hashLength)
  }

  ghost predicate HashesFit(algo: Algo) {
    forall d :: |algo.hash(d)| == algo.length
  }

  ghost predicate Has(store: Store, writes: seq<Write>) {
    forall w :: w in writes ==> w.hash in store && store[w.hash] == w.data
  }

  /** A leaf that was written stands for itself. */
  lemma WrittenLeaf(store: Store, algo: Algo, es: seq<ChildEntry>)
    requires HashesFit(algo) && |es| <= MAX_LEAF_ENTRIES && EntriesFit(es, algo.length)
    ensures PutNode(algo, Leaf(es)).Ok?
    ensures Has(store, [PutNode(algo, Leaf(es)).value]) ==>
              Represents(store, algo, PutNode(algo, Leaf(es)).value.hash, LeafTree(es))
  {
    forall i | 0 <= i < |es| ensures Encodable(es[i], algo.length) { assert es[i] in es; }
    NodeRoundTrip(Leaf(es), algo.length);
    var w := PutNode(algo, Leaf(es)).value;
    if Has(store, [w]) { assert w in [w]; }
  }

  ghost predicate ChildrenRepresent(store: Store, algo: Algo, hashes: seq<Bytes>, ts: seq<Tree>) {
    |hashes| == |ts| && forall i :: 0 <= i < |ts| ==> Represents(store, algo, hashes[i], ts[i])
  }

  lemma WrittenNode(store: Store, algo: Algo, keys: seq<Bytes>, hashes: seq<Bytes>, ts: seq<Tree>)
    requires HashesFit(algo) && |keys| <= MAX_INTERNAL_KEYS && |ts| == |keys| + 1 && KeysFit(keys)
    requires ChildrenRepresent(store, algo, hashes, ts)
    ensures PutNode(algo, Internal(keys, hashes)).Ok?
    ensures Has(store, [PutNode(algo, Internal(keys, hashes)).value]) ==>
              Represents(store, algo, PutNode(algo, Internal(keys, hashes)).value.hash, NodeTree(keys, ts))
  {
    forall i | 0 <= i < |hashes|
      ensures |hashes[i]| == algo.length
    {
      assert Represents(store, algo, hashes[i], ts[i]);
    }
    forall i | 0 <= i < |keys| ensures IsString(keys[i]) && |keys[i]| <= MAX_STRING { assert KeyFits(keys[i]); }
    NodeRoundTrip(Internal(keys, hashes), algo.length);
    var w := PutNode(algo, Internal(keys, hashes)).value;
    if Has(store, [w]) { assert w in [w]; }
  }

  // ---------------------------------------------------------------------------
  // Insertion
  // ---------------------------------------------------------------------------

  ghost predicate StorableInsert(r: Inserted, hashLength: nat) {
    match r
    case Done(t) => Storable(t, hashLength)
    case Split(l, k, r) => Storable(l, hashLength) && KeyFits(k) && Storable(r, hashLength)
  }

  /** The stored outcome stands for the tree outcome. */
  ghost predicate Matches(store: Store, algo: Algo, outcome: Outcome, r: Inserted) {
    match (outcome, r)
    case (Stored(hash, data), Done(t)) => Represents(store, algo, hash, t) && store[hash] == data
    case (Parted(l, k, r), Split(tl, tk, tr)) =>
      Represents(store, algo, l, tl) && k == tk && Represents(store, algo, r, tr)
    case _ => false
  }

  lemma HasPart(store: Store, a: seq<Write>, b: seq<Write>)
    requires Has(store, a + b)
    ensures Has(store, a) && Has(store, b)
  {}

  lemma StoredLeafMatches(store: Store, algo: Algo, es: seq<ChildEntry>)
    requires HashesFit(algo) && |es| <= MAX_LEAF_ENTRIES + 1 && EntriesFit(es, algo.length)
    requires Has(store, StoreLeaf(algo, es).writes)
    ensures var r := if |es| >= MAX_LEAF_ENTRIES then SplitLeaf(es) else Done(LeafTree(es));
            && StoreLeaf(algo, es).outcome.Ok? && Matches(store, algo, StoreLeaf(algo, es).outcome.value, r)
            && StorableInsert(r, algo.length)
  {
    if |es| >= MAX_LEAF_ENTRIES {
      var mid := |es| / 2;
      var l, r := es[..mid], es[mid..];
      assert Encodable(es[mid], algo.length) by { assert es[mid] in es; }
      WrittenLeaf(store, algo, l);
      WrittenLeaf(store, algo, r);
      var wl, wr := PutNode(algo, Leaf(l)).value, PutNode(algo, Leaf(r)).value;
      assert StoreLeaf(algo, es).writes == [] + [wl] + [wr];
      HasPart(store, [] + [wl], [wr]);
      HasPart(store, [], [wl]);
    } else {
      WrittenLeaf(store, algo, es);
      var w := PutNode(algo, Leaf(es)).value;
      assert [] + [w] == [w];
      assert w in [w];
    }
  }

  lemma StoredNodeMatches(store: Store, algo: Algo, keys: seq<Bytes>, hashes: seq<Bytes>, ts: seq<Tree>,
                          before: seq<Write>)
    requires HashesFit(algo) && |keys| <= MAX_INTERNAL_KEYS + 1 && |ts| == |keys| + 1 && KeysFit(keys)
    requires ChildrenRepresent(store, algo, hashes, ts)
    requires Has(store, StoreInternal(algo, keys, hashes, before).writes)
    requires forall i :: 0 <= i < |ts| ==> Storable(ts[i], algo.length)
    ensures var step := StoreInternal(algo, keys, hashes, before);
            step.outcome.Ok? && Matches(store, algo, step.outcome.value, Settle(keys, ts))
                && StorableInsert(Settle(keys, ts), algo.length)
  {
    if |keys| >= MAX_INTERNAL_KEYS {
      var mid := |keys| / 2;
      var lk, lh, lt := keys[..mid], hashes[..mid + 1], ts[..mid + 1];
      var rk, rh, rt := keys[mid + 1..], hashes[mid + 1..], ts[mid + 1..];
      assert KeyFits(keys[mid]);
      assert ChildrenRepresent(store, algo, lh, lt);
      assert ChildrenRepresent(store, algo, rh, rt);
      WrittenNode(store, algo, lk, lh, lt);
      WrittenNode(store, algo, rk, rh, rt);
      var wl, wr := PutNode(algo, Internal(lk, lh)).value, PutNode(algo, Internal(rk, rh)).value;
      HasPart(store, before + [wl], [wr]);
      HasPart(store, before, [wl]);
    } else {
      StoredOneMatches(store, algo, keys, hashes, ts, before);
    }
  }

  lemma StoredOneMatches(store: Store, algo: Algo, keys: seq<Bytes>, hashes: seq<Bytes>, ts: seq<Tree>,
                         before: seq<Write>)
    requires HashesFit(algo) && |keys| <= MAX_INTERNAL_KEYS && |ts| == |keys| + 1 && KeysFit(keys)
    requires ChildrenRepresent(store, algo, hashes, ts)
    requires Has(store, StoreOne(algo, Internal(keys, hashes), before).writes)
    ensures var step := StoreOne(algo, Internal(keys, hashes), before);
            step.outcome.Ok? && Matches(store, algo, step.outcome.value, Done(NodeTree(keys, ts)))
  {
    WrittenNode(store, algo, keys, hashes, ts);
    var w := PutNode(algo, Internal(keys, hashes)).value;
    HasPart(store, before, [w]);
    assert w in [w];
  }

  lemma ChildrenReplaced(store: Store, algo: Algo, hashes: seq<Bytes>, ts: seq<Tree>, i: nat, h: Bytes, t: Tree)
    requires ChildrenRepresent(store, algo, hashes, ts) && i < |ts| && Represents(store, algo, h, t)
    ensures ChildrenRepresent(store, algo, hashes[i := h], ts[i := t])
  {}

  lemma ChildrenInserted(store: Store, algo: Algo, hashes: seq<Bytes>, ts: seq<Tree>, p: nat, h: Bytes, t: Tree)
    requires ChildrenRepresent(store, algo, hashes, ts) && p <= |ts| && Represents(store, algo, h, t)
    ensures ChildrenRepresent(store, algo, InsertAt(hashes, p, h), InsertAt(ts, p, t))
  {}

  lemma ParentKeepsWrites(algo: Algo, keys: seq<Bytes>, children: seq<Bytes>, i: nat, below: Step<Outcome>)
    requires |children| == |keys| + 1 && i < |children|
    ensures exists more :: StoreParent(algo, keys, children, i, below).writes == below.writes + more
  {
    var all := StoreParent(algo, keys, children, i, below).writes;
    assert below.writes <= all;
    assert all == below.writes + all[|below.writes|..];
  }

  lemma ParentMatches(store: Store, algo: Algo, keys: seq<Bytes>, hashes: seq<Bytes>, ts: seq<Tree>, i: nat,
                      below: Step<Outcome>, r: Inserted)
    requires HashesFit(algo) && Storable(NodeTree(keys, ts), algo.length) && i < |ts|
    requires ChildrenRepresent(store, algo, hashes, ts)
    requires below.outcome.Ok? && Matches(store, algo, below.outcome.value, r) && StorableInsert(r, algo.length)
    requires Has(store, StoreParent(algo, keys, hashes, i, below).writes)
    ensures var step := StoreParent(algo, keys, hashes, i, below);
            var result := if r.Done? then Done(NodeTree(keys, ts[i := r.tree])) else InsertNode(keys, ts, i, r);
            step.outcome.Ok? && Matches(store, algo, step.outcome.value, result) && StorableInsert(result, algo.length)
  {
    match r
    case Done(c) =>
      ChildrenReplaced(store, algo, hashes, ts, i, below.outcome.value.hash, c);
      StoredOneMatches(store, algo, keys, hashes[i := below.outcome.value.hash], ts[i := c], below.writes);
    case Split(_, _, _) =>
      PartedMatches(store, algo, keys, hashes, ts, i, below, r);
  }

  lemma PartedMatches(store: Store, algo: Algo, keys: seq<Bytes>, hashes: seq<Bytes>, ts: seq<Tree>, i: nat,
                      below: Step<Outcome>, r: Inserted)
    requires HashesFit(algo) && Storable(NodeTree(keys, ts), algo.length) && i < |ts| && r.Split?
    requires ChildrenRepresent(store, algo, hashes, ts)
    requires below.outcome.Ok? && Matches(store, algo, below.outcome.value, r) && StorableInsert(r, algo.length)
    requires Has(store, StoreParent(algo, keys, hashes, i, below).writes)
    ensures var step := StoreParent(algo, keys, hashes, i, below);
            var result := InsertNode(keys, ts, i, r);
            step.outcome.Ok? && Matches(store, algo, step.outcome.value, result) && StorableInsert(result, algo.length)
  {
    var p := Rank(keys, r.key);
    var l, right := below.outcome.value.left, below.outcome.value.right;
    ChildrenReplaced(store, algo, hashes, ts, i, l, r.left);
    ChildrenInserted(store, algo, hashes[i := l], ts[i := r.left], p + 1, right, r.right);
    KeysFitInserted(keys, p, r.key);
    StorableInserted(ts[i := r.left], p + 1, r.right, algo.length);
    StoredNodeMatches(store, algo, InsertAt(keys, p, r.key), InsertAt(hashes[i := l], p + 1, right),
        InsertAt(ts[i := r.left], p + 1, r.right), below.writes);
  }

  lemma KeysFitInserted(keys: seq<Bytes>, p: nat, k: Bytes)
    requires KeysFit(keys) && p <= |keys| && KeyFits(k)
    ensures KeysFit(InsertAt(keys, p, k))
  {}

  lemma StorableInserted(ts: seq<Tree>, p: nat, t: Tree, hashLength: nat)
    requires (forall i :: 0 <= i < |ts| ==> Storable(ts[i], hashLength)) && p <= |ts| && Storable(t, hashLength)
    ensures forall i :: 0 <= i < |InsertAt(ts, p, t)| ==> Storable(InsertAt(ts, p, t)[i], hashLength)
  {}

  /** Insertion into a represented node succeeds, and what it wrote stands for the tree after insertion. */
  lemma {:induction false} InsertRefines(store: Store, algo: Algo, node: BTreeNode, t: Tree, e: ChildEntry, depth: nat,
                                         larger: Store)
    requires HashesFit(algo) && Valid(t) && Storable(t, algo.length) && Encodable(e, algo.length)
    requires RepresentsNode(store, algo, node, t) && Shaped(node) && Grounded(store, algo, node, depth)
    requires Extends(store, larger) && Has(larger, InsertStep(store, algo, node, e, depth).writes)
    ensures var step := InsertStep(store, algo, node, e, depth);
            step.outcome.Ok? && Matches(larger, algo, step.outcome.value, Insert(t, e))
                && StorableInsert(Insert(t, e), algo.length)
    decreases t
  {
    match t
    case LeafTree(es) =>
      UpsertMembers(es, e);
      StoredLeafMatches(larger, algo, Upsert(es, e));
    case NodeTree(keys, ts) =>
      var i := ChildIndex(keys, e.name);
      var h := node.children[i];
      assert Represents(store, algo, h, ts[i]) && ValidChild(ts[i], keys, i);
      var child := Load(store, algo, h).value;
      DecodedIsShaped(store[h], algo.length);
      var below := InsertStep(store, algo, child, e, depth - 1);
      ParentKeepsWrites(algo, keys, node.children, i, below);
      var more :| StoreParent(algo, keys, node.children, i, below).writes == below.writes + more;
      HasPart(larger, below.writes, more);
      InsertRefines(store, algo, child, ts[i], e, depth - 1, larger);
      NodeExtends(store, larger, algo, node, t);
      assert ChildrenRepresent(larger, algo, node.children, ts);
      ParentMatches(larger, algo, keys, node.children, ts, i, below, Insert(ts[i], e));
  }

  lemma RootMatches(store: Store, algo: Algo, below: Step<Outcome>, r: Inserted)
    requires HashesFit(algo) && below.outcome.Ok?
    requires Matches(store, algo, below.outcome.value, r) && StorableInsert(r, algo.length)
    requires Has(store, StoreRoot(algo, below).writes)
    ensures var step := StoreRoot(algo, below);
            var t := match r case Done(t) => t case Split(l, k, r) => NodeTree([k], [l, r]);
            && step.outcome.Ok? && Represents(store, algo, step.outcome.value.hash, t)
            && store[step.outcome.value.hash] == step.outcome.value.data && Storable(t, algo.length)
  {
    match r
    case Done(_) =>
    case Split(tl, k, tr) =>
      var l, right := below.outcome.value.left, below.outcome.value.right;
      assert ChildrenRepresent(store, algo, [l, right], [tl, tr]);
      WrittenNode(store, algo, [k], [l, right], [tl, tr]);
      var w := PutNode(algo, Internal([k], [l, right])).value;
      HasPart(store, below.writes, [w]);
      assert w in [w];
  }

  // ---------------------------------------------------------------------------
  // Deletion
  // ---------------------------------------------------------------------------

  ghost predicate DeleteMatches(store: Store, algo: Algo, outcome: Option<Bytes>, r: Option<Tree>) {
    match (outcome, r)
    case (None, None) => true
    case (Some(h), Some(t)) => Represents(store, algo, h, t)
    case _ => false
  }

  ghost predicate StorableDelete(r: Option<Tree>, hashLength: nat) {
    r.Some? ==> Storable(r.value, hashLength)
  }

  lemma ChangedMatches(store: Store, algo: Algo, keys: seq<Bytes>, hashes: seq<Bytes>, ts: seq<Tree>,
                       before: seq<Write>)
    requires HashesFit(algo) && |keys| <= MAX_INTERNAL_KEYS && |ts| == |keys| + 1 && KeysFit(keys)
    requires ChildrenRepresent(store, algo, hashes, ts)
    requires Has(store, StoreChanged(algo, Internal(keys, hashes), before).writes)
    ensures var step := StoreChanged(algo, Internal(keys, hashes), before);
            step.outcome.Ok? && DeleteMatches(store, algo, step.outcome.value, Some(NodeTree(keys, ts)))
  {
    WrittenNode(store, algo, keys, hashes, ts);
    HasPart(store, before, [PutNode(algo, Internal(keys, hashes)).value]);
  }

  lemma ChildrenRemoved(store: Store, algo: Algo, hashes: seq<Bytes>, ts: seq<Tree>, p: nat)
    requires ChildrenRepresent(store, algo, hashes, ts) && p < |ts|
    ensures ChildrenRepresent(store, algo, RemoveAt(hashes, p), RemoveAt(ts, p))
  {}

  lemma RemovedFits(keys: seq<Bytes>, p: nat)
    requires KeysFit(keys) && p < |keys|
    ensures KeysFit(RemoveAt(keys, p))
  {}

  lemma RemovedStorable(ts: seq<Tree>, p: nat, hashLength: nat)
    requires (forall i :: 0 <= i < |ts| ==> Storable(ts[i], hashLength)) && p < |ts|
    ensures forall i :: 0 <= i < |RemoveAt(ts, p)| ==> Storable(RemoveAt(ts, p)[i], hashLength)
  {}

  lemma WithoutKeepsWrites(algo: Algo, keys: seq<Bytes>, children: seq<Bytes>, i: nat, below: Step<Option<Bytes>>)
    requires |children| == |keys| + 1 && i < |children|
    ensures exists more :: StoreWithout(algo, keys, children, i, below).writes == below.writes + more
  {
    var all := StoreWithout(algo, keys, children, i, below).writes;
    assert below.writes <= all;
    assert all == below.writes + all[|below.writes|..];
  }

  lemma WithoutMatches(store: Store, algo: Algo, keys: seq<Bytes>, hashes: seq<Bytes>, ts: seq<Tree>, i: nat,
                       below: Step<Option<Bytes>>, r: Option<Tree>)
    requires HashesFit(algo) && Storable(NodeTree(keys, ts), algo.length) && i < |ts| && keys != []
    requires ChildrenRepresent(store, algo, hashes, ts)
    requires below.outcome.Ok? && DeleteMatches(store, algo, below.outcome.value, r) && StorableDelete(r, algo.length)
    requires Has(store, StoreWithout(algo, keys, hashes, i, below).writes)
    ensures var step := StoreWithout(algo, keys, hashes, i, below);
            var result := if r.Some? then Some(NodeTree(keys, ts[i := r.value])) else DropChild(keys, ts, i);
            step.outcome.Ok? && DeleteMatches(store, algo, step.outcome.value, result)
                && StorableDelete(result, algo.length)
  {
    match r
    case Some(c) =>
      ChildrenReplaced(store, algo, hashes, ts, i, below.outcome.value.value, c);
      ChangedMatches(store, algo, keys, hashes[i := below.outcome.value.value], ts[i := c], below.writes);
    case None =>
      var p := if i < |keys| then i else i - 1;
      ChildrenRemoved(store, algo, hashes, ts, i);
      RemovedFits(keys, p);
      RemovedStorable(ts, i, algo.length);
      if |RemoveAt(hashes, i)| > 1 {
        ChangedMatches(store, algo, RemoveAt(keys, p), RemoveAt(hashes, i), RemoveAt(ts, i), below.writes);
      } else {
        assert Represents(store, algo, RemoveAt(hashes, i)[0], RemoveAt(ts, i)[0]);
      }
  }

  lemma {:induction false} DeleteRefines(store: Store, algo: Algo, hash: Bytes, t: Tree, name: Bytes, depth: nat,
                                         larger: Store)
    requires HashesFit(algo) && Valid(t) && Storable(t, algo.length)
    requires Represents(store, algo, hash, t) && GroundedAt(store, algo, hash, depth)
    requires Extends(store, larger) && Has(larger, DeleteStep(store, algo, hash, name, depth).writes)
    ensures var step := DeleteStep(store, algo, hash, name, depth);
            step.outcome.Ok? && DeleteMatches(larger, algo, step.outcome.value, Delete(t, name))
                && StorableDelete(Delete(t, name), algo.length)
    decreases t
  {
    var node := Load(store, algo, hash).value;
    DecodedIsShaped(store[hash], algo.length);
    match t
    case LeafTree(es) =>
      PieceMembers(es, name);
      if Remove(es, name) != [] {
        WrittenLeaf(larger, algo, Remove(es, name));
        var w := PutNode(algo, Leaf(Remove(es, name))).value;
        assert [] + [w] == [w];
      }
    case NodeTree(keys, ts) =>
      var i := ChildIndex(keys, name);
      var h := node.children[i];
      assert Represents(store, algo, h, ts[i]) && ValidChild(ts[i], keys, i);
      var below := DeleteStep(store, algo, h, name, depth - 1);
      WithoutKeepsWrites(algo, keys, node.children, i, below);
      var more :| StoreWithout(algo, keys, node.children, i, below).writes == below.writes + more;
      HasPart(larger, below.writes, more);
      DeleteRefines(store, algo, h, ts[i], name, depth - 1, larger);
      NodeExtends(store, larger, algo, node, t);
      assert ChildrenRepresent(larger, algo, node.children, ts);
      WithoutMatches(larger, algo, keys, node.children, ts, i, below, Delete(ts[i], name));
  }

  // ---------------------------------------------------------------------------
  // Reading
  // ---------------------------------------------------------------------------

  lemma {:induction false} ListRefines(store: Store, algo: Algo, hash: Bytes, t: Tree, depth: nat)
    requires Represents(store, algo, hash, t) && GroundedAt(store, algo, hash, depth)
    ensures ListAt(store, algo, hash, depth) == Ok(Listing(t))
    decreases t, 1
  {
    if t.NodeTree? {
      var node := Load(store, algo, hash).value;
      ListAllRefines(store, algo, t, node.children, |t.children|, depth - 1);
      assert t.children[..|t.children|] == t.children;
    }
  }

  lemma {:induction false} ListAllRefines(store: Store, algo: Algo, t: Tree, hashes: seq<Bytes>, n: nat, depth: nat)
    requires t.NodeTree? && ChildrenRepresent(store, algo, hashes, t.children) && n <= |hashes|
    requires forall i :: 0 <= i < |hashes| ==> GroundedAt(store, algo, hashes[i], depth)
    ensures ListAll(store, algo, hashes, n, depth) == Ok(Listings(t.children[..n]))
    decreases t, 0, n
  {
    if n > 0 {
      ListAllRefines(store, algo, t, hashes, n - 1, depth);
      ListRefines(store, algo, hashes[n - 1], t.children[n - 1], depth);
      ListingsStep(t.children, n);
    }
  }

  lemma {:induction false} LookupRefines(store: Store, algo: Algo, hash: Bytes, t: Tree, name: Bytes, depth: nat)
    requires Represents(store, algo, hash, t) && Valid(t) && GroundedAt(store, algo, hash, depth)
    ensures LookupAt(store, algo, hash, name, depth) == Ok(Lookup(t, name))
    decreases t
  {
    if t.NodeTree? {
      var node := Load(store, algo, hash).value;
      DecodedIsShaped(store[hash], algo.length);
      var i := ChildIndex(t.keys, name);
      assert Represents(store, algo, node.children[i], t.children[i]) && ValidChild(t.children[i], t.keys, i);
      LookupRefines(store, algo, node.children[i], t.children[i], name, depth - 1);
    }
  }
}
