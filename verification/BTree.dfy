/**
 B-tree directories as trees: routing, insertion with splits and deletion without rebalancing, and
 the proof that they act on the listing as insertion into and removal from a sorted sequence.
 */
module BTree {
  import opened Common
  import opened Bytes
  import opened DirectoryCodec
  import opened SortedEntries

  const MAX_LEAF_ENTRIES: nat := 40
  const MAX_INTERNAL_KEYS: nat := 77

  datatype Tree = LeafTree(entries: seq<ChildEntry>) | NodeTree(keys: seq<Bytes>, children: seq<Tree>)

  function Listing(t: Tree): seq<ChildEntry> {
    match t
    case LeafTree(es) => es
    case NodeTree(_, children) => Listings(children)
  }

  function Listings(ts: seq<Tree>): seq<ChildEntry> {
    if ts == [] then [] else Listing(ts[0]) + Listings(ts[1..])
  }

  // ---------------------------------------------------------------------------
  // Routing
  // ---------------------------------------------------------------------------

  /** Which child a name belongs to; an exact match goes right. */
  function ChildIndex(keys: seq<Bytes>, name: Bytes): (i: nat)
    ensures i <= |keys|
  {
    var r := Rank(keys, name);
    if FoundAt(keys, name, r) then r + 1 else r
  }

  lemma ChildIndexSlot(keys: seq<Bytes>, name: Bytes, j: nat)
    requires Increasing(keys) && j < |keys|
    ensures j < ChildIndex(keys, name) <==> !Less(name, keys[j])
  {
    var r := Rank(keys, name);
    BelowRank(keys, name);
    LessIrreflexive(name);
    if j < r {
      if Less(name, keys[j]) { LessTransitive(name, keys[j], name); }
    } else {
      AboveRank(keys, name, j);
      if j > r && FoundAt(keys, name, r) { assert Less(keys[r], keys[j]); }
    }
  }

  lemma ChildIndexIs(keys: seq<Bytes>, name: Bytes, i: nat)
    requires Increasing(keys) && i <= |keys|
    requires i > 0 ==> !Less(name, keys[i - 1])
    requires i < |keys| ==> Less(name, keys[i])
    ensures ChildIndex(keys, name) == i
  {
    if i > 0 { ChildIndexSlot(keys, name, i - 1); }
    if i < |keys| { ChildIndexSlot(keys, name, i); }
  }

  /** Names that route to an earlier child are smaller. */
  lemma RouteOrder(keys: seq<Bytes>, a: Bytes, b: Bytes)
    requires Increasing(keys) && ChildIndex(keys, a) < ChildIndex(keys, b)
    ensures Less(a, b)
  {
    var i := ChildIndex(keys, a);
    ChildIndexSlot(keys, a, i);
    ChildIndexSlot(keys, b, i);
    LessTotal(b, keys[i]);
    if Less(keys[i], b) { LessTransitive(a, keys[i], b); }
  }

  function InsertAt<T>(s: seq<T>, p: nat, x: T): seq<T>
    requires p <= |s|
  {
    s[..p] + [x] + s[p..]
  }

  function RemoveAt<T>(s: seq<T>, p: nat): seq<T>
    requires p < |s|
  {
    s[..p] + s[p + 1..]
  }

  /** A key between its neighbours splits one slot in two. */
  lemma RouteAfterInsert(keys: seq<Bytes>, p: nat, k: Bytes, name: Bytes)
    requires p <= |keys| && Increasing(keys) && Increasing(InsertAt(keys, p, k))
    ensures ChildIndex(InsertAt(keys, p, k), name) == ChildIndex(keys, name) + if Less(name, k) then 0 else 1
  {
    var keys', i := InsertAt(keys, p, k), ChildIndex(keys, name);
    assert keys'[p] == k;
    var i' := ChildIndex(keys', name);
    ChildIndexSlot(keys', name, p);
    if i > 0 { ChildIndexSlot(keys, name, i - 1); }
    if i < |keys| { ChildIndexSlot(keys, name, i); }
    if Less(name, k) {
      if i > 0 { ChildIndexSlot(keys', name, if i - 1 < p then i - 1 else i); }
      if i < |keys| { ChildIndexSlot(keys', name, if i < p then i else i + 1); }
    } else {
      if i > 0 { ChildIndexSlot(keys', name, if i - 1 < p then i - 1 else i); }
      if i < |keys| { ChildIndexSlot(keys', name, if i < p then i else i + 1); }
    }
  }

  lemma IncreasingRemove(keys: seq<Bytes>, p: nat)
    requires p < |keys| && Increasing(keys)
    ensures Increasing(RemoveAt(keys, p))
  {}

  /** Without a key the two slots beside it are one. */
  lemma RouteAfterRemove(keys: seq<Bytes>, p: nat, name: Bytes)
    requires p < |keys| && Increasing(keys)
    ensures Increasing(RemoveAt(keys, p))
    ensures ChildIndex(RemoveAt(keys, p), name)
         == if ChildIndex(keys, name) <= p then ChildIndex(keys, name) else ChildIndex(keys, name) - 1
  {
    var keys', i := RemoveAt(keys, p), ChildIndex(keys, name);
    IncreasingRemove(keys, p);
    var target := if i <= p then i else i - 1;
    if target > 0 { ChildIndexSlot(keys, name, if target - 1 < p then target - 1 else target); }
    if target < |keys'| { ChildIndexSlot(keys, name, if target < p then target else target + 1); }
    ChildIndexIs(keys', name, target);
  }

  lemma RouteInPrefix(keys: seq<Bytes>, m: nat, name: Bytes)
    requires m <= |keys| && Increasing(keys)
    ensures Increasing(keys[..m])
    ensures ChildIndex(keys, name) <= m ==> ChildIndex(keys[..m], name) == ChildIndex(keys, name)
  {
    var i := ChildIndex(keys, name);
    if i <= m {
      if i > 0 { ChildIndexSlot(keys, name, i - 1); }
      if i < m { ChildIndexSlot(keys, name, i); }
      ChildIndexIs(keys[..m], name, i);
    }
  }

  lemma RouteInSuffix(keys: seq<Bytes>, m: nat, name: Bytes)
    requires m <= |keys| && Increasing(keys)
    ensures Increasing(keys[m..])
    ensures ChildIndex(keys, name) >= m ==> ChildIndex(keys[m..], name) == ChildIndex(keys, name) - m
  {
    var i := ChildIndex(keys, name);
    if i >= m {
      if i > m { ChildIndexSlot(keys, name, i - 1); }
      if i < |keys| { ChildIndexSlot(keys, name, i); }
      ChildIndexIs(keys[m..], name, i - m);
    }
  }

  // ---------------------------------------------------------------------------
  // Valid trees
  // ---------------------------------------------------------------------------

  /** Every listed entry is found by routing. */
  ghost predicate Routed(es: seq<ChildEntry>, keys: seq<Bytes>, i: nat) {
    forall x :: x in es ==> ChildIndex(keys, x.name) == i
  }

  ghost predicate ValidChild(t: Tree, keys: seq<Bytes>, i: nat)
    decreases t, 1
  {
    Valid(t) && Listing(t) != [] && Routed(Listing(t), keys, i)
  }

  ghost predicate Valid(t: Tree)
    decreases t, 0
  {
    match t
    case LeafTree(es) => Sorted(es)
    case NodeTree(keys, children) =>
      && |keys| > 0 && |children| == |keys| + 1 && Increasing(keys)
      && forall i :: 0 <= i < |children| ==> ValidChild(children[i], keys, i)
  }

  lemma {:induction false} ListingsConcat(a: seq<Tree>, b: seq<Tree>)
    ensures Listings(a + b) == Listings(a) + Listings(b)
  {
    if a == [] {
      assert a + b == b;
    } else {
      ListingsConcat(a[1..], b);
      assert (a + b)[1..] == a[1..] + b;
    }
  }

  lemma ListingsAround(ts: seq<Tree>, i: nat)
    requires i < |ts|
    ensures Listings(ts) == Listings(ts[..i]) + Listing(ts[i]) + Listings(ts[i + 1..])
  {
    assert ts == ts[..i] + ts[i..];
    ListingsConcat(ts[..i], ts[i..]);
    assert ts[i..][1..] == ts[i + 1..];
  }

  lemma ListingsStep(ts: seq<Tree>, n: nat)
    requires 0 < n <= |ts|
    ensures Listings(ts[..n]) == Listings(ts[..n - 1]) + Listing(ts[n - 1])
  {
    assert ts[..n] == ts[..n - 1] + [ts[n - 1]];
    ListingsConcat(ts[..n - 1], [ts[n - 1]]);
    assert Listings([ts[n - 1]]) == Listing(ts[n - 1]) + Listings([]);
  }

  lemma {:induction false} ListingsMember(ts: seq<Tree>, x: ChildEntry) returns (i: nat)
    requires x in Listings(ts)
    ensures i < |ts| && x in Listing(ts[i])
  {
    if x in Listing(ts[0]) {
      i := 0;
    } else {
      var j := ListingsMember(ts[1..], x);
      i := j + 1;
    }
  }

  lemma {:induction false} ListingsContain(ts: seq<Tree>, i: nat, x: ChildEntry)
    requires i < |ts| && x in Listing(ts[i])
    ensures x in Listings(ts)
  {
    if i > 0 { ListingsContain(ts[1..], i - 1, x); }
  }

  /** Around the child a name routes to, everything is smaller before and larger after. */
  lemma RouteSurrounds(keys: seq<Bytes>, children: seq<Tree>, name: Bytes)
    requires Valid(NodeTree(keys, children))
    ensures var i := ChildIndex(keys, name);
            Surrounds(Listings(children[..i]), name, Listings(children[i + 1..]))
  {
    var i := ChildIndex(keys, name);
    forall x | x in Listings(children[..i]) ensures Less(x.name, name) {
      var j := ListingsMember(children[..i], x);
      assert ValidChild(children[j], keys, j);
      RouteOrder(keys, x.name, name);
    }
    forall x | x in Listings(children[i + 1..]) ensures Less(name, x.name) {
      var j := ListingsMember(children[i + 1..], x);
      assert ValidChild(children[i + 1 + j], keys, i + 1 + j);
      RouteOrder(keys, name, x.name);
    }
  }

  lemma {:induction false} ChildrenSorted(keys: seq<Bytes>, children: seq<Tree>, n: nat)
    requires Increasing(keys) && n <= |children|
    requires forall i :: 0 <= i < |children| ==> ValidChild(children[i], keys, i)
    ensures Sorted(Listings(children[..n]))
    decreases children, n
  {
    if n > 0 {
      ChildrenSorted(keys, children, n - 1);
      var init, last := children[..n - 1], children[n - 1];
      assert ValidChild(last, keys, n - 1);
      ValidSorted(last);
      forall x, y | x in Listings(init) && y in Listing(last) ensures Less(x.name, y.name) {
        var j := ListingsMember(init, x);
        assert ValidChild(children[j], keys, j);
        RouteOrder(keys, x.name, y.name);
      }
      SortedConcat(Listings(init), Listing(last));
      ListingsStep(children, n);
    }
  }

  /** A valid tree lists its entries in name order, each name once. */
  lemma {:induction false} ValidSorted(t: Tree)
    requires Valid(t)
    ensures Sorted(Listing(t))
    decreases t
  {
    if t.NodeTree? {
      ChildrenSorted(t.keys, t.children, |t.children|);
      assert t.children[..|t.children|] == t.children;
    }
  }

  // ---------------------------------------------------------------------------
  // Lookup
  // ---------------------------------------------------------------------------

  function Lookup(t: Tree, name: Bytes): Option<ChildEntry> {
    match t
    case LeafTree(es) => Find(es, name)
    case NodeTree(keys, children) =>
      var i := ChildIndex(keys, name);
      if i < |children| then Lookup(children[i], name) else None
  }

  lemma {:induction false} LookupFinds(t: Tree, name: Bytes)
    requires Valid(t)
    ensures Lookup(t, name) == Find(Listing(t), name)
  {
    if t.NodeTree? {
      var i := ChildIndex(t.keys, name);
      assert ValidChild(t.children[i], t.keys, i);
      LookupFinds(t.children[i], name);
      RouteSurrounds(t.keys, t.children, name);
      ListingsAround(t.children, i);
      FindInMiddle(Listings(t.children[..i]), Listing(t.children[i]), Listings(t.children[i + 1..]), name);
    }
  }

  // ---------------------------------------------------------------------------
  // Insertion
  // ---------------------------------------------------------------------------

  datatype Inserted = Done(tree: Tree) | Split(left: Tree, key: Bytes, right: Tree)

  function SplitLeaf(es: seq<ChildEntry>): Inserted
    requires |es| >= 2
  {
    var mid := |es| / 2;
    Split(LeafTree(es[..mid]), es[mid].name, LeafTree(es[mid..]))
  }

  function SplitNode(keys: seq<Bytes>, children: seq<Tree>): Inserted
    requires |keys| >= 3 && |children| == |keys| + 1
  {
    var mid := |keys| / 2;
    Split(NodeTree(keys[..mid], children[..mid + 1]), keys[mid], NodeTree(keys[mid + 1..], children[mid + 1..]))
  }

  /** A node that has taken in one more key than it may keep is split at once. */
  function Settle(keys: seq<Bytes>, children: seq<Tree>): Inserted
    requires |children| == |keys| + 1
  {
    if |keys| >= MAX_INTERNAL_KEYS then SplitNode(keys, children) else Done(NodeTree(keys, children))
  }

  /** Where a separator goes; an equal one would stay to the right of it. */
  function InsertNode(keys: seq<Bytes>, children: seq<Tree>, i: nat, split: Inserted): Inserted
    requires split.Split? && i < |children| && |children| == |keys| + 1
  {
    var p := Rank(keys, split.key);
    Settle(InsertAt(keys, p, split.key), InsertAt(children[i := split.left], p + 1, split.right))
  }

  function Insert(t: Tree, e: ChildEntry): Inserted {
    match t
    case LeafTree(es) =>
      var es' := Upsert(es, e);
      if |es'| >= MAX_LEAF_ENTRIES then SplitLeaf(es') else Done(LeafTree(es'))
    case NodeTree(keys, children) =>
      var i := ChildIndex(keys, e.name);
      if i >= |children| || |children| != |keys| + 1 then Done(t) else
      match Insert(children[i], e)
      case Done(c) => Done(NodeTree(keys, children[i := c]))
      case Split(l, k, r) => InsertNode(keys, children, i, Split(l, k, r))
  }

  function InsertRoot(t: Tree, e: ChildEntry): Tree {
    match Insert(t, e)
    case Done(t') => t'
    case Split(l, k, r) => NodeTree([k], [l, r])
  }

  /** The two halves are valid, not empty, and lie on their sides of the separator. */
  ghost predicate GoodSplit(l: Tree, k: Bytes, r: Tree) {
    && Valid(l) && Valid(r) && Listing(l) != [] && Listing(r) != []
    && AllBelow(Listing(l), k) && (forall y :: y in Listing(r) ==> !Less(y.name, k))
  }

  ghost function InsertedListing(r: Inserted): seq<ChildEntry> {
    match r
    case Done(t) => Listing(t)
    case Split(l, _, r) => Listing(l) + Listing(r)
  }

  ghost predicate GoodInsert(r: Inserted) {
    match r
    case Done(t) => Valid(t) && Listing(t) != []
    case Split(l, k, r) => GoodSplit(l, k, r)
  }

  lemma HalvesAround(es: seq<ChildEntry>, mid: nat)
    requires Sorted(es) && mid < |es|
    ensures Sorted(es[..mid]) && Sorted(es[mid..])
    ensures AllBelow(es[..mid], es[mid].name) && forall y :: y in es[mid..] ==> !Less(y.name, es[mid].name)
  {
    SortedSlice(es, 0, mid);
    SortedSlice(es, mid, |es|);
    assert es[0..mid] == es[..mid] && es[mid..|es|] == es[mid..];
    forall x | x in es[..mid] ensures Less(x.name, es[mid].name) {
      var i :| 0 <= i < mid && es[i] == x;
      SortedBetween(es, i, mid);
    }
    forall y | y in es[mid..] ensures !Less(y.name, es[mid].name) {
      var i :| mid <= i < |es| && es[i] == y;
      SortedBetween(es, i, mid);
    }
  }

  lemma SplitLeafGood(es: seq<ChildEntry>)
    requires Sorted(es) && |es| >= 2
    ensures GoodInsert(SplitLeaf(es)) && InsertedListing(SplitLeaf(es)) == es
  {
    var mid := |es| / 2;
    HalvesAround(es, mid);
    assert es == es[..mid] + es[mid..];
  }

  /** The part of a valid node up to a separator, and the part after it. */
  lemma SplitNodeGood(keys: seq<Bytes>, children: seq<Tree>)
    requires Valid(NodeTree(keys, children)) && |keys| >= 3
    ensures GoodInsert(SplitNode(keys, children)) && InsertedListing(SplitNode(keys, children)) == Listings(children)
  {
    var mid := |keys| / 2;
    LeftPartGood(keys, children, mid);
    RightPartGood(keys, children, mid);
    ListingsParted(children, mid + 1);
    var l, r := NodeTree(keys[..mid], children[..mid + 1]), NodeTree(keys[mid + 1..], children[mid + 1..]);
    assert GoodSplit(l, keys[mid], r);
  }

  lemma ListingsParted(children: seq<Tree>, m: nat)
    requires m <= |children|
    ensures Listings(children) == Listings(children[..m]) + Listings(children[m..])
  {
    assert children == children[..m] + children[m..];
    ListingsConcat(children[..m], children[m..]);
  }

  lemma LeftPartGood(keys: seq<Bytes>, children: seq<Tree>, mid: nat)
    requires Valid(NodeTree(keys, children)) && 0 < mid < |keys|
    ensures Valid(NodeTree(keys[..mid], children[..mid + 1]))
    ensures Listings(children[..mid + 1]) != [] && AllBelow(Listings(children[..mid + 1]), keys[mid])
  {
    RouteInPrefix(keys, mid, []);
    var part, keys' := children[..mid + 1], keys[..mid];
    forall i | 0 <= i < |part| ensures ValidChild(part[i], keys', i) {
      assert ValidChild(children[i], keys, i);
      forall x | x in Listing(children[i])
        ensures ChildIndex(keys[..mid], x.name) == i
      {
        RouteInPrefix(keys, mid, x.name);
      }
    }
    assert ValidChild(children[0], keys, 0);
    ListingsContain(children[..mid + 1], 0, Listing(children[0])[0]);
    forall x | x in Listings(children[..mid + 1]) ensures Less(x.name, keys[mid]) {
      var i := ListingsMember(children[..mid + 1], x);
      assert ValidChild(children[i], keys, i);
      ChildIndexSlot(keys, x.name, mid);
    }
  }

  lemma RightPartGood(keys: seq<Bytes>, children: seq<Tree>, mid: nat)
    requires Valid(NodeTree(keys, children)) && mid + 1 < |keys|
    ensures Valid(NodeTree(keys[mid + 1..], children[mid + 1..]))
    ensures Listings(children[mid + 1..]) != []
    ensures forall y :: y in Listings(children[mid + 1..]) ==> !Less(y.name, keys[mid])
  {
    RouteInSuffix(keys, mid + 1, []);
    var part, keys' := children[mid + 1..], keys[mid + 1..];
    forall i | 0 <= i < |part| ensures ValidChild(part[i], keys', i) {
      assert ValidChild(children[mid + 1 + i], keys, mid + 1 + i);
      forall x | x in Listing(children[mid + 1 + i]) ensures ChildIndex(keys[mid + 1..], x.name) == i {
        RouteInSuffix(keys, mid + 1, x.name);
      }
    }
    assert ValidChild(children[mid + 1], keys, mid + 1);
    ListingsContain(children[mid + 1..], 0, Listing(children[mid + 1])[0]);
    forall y | y in Listings(children[mid + 1..]) ensures !Less(y.name, keys[mid]) {
      var i := ListingsMember(children[mid + 1..], y);
      assert ValidChild(children[mid + 1 + i], keys, mid + 1 + i);
      ChildIndexSlot(keys, y.name, mid);
    }
  }

  /** A separator between two non-empty halves of one child lies strictly between the node's keys. */
  lemma SeparatorFits(keys: seq<Bytes>, i: nat, l: Tree, k: Bytes, r: Tree)
    requires Increasing(keys) && i <= |keys| && GoodSplit(l, k, r)
    requires Routed(Listing(l), keys, i) && Routed(Listing(r), keys, i)
    ensures Rank(keys, k) == i && Increasing(InsertAt(keys, i, k))
  {
    var x, y := Listing(l)[0], Listing(r)[0];
    assert x in Listing(l) && y in Listing(r);
    forall j | 0 <= j < i ensures Less(keys[j], k) {
      ChildIndexSlot(keys, x.name, j);
      LessTotal(x.name, keys[j]);
      if Less(keys[j], x.name) { LessTransitive(keys[j], x.name, k); }
    }
    forall j | i <= j < |keys| ensures Less(k, keys[j]) {
      ChildIndexSlot(keys, y.name, j);
      LessTotal(y.name, k);
      if Less(k, y.name) { LessTransitive(k, y.name, keys[j]); }
    }
    if i < |keys| {
      LessIrreflexive(k);
      if Less(keys[i], k) { LessTransitive(k, keys[i], k); }
    }
    RankIs(keys, k, i);
    IncreasingInsert(keys, i, k);
  }

  lemma IncreasingInsert(keys: seq<Bytes>, i: nat, k: Bytes)
    requires Increasing(keys) && i <= |keys|
    requires forall j :: 0 <= j < i ==> Less(keys[j], k)
    requires forall j :: i <= j < |keys| ==> Less(k, keys[j])
    ensures Increasing(InsertAt(keys, i, k))
  {}

  /** Replacing one child by two halves on the sides of a new separator keeps a node valid. */
  lemma SplitChildValid(keys: seq<Bytes>, children: seq<Tree>, i: nat, l: Tree, k: Bytes, r: Tree)
    requires Valid(NodeTree(keys, children)) && i < |children| && GoodSplit(l, k, r)
    requires Routed(Listing(l), keys, i) && Routed(Listing(r), keys, i)
    ensures Rank(keys, k) == i
    ensures Valid(NodeTree(InsertAt(keys, i, k), InsertAt(children[i := l], i + 1, r)))
  {
    SeparatorFits(keys, i, l, k, r);
    HalvesValid(keys, i, l, k, r);
    var keys', children' := InsertAt(keys, i, k), InsertAt(children[i := l], i + 1, r);
    forall j | 0 <= j < |children'| ensures ValidChild(children'[j], keys', j) {
      SplitChildren(children, i, l, r, j);
      if j != i && j != i + 1 {
        var o := if j < i then j else j - 1;
        assert ValidChild(children[o], keys, o);
        OtherChildValid(keys, i, k, children[o], o);
      }
    }
  }

  lemma SplitChildren<T>(children: seq<T>, i: nat, l: T, r: T, j: nat)
    requires i < |children| && j <= |children|
    ensures InsertAt(children[i := l], i + 1, r)[j]
         == if j < i then children[j] else if j == i then l else if j == i + 1 then r else children[j - 1]
  {}

  lemma HalvesValid(keys: seq<Bytes>, i: nat, l: Tree, k: Bytes, r: Tree)
    requires Increasing(keys) && i <= |keys| && GoodSplit(l, k, r) && Increasing(InsertAt(keys, i, k))
    requires Routed(Listing(l), keys, i) && Routed(Listing(r), keys, i)
    ensures ValidChild(l, InsertAt(keys, i, k), i) && ValidChild(r, InsertAt(keys, i, k), i + 1)
  {
    forall x | x in Listing(l)
      ensures ChildIndex(InsertAt(keys, i, k), x.name) == i
    {
      RouteAfterInsert(keys, i, k, x.name);
    }
    forall x | x in Listing(r)
      ensures ChildIndex(InsertAt(keys, i, k), x.name) == i + 1
    {
      RouteAfterInsert(keys, i, k, x.name);
    }
  }

  lemma OtherChildValid(keys: seq<Bytes>, i: nat, k: Bytes, c: Tree, o: nat)
    requires Increasing(keys) && i <= |keys| && o <= |keys| && o != i && Increasing(InsertAt(keys, i, k))
    requires ValidChild(c, keys, o)
    ensures ValidChild(c, InsertAt(keys, i, k), if o < i then o else o + 1)
  {
    forall x | x in Listing(c) ensures ChildIndex(InsertAt(keys, i, k), x.name) == if o < i then o else o + 1 {
      RouteAfterInsert(keys, i, k, x.name);
      OtherSlotsKeepSides(keys, i, k, o, x.name);
    }
  }

  lemma OtherSlotsKeepSides(keys: seq<Bytes>, i: nat, k: Bytes, o: nat, name: Bytes)
    requires Increasing(keys) && i <= |keys| && o <= |keys| && o != i && Increasing(InsertAt(keys, i, k))
    requires ChildIndex(keys, name) == o
    ensures Less(name, k) <==> o < i
  {
    var keys' := InsertAt(keys, i, k);
    if o < i {
      ChildIndexSlot(keys, name, o);
      assert keys'[o] == keys[o] && keys'[i] == k;
      LessTransitive(name, keys[o], k);
    } else {
      ChildIndexSlot(keys, name, o - 1);
      assert keys'[i] == k && keys'[o] == keys[o - 1];
      if Less(name, k) { LessTransitive(name, k, keys[o - 1]); }
    }
  }

  lemma ReplaceChildValid(keys: seq<Bytes>, children: seq<Tree>, i: nat, c: Tree)
    requires Valid(NodeTree(keys, children)) && i < |children| && ValidChild(c, keys, i)
    ensures Valid(NodeTree(keys, children[i := c]))
  {}

  lemma ListingsReplaced(children: seq<Tree>, i: nat, c: Tree)
    requires i < |children|
    ensures Listings(children[i := c]) == Listings(children[..i]) + Listing(c) + Listings(children[i + 1..])
  {
    ListingsAround(children[i := c], i);
    assert children[i := c][..i] == children[..i] && children[i := c][i + 1..] == children[i + 1..];
  }

  lemma ListingsSplit(children: seq<Tree>, i: nat, l: Tree, r: Tree)
    requires i < |children|
    ensures Listings(InsertAt(children[i := l], i + 1, r))
              == Listings(children[..i]) + (Listing(l) + Listing(r)) + Listings(children[i + 1..])
  {
    var children' := InsertAt(children[i := l], i + 1, r);
    assert children' == children[..i] + ([l, r] + children[i + 1..]);
    ListingsConcat(children[..i], [l, r] + children[i + 1..]);
    ListingsConcat([l, r], children[i + 1..]);
    assert Listings([l, r]) == Listing(l) + Listings([r]) by { assert [l, r][1..] == [r]; }
    assert Listings([r]) == Listing(r) + Listings([]) by { assert [r][1..] == []; }
  }

  lemma RoutedUpsert(es: seq<ChildEntry>, e: ChildEntry, keys: seq<Bytes>, i: nat)
    requires Sorted(es) && Routed(es, keys, i) && ChildIndex(keys, e.name) == i
    ensures Routed(Upsert(es, e), keys, i)
  {}

  /** Insertion keeps a tree valid and upserts the entry into its listing, through any splits. */
  lemma {:induction false} InsertCorrect(t: Tree, e: ChildEntry)
    requires Valid(t)
    ensures GoodInsert(Insert(t, e)) && InsertedListing(Insert(t, e)) == Upsert(Listing(t), e)
    decreases t
  {
    ValidSorted(t);
    match t
    case LeafTree(es) =>
      UpsertSorted(es, e);
      if |Upsert(es, e)| >= MAX_LEAF_ENTRIES { SplitLeafGood(Upsert(es, e)); }
    case NodeTree(keys, children) =>
      InsertNodeCorrect(keys, children, e);
  }

  lemma {:induction false} InsertNodeCorrect(keys: seq<Bytes>, children: seq<Tree>, e: ChildEntry)
    requires Valid(NodeTree(keys, children))
    ensures var r := Insert(NodeTree(keys, children), e);
            GoodInsert(r) && InsertedListing(r) == Upsert(Listings(children), e)
    decreases NodeTree(keys, children), 0
  {
    var i := ChildIndex(keys, e.name);
    var child := children[i];
    assert ValidChild(child, keys, i);
    InsertCorrect(child, e);
    ValidSorted(child);
    RoutedUpsert(Listing(child), e, keys, i);
    RouteSurrounds(keys, children, e.name);
    ListingsAround(children, i);
    UpsertInMiddle(Listings(children[..i]), Listing(child), Listings(children[i + 1..]), e);
    match Insert(child, e)
    case Done(c) =>
      ReplaceChildValid(keys, children, i, c);
      ListingsReplaced(children, i, c);
      ListingsContain(children[i := c], i, Listing(c)[0]);
    case Split(l, k, r) =>
      SplitChildValid(keys, children, i, l, k, r);
      ListingsSplit(children, i, l, r);
      SettleGood(InsertAt(keys, i, k), InsertAt(children[i := l], i + 1, r));
  }

  lemma SettleGood(keys: seq<Bytes>, children: seq<Tree>)
    requires Valid(NodeTree(keys, children))
    ensures GoodInsert(Settle(keys, children)) && InsertedListing(Settle(keys, children)) == Listings(children)
  {
    if |keys| >= MAX_INTERNAL_KEYS {
      SplitNodeGood(keys, children);
    } else {
      assert ValidChild(children[0], keys, 0);
      ListingsContain(children, 0, Listing(children[0])[0]);
    }
  }

  lemma NewRootValid(l: Tree, k: Bytes, r: Tree)
    requires GoodSplit(l, k, r)
    ensures Valid(NodeTree([k], [l, r])) && Listings([l, r]) == Listing(l) + Listing(r)
  {
    var keys, children := [k], [l, r];
    forall x ensures ChildIndex(keys, x) == if Less(x, k) then 0 else 1 { ChildIndexSlot(keys, x, 0); }
    assert ValidChild(children[0], keys, 0) && ValidChild(children[1], keys, 1);
    ListingsSplit([l], 0, l, r);
    assert InsertAt([l][0 := l], 1, r) == [l, r];
    assert Listings([l][..0]) == [] && Listings([l][1..]) == [];
  }

  /** Inserting at the root refines insertion into a finite map listed in name order. */
  lemma InsertRootCorrect(t: Tree, e: ChildEntry)
    requires Valid(t)
    ensures Valid(InsertRoot(t, e)) && Listing(InsertRoot(t, e)) == Upsert(Listing(t), e)
    ensures Listing(InsertRoot(t, e)) != []
  {
    InsertCorrect(t, e);
    match Insert(t, e)
    case Done(_) =>
    case Split(l, k, r) => NewRootValid(l, k, r);
  }

  // ---------------------------------------------------------------------------
  // Deletion
  // ---------------------------------------------------------------------------

  /** Child `i` goes, and with it the key on its right, or the last key. */
  function DropChild(keys: seq<Bytes>, children: seq<Tree>, i: nat): Option<Tree>
    requires i < |children| && i <= |keys|
  {
    var keys' := if i < |keys| then RemoveAt(keys, i) else if keys != [] then RemoveAt(keys, i - 1) else keys;
    var children' := RemoveAt(children, i);
    if children' == [] then None
    else if |children'| == 1 then Some(children'[0])
    else Some(NodeTree(keys', children'))
  }

  function Delete(t: Tree, name: Bytes): Option<Tree> {
    match t
    case LeafTree(es) =>
      var es' := Remove(es, name);
      if es' == [] then None else Some(LeafTree(es'))
    case NodeTree(keys, children) =>
      var i := ChildIndex(keys, name);
      if i >= |children| then Some(t) else
      match Delete(children[i], name)
      case Some(c) => Some(NodeTree(keys, children[i := c]))
      case None => DropChild(keys, children, i)
  }

  ghost function DeletedListing(r: Option<Tree>): seq<ChildEntry> {
    if r.Some? then Listing(r.value) else []
  }

  lemma ListingsDropped(children: seq<Tree>, i: nat)
    requires i < |children|
    ensures Listings(RemoveAt(children, i)) == Listings(children[..i]) + Listings(children[i + 1..])
  {
    ListingsConcat(children[..i], children[i + 1..]);
  }

  lemma DropChildCorrect(keys: seq<Bytes>, children: seq<Tree>, i: nat)
    requires Valid(NodeTree(keys, children)) && i < |children|
    ensures var r := DropChild(keys, children, i);
            r.Some? && Valid(r.value) && Listing(r.value) != []
            && Listing(r.value) == Listings(children[..i]) + Listings(children[i + 1..])
  {
    var p, children' := if i < |keys| then i else i - 1, RemoveAt(children, i);
    var keys' := RemoveAt(keys, p);
    ListingsDropped(children, i);
    forall j | 0 <= j < |children'| ensures ValidChild(children'[j], keys', j) {
      var o := if j < i then j else j + 1;
      assert children'[j] == children[o] && ValidChild(children[o], keys, o);
      forall x | x in Listing(children[o]) ensures ChildIndex(keys', x.name) == j { RouteAfterRemove(keys, p, x.name); }
    }
    RouteAfterRemove(keys, p, []);
    assert ValidChild(children'[0], keys', 0);
    ListingsContain(children', 0, Listing(children'[0])[0]);
    if |children'| == 1 {
      assert Listings(children') == Listing(children'[0]) + Listings(children'[1..]);
    }
  }

  /** Deletion keeps a tree valid, removes the name from its listing, and gives none exactly when nothing is left. */
  lemma {:induction false} DeleteCorrect(t: Tree, name: Bytes)
    requires Valid(t)
    ensures Delete(t, name).Some? ==> Valid(Delete(t, name).value) && Listing(Delete(t, name).value) != []
    ensures DeletedListing(Delete(t, name)) == Remove(Listing(t), name)
    decreases t
  {
    match t
    case LeafTree(es) =>
      RemoveSorted(es, name);
    case NodeTree(keys, children) =>
      DeleteNodeCorrect(keys, children, name);
  }

  lemma {:induction false} DeleteNodeCorrect(keys: seq<Bytes>, children: seq<Tree>, name: Bytes)
    requires Valid(NodeTree(keys, children))
    ensures var r := Delete(NodeTree(keys, children), name);
            r.Some? && Valid(r.value) && Listing(r.value) != [] && Listing(r.value) == Remove(Listings(children), name)
    decreases NodeTree(keys, children), 0
  {
    var i := ChildIndex(keys, name);
    assert ValidChild(children[i], keys, i);
    DeleteCorrect(children[i], name);
    RemoveFromChild(keys, children, name);
    match Delete(children[i], name)
    case Some(c) =>
      RoutedRemove(children[i], name, keys, i);
      ReplaceChildValid(keys, children, i, c);
      ListingsReplaced(children, i, c);
      ListingsContain(children[i := c], i, Listing(c)[0]);
    case None =>
      DropChildCorrect(keys, children, i);
      assert Listings(children[..i]) + [] == Listings(children[..i]);
  }

  lemma RoutedRemove(t: Tree, name: Bytes, keys: seq<Bytes>, i: nat)
    requires ValidChild(t, keys, i)
    ensures Routed(Remove(Listing(t), name), keys, i)
  {}

  lemma RemoveFromChild(keys: seq<Bytes>, children: seq<Tree>, name: Bytes)
    requires Valid(NodeTree(keys, children))
    ensures var i := ChildIndex(keys, name);
            Remove(Listings(children), name)
            == Listings(children[..i]) + Remove(Listing(children[i]), name) + Listings(children[i + 1..])
  {
    var i := ChildIndex(keys, name);
    RouteSurrounds(keys, children, name);
    ListingsAround(children, i);
    RemoveInMiddle(Listings(children[..i]), Listing(children[i]), Listings(children[i + 1..]), name);
  }
}
