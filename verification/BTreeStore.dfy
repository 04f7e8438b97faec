/**
 B-tree directories in the content-addressed store: every node is written under the hash of its
 bytes and nodes are never changed.  The operations are given by the writes they make; the methods
 below perform them, one write at a time or as one batch.
 */
module BTreeStore {
  import opened Common
  import opened Bytes
  import opened DirectoryCodec
  import opened SortedEntries
  import opened BTree

  type Store = map<Bytes, Bytes>

  /** "btree:", the domain prefix of node hashes. */
  const PREFIX: Bytes := [98, 116, 114, 101, 101, 58]

  /** The hash function of a store and the length of its values. */
  datatype Algo = Algo(hash: Bytes -> Bytes, length: nat)

  function ContentHash(algo: Algo, data: Bytes): Bytes {
    algo.hash(PREFIX + data)
  }

  datatype Write = Write(hash: Bytes, data: Bytes)

  function PutNode(algo: Algo, node: BTreeNode): Result<Write, Error> {
    var data :- EncodeNode(node);
    Ok(Write(ContentHash(algo, data), data))
  }

  function Apply(store: Store, writes: seq<Write>): Store {
    if writes == [] then store
    else Apply(store, writes[..|writes| - 1])[writes[|writes| - 1].hash := writes[|writes| - 1].data]
  }

  lemma ApplyOne(store: Store, a: seq<Write>, w: Write)
    ensures Apply(store, a + [w]) == Apply(store, a)[w.hash := w.data]
  {}

  /** The node stored under a hash. */
  function Load(store: Store, algo: Algo, hash: Bytes): Result<BTreeNode, Error> {
    if hash !in store then Err(NotFound) else DecodeNode(store[hash], algo.length)
  }

  predicate Shaped(node: BTreeNode) {
    node.Internal? ==> |node.children| == |node.keys| + 1
  }

  lemma {:induction false} DecodedHashCount(d: Bytes, hashLength: nat, count: nat)
    ensures DecodeHashes(d, hashLength, count).Ok? ==> |DecodeHashes(d, hashLength, count).value| == count
  {
    if count > 0 && hashLength <= |d| { DecodedHashCount(d[hashLength..], hashLength, count - 1); }
  }

  lemma {:induction false} DecodedKeyCount(d: Bytes, count: nat)
    ensures DecodeKeys(d, count).Ok? ==> |DecodeKeys(d, count).value.0| == count
  {
    if count > 0 && |d| >= 2 && U16(d) <= |d[2..]| { DecodedKeyCount(d[2..][U16(d)..], count - 1); }
  }

  /** Whatever the bytes, a node that decodes has one child more than keys. */
  lemma DecodedIsShaped(d: Bytes, hashLength: nat)
    ensures DecodeNode(d, hashLength).Ok? ==> Shaped(DecodeNode(d, hashLength).value)
  {
    if |d| >= 3 && d[0] == INTERNAL_MARKER {
      var count, rest := U16(d[1..]), d[1..][2..];
      DecodedKeyCount(rest, count);
      var keys := DecodeKeys(rest, count);
      if keys.Ok? { DecodedHashCount(keys.value.1, hashLength, count + 1); }
    }
  }

  /**
   Following stored children from a node ends after at most `depth` steps, in a leaf or in a child
   that is missing or unreadable.
   */
  ghost predicate Grounded(store: Store, algo: Algo, node: BTreeNode, depth: nat)
    decreases depth
  {
    node.Internal? ==>
      depth > 0 &&
      forall i :: 0 <= i < |node.children| && Load(store, algo, node.children[i]).Ok? ==>
        Grounded(store, algo, Load(store, algo, node.children[i]).value, depth - 1)
  }

  ghost predicate GroundedAt(store: Store, algo: Algo, hash: Bytes, depth: nat) {
    Load(store, algo, hash).Ok? ==> Grounded(store, algo, Load(store, algo, hash).value, depth)
  }

  // ---------------------------------------------------------------------------
  // Insertion, by its writes
  // ---------------------------------------------------------------------------

  datatype Outcome = Stored(hash: Bytes, data: Bytes) | Parted(left: Bytes, key: Bytes, right: Bytes)

  /** What an operation wrote, in order, and how it ended. */
  datatype Step<R> = Step(writes: seq<Write>, outcome: Result<R, Error>)

  function StoreOne(algo: Algo, node: BTreeNode, before: seq<Write>): Step<Outcome> {
    match PutNode(algo, node)
    case Err(error) => Step(before, Err(error))
    case Ok(w) => Step(before + [w], Ok(Stored(w.hash, w.data)))
  }

  function StoreTwo(algo: Algo, left: BTreeNode, key: Bytes, right: BTreeNode, before: seq<Write>): Step<Outcome> {
    match PutNode(algo, left)
    case Err(error) => Step(before, Err(error))
    case Ok(l) =>
      match PutNode(algo, right)
      case Err(error) => Step(before + [l], Err(error))
      case Ok(r) => Step(before + [l] + [r], Ok(Parted(l.hash, key, r.hash)))
  }

  function StoreLeaf(algo: Algo, es: seq<ChildEntry>): Step<Outcome> {
    if |es| >= MAX_LEAF_ENTRIES then
      var mid := |es| / 2;
      StoreTwo(algo, Leaf(es[..mid]), es[mid].name, Leaf(es[mid..]), [])
    else
      StoreOne(algo, Leaf(es), [])
  }

  function StoreInternal(algo: Algo, keys: seq<Bytes>, children: seq<Bytes>, before: seq<Write>): Step<Outcome>
    requires |children| == |keys| + 1
  {
    if |keys| >= MAX_INTERNAL_KEYS then
      var mid := |keys| / 2;
      StoreTwo(algo, Internal(keys[..mid], children[..mid + 1]), keys[mid],
          Internal(keys[mid + 1..], children[mid + 1..]), before)
    else
      StoreOne(algo, Internal(keys, children), before)
  }

  /** The node above the child that was inserted into. */
  function StoreParent(algo: Algo, keys: seq<Bytes>, children: seq<Bytes>, i: nat, below: Step<Outcome>): Step<Outcome>
    requires |children| == |keys| + 1 && i < |children|
  {
    match below.outcome
    case Err(error) => Step(below.writes, Err(error))
    case Ok(Stored(hash, _)) => StoreOne(algo, Internal(keys, children[i := hash]), below.writes)
    case Ok(Parted(l, k, r)) =>
      var p := Rank(keys, k);
      StoreInternal(algo, InsertAt(keys, p, k), InsertAt(children[i := l], p + 1, r), below.writes)
  }

  ghost function InsertStep(store: Store, algo: Algo, node: BTreeNode, e: ChildEntry, depth: nat): Step<Outcome>
    requires Shaped(node) && Grounded(store, algo, node, depth)
    decreases depth
  {
    match node
    case Leaf(es) => StoreLeaf(algo, Upsert(es, e))
    case Internal(keys, children) =>
      var i := ChildIndex(keys, e.name);
      match Load(store, algo, children[i])
      case Err(error) => Step([], Err(error))
      case Ok(child) =>
        DecodedIsShaped(store[children[i]], algo.length);
        StoreParent(algo, keys, children, i, InsertStep(store, algo, child, e, depth - 1))
  }

  /** A split root gets a new root above it. */
  function StoreRoot(algo: Algo, below: Step<Outcome>): Step<Write> {
    match below.outcome
    case Err(error) => Step(below.writes, Err(error))
    case Ok(Stored(hash, data)) => Step(below.writes, Ok(Write(hash, data)))
    case Ok(Parted(l, k, r)) =>
      match PutNode(algo, Internal([k], [l, r]))
      case Err(error) => Step(below.writes, Err(error))
      case Ok(w) => Step(below.writes + [w], Ok(w))
  }

  ghost predicate DataGrounded(store: Store, algo: Algo, rootData: Bytes, depth: nat) {
    DecodeNode(rootData, algo.length).Ok? ==> Grounded(store, algo, DecodeNode(rootData, algo.length).value, depth)
  }

  /** Insertion into the tree whose root node has these bytes. */
  ghost function InsertData(store: Store, algo: Algo, rootData: Bytes, e: ChildEntry, depth: nat): Step<Write>
    requires DataGrounded(store, algo, rootData, depth)
  {
    match DecodeNode(rootData, algo.length)
    case Err(error) => Step([], Err(error))
    case Ok(root) =>
      DecodedIsShaped(rootData, algo.length);
      StoreRoot(algo, InsertStep(store, algo, root, e, depth))
  }

  // ---------------------------------------------------------------------------
  // Deletion, by its writes
  // ---------------------------------------------------------------------------

  function StoreChanged(algo: Algo, node: BTreeNode, before: seq<Write>): Step<Option<Bytes>> {
    match PutNode(algo, node)
    case Err(error) => Step(before, Err(error))
    case Ok(w) => Step(before + [w], Ok(Some(w.hash)))
  }

  function StoreWithout(algo: Algo, keys: seq<Bytes>, children: seq<Bytes>, i: nat,
                        below: Step<Option<Bytes>>): Step<Option<Bytes>>
    requires |children| == |keys| + 1 && i < |children|
  {
    match below.outcome
    case Err(error) => Step(below.writes, Err(error))
    case Ok(Some(hash)) => StoreChanged(algo, Internal(keys, children[i := hash]), below.writes)
    case Ok(None) =>
      var keys' := if i < |keys| then RemoveAt(keys, i) else if keys != [] then RemoveAt(keys, i - 1) else keys;
      var children' := RemoveAt(children, i);
      if children' == [] then Step(below.writes, Ok(None))
      else if |children'| == 1 then Step(below.writes, Ok(Some(children'[0])))
      else StoreChanged(algo, Internal(keys', children'), below.writes)
  }

  ghost function DeleteStep(store: Store, algo: Algo, hash: Bytes, name: Bytes, depth: nat): Step<Option<Bytes>>
    requires GroundedAt(store, algo, hash, depth)
    decreases depth
  {
    match Load(store, algo, hash)
    case Err(error) => Step([], Err(error))
    case Ok(Leaf(es)) =>
      if Remove(es, name) == [] then Step([], Ok(None)) else StoreChanged(algo, Leaf(Remove(es, name)), [])
    case Ok(Internal(keys, children)) =>
      DecodedIsShaped(store[hash], algo.length);
      var i := ChildIndex(keys, name);
      StoreWithout(algo, keys, children, i, DeleteStep(store, algo, children[i], name, depth - 1))
  }

  // ---------------------------------------------------------------------------
  // Reading
  // ---------------------------------------------------------------------------

  ghost function LookupAt(store: Store, algo: Algo, hash: Bytes, name: Bytes,
                          depth: nat): Result<Option<ChildEntry>, Error>
    requires GroundedAt(store, algo, hash, depth)
    decreases depth
  {
    match Load(store, algo, hash)
    case Err(error) => Err(error)
    case Ok(Leaf(es)) => Ok(Find(es, name))
    case Ok(Internal(keys, children)) =>
      DecodedIsShaped(store[hash], algo.length);
      LookupAt(store, algo, children[ChildIndex(keys, name)], name, depth - 1)
  }

  ghost function ListAt(store: Store, algo: Algo, hash: Bytes, depth: nat): Result<seq<ChildEntry>, Error>
    requires GroundedAt(store, algo, hash, depth)
    decreases depth, 1
  {
    match Load(store, algo, hash)
    case Err(error) => Err(error)
    case Ok(Leaf(es)) => Ok(es)
    case Ok(Internal(_, children)) => ListAll(store, algo, children, |children|, depth - 1)
  }

  /** The entries of the first `n` children, up to the first child that fails. */
  ghost function ListAll(store: Store, algo: Algo, children: seq<Bytes>, n: nat,
                         depth: nat): Result<seq<ChildEntry>, Error>
    requires n <= |children| && forall i :: 0 <= i < |children| ==> GroundedAt(store, algo, children[i], depth)
    decreases depth, 2, n
  {
    if n == 0 then Ok([]) else
    var init :- ListAll(store, algo, children, n - 1, depth);
    var last :- ListAt(store, algo, children[n - 1], depth);
    Ok(init + last)
  }

  // ---------------------------------------------------------------------------
  // The nodes being edited
  // ---------------------------------------------------------------------------

  /** Both halves are sorted, and the key is above the names of the left one only. */
  ghost predicate TellsApart(left: seq<ChildEntry>, key: Bytes, right: seq<ChildEntry>) {
    Sorted(left) && Sorted(right) && AllBelow(left, key) && forall y :: y in right ==> !Less(y.name, key)
  }

  /** Where every name goes after a key and its right child were inserted. */
  ghost predicate Rerouted(keys: seq<Bytes>, children: seq<Bytes>, key: Bytes, right: Bytes, keys': seq<Bytes>,
                           children': seq<Bytes>)
  {
    && |children| == |keys| + 1 && |children'| == |keys'| + 1
    && forall name: Bytes ::
         children'[ChildIndex(keys', name)]
         == if ChildIndex(keys, name) == ChildIndex(keys, key) && !Less(name, key) then right
            else children[ChildIndex(keys, name)]
  }

  lemma InsertReroutes(keys: seq<Bytes>, children: seq<Bytes>, key: Bytes, right: Bytes)
    requires |children| == |keys| + 1 && Increasing(keys) && key !in keys
    ensures var p := Rank(keys, key);
            && Increasing(InsertAt(keys, p, key))
            && Rerouted(keys, children, key, right, InsertAt(keys, p, key), InsertAt(children, p + 1, right))
  {
    var p := Rank(keys, key);
    BelowRank(keys, key);
    forall j | p <= j < |keys| ensures Less(key, keys[j]) { AboveRank(keys, key, j); }
    IncreasingInsert(keys, p, key);
    forall name: Bytes
      ensures InsertAt(children, p + 1, right)[ChildIndex(InsertAt(keys, p, key), name)]
           == if ChildIndex(keys, name) == ChildIndex(keys, key) && !Less(name, key) then right
              else children[ChildIndex(keys, name)]
    {
      RouteAfterInsert(keys, p, key, name);
      SideOfKey(keys, key, name);
    }
  }

  /** Smaller names go no further than a new key does, the others no less far. */
  lemma SideOfKey(keys: seq<Bytes>, key: Bytes, name: Bytes)
    requires Increasing(keys) && key !in keys
    ensures ChildIndex(keys, key) == Rank(keys, key)
    ensures if Less(name, key) then ChildIndex(keys, name) <= Rank(keys, key)
            else ChildIndex(keys, name) >= Rank(keys, key)
  {
    var p := Rank(keys, key);
    BelowRank(keys, key);
    if p < |keys| {
      AboveRank(keys, key, p);
      ChildIndexSlot(keys, name, p);
      if Less(name, key) { LessTransitive(name, key, keys[p]); }
    }
    if p > 0 {
      ChildIndexSlot(keys, name, p - 1);
      if Less(name, keys[p - 1]) { LessTransitive(name, keys[p - 1], key); }
    }
  }

  class LeafNode {
    var entries: seq<ChildEntry>

    constructor (entries: seq<ChildEntry>)
      ensures this.entries == entries
    {
      this.entries := entries;
    }

    /** True if the name is new to the leaf. */
    method Upsert(e: ChildEntry) returns (inserted: bool)
      modifies this
      ensures entries == SortedEntries.Upsert(old(entries), e)
      ensures inserted <==> Find(old(entries), e.name).None?
    {
      var names := Names(entries);
      var r := Rank(names, e.name);
      if FoundAt(names, e.name, r) {
        entries := entries[r := e];
        inserted := false;
      } else {
        entries := entries[..r] + [e] + entries[r..];
        inserted := true;
      }
    }

    /** True if the name was in the leaf. */
    method Remove(name: Bytes) returns (removed: bool)
      modifies this
      ensures entries == SortedEntries.Remove(old(entries), name)
      ensures removed <==> Find(old(entries), name).Some?
    {
      var names := Names(entries);
      var r := Rank(names, name);
      if FoundAt(names, name, r) {
        entries := entries[..r] + entries[r + 1..];
        removed := true;
      } else {
        assert entries == entries[..r] + entries[r..];
        removed := false;
      }
    }

    /**
     The right half leaves this leaf: nothing is lost, the halves are as even as can be, and the key
     tells the names of one from those of the other. Taking the first of an empty right half panics
     in the source.
     */
    method Split() returns (left: seq<ChildEntry>, key: Bytes, right: seq<ChildEntry>)
      requires |entries| > 0
      modifies this
      ensures left == entries && left + right == old(entries) && |left| <= |right| <= |left| + 1
      ensures key == right[0].name
      ensures Sorted(old(entries)) ==> TellsApart(left, key, right)
    {
      var mid := |entries| / 2;
      if Sorted(entries) { HalvesAround(entries, mid); }
      right := entries[mid..];
      entries := entries[..mid];
      key := right[0].name;
      left := entries;
    }
  }

  class InternalNode {
    var keys: seq<Bytes>
    var children: seq<Bytes>

    constructor (keys: seq<Bytes>, children: seq<Bytes>)
      ensures this.keys == keys && this.children == children
    {
      this.keys, this.children := keys, children;
    }

    /** Names from the key on, of those that went where the key did, go to the new child; no other name moves. */
    method InsertKey(key: Bytes, rightChild: Bytes)
      requires |children| == |keys| + 1
      modifies this
      ensures keys == InsertAt(old(keys), Rank(old(keys), key), key)
      ensures children == InsertAt(old(children), Rank(old(keys), key) + 1, rightChild)
      ensures Increasing(old(keys)) && key !in old(keys) ==>
                Increasing(keys) && Rerouted(old(keys), old(children), key, rightChild, keys, children)
    {
      if Increasing(keys) && key !in keys { InsertReroutes(keys, children, key, rightChild); }
      var p := Rank(keys, key);
      keys := keys[..p] + [key] + keys[p..];
      children := children[..p + 1] + [rightChild] + children[p + 1..];
    }

    /** The separator leaves both halves. */
    method Split() returns (left: BTreeNode, key: Bytes, right: BTreeNode)
      requires |keys| > 0 && |children| == |keys| + 1
      modifies this
      ensures var mid := |old(keys)| / 2;
              && left == Internal(old(keys)[..mid], old(children)[..mid + 1])
              && key == old(keys)[mid]
              && right == Internal(old(keys)[mid + 1..], old(children)[mid + 1..])
    {
      var mid := |keys| / 2;
      key := keys[mid];
      var rightKeys := keys[mid + 1..];
      keys := keys[..mid + 1];
      keys := keys[..|keys| - 1];
      var rightChildren := children[mid + 1..];
      children := children[..mid + 1];
      left := Internal(keys, children);
      right := Internal(rightKeys, rightChildren);
    }
  }

  /** `WriteBatch`: writes that wait to be flushed together. */
  class WriteBatch {
    var writes: seq<Write>

    constructor ()
      ensures writes == []
    {
      writes := [];
    }

    method Add(w: Write)
      modifies this
      ensures writes == old(writes) + [w]
    {
      writes := writes + [w];
    }
  }

  // ---------------------------------------------------------------------------
  // The operations
  // ---------------------------------------------------------------------------

  class StorageEngine {
    const algo: Algo
    var entries: Store

    constructor (algo: Algo)
      ensures this.algo == algo && entries == map[]
    {
      this.algo := algo;
      entries := map[];
    }

    /**
     `store_btree_node`: a node that fits the format is stored where it can be loaded from; one that
     cannot be encoded stores nothing.
     */
    method StoreNode(node: BTreeNode) returns (r: Result<Write, Error>)
      modifies this
      ensures r == PutNode(algo, node)
      ensures entries == if r.Ok? then old(entries)[r.value.hash := r.value.data] else old(entries)
      ensures EncodableNode(node, algo.length) ==> r.Ok? && Load(entries, algo, r.value.hash) == Ok(node)
    {
      if EncodableNode(node, algo.length) { NodeRoundTrip(node, algo.length); }
      r := PutNode(algo, node);
      if r.Ok? { entries := entries[r.value.hash := r.value.data]; }
    }

    method FlushBatch(batch: WriteBatch)
      modifies this
      ensures entries == Apply(old(entries), batch.writes)
    {
      ghost var before := entries;
      for i := 0 to |batch.writes|
        invariant entries == Apply(before, batch.writes[..i])
      {
        entries := entries[batch.writes[i].hash := batch.writes[i].data];
        assert batch.writes[..i + 1] == batch.writes[..i] + [batch.writes[i]];
        ApplyOne(before, batch.writes[..i], batch.writes[i]);
      }
      assert batch.writes[..|batch.writes|] == batch.writes;
    }

    /** Stores one node after the writes `before`. */
    method StoreAfter(node: BTreeNode, ghost start: Store, ghost before: seq<Write>) returns (r: Result<Outcome, Error>)
      requires entries == Apply(start, before)
      modifies this
      ensures r == StoreOne(algo, node, before).outcome
      ensures entries == Apply(start, StoreOne(algo, node, before).writes)
    {
      var w := StoreNode(node);
      if w.Err? { return Err(w.error); }
      ApplyOne(start, before, w.value);
      r := Ok(Stored(w.value.hash, w.value.data));
    }

    method StoreBothAfter(left: BTreeNode, key: Bytes, right: BTreeNode, ghost start: Store, ghost before: seq<Write>)
      returns (r: Result<Outcome, Error>)
      requires entries == Apply(start, before)
      modifies this
      ensures r == StoreTwo(algo, left, key, right, before).outcome
      ensures entries == Apply(start, StoreTwo(algo, left, key, right, before).writes)
    {
      var l := StoreNode(left);
      if l.Err? { return Err(l.error); }
      ApplyOne(start, before, l.value);
      var w := StoreNode(right);
      if w.Err? { return Err(w.error); }
      ApplyOne(start, before + [l.value], w.value);
      r := Ok(Parted(l.value.hash, key, w.value.hash));
    }

    /** `btree_insert_node`: every node is stored as soon as it is made. */
    method InsertNode(node: BTreeNode, e: ChildEntry, ghost depth: nat) returns (r: Result<Outcome, Error>)
      requires Shaped(node) && Grounded(entries, algo, node, depth)
      modifies this
      ensures r == InsertStep(old(entries), algo, node, e, depth).outcome
      ensures entries == Apply(old(entries), InsertStep(old(entries), algo, node, e, depth).writes)
      decreases depth
    {
      match node {
        case Leaf(es) =>
          r := InsertIntoLeaf(es, e);
        case Internal(keys, children) =>
          ghost var start := entries;
          var i := ChildIndex(keys, e.name);
          if children[i] !in entries { return Err(NotFound); }
          var child := DecodeNode(entries[children[i]], algo.length);
          if child.Err? { return Err(child.error); }
          DecodedIsShaped(entries[children[i]], algo.length);
          ghost var below := InsertStep(start, algo, child.value, e, depth - 1);
          var result := InsertNode(child.value, e, depth - 1);
          r := InsertIntoParent(keys, children, i, result, start, below);
      }
    }

    method InsertIntoLeaf(es: seq<ChildEntry>, e: ChildEntry) returns (r: Result<Outcome, Error>)
      modifies this
      ensures r == StoreLeaf(algo, SortedEntries.Upsert(es, e)).outcome
      ensures entries == Apply(old(entries), StoreLeaf(algo, SortedEntries.Upsert(es, e)).writes)
    {
      ghost var start := entries;
      var leaf := new LeafNode(es);
      var inserted := leaf.Upsert(e);
      if |leaf.entries| >= MAX_LEAF_ENTRIES {
        var left, key, right := leaf.Split();
        r := StoreBothAfter(Leaf(left), key, Leaf(right), start, []);
      } else {
        r := StoreAfter(Leaf(leaf.entries), start, []);
      }
    }

    method InsertIntoParent(keys: seq<Bytes>, children: seq<Bytes>, i: nat, result: Result<Outcome, Error>,
                            ghost start: Store, ghost below: Step<Outcome>)
      returns (r: Result<Outcome, Error>)
      requires |children| == |keys| + 1 && i < |children|
      requires entries == Apply(start, below.writes) && result == below.outcome
      modifies this
      ensures r == StoreParent(algo, keys, children, i, below).outcome
      ensures entries == Apply(start, StoreParent(algo, keys, children, i, below).writes)
    {
      var internal := new InternalNode(keys, children);
      match result {
        case Err(error) =>
          r := Err(error);
        case Ok(Stored(hash, _)) =>
          internal.children := internal.children[i := hash];
          r := StoreAfter(Internal(internal.keys, internal.children), start, below.writes);
        case Ok(Parted(l, k, right)) =>
          internal.children := internal.children[i := l];
          r := InsertSplitChild(internal, k, right, start, below.writes);
      }
    }

    method InsertSplitChild(internal: InternalNode, k: Bytes, right: Bytes, ghost start: Store,
                            ghost before: seq<Write>)
      returns (r: Result<Outcome, Error>)
      requires |internal.children| == |internal.keys| + 1 && entries == Apply(start, before)
      modifies this, internal
      ensures var p := Rank(old(internal.keys), k);
              var step := StoreInternal(algo, InsertAt(old(internal.keys), p, k),
                  InsertAt(old(internal.children), p + 1, right), before);
              r == step.outcome && entries == Apply(start, step.writes)
    {
      internal.InsertKey(k, right);
      r := SettleAfter(internal, start, before);
    }

    /** A node that has grown too large is split. */
    method SettleAfter(internal: InternalNode, ghost start: Store, ghost before: seq<Write>)
      returns (r: Result<Outcome, Error>)
      requires |internal.children| == |internal.keys| + 1 && entries == Apply(start, before)
      modifies this, internal
      ensures var step := StoreInternal(algo, old(internal.keys), old(internal.children), before);
              r == step.outcome && entries == Apply(start, step.writes)
    {
      if |internal.keys| >= MAX_INTERNAL_KEYS {
        var leftNode, key, rightNode := internal.Split();
        r := StoreBothAfter(leftNode, key, rightNode, start, before);
      } else {
        r := StoreAfter(Internal(internal.keys, internal.children), start, before);
      }
    }

    /** `btree_insert_with_data` */
    method InsertWithData(rootData: Bytes, e: ChildEntry, ghost depth: nat) returns (r: Result<Write, Error>)
      requires DataGrounded(entries, algo, rootData, depth)
      modifies this
      ensures r == InsertData(old(entries), algo, rootData, e, depth).outcome
      ensures entries == Apply(old(entries), InsertData(old(entries), algo, rootData, e, depth).writes)
    {
      ghost var start := entries;
      var root := DecodeNode(rootData, algo.length);
      if root.Err? { return Err(root.error); }
      DecodedIsShaped(rootData, algo.length);
      ghost var below := InsertStep(start, algo, root.value, e, depth);
      var result := InsertNode(root.value, e, depth);
      match result {
        case Err(error) => r := Err(error);
        case Ok(Stored(hash, data)) => r := Ok(Write(hash, data));
        case Ok(Parted(l, k, right)) =>
          r := StoreNode(Internal([k], [l, right]));
          if r.Ok? { ApplyOne(start, below.writes, r.value); }
      }
    }

    /** `btree_insert` */
    method Insert(rootHash: Bytes, e: ChildEntry, ghost depth: nat) returns (r: Result<Bytes, Error>)
      requires GroundedAt(entries, algo, rootHash, depth)
      modifies this
      ensures rootHash !in old(entries) ==> r == Err(NotFound) && entries == old(entries)
      ensures rootHash in old(entries) ==>
                var step := InsertData(old(entries), algo, old(entries)[rootHash], e, depth);
                && entries == Apply(old(entries), step.writes)
                && r == if step.outcome.Ok? then Ok(step.outcome.value.hash) else Err(step.outcome.error)
    {
      if rootHash !in entries { return Err(NotFound); }
      var w := InsertWithData(entries[rootHash], e, depth);
      r := if w.Ok? then Ok(w.value.hash) else Err(w.error);
    }

    /** `btree_insert_node_batched`: nothing is stored, the writes wait in the batch. */
    method InsertNodeBatched(node: BTreeNode, e: ChildEntry, batch: WriteBatch, ghost depth: nat)
      returns (r: Result<Outcome, Error>)
      requires Shaped(node) && Grounded(entries, algo, node, depth) && batch.writes == []
      modifies batch
      ensures r == InsertStep(entries, algo, node, e, depth).outcome
      ensures r.Ok? ==> batch.writes == InsertStep(entries, algo, node, e, depth).writes
      decreases depth
    {
      match node {
        case Leaf(es) =>
          r := AddLeaf(es, e, batch);
        case Internal(keys, children) =>
          var i := ChildIndex(keys, e.name);
          if children[i] !in entries { return Err(NotFound); }
          var child := DecodeNode(entries[children[i]], algo.length);
          if child.Err? { return Err(child.error); }
          DecodedIsShaped(entries[children[i]], algo.length);
          ghost var below := InsertStep(entries, algo, child.value, e, depth - 1);
          var result := InsertNodeBatched(child.value, e, batch, depth - 1);
          r := AddParent(keys, children, i, result, batch, below);
      }
    }

    method AddLeaf(es: seq<ChildEntry>, e: ChildEntry, batch: WriteBatch) returns (r: Result<Outcome, Error>)
      requires batch.writes == []
      modifies batch
      ensures r == StoreLeaf(algo, SortedEntries.Upsert(es, e)).outcome
      ensures r.Ok? ==> batch.writes == StoreLeaf(algo, SortedEntries.Upsert(es, e)).writes
    {
      var leaf := new LeafNode(es);
      var inserted := leaf.Upsert(e);
      if |leaf.entries| >= MAX_LEAF_ENTRIES {
        var left, key, right := leaf.Split();
        r := AddBoth(Leaf(left), key, Leaf(right), batch);
      } else {
        r := AddOne(Leaf(leaf.entries), batch);
      }
    }

    method AddParent(keys: seq<Bytes>, children: seq<Bytes>, i: nat, result: Result<Outcome, Error>,
                     batch: WriteBatch, ghost below: Step<Outcome>)
      returns (r: Result<Outcome, Error>)
      requires |children| == |keys| + 1 && i < |children|
      requires result == below.outcome && (result.Ok? ==> batch.writes == below.writes)
      modifies batch
      ensures r == StoreParent(algo, keys, children, i, below).outcome
      ensures r.Ok? ==> batch.writes == StoreParent(algo, keys, children, i, below).writes
    {
      var internal := new InternalNode(keys, children);
      match result {
        case Err(error) =>
          r := Err(error);
        case Ok(Stored(hash, _)) =>
          internal.children := internal.children[i := hash];
          r := AddOne(Internal(internal.keys, internal.children), batch);
        case Ok(Parted(l, k, right)) =>
          internal.children := internal.children[i := l];
          r := AddSplitChild(internal, k, right, batch);
      }
    }

    method AddSplitChild(internal: InternalNode, k: Bytes, right: Bytes, batch: WriteBatch)
      returns (r: Result<Outcome, Error>)
      requires |internal.children| == |internal.keys| + 1
      modifies internal, batch
      ensures var p := Rank(old(internal.keys), k);
              var step := StoreInternal(algo, InsertAt(old(internal.keys), p, k),
                  InsertAt(old(internal.children), p + 1, right), old(batch.writes));
              r == step.outcome && (r.Ok? ==> batch.writes == step.writes)
    {
      internal.InsertKey(k, right);
      if |internal.keys| >= MAX_INTERNAL_KEYS {
        var leftNode, key, rightNode := internal.Split();
        r := AddBoth(leftNode, key, rightNode, batch);
      } else {
        r := AddOne(Internal(internal.keys, internal.children), batch);
      }
    }

    method AddOne(node: BTreeNode, batch: WriteBatch) returns (r: Result<Outcome, Error>)
      modifies batch
      ensures r == StoreOne(algo, node, old(batch.writes)).outcome
      ensures r.Ok? ==> batch.writes == StoreOne(algo, node, old(batch.writes)).writes
    {
      var w := PutNode(algo, node);
      if w.Err? { return Err(w.error); }
      batch.Add(w.value);
      r := Ok(Stored(w.value.hash, w.value.data));
    }

    method AddBoth(left: BTreeNode, key: Bytes, right: BTreeNode, batch: WriteBatch) returns (r: Result<Outcome, Error>)
      modifies batch
      ensures r == StoreTwo(algo, left, key, right, old(batch.writes)).outcome
      ensures r.Ok? ==> batch.writes == StoreTwo(algo, left, key, right, old(batch.writes)).writes
    {
      var l := PutNode(algo, left);
      if l.Err? { return Err(l.error); }
      var w := PutNode(algo, right);
      if w.Err? { return Err(w.error); }
      batch.Add(l.value);
      batch.Add(w.value);
      r := Ok(Parted(l.value.hash, key, w.value.hash));
    }

    /**
     `btree_insert_batched`: the same root and the same store as the unbatched insertion; a failure
     stores nothing.
     */
    method InsertBatched(rootData: Bytes, e: ChildEntry, ghost depth: nat) returns (r: Result<Write, Error>)
      requires DataGrounded(entries, algo, rootData, depth)
      modifies this
      ensures r == InsertData(old(entries), algo, rootData, e, depth).outcome
      ensures entries
           == if r.Ok? then Apply(old(entries), InsertData(old(entries), algo, rootData, e, depth).writes)
              else old(entries)
    {
      var batch := new WriteBatch();
      var root := DecodeNode(rootData, algo.length);
      if root.Err? { return Err(root.error); }
      DecodedIsShaped(rootData, algo.length);
      var result := InsertNodeBatched(root.value, e, batch, depth);
      match result {
        case Err(error) => return Err(error);
        case Ok(Stored(hash, data)) => r := Ok(Write(hash, data));
        case Ok(Parted(l, k, right)) =>
          r := PutNode(algo, Internal([k], [l, right]));
          if r.Err? { return; }
          batch.Add(r.value);
      }
      FlushBatch(batch);
    }

    /** `btree_delete` */
    method Delete(hash: Bytes, name: Bytes, ghost depth: nat) returns (r: Result<Option<Bytes>, Error>)
      requires GroundedAt(entries, algo, hash, depth)
      modifies this
      ensures r == DeleteStep(old(entries), algo, hash, name, depth).outcome
      ensures entries == Apply(old(entries), DeleteStep(old(entries), algo, hash, name, depth).writes)
      decreases depth
    {
      ghost var start := entries;
      if hash !in entries { return Err(NotFound); }
      var node := DecodeNode(entries[hash], algo.length);
      if node.Err? { return Err(node.error); }
      DecodedIsShaped(entries[hash], algo.length);
      match node.value {
        case Leaf(es) =>
          r := DeleteFromLeaf(es, name);
        case Internal(keys, children) =>
          var i := ChildIndex(keys, name);
          ghost var below := DeleteStep(start, algo, children[i], name, depth - 1);
          var result := Delete(children[i], name, depth - 1);
          r := DeleteFromParent(keys, children, i, result, start, below);
      }
    }

    method DeleteFromLeaf(es: seq<ChildEntry>, name: Bytes) returns (r: Result<Option<Bytes>, Error>)
      modifies this
      ensures var rest := Remove(es, name);
              var step := if rest == [] then Step([], Ok(None)) else StoreChanged(algo, Leaf(rest), []);
              r == step.outcome && entries == Apply(old(entries), step.writes)
    {
      var leaf := new LeafNode(es);
      var removed := leaf.Remove(name);
      if leaf.entries == [] { return Ok(None); }
      r := StoreChangedAfter(Leaf(leaf.entries), entries, []);
    }

    method DeleteFromParent(keys: seq<Bytes>, children: seq<Bytes>, i: nat, result: Result<Option<Bytes>, Error>,
                            ghost start: Store, ghost below: Step<Option<Bytes>>)
      returns (r: Result<Option<Bytes>, Error>)
      requires |children| == |keys| + 1 && i < |children|
      requires entries == Apply(start, below.writes) && result == below.outcome
      modifies this
      ensures r == StoreWithout(algo, keys, children, i, below).outcome
      ensures entries == Apply(start, StoreWithout(algo, keys, children, i, below).writes)
    {
      var internal := new InternalNode(keys, children);
      match result {
        case Err(error) =>
          r := Err(error);
        case Ok(Some(newChild)) =>
          internal.children := internal.children[i := newChild];
          r := StoreChangedAfter(Internal(internal.keys, internal.children), start, below.writes);
        case Ok(None) =>
          r := DropChild(internal, i, start, below);
      }
    }

    /** The child and a key beside it go; a node with one child left is replaced by it. */
    method DropChild(internal: InternalNode, i: nat, ghost start: Store, ghost below: Step<Option<Bytes>>)
      returns (r: Result<Option<Bytes>, Error>)
      requires |internal.children| == |internal.keys| + 1 && i < |internal.children|
      requires below.outcome == Ok(None) && entries == Apply(start, below.writes)
      modifies this, internal
      ensures var step := StoreWithout(algo, old(internal.keys), old(internal.children), i, below);
              r == step.outcome && entries == Apply(start, step.writes)
    {
      if i < |internal.keys| {
        internal.keys := internal.keys[..i] + internal.keys[i + 1..];
      } else if internal.keys != [] {
        internal.keys := internal.keys[..i - 1] + internal.keys[i..];
      }
      internal.children := internal.children[..i] + internal.children[i + 1..];
      if internal.children == [] {
        r := Ok(None);
      } else if |internal.children| == 1 {
        r := Ok(Some(internal.children[0]));
      } else {
        r := StoreChangedAfter(Internal(internal.keys, internal.children), start, below.writes);
      }
    }

    method StoreChangedAfter(node: BTreeNode, ghost start: Store, ghost before: seq<Write>)
      returns (r: Result<Option<Bytes>, Error>)
      requires entries == Apply(start, before)
      modifies this
      ensures r == StoreChanged(algo, node, before).outcome
      ensures entries == Apply(start, StoreChanged(algo, node, before).writes)
    {
      var w := StoreNode(node);
      if w.Err? { return Err(w.error); }
      ApplyOne(start, before, w.value);
      r := Ok(Some(w.value.hash));
    }

    /** `btree_lookup` */
    method Lookup(hash: Bytes, name: Bytes, ghost depth: nat) returns (r: Result<Option<ChildEntry>, Error>)
      requires GroundedAt(entries, algo, hash, depth)
      ensures r == LookupAt(entries, algo, hash, name, depth)
      decreases depth
    {
      if hash !in entries { return Err(NotFound); }
      var node := DecodeNode(entries[hash], algo.length);
      if node.Err? { return Err(node.error); }
      DecodedIsShaped(entries[hash], algo.length);
      match node.value {
        case Leaf(es) => r := Ok(Find(es, name));
        case Internal(keys, children) => r := Lookup(children[ChildIndex(keys, name)], name, depth - 1);
      }
    }

    /** `btree_list` */
    method List(hash: Bytes, ghost depth: nat) returns (r: Result<seq<ChildEntry>, Error>)
      requires GroundedAt(entries, algo, hash, depth)
      ensures r == ListAt(entries, algo, hash, depth)
      decreases depth
    {
      if hash !in entries { return Err(NotFound); }
      var node := DecodeNode(entries[hash], algo.length);
      if node.Err? { return Err(node.error); }
      match node.value {
        case Leaf(es) =>
          r := Ok(es);
        case Internal(_, children) =>
          var all: seq<ChildEntry> := [];
          for i := 0 to |children|
            invariant ListAll(entries, algo, children, i, depth - 1) == Ok(all)
          {
            var part := List(children[i], depth - 1);
            if part.Err? {
              ListFails(entries, algo, children, i, |children|, depth - 1);
              return part;
            }
            all := all + part.value;
          }
          r := Ok(all);
      }
    }
  }

  lemma {:induction false} ListFails(store: Store, algo: Algo, children: seq<Bytes>, i: nat, n: nat, depth: nat)
    requires i < n <= |children| && forall j :: 0 <= j < |children| ==> GroundedAt(store, algo, children[j], depth)
    requires ListAll(store, algo, children, i, depth).Ok? && ListAt(store, algo, children[i], depth).Err?
    ensures ListAll(store, algo, children, n, depth) == Err(ListAt(store, algo, children[i], depth).error)
    decreases n
  {
    if n > i + 1 { ListFails(store, algo, children, i, n - 1, depth); }
  }
}
