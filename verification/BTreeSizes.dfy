/**
 How large the nodes of a tree are: a leaf takes 39 entries and is cut in twenties by the fortieth,
 a node takes 76 keys and is cut by the next, and the root of a directory that has only grown is a
 single leaf exactly as long as fewer than forty names are in it.
 */
module BTreeSizes {
  import opened Common
  import opened Bytes
  import opened DirectoryCodec
  import opened SortedEntries
  import opened BTree
  import opened BTreeStore
  import Words

  predicate Small(t: Tree) {
    match t
    case LeafTree(es) => |es| <= 39
    case NodeTree(keys, children) =>
      |keys| <= 76 && |children| == |keys| + 1 && forall i :: 0 <= i < |children| ==> Small(children[i])
  }

  /** A leaf of this many entries. */
  predicate LeafOf(t: Tree, n: nat) {
    t.LeafTree? && |t.entries| == n
  }

  predicate NodeOf(t: Tree, keys: nat) {
    t.NodeTree? && |t.keys| == keys && |t.children| == keys + 1
  }

  lemma UpsertLength(es: seq<ChildEntry>, e: ChildEntry)
    requires Sorted(es)
    ensures |Upsert(es, e)| == if e.name in Directory(es) then |es| else |es| + 1
  {
    FindDirectory(es, e.name);
  }

  /** The fortieth name of a leaf cuts it in two of twenty; up to then it stays one. */
  lemma LeafSplitsAtForty(es: seq<ChildEntry>, e: ChildEntry)
    requires Sorted(es) && |es| <= 39
    ensures var r := Insert(LeafTree(es), e);
            if |es| == 39 && e.name !in Directory(es) then
              r.Split? && LeafOf(r.left, 20) && LeafOf(r.right, 20) && r.key == r.right.entries[0].name
            else r.Done? && LeafOf(r.tree, if e.name in Directory(es) then |es| else |es| + 1)
  {
    UpsertLength(es, e);
  }

  /** The 77th key of a node cuts it in two of 38; the middle one goes up. */
  lemma NodeSplitsAtSeventySeven(keys: seq<Bytes>, children: seq<Tree>, e: ChildEntry)
    requires |keys| <= 76 && |children| == |keys| + 1
    ensures var r := Insert(NodeTree(keys, children), e);
            var below := Insert(children[ChildIndex(keys, e.name)], e);
            if |keys| == 76 && below.Split? then r.Split? && NodeOf(r.left, 38) && NodeOf(r.right, 38)
            else r.Done? && NodeOf(r.tree, if below.Split? then |keys| + 1 else |keys|)
  {}

  lemma {:induction false} InsertKeepsSmall(t: Tree, e: ChildEntry)
    requires Small(t) && Valid(t)
    ensures var r := Insert(t, e); if r.Done? then Small(r.tree) else Small(r.left) && Small(r.right)
  {
    match t
    case LeafTree(es) => LeafSplitsAtForty(es, e);
    case NodeTree(keys, children) =>
      var i := ChildIndex(keys, e.name);
      assert ValidChild(children[i], keys, i);
      InsertKeepsSmall(children[i], e);
      NodeSplitsAtSeventySeven(keys, children, e);
      if Insert(children[i], e).Split? { TakesOneMore(keys, children, i, Insert(children[i], e)); }
  }

  lemma TakesOneMore(keys: seq<Bytes>, children: seq<Tree>, i: nat, split: Inserted)
    requires |keys| <= 76 && |children| == |keys| + 1 && i < |children|
    requires forall j :: 0 <= j < |children| ==> Small(children[j])
    requires split.Split? && Small(split.left) && Small(split.right)
    ensures var r := InsertNode(keys, children, i, split);
            if r.Done? then Small(r.tree) else Small(r.left) && Small(r.right)
  {
    var p := Rank(keys, split.key);
    var cs := InsertAt(children[i := split.left], p + 1, split.right);
    assert forall j :: 0 <= j < |cs| ==> Small(cs[j]);
  }

  lemma InsertRootKeepsSmall(t: Tree, e: ChildEntry)
    requires Small(t) && Valid(t)
    ensures Small(InsertRoot(t, e))
  {
    InsertKeepsSmall(t, e);
  }

  /** A deletion makes no node larger. */
  lemma {:induction false} DeleteKeepsSmall(t: Tree, name: Bytes)
    requires Small(t)
    ensures Delete(t, name).Some? ==> Small(Delete(t, name).value)
  {
    match t
    case LeafTree(es) =>
    case NodeTree(keys, children) =>
      var i := ChildIndex(keys, name);
      DeleteKeepsSmall(children[i], name);
      if Delete(children[i], name).None? { DropKeepsSmall(keys, children, i); }
  }

  lemma DropKeepsSmall(keys: seq<Bytes>, children: seq<Tree>, i: nat)
    requires Small(NodeTree(keys, children)) && i < |children|
    ensures DropChild(keys, children, i).Some? ==> Small(DropChild(keys, children, i).value)
  {
    var cs := RemoveAt(children, i);
    forall j | 0 <= j < |cs| ensures Small(cs[j]) { assert cs[j] == children[if j < i then j else j + 1]; }
  }

  /** An emptied child goes with the key to its right, the last child with the key to its left. */
  lemma DroppedKey(keys: seq<Bytes>, children: seq<Tree>, i: nat)
    requires |children| == |keys| + 1 && i < |children|
    ensures var r := DropChild(keys, children, i);
            match |children|
            case 1 => r == None
            case 2 => r == Some(children[1 - i])
            case _ =>
              && r.Some? && r.value.NodeTree? && |r.value.keys| == |keys| - 1
              && |r.value.children| == |children| - 1
              && (forall j :: 0 <= j < |keys| - 1 ==>
                    r.value.keys[j] == keys[if j < i && j < |keys| - 1 then j else j + 1])
              && forall j :: 0 <= j < |children| - 1 ==> r.value.children[j] == children[if j < i then j else j + 1]
  {}

  // ---------------------------------------------------------------------------
  // A directory that only grows
  // ---------------------------------------------------------------------------

  /** Entries put in one after the other, into an empty directory. */
  function Grown(entries: seq<ChildEntry>): Tree {
    if entries == [] then LeafTree([]) else InsertRoot(Grown(entries[..|entries| - 1]), entries[|entries| - 1])
  }

  function NamesIn(entries: seq<ChildEntry>): set<Bytes> {
    set e | e in entries :: e.name
  }

  lemma NamesInMore(entries: seq<ChildEntry>, e: ChildEntry)
    ensures NamesIn(entries + [e]) == NamesIn(entries) + {e.name}
  {}

  lemma LastIsNew(es: seq<ChildEntry>)
    requires Sorted(es) && es != []
    ensures es[|es| - 1].name !in NamesIn(es[..|es| - 1]) && Sorted(es[..|es| - 1])
  {
    var init, last := es[..|es| - 1], es[|es| - 1];
    SortedSlice(es, 0, |es| - 1);
    assert es[0..|es| - 1] == init;
    forall x | x in init ensures x.name != last.name {
      var i :| 0 <= i < |init| && init[i] == x;
      SortedBetween(es, i, |es| - 1);
      LessIrreflexive(x.name);
    }
  }

  lemma {:induction false} CountNames(es: seq<ChildEntry>)
    requires Sorted(es)
    ensures |NamesIn(es)| == |es|
  {
    if es != [] {
      var init, last := es[..|es| - 1], es[|es| - 1];
      LastIsNew(es);
      CountNames(init);
      assert es == init + [last];
      NamesInMore(init, last);
    }
  }

  lemma KeysAreNames(es: seq<ChildEntry>)
    requires Sorted(es)
    ensures Directory(es).Keys == NamesIn(es)
  {}

  /** A tree of these names in which no leaf and no node is too large. */
  ghost predicate GrownTo(t: Tree, names: set<Bytes>) {
    && Small(t) && Valid(t) && Sorted(Listing(t)) && Directory(Listing(t)).Keys == names
    && (t.LeafTree? <==> |names| < 40)
  }

  /**
   However many entries were put in, in whatever order: no leaf holds more than 39 and no node more
   than 76 keys; the root is a leaf exactly as long as fewer than forty names were given.
   */
  lemma {:induction false} GrownIsSmall(entries: seq<ChildEntry>)
    ensures GrownTo(Grown(entries), NamesIn(entries))
  {
    if entries != [] {
      var init, e := entries[..|entries| - 1], entries[|entries| - 1];
      GrownIsSmall(init);
      assert entries == init + [e];
      NamesInMore(init, e);
      OneMoreIsSmall(Grown(init), NamesIn(init), e);
    }
  }

  lemma OneMoreIsSmall(t: Tree, names: set<Bytes>, e: ChildEntry)
    requires GrownTo(t, names)
    ensures GrownTo(InsertRoot(t, e), names + {e.name})
  {
    InsertRootKeepsSmall(t, e);
    InsertRootCorrect(t, e);
    UpsertDirectory(Listing(t), e);
    match t
    case LeafTree(es) =>
      LeafSplitsAtForty(es, e);
      CountNames(es);
      KeysAreNames(es);
    case NodeTree(keys, children) =>
      NodeSplitsAtSeventySeven(keys, children, e);
      Words.SubsetSize(names, names + {e.name});
  }

  // ---------------------------------------------------------------------------
  // In the store
  // ---------------------------------------------------------------------------

  /** What is written for a leaf of so many entries: one node below forty, two halves from there on. */
  lemma LeavesPartAtForty(algo: Algo, es: seq<ChildEntry>)
    requires StoreLeaf(algo, es).outcome.Ok?
    ensures var step := StoreLeaf(algo, es);
            if |es| < 40 then
              && PutNode(algo, Leaf(es)).Ok? && step.writes == [PutNode(algo, Leaf(es)).value]
              && step.outcome == Ok(Stored(step.writes[0].hash, step.writes[0].data))
            else
              var half := |es| / 2;
              && PutNode(algo, Leaf(es[..half])).Ok? && PutNode(algo, Leaf(es[half..])).Ok?
              && step.writes == [PutNode(algo, Leaf(es[..half])).value, PutNode(algo, Leaf(es[half..])).value]
              && step.outcome == Ok(Parted(step.writes[0].hash, es[half].name, step.writes[1].hash))
  {}

  /** The same for a node of so many keys, at 77. */
  lemma NodesPartAtSeventySeven(algo: Algo, keys: seq<Bytes>, children: seq<Bytes>, before: seq<Write>)
    requires |children| == |keys| + 1 && StoreInternal(algo, keys, children, before).outcome.Ok?
    ensures var step := StoreInternal(algo, keys, children, before);
            if |keys| < 77 then
              && PutNode(algo, Internal(keys, children)).Ok?
              && step.writes == before + [PutNode(algo, Internal(keys, children)).value]
            else
              var half := |keys| / 2;
              var l := PutNode(algo, Internal(keys[..half], children[..half + 1]));
              var r := PutNode(algo, Internal(keys[half + 1..], children[half + 1..]));
              && l.Ok? && r.Ok? && step.writes == before + [l.value] + [r.value]
              && step.outcome == Ok(Parted(l.value.hash, keys[half], r.value.hash))
  {}
}
