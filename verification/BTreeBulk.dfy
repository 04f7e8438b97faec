/**
 Building a B-tree directory from a list of entries (`btree_from_entries`), level by level, and
 exactly when the tree it builds can be read back.
 */
module BTreeBulk {
  import opened Common
  import opened Bytes
  import opened DirectoryCodec
  import opened SortedEntries
  import opened BTree
  import opened BTreeStore

  const MAX_CHILDREN: nat := MAX_INTERNAL_KEYS + 1

  // ---------------------------------------------------------------------------
  // Stable sorting by name
  // ---------------------------------------------------------------------------

  /** `e` after every entry whose name is not larger. */
  function PlaceStably(es: seq<ChildEntry>, e: ChildEntry): seq<ChildEntry> {
    if es == [] || Less(e.name, es[0].name) then [e] + es else [es[0]] + PlaceStably(es[1..], e)
  }

  function SortByName(es: seq<ChildEntry>): seq<ChildEntry> {
    if es == [] then [] else PlaceStably(SortByName(es[..|es| - 1]), es[|es| - 1])
  }

  predicate InOrder(es: seq<ChildEntry>) {
    forall i, j :: 0 <= i < j < |es| ==> !Less(es[j].name, es[i].name)
  }

  lemma {:induction false} PlacedMultiset(es: seq<ChildEntry>, e: ChildEntry)
    ensures multiset(PlaceStably(es, e)) == multiset(es) + multiset{e}
  {
    if es != [] && !Less(e.name, es[0].name) {
      PlacedMultiset(es[1..], e);
      assert es == [es[0]] + es[1..];
    }
  }

  lemma PlacedMember(es: seq<ChildEntry>, e: ChildEntry, x: ChildEntry)
    ensures x in PlaceStably(es, e) <==> x in es || x == e
  {}

  lemma {:induction false} PlacedInOrder(es: seq<ChildEntry>, e: ChildEntry)
    requires InOrder(es)
    ensures InOrder(PlaceStably(es, e))
  {
    var p := PlaceStably(es, e);
    if es == [] {
    } else if Less(e.name, es[0].name) {
      forall i, j | 0 <= i < j < |p| ensures !Less(p[j].name, p[i].name) {
        var y := es[j - 1];
        if i == 0 && Less(y.name, e.name) { LessTransitive(y.name, e.name, es[0].name); LessIrreflexive(es[0].name); }
        if i > 0 { assert p[i] == es[i - 1] && p[j] == es[j - 1]; }
      }
    } else {
      var tail := PlaceStably(es[1..], e);
      assert forall i :: 0 <= i < |es| - 1 ==> es[1..][i] == es[i + 1];
      assert InOrder(es[1..]);
      PlacedInOrder(es[1..], e);
      forall i, j | 0 <= i < j < |p| ensures !Less(p[j].name, p[i].name) {
        assert p[j] == tail[j - 1];
        if i == 0 {
          PlacedMember(es[1..], e, p[j]);
          if p[j] != e {
            var k :| 1 <= k < |es| && es[k] == p[j];
          }
        } else {
          assert p[i] == tail[i - 1];
        }
      }
    }
  }

  /** The sorted list is in name order and holds the same entries as often. */
  lemma {:induction false} SortByNameSorts(es: seq<ChildEntry>)
    ensures InOrder(SortByName(es)) && multiset(SortByName(es)) == multiset(es) && |SortByName(es)| == |es|
  {
    if es != [] {
      var init, last := es[..|es| - 1], es[|es| - 1];
      SortByNameSorts(init);
      PlacedInOrder(SortByName(init), last);
      PlacedMultiset(SortByName(init), last);
      assert es == init + [last];
    }
    assert |multiset(SortByName(es))| == |SortByName(es)| && |multiset(es)| == |es|;
  }

  /** The entries of one name, in their order. */
  function Named(es: seq<ChildEntry>, name: Bytes): seq<ChildEntry> {
    if es == [] then [] else (if es[0].name == name then [es[0]] else []) + Named(es[1..], name)
  }

  lemma {:induction false} NoneNamed(es: seq<ChildEntry>, name: Bytes)
    requires forall x :: x in es ==> x.name != name
    ensures Named(es, name) == []
  {
    if es != [] { NoneNamed(es[1..], name); }
  }

  lemma {:induction false} PlacedLast(es: seq<ChildEntry>, e: ChildEntry, name: Bytes)
    requires InOrder(es)
    ensures Named(PlaceStably(es, e), name) == Named(es, name) + if e.name == name then [e] else []
  {
    var more := if e.name == name then [e] else [];
    if es == [] {
      assert ([e] + es)[1..] == es && [] + more == more + [];
    } else if Less(e.name, es[0].name) {
      assert ([e] + es)[1..] == es;
      if e.name == name { AllLarger(es, e); NoneNamed(es, name); }
    } else {
      var rest := PlaceStably(es[1..], e);
      assert InOrder(es[1..]) by { assert forall i :: 0 <= i < |es| - 1 ==> es[1..][i] == es[i + 1]; }
      PlacedLast(es[1..], e, name);
      assert ([es[0]] + rest)[1..] == rest;
      Regroup(if es[0].name == name then [es[0]] else [], Named(es[1..], name), more);
    }
  }

  lemma AllLarger(es: seq<ChildEntry>, e: ChildEntry)
    requires InOrder(es) && es != [] && Less(e.name, es[0].name)
    ensures forall x :: x in es ==> x.name != e.name
  {
    forall x | x in es ensures x.name != e.name {
      var i :| 0 <= i < |es| && es[i] == x;
      LessIrreflexive(e.name);
    }
  }

  /** Entries of one name stay in the order they were given in. */
  lemma {:induction false} SortIsStable(es: seq<ChildEntry>, name: Bytes)
    ensures Named(SortByName(es), name) == Named(es, name)
  {
    if es != [] {
      var init, last := es[..|es| - 1], es[|es| - 1];
      SortIsStable(init, name);
      SortByNameSorts(init);
      PlacedLast(SortByName(init), last, name);
      NamedMore(init, last, name);
      assert es == init + [last];
    }
  }

  lemma {:induction false} NamedMore(es: seq<ChildEntry>, e: ChildEntry, name: Bytes)
    ensures Named(es + [e], name) == Named(es, name) + if e.name == name then [e] else []
  {
    var more := if e.name == name then [e] else [];
    if es == [] {
      assert (es + [e])[1..] == [] && [] + more == more + [];
    } else {
      NamedMore(es[1..], e, name);
      assert (es + [e])[1..] == es[1..] + [e];
      Regroup(if es[0].name == name then [es[0]] else [], Named(es[1..], name), more);
    }
  }

  predicate DistinctNames(es: seq<ChildEntry>) {
    forall i, j :: 0 <= i < j < |es| ==> es[i].name != es[j].name
  }

  lemma OrderedDistinctIsSorted(es: seq<ChildEntry>)
    requires InOrder(es) && DistinctNames(es)
    ensures Sorted(es)
  {
    forall i, j | 0 <= i < j < |es| ensures Less(Names(es)[i], Names(es)[j]) { LessTotal(es[i].name, es[j].name); }
  }

  lemma {:induction false} PlacedDistinct(es: seq<ChildEntry>, e: ChildEntry)
    requires DistinctNames(es) && forall x :: x in es ==> x.name != e.name
    ensures DistinctNames(PlaceStably(es, e))
  {
    if es != [] && !Less(e.name, es[0].name) {
      PlacedDistinct(es[1..], e);
      var tail := PlaceStably(es[1..], e);
      forall x | x in tail ensures x.name != es[0].name { PlacedMember(es[1..], e, x); }
    }
  }

  lemma {:induction false} SortedByName(es: seq<ChildEntry>)
    requires DistinctNames(es)
    ensures Sorted(SortByName(es))
  {
    SortedDistinct(es);
    SortByNameSorts(es);
    OrderedDistinctIsSorted(SortByName(es));
  }

  lemma {:induction false} SortedDistinct(es: seq<ChildEntry>)
    requires DistinctNames(es)
    ensures DistinctNames(SortByName(es))
  {
    if es != [] {
      var init, last := es[..|es| - 1], es[|es| - 1];
      SortedDistinct(init);
      SortByNameSorts(init);
      forall x | x in SortByName(init) ensures x.name != last.name {
        assert x in multiset(SortByName(init));
        assert x in init;
      }
      PlacedDistinct(SortByName(init), last);
    }
  }

  // ---------------------------------------------------------------------------
  // The levels of the tree, by the writes they take
  // ---------------------------------------------------------------------------

  /** The nodes of a level and the keys between them. */
  datatype Level = Level(hashes: seq<Bytes>, keys: seq<Bytes>)

  function Min(a: nat, b: nat): nat {
    if a < b then a else b
  }

  /** One leaf more; every leaf but the first brings its first name as a key. */
  function WithLeaf(made: Level, hash: Bytes, name: Bytes): Level {
    Level(made.hashes + [hash], if made.hashes == [] then made.keys else made.keys + [name])
  }

  /** One node more, over children from `i` on. */
  function WithGroup(made: Level, hash: Bytes, keys: seq<Bytes>, i: nat): Level {
    Level(made.hashes + [hash],
          if made.hashes != [] && i > 0 && i - 1 < |keys| then made.keys + [keys[i - 1]] else made.keys)
  }

  function StoreLeaves(algo: Algo, es: seq<ChildEntry>, i: nat, made: Level, writes: seq<Write>): Step<Level>
    requires i <= |es|
    decreases |es| - i
  {
    if i == |es| then Step(writes, Ok(made)) else
    var chunk := es[i..Min(i + MAX_LEAF_ENTRIES, |es|)];
    match PutNode(algo, Leaf(chunk))
    case Err(error) => Step(writes, Err(error))
    case Ok(w) =>
      StoreLeaves(algo, es, i + |chunk|, WithLeaf(made, w.hash, chunk[0].name), writes + [w])
  }

  /** The keys given to the node over children `i..end`: past the first node there is one too many. */
  function GroupKeys(keys: seq<Bytes>, i: nat, end: nat): seq<Bytes>
    requires i < end <= |keys| + 1
  {
    if i == 0 then keys[..end - 1] else keys[i - 1..end - 1]
  }

  function StoreGroups(algo: Algo, level: Level, i: nat, made: Level, writes: seq<Write>): Step<Level>
    requires i <= |level.hashes| == |level.keys| + 1
    decreases |level.hashes| - i
  {
    if i == |level.hashes| then Step(writes, Ok(made)) else
    var end := Min(i + MAX_CHILDREN, |level.hashes|);
    match PutNode(algo, Internal(GroupKeys(level.keys, i, end), level.hashes[i..end]))
    case Err(error) => Step(writes, Err(error))
    case Ok(w) =>
      StoreGroups(algo, level, end, WithGroup(made, w.hash, level.keys, i), writes + [w])
  }

  lemma {:induction false} GroupsCounted(algo: Algo, level: Level, i: nat, made: Level, writes: seq<Write>)
    requires i <= |level.hashes| == |level.keys| + 1 && |level.hashes| > 1
    requires if i == 0 then made == Level([], []) else |made.hashes| == |made.keys| + 1 < i
    ensures var r := StoreGroups(algo, level, i, made, writes).outcome;
            r.Ok? ==> |r.value.hashes| == |r.value.keys| + 1 < |level.hashes|
    decreases |level.hashes| - i
  {
    if i < |level.hashes| {
      var end := Min(i + MAX_CHILDREN, |level.hashes|);
      var w := PutNode(algo, Internal(GroupKeys(level.keys, i, end), level.hashes[i..end]));
      if w.Ok? {
        GroupsCounted(algo, level, end, WithGroup(made, w.value.hash, level.keys, i), writes + [w.value]);
      }
    }
  }

  /** `build_internal_level` */
  function BuildLevel(algo: Algo, level: Level, writes: seq<Write>): Step<Bytes>
    requires |level.hashes| == |level.keys| + 1
    decreases |level.hashes|
  {
    if |level.hashes| == 1 then Step(writes, Ok(level.hashes[0])) else
    GroupsCounted(algo, level, 0, Level([], []), writes);
    var next := StoreGroups(algo, level, 0, Level([], []), writes);
    match next.outcome
    case Err(error) => Step(next.writes, Err(error))
    case Ok(above) =>
      if |above.hashes| == 1 then Step(next.writes, Ok(above.hashes[0])) else BuildLevel(algo, above, next.writes)
  }

  lemma {:induction false} LeavesCounted(algo: Algo, es: seq<ChildEntry>, i: nat, made: Level, writes: seq<Write>)
    requires i <= |es|
    requires if i == 0 then made == Level([], []) else |made.hashes| == |made.keys| + 1
    ensures var r := StoreLeaves(algo, es, i, made, writes).outcome;
            r.Ok? && es != [] ==> |r.value.hashes| == |r.value.keys| + 1
    decreases |es| - i
  {
    if i < |es| {
      var chunk := es[i..Min(i + MAX_LEAF_ENTRIES, |es|)];
      var w := PutNode(algo, Leaf(chunk));
      if w.Ok? {
        LeavesCounted(algo, es, i + |chunk|, WithLeaf(made, w.value.hash, chunk[0].name), writes + [w.value]);
      }
    }
  }

  function FromSorted(algo: Algo, es: seq<ChildEntry>): Step<Bytes> {
    if es == [] then
      match PutNode(algo, Leaf([]))
      case Err(error) => Step([], Err(error))
      case Ok(w) => Step([w], Ok(w.hash))
    else
      var leaves := StoreLeaves(algo, es, 0, Level([], []), []);
      LeavesCounted(algo, es, 0, Level([], []), []);
      match leaves.outcome
      case Err(error) => Step(leaves.writes, Err(error))
      case Ok(level) =>
        if |level.hashes| == 1 then Step(leaves.writes, Ok(level.hashes[0])) else BuildLevel(algo, level, leaves.writes)
  }

  /** `btree_from_entries` */
  method FromEntries(engine: StorageEngine, entries: seq<ChildEntry>) returns (r: Result<Bytes, Error>)
    modifies engine
    ensures r == FromSorted(engine.algo, SortByName(entries)).outcome
    ensures engine.entries == Apply(old(engine.entries), FromSorted(engine.algo, SortByName(entries)).writes)
  {
    ghost var start := engine.entries;
    var es := SortByName(entries);
    if es == [] {
      var w := engine.StoreNode(Leaf([]));
      match w {
        case Err(error) => return Err(error);
        case Ok(write) =>
          ApplyOne(start, [], write);
          assert [] + [write] == [write];
          return Ok(write.hash);
      }
    }
    var made := Level([], []);
    ghost var writes: seq<Write> := [];
    ghost var whole := StoreLeaves(engine.algo, es, 0, made, []);
    var i := 0;
    while i < |es|
      invariant i <= |es| && engine.entries == Apply(start, writes)
      invariant whole == StoreLeaves(engine.algo, es, i, made, writes)
    {
      var chunk := es[i..Min(i + MAX_LEAF_ENTRIES, |es|)];
      var w := engine.StoreNode(Leaf(chunk));
      if w.Err? { return Err(w.error); }
      ApplyOne(start, writes, w.value);
      var keys := if made.hashes == [] then made.keys else made.keys + [chunk[0].name];
      made := Level(made.hashes + [w.value.hash], keys);
      writes := writes + [w.value];
      i := i + |chunk|;
    }
    LeavesCounted(engine.algo, es, 0, Level([], []), []);
    if |made.hashes| == 1 { return Ok(made.hashes[0]); }
    r := BuildInternalLevel(engine, made, start, writes);
  }

  method BuildInternalLevel(engine: StorageEngine, level: Level, ghost start: Store, ghost before: seq<Write>)
    returns (r: Result<Bytes, Error>)
    requires |level.hashes| == |level.keys| + 1 && engine.entries == Apply(start, before)
    modifies engine
    ensures r == BuildLevel(engine.algo, level, before).outcome
    ensures engine.entries == Apply(start, BuildLevel(engine.algo, level, before).writes)
    decreases |level.hashes|
  {
    if |level.hashes| == 1 { return Ok(level.hashes[0]); }
    var made := Level([], []);
    ghost var writes := before;
    ghost var whole := StoreGroups(engine.algo, level, 0, made, before);
    GroupsCounted(engine.algo, level, 0, made, before);
    var i := 0;
    while i < |level.hashes|
      invariant i <= |level.hashes| && engine.entries == Apply(start, writes)
      invariant whole == StoreGroups(engine.algo, level, i, made, writes)
    {
      var end := Min(i + MAX_CHILDREN, |level.hashes|);
      var w := engine.StoreNode(Internal(GroupKeys(level.keys, i, end), level.hashes[i..end]));
      if w.Err? { return Err(w.error); }
      ApplyOne(start, writes, w.value);
      var keys :=
        if made.hashes != [] && i > 0 && i - 1 < |level.keys| then made.keys + [level.keys[i - 1]] else made.keys;
      made := Level(made.hashes + [w.value.hash], keys);
      writes := writes + [w.value];
      i := end;
    }
    if |made.hashes| == 1 { return Ok(made.hashes[0]); }
    r := BuildInternalLevel(engine, made, start, writes);
  }
}
