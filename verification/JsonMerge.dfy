/**
 The plugin SDK's recursive merge (`merge_into`, `merged`, `merge_all`), and the MergePatch function
 of section 2 of RFC 7396 as the yardstick for merges.
 */
module JsonMerge {
  import opened Common
  import opened Json

  // ---------------------------------------------------------------------------
  // The SDK merge
  // ---------------------------------------------------------------------------

  function Merge(base: Value, overlay: Value): Value
    decreases overlay, 1
  {
    if base.Object? && overlay.Object? then
      Object(MergeMembers(base.members, overlay, overlay.members.Keys))
    else
      overlay
  }

  /** `base` after the overlay members named in `done` have been merged into it. */
  function MergeMembers(base: map<string, Value>, overlay: Value, done: set<string>): map<string, Value>
    requires overlay.Object? && done <= overlay.members.Keys
    decreases overlay, 0
  {
    map k | k in base.Keys + done ::
      if k !in done then base[k]
      else if k in base then Merge(base[k], overlay.members[k])
      else overlay.members[k]
  }

  /** The overlay's members are visited in any order. */
  method MergeInto(base: Value, overlay: Value) returns (merged: Value)
    ensures merged == Merge(base, overlay)
    decreases overlay
  {
    if base.Object? && overlay.Object? {
      var members := base.members;
      var pending := overlay.members.Keys;
      while pending != {}
        invariant pending <= overlay.members.Keys
        invariant members == MergeMembers(base.members, overlay, overlay.members.Keys - pending)
      {
        var key :| key in pending;
        if key in members {
          var child := MergeInto(members[key], overlay.members[key]);
          members := members[key := child];
        } else {
          members := members[key := overlay.members[key]];
        }
        pending := pending - {key};
      }
      merged := Object(members);
    } else {
      merged := overlay;
    }
  }

  /** What a merge of two objects holds under each name. */
  lemma MergeObjects(base: Value, overlay: Value)
    requires base.Object? && overlay.Object?
    ensures Merge(base, overlay).Object?
    ensures Merge(base, overlay).members.Keys == base.members.Keys + overlay.members.Keys
    ensures forall k :: k in base.members && k !in overlay.members ==>
              Merge(base, overlay).members[k] == base.members[k]
    ensures forall k :: k in overlay.members && k !in base.members ==>
              Merge(base, overlay).members[k] == overlay.members[k]
    ensures forall k :: k in base.members && k in overlay.members ==>
              Merge(base, overlay).members[k] == Merge(base.members[k], overlay.members[k])
  {}

  function MergeAllOf(base: Value, overlays: seq<Value>): Value {
    if overlays == [] then base
    else Merge(MergeAllOf(base, overlays[..|overlays| - 1]), overlays[|overlays| - 1])
  }

  method MergeAll(base: Value, overlays: seq<Value>) returns (merged: Value)
    ensures merged == MergeAllOf(base, overlays)
  {
    merged := base;
    for i := 0 to |overlays|
      invariant merged == MergeAllOf(base, overlays[..i])
    {
      merged := MergeInto(merged, overlays[i]);
      assert overlays[..i + 1][..i] == overlays[..i];
    }
    assert overlays[..|overlays|] == overlays;
  }

  /** Some value of `overlay` above `path` is not an object, so it ends the path. */
  predicate Blocked(overlay: Value, path: seq<string>) {
    exists i :: 0 <= i < |path| && NonObjectAt(overlay, path[..i])
  }

  predicate NonObjectAt(v: Value, path: seq<string>) {
    At(v, path).Some? && !At(v, path).value.Object?
  }

  predicate ObjectAt(v: Value, path: seq<string>) {
    At(v, path).Some? && At(v, path).value.Object?
  }

  lemma {:induction false} BlockedBelow(overlay: Value, path: seq<string>)
    requires path != [] && overlay.Object? && path[0] in overlay.members
    ensures Blocked(overlay, path) <==> Blocked(overlay.members[path[0]], path[1..])
  {
    var child := overlay.members[path[0]];
    if Blocked(overlay, path) {
      var i :| 0 <= i < |path| && NonObjectAt(overlay, path[..i]);
      assert path[..i][1..] == path[1..][..i - 1];
      assert NonObjectAt(child, path[1..][..i - 1]);
    }
    if Blocked(child, path[1..]) {
      var i :| 0 <= i < |path[1..]| && NonObjectAt(child, path[1..][..i]);
      assert path[..i + 1][1..] == path[1..][..i];
      assert NonObjectAt(overlay, path[..i + 1]);
    }
  }

  /**
   The merge, path by path: where the overlay has a value it wins, except that an object meeting an
   object merges with it; where the overlay has none the base value survives, unless the overlay
   put a non-object on the way.
   */
  lemma {:induction false} MergeAt(base: Value, overlay: Value, path: seq<string>)
    ensures At(overlay, path).Some? && !(ObjectAt(overlay, path) && ObjectAt(base, path)) ==>
              At(Merge(base, overlay), path) == At(overlay, path)
    ensures ObjectAt(overlay, path) && ObjectAt(base, path) ==>
              At(Merge(base, overlay), path) == Some(Merge(At(base, path).value, At(overlay, path).value))
    ensures At(overlay, path).None? ==>
              At(Merge(base, overlay), path) == if Blocked(overlay, path) then None else At(base, path)
    decreases overlay
  {
    if path == [] {
    } else if !overlay.Object? {
      assert NonObjectAt(overlay, path[..0]);
    } else if path[0] !in overlay.members {
      forall i | 0 <= i < |path| ensures !NonObjectAt(overlay, path[..i]) {
        if i > 0 { assert path[..i][0] == path[0]; }
      }
    } else if base.Object? && path[0] in base.members {
      MergeAt(base.members[path[0]], overlay.members[path[0]], path[1..]);
      BlockedBelow(overlay, path);
    }
  }

  /** Merging the same overlay again changes nothing. */
  lemma {:induction false} MergeIdempotent(base: Value, overlay: Value)
    ensures Merge(Merge(base, overlay), overlay) == Merge(base, overlay)
    decreases overlay
  {
    if overlay.Object? && base.Object? {
      var once := Merge(base, overlay);
      MergeObjects(base, overlay);
      MergeObjects(once, overlay);
      forall k | k in overlay.members ensures Merge(once.members[k], overlay.members[k]) == once.members[k] {
        if k in base.members {
          MergeIdempotent(base.members[k], overlay.members[k]);
        } else {
          MergeSelf(overlay.members[k]);
        }
      }
      assert Merge(once, overlay).members == once.members;
    } else {
      MergeSelf(overlay);
    }
  }

  lemma {:induction false} MergeSelf(v: Value)
    ensures Merge(v, v) == v
  {
    if v.Object? {
      MergeObjects(v, v);
      forall k | k in v.members ensures Merge(v.members[k], v.members[k]) == v.members[k] {
        MergeSelf(v.members[k]);
      }
      assert Merge(v, v).members == v.members;
    }
  }

  /** `later` puts no object where `earlier` has a non-object. */
  predicate Compatible(earlier: Value, later: Value)
    decreases later
  {
    later.Object? ==>
      earlier.Object? &&
      forall k :: k in later.members && k in earlier.members ==> Compatible(earlier.members[k], later.members[k])
  }

  lemma {:induction false} MergeAssociates(base: Value, first: Value, second: Value)
    requires Compatible(first, second)
    ensures Merge(Merge(base, first), second) == Merge(base, Merge(first, second))
    decreases second
  {
    if base.Object? && first.Object? && second.Object? {
      var left := Merge(Merge(base, first), second);
      var right := Merge(base, Merge(first, second));
      MergeObjects(base, first);
      MergeObjects(first, second);
      MergeObjects(Merge(base, first), second);
      MergeObjects(base, Merge(first, second));
      forall k | k in left.members ensures left.members[k] == right.members[k] {
        if k in base.members && k in first.members && k in second.members {
          MergeAssociates(base.members[k], first.members[k], second.members[k]);
        }
      }
      assert left.members == right.members;
    }
  }

  lemma NameOutside(names: set<string>) returns (outside: string)
    ensures outside !in names
  {
    var n := LongerThanAll(names);
    outside := seq(n, _ => 'a');
  }

  lemma {:induction false} LongerThanAll(names: set<string>) returns (n: nat)
    ensures forall k :: k in names ==> |k| < n
  {
    if names == {} {
      n := 0;
    } else {
      var k :| k in names;
      var m := LongerThanAll(names - {k});
      n := if m > |k| then m else |k| + 1;
    }
  }

  /** Where a later object meets an earlier non-object, some base tells the two orders apart. */
  lemma {:induction false} ClashIsVisible(first: Value, second: Value) returns (base: Value)
    requires !Compatible(first, second)
    ensures Merge(Merge(base, first), second) != Merge(base, Merge(first, second))
    decreases second
  {
    if !first.Object? {
      var outside := NameOutside(second.members.Keys);
      base := Object(map[outside := Null]);
      MergeObjects(base, second);
      assert outside in Merge(base, Merge(first, second)).members;
    } else {
      var k :| k in second.members && k in first.members && !Compatible(first.members[k], second.members[k]);
      var below := ClashIsVisible(first.members[k], second.members[k]);
      base := Object(map[k := below]);
      MergeObjects(base, first);
      MergeObjects(first, second);
      MergeObjects(Merge(base, first), second);
      MergeObjects(base, Merge(first, second));
      assert Merge(Merge(base, first), second).members[k] != Merge(base, Merge(first, second)).members[k];
    }
  }

  /** Two overlays can be merged beforehand, whatever the base, exactly when they are compatible. */
  lemma PremergeExactlyWhenCompatible(first: Value, second: Value)
    ensures (forall base: Value :: Merge(Merge(base, first), second) == Merge(base, Merge(first, second)))
            <==> Compatible(first, second)
  {
    if Compatible(first, second) {
      forall base: Value ensures Merge(Merge(base, first), second) == Merge(base, Merge(first, second)) {
        MergeAssociates(base, first, second);
      }
    } else {
      var base := ClashIsVisible(first, second);
    }
  }

  lemma {:induction false} CompatibleWithMerge(a: Value, b: Value, later: Value)
    requires Compatible(a, later) && Compatible(b, later)
    ensures Compatible(Merge(a, b), later)
    decreases later
  {
    if later.Object? {
      forall k | k in later.members && k in Merge(a, b).members
        ensures Compatible(Merge(a, b).members[k], later.members[k])
      {
        if k in a.members && k in b.members {
          CompatibleWithMerge(a.members[k], b.members[k], later.members[k]);
        }
      }
    }
  }

  predicate PairwiseCompatible(overlays: seq<Value>) {
    forall i, j :: 0 <= i < j < |overlays| ==> Compatible(overlays[i], overlays[j])
  }

  lemma {:induction false} CompatibleWithMergeAll(first: Value, rest: seq<Value>, later: Value)
    requires Compatible(first, later)
    requires forall i :: 0 <= i < |rest| ==> Compatible(rest[i], later)
    ensures Compatible(MergeAllOf(first, rest), later)
  {
    if rest != [] {
      CompatibleWithMergeAll(first, rest[..|rest| - 1], later);
      CompatibleWithMerge(MergeAllOf(first, rest[..|rest| - 1]), rest[|rest| - 1], later);
    }
  }

  /** `merge_all` over compatible overlays is one merge of the overlays merged beforehand. */
  lemma {:induction false} MergeAllPremerges(base: Value, first: Value, rest: seq<Value>)
    requires PairwiseCompatible([first] + rest)
    ensures MergeAllOf(base, [first] + rest) == Merge(base, MergeAllOf(first, rest))
  {
    var all := [first] + rest;
    var n := |rest|;
    if n == 0 {
      assert all[..0] == [];
      assert MergeAllOf(base, all) == Merge(MergeAllOf(base, []), first);
    } else {
      var init, last := rest[..n - 1], rest[n - 1];
      assert all[..n] == [first] + init;
      assert PairwiseCompatible([first] + init) by {
        forall i, j | 0 <= i < j < n ensures Compatible(([first] + init)[i], ([first] + init)[j]) {
          assert ([first] + init)[i] == all[i] && ([first] + init)[j] == all[j];
        }
      }
      MergeAllPremerges(base, first, init);
      assert Compatible(first, last) by { assert all[0] == first && all[n] == last; }
      forall i | 0 <= i < |init| ensures Compatible(init[i], last) {
        assert all[i + 1] == init[i] && all[n] == last;
      }
      CompatibleWithMergeAll(first, init, last);
      MergeAssociates(base, MergeAllOf(first, init), last);
    }
  }

  // ---------------------------------------------------------------------------
  // When a list of overlays can be merged beforehand
  // ---------------------------------------------------------------------------

  /** What a run of overlays does at one place: set it, or change what lies below it. */
  datatype Change = Set(value: Value) | Below(members: map<string, Change>)

  function ChangeOf(overlay: Value): Change {
    if overlay.Object? then Below(map k | k in overlay.members :: ChangeOf(overlay.members[k])) else Set(overlay)
  }

  /** The effect of a change; an absent member is changed as a null is. */
  function Effect(base: Value, change: Change): Value
    decreases change
  {
    match change
    case Set(v) => v
    case Below(ms) =>
      var prior := MembersOf(base);
      Object(map k | k in prior.Keys + ms.Keys ::
        if k !in ms then prior[k] else Effect(if k in prior then prior[k] else Null, ms[k]))
  }

  function Then(first: Change, second: Change): Change
    decreases second
  {
    if second.Set? then second
    else if first.Set? then Set(Effect(first.value, second))
    else
      Below(map k | k in first.members.Keys + second.members.Keys ::
        if k !in second.members then first.members[k]
        else if k !in first.members then second.members[k]
        else Then(first.members[k], second.members[k]))
  }

  /** The change made by a non-empty run of overlays. */
  function ChangeOfAll(first: Value, rest: seq<Value>): Change {
    if rest == [] then ChangeOf(first)
    else Then(ChangeOfAll(first, rest[..|rest| - 1]), ChangeOf(rest[|rest| - 1]))
  }

  /** Nowhere does the change set an object: an object meets no earlier non-object. */
  predicate SetsNoObject(change: Change) {
    match change
    case Set(v) => !v.Object?
    case Below(ms) => forall k :: k in ms ==> SetsNoObject(ms[k])
  }

  lemma {:induction false} EffectOfOverlay(base: Value, overlay: Value)
    ensures Effect(base, ChangeOf(overlay)) == Merge(base, overlay)
    decreases overlay
  {
    if overlay.Object? {
      var left, right := Effect(base, ChangeOf(overlay)), Merge(base, overlay);
      if base.Object? { MergeObjects(base, overlay); }
      forall k | k in overlay.members ensures k in right.members && left.members[k] == right.members[k] {
        EffectOfOverlay(if k in MembersOf(base) then MembersOf(base)[k] else Null, overlay.members[k]);
      }
      assert left.members == right.members;
    }
  }

  lemma {:induction false} EffectOfThen(base: Value, first: Change, second: Change)
    ensures Effect(Effect(base, first), second) == Effect(base, Then(first, second))
    decreases second
  {
    if first.Below? && second.Below? {
      var left, right := Effect(Effect(base, first), second), Effect(base, Then(first, second));
      forall k | k in left.members ensures k in right.members && left.members[k] == right.members[k] {
        if k in first.members && k in second.members {
          EffectOfThen(if k in MembersOf(base) then MembersOf(base)[k] else Null, first.members[k], second.members[k]);
        }
      }
      assert left.members == right.members;
    }
  }

  lemma {:induction false} EffectOfAll(base: Value, first: Value, rest: seq<Value>)
    ensures Effect(base, ChangeOfAll(first, rest)) == MergeAllOf(base, [first] + rest)
    ensures Effect(Null, ChangeOfAll(first, rest)) == MergeAllOf(first, rest)
  {
    var all, n := [first] + rest, |rest|;
    if n == 0 {
      EffectOfOverlay(base, first);
      EffectOfOverlay(Null, first);
      assert all[..0] == [];
      assert MergeAllOf(base, all) == Merge(MergeAllOf(base, []), first);
    } else {
      var init, last := rest[..n - 1], rest[n - 1];
      assert all[..n] == [first] + init;
      EffectOfAll(base, first, init);
      EffectOfThen(base, ChangeOfAll(first, init), ChangeOf(last));
      EffectOfThen(Null, ChangeOfAll(first, init), ChangeOf(last));
      EffectOfOverlay(MergeAllOf(base, [first] + init), last);
      EffectOfOverlay(MergeAllOf(first, init), last);
    }
  }

  lemma {:induction false} ChangeWithoutObjects(change: Change)
    requires SetsNoObject(change)
    ensures ChangeOf(Effect(Null, change)) == change
  {
    if change.Below? {
      var back := ChangeOf(Effect(Null, change));
      forall k | k in change.members ensures k in back.members && back.members[k] == change.members[k] {
        ChangeWithoutObjects(change.members[k]);
      }
      assert back.members == change.members;
    }
  }

  lemma {:induction false} SetObjectIsVisible(change: Change) returns (base: Value)
    requires !SetsNoObject(change)
    ensures Effect(base, change) != Merge(base, Effect(Null, change))
  {
    var whole := Effect(Null, change);
    if change.Set? {
      var outside := NameOutside(whole.members.Keys);
      base := Object(map[outside := Null]);
      MergeObjects(base, whole);
    } else {
      var k :| k in change.members && !SetsNoObject(change.members[k]);
      var below := SetObjectIsVisible(change.members[k]);
      base := Object(map[k := below]);
      MergeObjects(base, whole);
      assert Effect(base, change).members[k] != Merge(base, whole).members[k];
    }
  }

  /**
   Merging the overlays beforehand gives what `merge_all` gives for every base exactly when the
   overlays, taken in order, nowhere set an object over a non-object of theirs.
   */
  lemma MergeAllPremergesExactly(first: Value, rest: seq<Value>)
    ensures (forall base: Value :: MergeAllOf(base, [first] + rest) == Merge(base, MergeAllOf(first, rest)))
            <==> SetsNoObject(ChangeOfAll(first, rest))
  {
    var change := ChangeOfAll(first, rest);
    if SetsNoObject(change) {
      forall base: Value ensures MergeAllOf(base, [first] + rest) == Merge(base, MergeAllOf(first, rest)) {
        EffectOfAll(base, first, rest);
        ChangeWithoutObjects(change);
        EffectOfOverlay(base, Effect(Null, change));
      }
    } else {
      var base := SetObjectIsVisible(change);
      EffectOfAll(base, first, rest);
    }
  }

  // ---------------------------------------------------------------------------
  // RFC 7396
  // ---------------------------------------------------------------------------

  /** MergePatch of section 2 of RFC 7396; an absent target is as good as any non-object. */
  function MergePatch(target: Value, patch: Value): Value
    decreases patch
  {
    if patch.Object? then
      var prior := MembersOf(target);
      Object(map k | k in prior.Keys + patch.members.Keys && !(k in patch.members && patch.members[k].Null?) ::
        if k !in patch.members then prior[k]
        else MergePatch(if k in prior then prior[k] else Null, patch.members[k]))
    else
      patch
  }

  lemma MergePatchLookup(target: Value, patch: Value, k: string)
    requires patch.Object?
    ensures MergePatch(target, patch).Object?
    ensures Lookup(MergePatch(target, patch).members, k) ==
              if k !in patch.members then Lookup(MembersOf(target), k)
              else if patch.members[k].Null? then None
              else Some(MergePatch(Sub(target, k), patch.members[k]))
  {}

  /** No member reachable through objects is null. */
  predicate NullFree(v: Value) {
    v.Object? ==> forall k :: k in v.members ==> !v.members[k].Null? && NullFree(v.members[k])
  }

  lemma {:induction false} MergeIsMergePatch(base: Value, overlay: Value)
    requires NullFree(overlay)
    ensures Merge(base, overlay) == MergePatch(base, overlay)
    decreases overlay
  {
    if overlay.Object? {
      var left, right := Merge(base, overlay), MergePatch(base, overlay);
      if base.Object? { MergeObjects(base, overlay); }
      forall k | k in overlay.members
        ensures k in left.members && k in right.members && left.members[k] == right.members[k]
      {
        MergeIsMergePatch(if base.Object? && k in base.members then base.members[k] else Null, overlay.members[k]);
      }
      assert left.members == right.members;
    }
  }

  lemma {:induction false} NullIsVisible(base: Value, overlay: Value)
    requires !NullFree(overlay)
    ensures Merge(base, overlay) != MergePatch(base, overlay)
    decreases overlay
  {
    var left, right := Merge(base, overlay), MergePatch(base, overlay);
    if base.Object? { MergeObjects(base, overlay); }
    var k :| k in overlay.members && (overlay.members[k].Null? || !NullFree(overlay.members[k]));
    assert k in left.members;
    if !overlay.members[k].Null? {
      NullIsVisible(if base.Object? && k in base.members then base.members[k] else Null, overlay.members[k]);
      assert left.members[k] != right.members[k];
    } else {
      assert k !in right.members;
    }
  }

  /** The SDK merge is RFC 7396 exactly on the overlays without a reachable null member. */
  lemma MergeIsMergePatchExactlyWhenNullFree(base: Value, overlay: Value)
    ensures Merge(base, overlay) == MergePatch(base, overlay) <==> NullFree(overlay)
  {
    if NullFree(overlay) {
      MergeIsMergePatch(base, overlay);
    } else {
      NullIsVisible(base, overlay);
    }
  }
}
