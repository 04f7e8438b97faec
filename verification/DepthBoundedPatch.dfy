/**
 The engine's `apply_merge_patch`: RFC 7396 with a signed bound on how many object levels merge.
 */
module DepthBoundedPatch {
  import opened Common
  import opened Json
  import opened JsonMerge

  datatype MergeDepth = Unbounded | FullReplace | ReplaceBeyond(n: nat) | PreserveBeyond(n: nat)

  datatype BeyondPolicy = Replace | Preserve

  datatype ActiveDepth = NoBound | Bounded(levels: nat, policy: BeyondPolicy) {

    function Descend(): ActiveDepth {
      match this
      case NoBound => NoBound
      case Bounded(n, p) => Bounded(if n == 0 then 0 else n - 1, p)
    }

    predicate AllowsMerge() {
      NoBound? || levels > 0
    }

    function Beyond(): BeyondPolicy {
      if NoBound? then Replace else policy
    }
  }

  function Activate(depth: MergeDepth): ActiveDepth
    requires !depth.FullReplace?
  {
    match depth
    case Unbounded => NoBound
    case ReplaceBeyond(n) => Bounded(n, Replace)
    case PreserveBeyond(n) => Bounded(n, Preserve)
  }

  /** What one patch member makes of the target's member of that name. */
  function Outcome(prior: Option<Value>, patch: Value, depth: ActiveDepth): Option<Value>
    decreases patch, 2
  {
    if patch.Null? then None
    else if patch.Object? then
      if depth.Descend().AllowsMerge() then
        Some(Object(PatchMembers(PriorMembers(prior), patch, patch.members.Keys, depth.Descend())))
      else if depth.Beyond().Replace? then Some(patch)
      else prior
    else Some(patch)
  }

  function PriorMembers(prior: Option<Value>): map<string, Value> {
    if prior.Some? then MembersOf(prior.value) else map[]
  }

  function OutcomeFor(target: map<string, Value>, patch: Value, k: string, depth: ActiveDepth): Option<Value>
    requires patch.Object? && k in patch.members
    decreases patch, 0
  {
    Outcome(Lookup(target, k), patch.members[k], depth)
  }

  /** The target after the patch members named in `done` have been applied. */
  function PatchMembers(target: map<string, Value>, patch: Value, done: set<string>,
                        depth: ActiveDepth): map<string, Value>
    requires patch.Object? && done <= patch.members.Keys
    decreases patch, 1
  {
    map k | k in target.Keys + done && (k in done ==> OutcomeFor(target, patch, k, depth).Some?) ::
      if k in done then OutcomeFor(target, patch, k, depth).value else target[k]
  }

  lemma PatchLookup(target: map<string, Value>, patch: Value, done: set<string>, depth: ActiveDepth, k: string)
    requires patch.Object? && done <= patch.members.Keys
    ensures Lookup(PatchMembers(target, patch, done, depth), k)
         == if k in done then OutcomeFor(target, patch, k, depth) else Lookup(target, k)
  {}

  function ApplyPatch(target: Value, patch: Value, depth: MergeDepth): Value {
    if depth.FullReplace? then patch
    else if !Activate(depth).AllowsMerge() then
      if Activate(depth).Beyond().Replace? then patch else target
    else if !patch.Object? then patch
    else Object(PatchMembers(MembersOf(target), patch, patch.members.Keys, Activate(depth)))
  }

  method ApplyMergePatch(target: Value, patch: Value, depth: MergeDepth) returns (result: Value)
    ensures result == ApplyPatch(target, patch, depth)
  {
    if depth.FullReplace? {
      return patch;
    }
    var active := Activate(depth);
    if !active.AllowsMerge() {
      match active.Beyond() {
        case Replace => return patch;
        case Preserve => return target;
      }
    }
    if !patch.Object? {
      return patch;
    }
    var members := ApplyObjectMerge(MembersOf(target), patch, active);
    result := Object(members);
  }

  /** The patch members are visited in any order. */
  method ApplyObjectMerge(target: map<string, Value>, patch: Value, depth: ActiveDepth)
    returns (members: map<string, Value>)
    requires patch.Object?
    ensures members == PatchMembers(target, patch, patch.members.Keys, depth)
    decreases patch, 1
  {
    members := target;
    var pending := patch.members.Keys;
    while pending != {}
      invariant pending <= patch.members.Keys
      invariant members == PatchMembers(target, patch, patch.members.Keys - pending, depth)
    {
      var key :| key in pending;
      ghost var done := patch.members.Keys - pending;
      PatchLookup(target, patch, done, depth, key);
      members := ApplyMember(members, key, patch.members[key], depth);
      pending := pending - {key};
      forall k ensures Lookup(members, k) == Lookup(PatchMembers(target, patch, done + {key}, depth), k) {
        PatchLookup(target, patch, done, depth, k);
        PatchLookup(target, patch, done + {key}, depth, k);
      }
      LookupsDetermine(members, PatchMembers(target, patch, done + {key}, depth));
      assert patch.members.Keys - pending == done + {key};
    }
  }

  /** One turn of the loop over the patch. */
  method ApplyMember(target: map<string, Value>, key: string, value: Value, depth: ActiveDepth)
    returns (members: map<string, Value>)
    ensures Lookup(members, key) == Outcome(Lookup(target, key), value, depth)
    ensures forall k :: k != key ==> Lookup(members, k) == Lookup(target, k)
    decreases value, 2
  {
    members := target;
    var next := depth.Descend();
    match value {
      case Null =>
        members := members - {key};
      case Object(_) =>
        if next.AllowsMerge() {
          var sub := ApplyObjectMerge(PriorMembers(Lookup(members, key)), value, next);
          members := members[key := Object(sub)];
        } else {
          match depth.Beyond() {
            case Replace => members := members[key := value];
            case Preserve =>
          }
        }
      case _ =>
        members := members[key := value];
    }
  }

  // ---------------------------------------------------------------------------
  // Unbounded depth is RFC 7396
  // ---------------------------------------------------------------------------

  lemma {:induction false} UnboundedMembers(target: Value, patch: Value)
    requires patch.Object?
    ensures Object(PatchMembers(MembersOf(target), patch, patch.members.Keys, NoBound)) == MergePatch(target, patch)
    decreases patch
  {
    var left := PatchMembers(MembersOf(target), patch, patch.members.Keys, NoBound);
    var right := MergePatch(target, patch).members;
    forall k ensures Lookup(left, k) == Lookup(right, k) {
      PatchLookup(MembersOf(target), patch, patch.members.Keys, NoBound, k);
      MergePatchLookup(target, patch, k);
      if k in patch.members && patch.members[k].Object? { UnboundedMembers(Sub(target, k), patch.members[k]); }
    }
    LookupsDetermine(left, right);
  }

  lemma UnboundedIsMergePatch(target: Value, patch: Value)
    ensures ApplyPatch(target, patch, Unbounded) == MergePatch(target, patch)
  {
    if patch.Object? { UnboundedMembers(target, patch); }
  }

  /** The engine's patch and the SDK's merge agree exactly on overlays without a reachable null. */
  lemma EngineAndSdkAgreeExactlyWhenNullFree(target: Value, patch: Value)
    ensures ApplyPatch(target, patch, Unbounded) == Merge(target, patch) <==> NullFree(patch)
  {
    UnboundedIsMergePatch(target, patch);
    MergeIsMergePatchExactlyWhenNullFree(target, patch);
  }

  // ---------------------------------------------------------------------------
  // Negative depth: objects at the boundary are ignored
  // ---------------------------------------------------------------------------

  /** The patch without the object values that lie `n` member names deep. */
  function Pruned(patch: Value, n: nat): Value
    requires n > 0
    decreases patch
  {
    if patch.Object? then
      Object(map k | k in patch.members && !(n == 1 && patch.members[k].Object?) ::
        if n == 1 then patch.members[k] else Pruned(patch.members[k], n - 1))
    else patch
  }

  lemma {:induction false} PreserveMembers(target: Value, patch: Value, n: nat)
    requires patch.Object? && n > 0
    ensures Object(PatchMembers(MembersOf(target), patch, patch.members.Keys, Bounded(n, Preserve)))
         == MergePatch(target, Pruned(patch, n))
    decreases patch
  {
    var left := PatchMembers(MembersOf(target), patch, patch.members.Keys, Bounded(n, Preserve));
    var right := MergePatch(target, Pruned(patch, n)).members;
    forall k ensures Lookup(left, k) == Lookup(right, k) {
      PatchLookup(MembersOf(target), patch, patch.members.Keys, Bounded(n, Preserve), k);
      MergePatchLookup(target, Pruned(patch, n), k);
      var pruned := Pruned(patch, n).members;
      if k in patch.members {
        assert k in pruned <==> !(n == 1 && patch.members[k].Object?);
        assert k in pruned ==> pruned[k] == if n == 1 then patch.members[k] else Pruned(patch.members[k], n - 1);
      }
      if k in patch.members && patch.members[k].Object? && n > 1 {
        PreserveMembers(Sub(target, k), patch.members[k], n - 1);
      }
    }
    LookupsDetermine(left, right);
  }

  /** `?depth=-n` is RFC 7396 on the patch with its objects at level `n` taken out. */
  lemma PreserveIsMergePatchOfPruned(target: Value, patch: Value, n: nat)
    ensures ApplyPatch(target, patch, PreserveBeyond(n))
         == if n == 0 then target else MergePatch(target, Pruned(patch, n))
  {
    if n > 0 && patch.Object? { PreserveMembers(target, patch, n); }
  }

  // ---------------------------------------------------------------------------
  // Positive depth: objects at the boundary replace
  // ---------------------------------------------------------------------------

  /** The target without what lies where the patch has an object `n` member names deep. */
  function Cleared(target: Value, patch: Value, n: nat): Value
    requires n > 0
    decreases patch
  {
    if target.Object? && patch.Object? then
      Object(map k | k in target.members && !(n == 1 && k in patch.members && patch.members[k].Object?) ::
        if k in patch.members && n > 1 then Cleared(target.members[k], patch.members[k], n - 1) else target.members[k])
    else target
  }

  /** Below the boundary the patch has no null member. */
  predicate NullFreeBeyond(patch: Value, n: nat)
    decreases patch
  {
    if n == 0 then NullFree(patch)
    else patch.Object? ==> forall k :: k in patch.members ==> NullFreeBeyond(patch.members[k], n - 1)
  }

  lemma {:induction false} ReplaceMembers(target: Value, patch: Value, n: nat)
    requires patch.Object? && n > 0 && NullFreeBeyond(patch, n)
    ensures Object(PatchMembers(MembersOf(target), patch, patch.members.Keys, Bounded(n, Replace)))
         == MergePatch(Cleared(target, patch, n), patch)
    decreases patch
  {
    var left := PatchMembers(MembersOf(target), patch, patch.members.Keys, Bounded(n, Replace));
    var right := MergePatch(Cleared(target, patch, n), patch).members;
    forall k ensures Lookup(left, k) == Lookup(right, k) {
      PatchLookup(MembersOf(target), patch, patch.members.Keys, Bounded(n, Replace), k);
      MergePatchLookup(Cleared(target, patch, n), patch, k);
      if k in patch.members && patch.members[k].Object? {
        if n > 1 {
          ReplaceMembers(Sub(target, k), patch.members[k], n - 1);
        } else {
          MergeIsMergePatch(Null, patch.members[k]);
        }
      }
    }
    LookupsDetermine(left, right);
  }

  lemma {:induction false} DeepNullIsVisible(target: Value, patch: Value, n: nat)
    requires patch.Object? && n > 0 && !NullFreeBeyond(patch, n)
    ensures Object(PatchMembers(MembersOf(target), patch, patch.members.Keys, Bounded(n, Replace)))
         != MergePatch(Cleared(target, patch, n), patch)
    decreases patch
  {
    var left := PatchMembers(MembersOf(target), patch, patch.members.Keys, Bounded(n, Replace));
    var right := MergePatch(Cleared(target, patch, n), patch).members;
    var k :| k in patch.members && !NullFreeBeyond(patch.members[k], n - 1);
    PatchLookup(MembersOf(target), patch, patch.members.Keys, Bounded(n, Replace), k);
    MergePatchLookup(Cleared(target, patch, n), patch, k);
    if n > 1 {
      DeepNullIsVisible(Sub(target, k), patch.members[k], n - 1);
    } else {
      NullIsVisible(Null, patch.members[k]);
    }
    assert Lookup(left, k) != Lookup(right, k);
  }

  /**
   `?depth=+n` is RFC 7396 on the target with everything cleared that a patch object at level `n`
   lands on, exactly when the patch holds no null member deeper than that.
   */
  lemma ReplaceIsMergePatchOfClearedExactlyWhenNullFreeBeyond(target: Value, patch: Value, n: nat)
    requires n > 0
    ensures ApplyPatch(target, patch, ReplaceBeyond(n)) == MergePatch(Cleared(target, patch, n), patch)
            <==> NullFreeBeyond(patch, n)
  {
    if patch.Object? {
      if NullFreeBeyond(patch, n) {
        ReplaceMembers(target, patch, n);
      } else {
        DeepNullIsVisible(target, patch, n);
      }
    }
  }

  /** At the boundary itself a patch object arrives whole, nulls included. */
  lemma {:induction false} ReplaceKeepsBoundaryObjects(target: Value, patch: Value, path: seq<string>)
    requires path != [] && ObjectAt(patch, path)
    ensures At(ApplyPatch(target, patch, ReplaceBeyond(|path|)), path) == At(patch, path)
    decreases path
  {
    var n, k := |path|, path[0];
    PatchLookup(MembersOf(target), patch, patch.members.Keys, Bounded(n, Replace), k);
    if n > 1 {
      var child := patch.members[k];
      assert At(child, path[1..]) == At(patch, path);
      ReplaceKeepsBoundaryObjects(Sub(target, k), child, path[1..]);
      assert Lookup(ApplyPatch(target, patch, ReplaceBeyond(n)).members, k)
          == Some(ApplyPatch(Sub(target, k), child, ReplaceBeyond(n - 1)));
    }
  }

  // ---------------------------------------------------------------------------
  // Laws of every depth
  // ---------------------------------------------------------------------------

  lemma {:induction false} OutcomeIdempotent(prior: Option<Value>, patch: Value, depth: ActiveDepth)
    ensures Outcome(Outcome(prior, patch, depth), patch, depth) == Outcome(prior, patch, depth)
    decreases patch, 2
  {
    if patch.Object? && depth.Descend().AllowsMerge() {
      MembersIdempotent(PriorMembers(prior), patch, depth.Descend());
    }
  }

  lemma {:induction false} MembersIdempotent(target: map<string, Value>, patch: Value, depth: ActiveDepth)
    requires patch.Object?
    ensures PatchMembers(PatchMembers(target, patch, patch.members.Keys, depth), patch, patch.members.Keys, depth)
         == PatchMembers(target, patch, patch.members.Keys, depth)
    decreases patch, 1
  {
    var once := PatchMembers(target, patch, patch.members.Keys, depth);
    var twice := PatchMembers(once, patch, patch.members.Keys, depth);
    forall k ensures Lookup(twice, k) == Lookup(once, k) {
      PatchLookup(target, patch, patch.members.Keys, depth, k);
      PatchLookup(once, patch, patch.members.Keys, depth, k);
      if k in patch.members { OutcomeIdempotent(Lookup(target, k), patch.members[k], depth); }
    }
    LookupsDetermine(twice, once);
  }

  /** Sending the same patch twice is sending it once, at any depth. */
  lemma PatchIdempotent(target: Value, patch: Value, depth: MergeDepth)
    ensures ApplyPatch(ApplyPatch(target, patch, depth), patch, depth) == ApplyPatch(target, patch, depth)
  {
    if !depth.FullReplace? && Activate(depth).AllowsMerge() && patch.Object? {
      MembersIdempotent(MembersOf(target), patch, Activate(depth));
    }
  }

  // ---------------------------------------------------------------------------
  // Two patches in either order
  // ---------------------------------------------------------------------------

  function PatchAll(target: map<string, Value>, patch: Value, depth: ActiveDepth): map<string, Value>
    requires patch.Object?
  {
    PatchMembers(target, patch, patch.members.Keys, depth)
  }

  /** Two values for one member: where both are merged they must agree in turn, where one is ignored they may differ. */
  predicate ValuesCommute(p: Value, q: Value, depth: ActiveDepth)
    decreases p
  {
    if depth.Descend().AllowsMerge() && p.Object? && q.Object? then
      forall k :: k in p.members && k in q.members ==> ValuesCommute(p.members[k], q.members[k], depth.Descend())
    else if !depth.Descend().AllowsMerge() && depth.Beyond().Preserve? && (p.Object? || q.Object?) then true
    else p == q
  }

  predicate PatchesCommute(p: Value, q: Value, depth: MergeDepth) {
    if depth.FullReplace? then p == q
    else if !Activate(depth).AllowsMerge() then Activate(depth).Beyond().Replace? ==> p == q
    else if p.Object? && q.Object? then
      forall k :: k in p.members && k in q.members ==> ValuesCommute(p.members[k], q.members[k], Activate(depth))
    else p == q
  }

  lemma {:induction false} OutcomesInEitherOrder(prior: Option<Value>, p: Value, q: Value, depth: ActiveDepth)
    requires ValuesCommute(p, q, depth)
    ensures Outcome(Outcome(prior, p, depth), q, depth) == Outcome(Outcome(prior, q, depth), p, depth)
    decreases p, 1
  {
    if depth.Descend().AllowsMerge() && p.Object? && q.Object? {
      MembersInEitherOrder(PriorMembers(prior), p, q, depth.Descend());
    }
  }

  lemma {:induction false} MembersInEitherOrder(target: map<string, Value>, p: Value, q: Value, depth: ActiveDepth)
    requires p.Object? && q.Object?
    requires forall k :: k in p.members && k in q.members ==> ValuesCommute(p.members[k], q.members[k], depth)
    ensures PatchAll(PatchAll(target, p, depth), q, depth) == PatchAll(PatchAll(target, q, depth), p, depth)
    decreases p, 0
  {
    var left, right := PatchAll(PatchAll(target, p, depth), q, depth), PatchAll(PatchAll(target, q, depth), p, depth);
    forall k ensures Lookup(left, k) == Lookup(right, k) {
      BothAt(target, p, q, depth, k);
      BothAt(target, q, p, depth, k);
      if k in p.members && k in q.members {
        OutcomesInEitherOrder(Lookup(target, k), p.members[k], q.members[k], depth);
      }
    }
    LookupsDetermine(left, right);
  }

  /** What one patch after another makes of a member. */
  lemma BothAt(target: map<string, Value>, p: Value, q: Value, depth: ActiveDepth, k: string)
    requires p.Object? && q.Object?
    ensures var once := if k in p.members then Outcome(Lookup(target, k), p.members[k], depth) else Lookup(target, k);
            Lookup(PatchAll(PatchAll(target, p, depth), q, depth), k)
            == if k in q.members then Outcome(once, q.members[k], depth) else once
  {
    PatchLookup(target, p, p.members.Keys, depth, k);
    PatchLookup(PatchAll(target, p, depth), q, q.members.Keys, depth, k);
  }

  /** Values that do not agree give different results in some state. */
  lemma {:induction false} ClashShows(p: Value, q: Value, depth: ActiveDepth) returns (prior: Option<Value>)
    requires !ValuesCommute(p, q, depth)
    ensures Outcome(Outcome(prior, p, depth), q, depth) != Outcome(Outcome(prior, q, depth), p, depth)
    decreases p
  {
    if depth.Descend().AllowsMerge() && p.Object? && q.Object? {
      var k :| k in p.members && k in q.members && !ValuesCommute(p.members[k], q.members[k], depth.Descend());
      var below := ClashShows(p.members[k], q.members[k], depth.Descend());
      prior := Some(Object(Alone(k, below)));
      MemberClashShows(p, q, depth.Descend(), k, below);
    } else {
      prior := None;
    }
  }

  /** The object with that member and no other. */
  function Alone(k: string, value: Option<Value>): map<string, Value> {
    if value.Some? then map[k := value.value] else map[]
  }

  lemma MemberClashShows(p: Value, q: Value, depth: ActiveDepth, k: string, prior: Option<Value>)
    requires p.Object? && q.Object? && k in p.members && k in q.members
    requires Outcome(Outcome(prior, p.members[k], depth), q.members[k], depth)
          != Outcome(Outcome(prior, q.members[k], depth), p.members[k], depth)
    ensures PatchAll(PatchAll(Alone(k, prior), p, depth), q, depth)
         != PatchAll(PatchAll(Alone(k, prior), q, depth), p, depth)
  {
    assert Lookup(Alone(k, prior), k) == prior;
    BothAt(Alone(k, prior), p, q, depth, k);
    BothAt(Alone(k, prior), q, p, depth, k);
  }

  /** At every depth, two patches give the same document in either order, whatever it was, exactly when they commute. */
  lemma PatchesCommuteExactly(p: Value, q: Value, depth: MergeDepth)
    ensures (forall target: Value ::
               ApplyPatch(ApplyPatch(target, p, depth), q, depth) == ApplyPatch(ApplyPatch(target, q, depth), p, depth))
            <==> PatchesCommute(p, q, depth)
  {
    if PatchesCommute(p, q, depth) {
      forall target: Value
        ensures ApplyPatch(ApplyPatch(target, p, depth), q, depth) == ApplyPatch(ApplyPatch(target, q, depth), p, depth)
      {
        InEitherOrder(target, p, q, depth);
      }
    } else {
      var target := PatchClashShows(p, q, depth);
      assert ApplyPatch(ApplyPatch(target, p, depth), q, depth) != ApplyPatch(ApplyPatch(target, q, depth), p, depth);
    }
  }

  lemma InEitherOrder(target: Value, p: Value, q: Value, depth: MergeDepth)
    requires PatchesCommute(p, q, depth)
    ensures ApplyPatch(ApplyPatch(target, p, depth), q, depth) == ApplyPatch(ApplyPatch(target, q, depth), p, depth)
  {
    if !depth.FullReplace? && Activate(depth).AllowsMerge() && p.Object? && q.Object? {
      MembersInEitherOrder(MembersOf(target), p, q, Activate(depth));
    }
  }

  lemma PatchClashShows(p: Value, q: Value, depth: MergeDepth) returns (target: Value)
    requires !PatchesCommute(p, q, depth)
    ensures ApplyPatch(ApplyPatch(target, p, depth), q, depth) != ApplyPatch(ApplyPatch(target, q, depth), p, depth)
  {
    target := Null;
    if !depth.FullReplace? && Activate(depth).AllowsMerge() && p.Object? && q.Object? {
      var k :| k in p.members && k in q.members && !ValuesCommute(p.members[k], q.members[k], Activate(depth));
      var below := ClashShows(p.members[k], q.members[k], Activate(depth));
      target := Object(Alone(k, below));
      MemberClashShows(p, q, Activate(depth), k, below);
    }
  }

  /** The two patches name no common place: shared members are objects on both sides, all the way. */
  predicate Disjoint(p: Value, q: Value) {
    p.Object? && q.Object? && forall k :: k in p.members && k in q.members ==> Disjoint(p.members[k], q.members[k])
  }

  lemma {:induction false} DisjointValuesCommute(p: Value, q: Value, depth: ActiveDepth)
    requires Disjoint(p, q) && (depth.NoBound? || depth.policy.Preserve?)
    ensures ValuesCommute(p, q, depth)
    decreases p
  {
    forall k | k in p.members && k in q.members ensures ValuesCommute(p.members[k], q.members[k], depth.Descend()) {
      DisjointValuesCommute(p.members[k], q.members[k], depth.Descend());
    }
  }

  /**
   Patches that touch disjoint places compose in either order unless a bound lets one replace what
   the other reached.
   */
  lemma DisjointPatchesCommute(target: Value, p: Value, q: Value, depth: MergeDepth)
    requires Disjoint(p, q) && (depth.Unbounded? || depth.PreserveBeyond?)
    ensures ApplyPatch(ApplyPatch(target, p, depth), q, depth) == ApplyPatch(ApplyPatch(target, q, depth), p, depth)
  {
    forall k | k in p.members && k in q.members ensures ValuesCommute(p.members[k], q.members[k], Activate(depth)) {
      DisjointValuesCommute(p.members[k], q.members[k], Activate(depth));
    }
    InEitherOrder(target, p, q, depth);
  }

  /** Under a bound that replaces they need not: of `{"u":{"a":1}}` and `{"u":{"b":2}}` the later one alone remains. */
  lemma DisjointPatchesCanClash(target: Value)
    ensures var p := Object(map["u" := Object(map["a" := Integer(1)])]);
            var q := Object(map["u" := Object(map["b" := Integer(2)])]);
            && Disjoint(p, q)
            && At(ApplyPatch(ApplyPatch(target, p, ReplaceBeyond(1)), q, ReplaceBeyond(1)), ["u"]) == At(q, ["u"])
            && At(ApplyPatch(ApplyPatch(target, q, ReplaceBeyond(1)), p, ReplaceBeyond(1)), ["u"]) == At(p, ["u"])
            && At(p, ["u"]) != At(q, ["u"])
  {
    var a, b := Object(map["a" := Integer(1)]), Object(map["b" := Integer(2)]);
    var p, q := Object(map["u" := a]), Object(map["u" := b]);
    ReplaceKeepsBoundaryObjects(ApplyPatch(target, p, ReplaceBeyond(1)), q, ["u"]);
    ReplaceKeepsBoundaryObjects(ApplyPatch(target, q, ReplaceBeyond(1)), p, ["u"]);
    assert "a" in a.members && "a" !in b.members;
  }
}
