/** Relative paths between absolute canonical directories, as the build script makes them. */
module RelativePath {
  import opened Bytes

  datatype Component = Root | Name(name: Bytes) | Up

  /** Pushing the root replaces a path; anything else goes at its end. */
  function Push(path: seq<Component>, c: Component): seq<Component> {
    if c.Root? then [Root] else path + [c]
  }

  predicate Canonical(path: seq<Component>) {
    path != [] && path[0] == Root && forall i :: 0 < i < |path| ==> path[i].Name?
  }

  function Common(a: seq<Component>, b: seq<Component>): (n: nat)
    ensures n <= |a| && n <= |b| && a[..n] == b[..n]
    ensures n < |a| && n < |b| ==> a[n] != b[n]
  {
    if a == [] || b == [] || a[0] != b[0] then 0 else
    var n := Common(a[1..], b[1..]);
    assert a[..n + 1] == [a[0]] + a[1..][..n] && b[..n + 1] == [b[0]] + b[1..][..n];
    n + 1
  }

  function Ups(n: nat): (path: seq<Component>)
    ensures |path| == n && forall i :: 0 <= i < n ==> path[i] == Up
  {
    seq(n, _ => Up)
  }

  function Relative(base: seq<Component>, target: seq<Component>): seq<Component> {
    var n := Common(base, target);
    Ups(|base| - n) + target[n..]
  }

  lemma CommonIs(a: seq<Component>, b: seq<Component>, n: nat)
    requires n <= |a| && n <= |b| && a[..n] == b[..n]
    ensures n <= Common(a, b)
  {
    assert forall k :: 0 <= k < n ==> a[..n][k] == a[k] && b[..n][k] == b[k];
  }

  lemma CommonIsExactly(a: seq<Component>, b: seq<Component>, n: nat)
    requires n <= |a| && n <= |b| && a[..n] == b[..n] && (n == |a| || n == |b| || a[n] != b[n])
    ensures n == Common(a, b)
  {
    var m := Common(a, b);
    CommonIs(a, b, n);
    assert forall k :: 0 <= k < m ==> a[..m][k] == a[k] && b[..m][k] == b[k];
  }

  /** The loop that finds the deepest common ancestor. */
  method CountCommon(base: seq<Component>, target: seq<Component>) returns (common: nat)
    ensures common == Common(base, target)
  {
    common := 0;
    while common < |base| && common < |target| && base[common] == target[common]
      invariant common <= |base| && common <= |target| && base[..common] == target[..common]
    {
      common := common + 1;
    }
    CommonIsExactly(base, target, common);
  }

  /** `relative_path_from` */
  method RelativePathFrom(base: seq<Component>, target: seq<Component>) returns (relative: seq<Component>)
    requires Canonical(base) && Canonical(target)
    ensures relative == Relative(base, target)
    ensures Resolve(base, relative) == target
    ensures forall other :: IsRelative(other) && Resolve(base, other) == target ==>
              CountUps(relative) <= CountUps(other) && |relative| <= |other|
  {
    var common := CountCommon(base, target);
    CommonIs(base, target, 1);
    relative := PushAll(|base| - common, target, common);
    RelativeResolves(base, target);
    forall other | IsRelative(other) && Resolve(base, other) == target
      ensures CountUps(relative) <= CountUps(other) && |relative| <= |other|
    {
      RelativeIsShortest(base, target, other);
    }
  }

  /** The loops that climb from the base and descend to the target. */
  method PushAll(climbs: nat, target: seq<Component>, common: nat) returns (relative: seq<Component>)
    requires common <= |target| && forall i :: common <= i < |target| ==> target[i].Name?
    ensures relative == Ups(climbs) + target[common..]
  {
    relative := [];
    for i := 0 to climbs
      invariant relative == Ups(i)
    {
      relative := Push(relative, Up);
    }
    for i := common to |target|
      invariant relative == Ups(climbs) + target[common..i]
    {
      relative := Push(relative, target[i]);
    }
    assert target[common..|target|] == target[common..];
  }

  // ---------------------------------------------------------------------------
  // Resolving
  // ---------------------------------------------------------------------------

  function Step(path: seq<Component>, c: Component): seq<Component> {
    match c
    case Root => [Root]
    case Name(_) => path + [c]
    case Up => if |path| > 1 then path[..|path| - 1] else path
  }

  /** Walking a relative path; the parent of the root is the root. */
  function Resolve(path: seq<Component>, relative: seq<Component>): seq<Component> {
    if relative == [] then path else Step(Resolve(path, relative[..|relative| - 1]), relative[|relative| - 1])
  }

  predicate IsRelative(path: seq<Component>) {
    forall i :: 0 <= i < |path| ==> !path[i].Root?
  }

  function CountUps(path: seq<Component>): nat {
    if path == [] then 0 else CountUps(path[..|path| - 1]) + if path[|path| - 1].Up? then 1 else 0
  }

  lemma {:induction false} ResolveConcat(path: seq<Component>, a: seq<Component>, b: seq<Component>)
    ensures Resolve(path, a + b) == Resolve(Resolve(path, a), b)
    decreases |b|
  {
    if b == [] {
      assert a + b == a;
    } else {
      var init := b[..|b| - 1];
      assert (a + b)[..|a + b| - 1] == a + init;
      ResolveConcat(path, a, init);
    }
  }

  lemma {:induction false} ResolveUps(base: seq<Component>, n: nat)
    requires n < |base|
    ensures Resolve(base, Ups(n)) == base[..|base| - n]
  {
    if n > 0 {
      assert Ups(n)[..n - 1] == Ups(n - 1);
      ResolveUps(base, n - 1);
    } else {
      assert base[..|base|] == base;
    }
  }

  lemma {:induction false} ResolveNames(path: seq<Component>, names: seq<Component>)
    requires forall i :: 0 <= i < |names| ==> names[i].Name?
    ensures Resolve(path, names) == path + names
  {
    if names == [] {
      assert path + names == path;
    } else {
      var init := names[..|names| - 1];
      ResolveNames(path, init);
      assert path + names == path + init + [names[|names| - 1]];
    }
  }

  /** From the base, the relative path leads to the target. */
  lemma RelativeResolves(base: seq<Component>, target: seq<Component>)
    requires Canonical(base) && Canonical(target)
    ensures Resolve(base, Relative(base, target)) == target
  {
    CommonIs(base, target, 1);
    var n := Common(base, target);
    ResolveConcat(base, Ups(|base| - n), target[n..]);
    ResolveUps(base, |base| - n);
    ResolveNames(base[..n], target[n..]);
    assert target == target[..n] + target[n..];
  }

  /** Some first part of the base was kept throughout: below it only what was climbed, above it only what was named. */
  lemma {:induction false} LowestPoint(base: seq<Component>, relative: seq<Component>) returns (low: nat)
    requires base != [] && IsRelative(relative)
    ensures var end := Resolve(base, relative);
            && 1 <= low <= |end| && low <= |base| && end[..low] == base[..low]
            && |base| - low <= CountUps(relative) && |end| - low <= |relative| - CountUps(relative)
  {
    if relative == [] {
      low := |base|;
    } else {
      var init := relative[..|relative| - 1];
      low := LowestPoint(base, init);
      var here, end := Resolve(base, init), Resolve(base, relative);
      if relative[|relative| - 1].Up? && low == |here| && low > 1 {
        low := low - 1;
        assert here[..low] == here[..low + 1][..low] && base[..low] == base[..low + 1][..low];
      }
      assert end[..low] == here[..low];
    }
  }

  lemma {:induction false} CountUpsOf(n: nat, names: seq<Component>)
    requires forall i :: 0 <= i < |names| ==> names[i].Name?
    ensures CountUps(Ups(n) + names) == n
    decreases n + |names|
  {
    var path := Ups(n) + names;
    if names != [] {
      assert path[..|path| - 1] == Ups(n) + names[..|names| - 1];
      CountUpsOf(n, names[..|names| - 1]);
    } else if n > 0 {
      assert path[..|path| - 1] == Ups(n - 1) + [];
      CountUpsOf(n - 1, []);
    }
  }

  /** No relative path that leads there climbs less or is shorter. */
  lemma RelativeIsShortest(base: seq<Component>, target: seq<Component>, other: seq<Component>)
    requires Canonical(base) && Canonical(target) && IsRelative(other) && Resolve(base, other) == target
    ensures CountUps(Relative(base, target)) <= CountUps(other) && |Relative(base, target)| <= |other|
  {
    var low := LowestPoint(base, other);
    CommonIs(base, target, low);
    CommonIs(base, target, 1);
    var n := Common(base, target);
    CountUpsOf(|base| - n, target[n..]);
  }
}
