/** The stress benchmark's in-place shuffle, and the split of the stored files it makes. */
module Shuffle {
  import opened Common
  import opened Words
  import opened Mixers

  // ---------------------------------------------------------------------------
  // Shuffling by choices
  // ---------------------------------------------------------------------------

  function Swapped<T>(s: seq<T>, i: nat, j: nat): (t: seq<T>)
    requires i < |s| && j < |s|
    ensures |t| == |s|
  {
    s[i := s[j]][j := s[i]]
  }

  lemma SwappedKeeps<T>(s: seq<T>, i: nat, j: nat)
    requires i < |s| && j < |s|
    ensures multiset(Swapped(s, i, j)) == multiset(s)
  {}

  /** One choice for each index, at most the index itself. */
  predicate Choices(choices: seq<nat>) {
    forall k :: 0 <= k < |choices| ==> choices[k] <= k
  }

  /** Swaps at `n - 1` down to 1. */
  function ShuffleBy<T>(s: seq<T>, choices: seq<nat>, n: nat): (t: seq<T>)
    requires n <= |s| == |choices| && Choices(choices)
    ensures |t| == |s|
    decreases n
  {
    if n <= 1 then s else ShuffleBy(Swapped(s, n - 1, choices[n - 1]), choices, n - 1)
  }

  /** A shuffle is a permutation. */
  lemma {:induction false} ShuffleKeeps<T>(s: seq<T>, choices: seq<nat>, n: nat)
    requires n <= |s| == |choices| && Choices(choices)
    ensures multiset(ShuffleBy(s, choices, n)) == multiset(s)
    decreases n
  {
    if n > 1 {
      SwappedKeeps(s, n - 1, choices[n - 1]);
      ShuffleKeeps(Swapped(s, n - 1, choices[n - 1]), choices, n - 1);
    }
  }

  /** Each index is settled by its own swap. */
  lemma {:induction false} Settled<T>(s: seq<T>, choices: seq<nat>, n: nat, k: nat)
    requires n <= k < |s| == |choices| && Choices(choices)
    ensures ShuffleBy(s, choices, n)[k] == s[k]
    decreases n
  {
    if n > 1 { Settled(Swapped(s, n - 1, choices[n - 1]), choices, n - 1, k); }
  }

  lemma SettledByChoice<T>(s: seq<T>, choices: seq<nat>, n: nat)
    requires 1 < n <= |s| == |choices| && Choices(choices)
    ensures ShuffleBy(s, choices, n)[n - 1] == s[choices[n - 1]]
  {
    Settled(Swapped(s, n - 1, choices[n - 1]), choices, n - 1, n - 1);
  }

  lemma SwappedDistinct<T>(s: seq<T>, i: nat, j: nat)
    requires Distinct(s) && i < |s| && j < |s|
    ensures Distinct(Swapped(s, i, j))
  {}

  /** Different choices give different orders. */
  lemma {:induction false} ShuffleInjective<T>(s: seq<T>, a: seq<nat>, b: seq<nat>, n: nat, k: nat)
    requires Distinct(s) && n <= |s| == |a| == |b| && Choices(a) && Choices(b)
    requires ShuffleBy(s, a, n) == ShuffleBy(s, b, n) && 0 < k < n
    ensures a[k] == b[k]
    decreases n
  {
    var i := n - 1;
    SettledByChoice(s, a, n);
    SettledByChoice(s, b, n);
    if k < i {
      SwappedDistinct(s, i, a[i]);
      ShuffleInjective(Swapped(s, i, a[i]), a, b, i, k);
    }
  }

  lemma SameElements<T>(s: seq<T>, t: seq<T>, x: T)
    requires multiset(s) == multiset(t)
    ensures x in s <==> x in t
  {
    assert x in multiset(s) <==> x in multiset(t);
  }

  lemma {:induction false} DistinctCount<T>(s: seq<T>)
    ensures Distinct(s) <==> forall x :: multiset(s)[x] <= 1
  {
    if s != [] {
      var init, last := s[..|s| - 1], s[|s| - 1];
      DistinctCount(init);
      assert s == init + [last];
      assert multiset(s) == multiset(init) + multiset{last};
      if Distinct(s) {
        assert last !in multiset(init);
      } else if Distinct(init) {
        var i :| 0 <= i < |init| && s[i] == last;
        assert s[i] in multiset(init);
        assert multiset(s)[last] >= 2;
      } else {
        var x :| multiset(init)[x] > 1;
        assert multiset(s)[x] > 1;
      }
    }
  }

  /** Among elements settled from `n` on, the `i`-th of one order is not settled in the other. */
  lemma Located<T>(s: seq<T>, t: seq<T>, i: nat, n: nat) returns (j: nat)
    requires Distinct(s) && multiset(s) == multiset(t) && i < n <= |s| && |s| == |t|
    requires forall k :: n <= k < |s| ==> s[k] == t[k]
    ensures j < n && s[j] == t[i]
  {
    DistinctCount(s);
    DistinctCount(t);
    SameElements(s, t, t[i]);
    j :| 0 <= j < |s| && s[j] == t[i];
  }

  /** Every order of distinct elements comes from some choices. */
  lemma {:induction false} ShuffleSurjective<T>(s: seq<T>, t: seq<T>, n: nat) returns (choices: seq<nat>)
    requires Distinct(s) && multiset(s) == multiset(t) && n <= |s| && |s| == |t|
    requires forall k :: n <= k < |s| ==> s[k] == t[k]
    ensures |choices| == |s| && Choices(choices) && ShuffleBy(s, choices, n) == t
    decreases n
  {
    if n == 0 {
      choices := seq(|s|, _ => 0);
      assert s == t;
    } else if n == 1 {
      choices := seq(|s|, _ => 0);
      var j := Located(s, t, 0, 1);
      assert s == t;
    } else {
      var i := n - 1;
      var j := Located(s, t, i, n);
      SwappedDistinct(s, i, j);
      SwappedKeeps(s, i, j);
      var rest := ShuffleSurjective(Swapped(s, i, j), t, i);
      choices := rest[i := j];
      SameChoices(Swapped(s, i, j), rest, choices, i);
    }
  }

  /** Only the choices below `n` matter. */
  lemma {:induction false} SameChoices<T>(s: seq<T>, a: seq<nat>, b: seq<nat>, n: nat)
    requires n <= |s| == |a| == |b| && Choices(a) && Choices(b) && forall k :: 0 <= k < n ==> a[k] == b[k]
    ensures ShuffleBy(s, a, n) == ShuffleBy(s, b, n)
    decreases n
  {
    if n > 1 { SameChoices(Swapped(s, n - 1, a[n - 1]), a, b, n - 1); }
  }

  // ---------------------------------------------------------------------------
  // Shuffling by draws
  // ---------------------------------------------------------------------------

  /** The remainder of a draw by `i + 1`, an index up to `i`. */
  function Pick(x: nat, i: nat): (j: nat)
    ensures j <= i
  {
    if x <= i then x else Pick(x - i - 1, i)
  }

  lemma {:induction false} PickIsRemainder(x: nat, i: nat)
    ensures Pick(x, i) == x % (i + 1)
  {
    var m := i + 1;
    if x > i {
      PickIsRemainder(x - m, i);
      var q, r := (x - m) / m, (x - m) % m;
      assert x == m * (q + 1) + r;
      QuotientIsUnique(x, m, q + 1, r);
    } else {
      QuotientIsUnique(x, m, 0, x);
    }
  }

  /** The next draws of the generator. */
  function Draws(state: Word, n: nat): (draws: seq<Word>)
    ensures |draws| == n
    decreases n
  {
    if n == 0 then [] else [Xorshift(state)] + Draws(Xorshift(state), n - 1)
  }

  ghost predicate Upcoming(state: Word, draws: seq<Word>) {
    draws == Draws(state, |draws|)
  }

  /** The choices the draws make for an array one longer: the first draw decides the last index. */
  function Drawn(draws: seq<Word>): (choices: seq<nat>)
    ensures |choices| == |draws| + 1 && Choices(choices)
  {
    seq(|draws| + 1, k requires 0 <= k <= |draws| => if k == 0 then 0 else Pick(draws[|draws| - k], k))
  }

  /** The first draw decides the last index: each is reduced by one more than its index. */
  lemma DrawnAt(draws: seq<Word>, k: nat)
    requires 0 < k <= |draws|
    ensures Drawn(draws)[k] == draws[|draws| - k] % (k + 1)
  {
    PickIsRemainder(draws[|draws| - k], k);
  }

  method NextChoice(rng: SimpleRng, i: nat, ghost draws: seq<Word>) returns (j: nat)
    requires draws != [] && Upcoming(rng.state, draws)
    modifies rng
    ensures Upcoming(rng.state, draws[1..]) && j == Pick(draws[0], i)
  {
    PickIsRemainder(draws[0], i);
    j := rng.NextUsize(i + 1);
  }

  lemma ChoiceAt(draws: seq<Word>, i: nat)
    requires 0 < i <= |draws|
    ensures var rest := draws[|draws| - i..];
            rest != [] && Drawn(draws)[i] == Pick(rest[0], i) && rest[1..] == draws[|draws| - i + 1..]
  {}

  method SwapAt<T>(a: array<T>, i: nat, j: nat)
    requires i < a.Length && j < a.Length
    modifies a
    ensures a[..] == Swapped(old(a[..]), i, j)
  {
    a[i], a[j] := a[j], a[i];
  }

  /** `shuffle` */
  method ShuffleArray<T>(rng: SimpleRng, a: array<T>)
    modifies rng, a
    ensures a.Length > 0 ==> a[..] == ShuffleBy(old(a[..]), Drawn(Draws(old(rng.state), a.Length - 1)), a.Length)
    ensures multiset(a[..]) == multiset(old(a[..]))
  {
    if a.Length == 0 { return; }
    ghost var draws := Draws(rng.state, a.Length - 1);
    ShuffleDrawn(rng, a, draws);
  }

  method ShuffleDrawn<T>(rng: SimpleRng, a: array<T>, ghost draws: seq<Word>)
    requires a.Length == |draws| + 1 && Upcoming(rng.state, draws)
    modifies rng, a
    ensures a[..] == ShuffleBy(old(a[..]), Drawn(draws), a.Length)
    ensures multiset(a[..]) == multiset(old(a[..]))
  {
    ghost var choices := Drawn(draws);
    ghost var whole := ShuffleBy(a[..], choices, a.Length);
    ShuffleKeeps(a[..], choices, a.Length);
    var i := a.Length;
    assert draws[0..] == draws;
    while i > 1
      invariant 1 <= i <= a.Length && Upcoming(rng.state, draws[a.Length - i..])
      invariant ShuffleBy(a[..], choices, i) == whole
    {
      i := i - 1;
      ghost var rest := draws[a.Length - 1 - i..];
      ChoiceAt(draws, i);
      var j := NextChoice(rng, i, rest);
      SwapAt(a, i, j);
    }
  }

  // ---------------------------------------------------------------------------
  // Deleting a tenth of the files
  // ---------------------------------------------------------------------------

  const FILES_PER_SHARD: nat := 100

  const DELETE_CAP: nat := 10000

  const DELETE_SEED: Word := 999

  function DeleteTarget(total: nat): nat {
    if total / 10 < DELETE_CAP then total / 10 else DELETE_CAP
  }

  /** Shard and file of a flat index. */
  function Cell(flat: nat): (nat, nat) {
    (flat / FILES_PER_SHARD, flat % FILES_PER_SHARD)
  }

  function Flat(shard: nat, file: nat): nat {
    shard * FILES_PER_SHARD + file
  }

  lemma CellOfFlat(shard: nat, file: nat)
    requires file < 100
    ensures Flat(shard, file) == 100 * shard + file && Cell(Flat(shard, file)) == (shard, file)
  {}

  lemma CellInjective(a: nat, b: nat)
    requires Cell(a) == Cell(b)
    ensures a == b
  {}

  function Identity(n: nat): (s: seq<nat>)
    ensures |s| == n && forall i :: 0 <= i < n ==> s[i] == i
  {
    seq(n, (i: nat) => i)
  }

  /** An order of the indices has each once. */
  lemma ShuffledIndices(s: seq<nat>, n: nat)
    requires multiset(s) == multiset(Identity(n))
    ensures |s| == n && Distinct(s) && forall x: nat :: x in s <==> x < n
  {
    var all := Identity(n);
    assert |multiset(s)| == |s| && |multiset(all)| == |all|;
    DistinctCount(all);
    DistinctCount(s);
    forall x: nat ensures x in s <==> x < n {
      SameElements(s, all, x);
      if x < n { assert all[x] == x; }
    }
  }

  lemma StartOfIndices(s: seq<nat>, n: nat, target: nat)
    requires multiset(s) == multiset(Identity(n)) && target <= n
    ensures |s| == n && Distinct(s[..target]) && forall x :: x in s[..target] ==> x < n
  {
    ShuffledIndices(s, n);
    forall x | x in s[..target] ensures x < n { assert x in s; }
  }

  function ToSet(s: seq<nat>): set<nat> {
    set x | x in s
  }

  lemma ToSetMore(s: seq<nat>, x: nat)
    ensures ToSet(s + [x]) == ToSet(s) + {x}
  {}

  lemma {:induction false} SizeOfDistinct(s: seq<nat>)
    requires Distinct(s)
    ensures |ToSet(s)| == |s|
  {
    if s != [] {
      var init, last := s[..|s| - 1], s[|s| - 1];
      SizeOfDistinct(init);
      ToSetMore(init, last);
      assert init + [last] == s;
      assert last !in ToSet(init);
    }
  }

  /** The indices below `i` that are in the set, counted. */
  function Under(deleted: set<nat>, i: nat): set<nat> {
    set x | x in deleted && x < i
  }

  /** The part of `phase5_gc_after_deletes` that chooses files: those to delete, and the cells of the rest. */
  method ChooseDeletes(total: nat) returns (deleted: seq<nat>, survivors: seq<(nat, nat)>)
    ensures |deleted| <= 10000 && 10 * |deleted| <= total && (|deleted| < 10000 ==> total < 10 * (|deleted| + 1))
    ensures total > 0 ==> deleted == ShuffleBy(Identity(total), Drawn(Draws(999, total - 1)), total)[..|deleted|]
    ensures Distinct(deleted) && forall x :: x in deleted ==> x < total
    ensures |survivors| == total - |deleted| && Distinct(survivors)
    ensures forall flat: nat :: flat < total ==> (Cell(flat) in survivors <==> flat !in deleted)
    ensures forall cell :: cell in survivors ==> exists flat: nat :: flat < total && cell == Cell(flat)
  {
    var order := DrawOrder(total);
    var target := DeleteTarget(total);
    StartOfIndices(order, total, target);
    deleted := order[..target];
    survivors := Survivors(total, deleted);
  }

  /** All the indices, shuffled from the benchmark's seed. */
  method DrawOrder(total: nat) returns (order: seq<nat>)
    ensures multiset(order) == multiset(Identity(total))
    ensures total > 0 ==> order == ShuffleBy(Identity(total), Drawn(Draws(999, total - 1)), total)
  {
    var rng := new SimpleRng(DELETE_SEED);
    var indices := new nat[total](i => i);
    assert indices[..] == Identity(total);
    ShuffleArray(rng, indices);
    order := indices[..];
  }

  method Survivors(total: nat, deleted: seq<nat>) returns (survivors: seq<(nat, nat)>)
    requires Distinct(deleted) && forall x :: x in deleted ==> x < total
    ensures |survivors| == total - |deleted| && Distinct(survivors)
    ensures forall flat: nat :: flat < total ==> (Cell(flat) in survivors <==> flat !in deleted)
    ensures forall cell :: cell in survivors ==> exists flat: nat :: flat < total && cell == Cell(flat)
  {
    var deletedSet := ToSet(deleted);
    ghost var flats: seq<nat> := [];
    survivors := [];
    for flat := 0 to total
      invariant Listed(survivors, flats) && Kept(flats, deletedSet, flat)
      invariant |flats| + |Under(deletedSet, flat)| == flat
    {
      if flat !in deletedSet {
        KeptMore(flats, deletedSet, flat);
        assert Under(deletedSet, flat + 1) == Under(deletedSet, flat);
        survivors := survivors + [Cell(flat)];
        flats := flats + [flat];
      } else {
        assert Under(deletedSet, flat + 1) == Under(deletedSet, flat) + {flat};
      }
    }
    SizeOfDistinct(deleted);
    assert Under(deletedSet, total) == deletedSet;
    SurvivorsAreKept(survivors, flats, deletedSet, total);
  }

  ghost predicate Listed(cells: seq<(nat, nat)>, flats: seq<nat>) {
    |cells| == |flats| && forall i :: 0 <= i < |flats| ==> cells[i] == Cell(flats[i])
  }

  /** Exactly the indices below `n` outside the set, in order. */
  ghost predicate Kept(flats: seq<nat>, deleted: set<nat>, n: nat) {
    && (forall i, j :: 0 <= i < j < |flats| ==> flats[i] < flats[j])
    && (forall x: nat :: x in flats <==> x < n && x !in deleted)
  }

  lemma KeptMore(flats: seq<nat>, deleted: set<nat>, n: nat)
    requires Kept(flats, deleted, n) && n !in deleted
    ensures Kept(flats + [n], deleted, n + 1)
  {
    forall i | 0 <= i < |flats| ensures flats[i] < n { assert flats[i] in flats; }
  }

  lemma SurvivorsAreKept(cells: seq<(nat, nat)>, flats: seq<nat>, deleted: set<nat>, n: nat)
    requires Listed(cells, flats) && Kept(flats, deleted, n)
    ensures Distinct(cells)
    ensures forall flat: nat :: flat < n ==> (Cell(flat) in cells <==> flat !in deleted)
    ensures forall cell :: cell in cells ==> exists flat: nat :: flat < n && cell == Cell(flat)
  {
    forall flat: nat | flat < n ensures Cell(flat) in cells <==> flat !in deleted {
      if flat !in deleted {
        var i :| 0 <= i < |flats| && flats[i] == flat;
        assert cells[i] == Cell(flat);
      } else if Cell(flat) in cells {
        var i :| 0 <= i < |cells| && cells[i] == Cell(flat);
        CellInjective(flats[i], flat);
      }
    }
    forall cell | cell in cells ensures exists flat: nat :: flat < n && cell == Cell(flat) {
      var i :| 0 <= i < |cells| && cells[i] == cell;
      assert flats[i] in flats;
    }
    forall i, j | 0 <= i < j < |cells| ensures cells[i] != cells[j] {
      if cells[i] == cells[j] { CellInjective(flats[i], flats[j]); }
    }
  }

  /** Deleted and surviving cells share the stored cells between them. */
  lemma CellsArePartitioned(total: nat, deleted: seq<nat>, survivors: seq<(nat, nat)>, shard: nat, file: nat)
    requires file < FILES_PER_SHARD && Flat(shard, file) < total
    requires forall x :: x in deleted ==> x < total
    requires forall flat: nat :: flat < total ==> (Cell(flat) in survivors <==> flat !in deleted)
    ensures (shard, file) in survivors <==> !(exists flat :: flat in deleted && Cell(flat) == (shard, file))
  {
    CellOfFlat(shard, file);
    if (shard, file) !in survivors {
      assert Flat(shard, file) in deleted;
    } else {
      forall flat | flat in deleted ensures Cell(flat) != (shard, file) {
        if Cell(flat) == (shard, file) { CellInjective(flat, Flat(shard, file)); }
      }
    }
  }
}
