/**
 Sorted sequences of directory entries: search, insertion and removal as a leaf performs them, and
 what they mean for the finite map from names to entries that the sequence stands for.
 */
module SortedEntries {
  import opened Common
  import opened Bytes
  import opened DirectoryCodec

  // ---------------------------------------------------------------------------
  // Sorted names
  // ---------------------------------------------------------------------------

  predicate Increasing(names: seq<Bytes>) {
    forall i, j :: 0 <= i < j < |names| ==> Less(names[i], names[j])
  }

  /** Where `name` belongs: what a binary search of increasing names reports. */
  function Rank(names: seq<Bytes>, name: Bytes): (r: nat)
    ensures r <= |names|
  {
    if names == [] || !Less(names[0], name) then 0 else 1 + Rank(names[1..], name)
  }

  predicate FoundAt(names: seq<Bytes>, name: Bytes, r: nat) {
    r < |names| && names[r] == name
  }

  lemma {:induction false} BelowRank(names: seq<Bytes>, name: Bytes)
    ensures forall i :: 0 <= i < Rank(names, name) ==> Less(names[i], name)
    ensures Rank(names, name) < |names| ==> !Less(names[Rank(names, name)], name)
  {
    if names != [] && Less(names[0], name) {
      BelowRank(names[1..], name);
      forall i | 0 <= i < Rank(names, name) ensures Less(names[i], name) {
        if i > 0 { assert names[i] == names[1..][i - 1]; }
      }
    }
  }

  lemma AboveRank(names: seq<Bytes>, name: Bytes, i: nat)
    requires Increasing(names) && Rank(names, name) <= i < |names|
    ensures (i == Rank(names, name) && names[i] == name) || Less(name, names[i])
  {
    var r := Rank(names, name);
    BelowRank(names, name);
    LessTotal(names[r], name);
    if i > r && Less(name, names[r]) { LessTransitive(name, names[r], names[i]); }
  }

  /** The rank is the only place that has the smaller names before it and no smaller one after it. */
  lemma RankIs(names: seq<Bytes>, name: Bytes, r: nat)
    requires r <= |names|
    requires forall i :: 0 <= i < r ==> Less(names[i], name)
    requires r < |names| ==> !Less(names[r], name)
    ensures Rank(names, name) == r
  {
    BelowRank(names, name);
  }

  // ---------------------------------------------------------------------------
  // Sorted entries
  // ---------------------------------------------------------------------------

  function Names(es: seq<ChildEntry>): (names: seq<Bytes>)
    ensures |names| == |es| && forall i :: 0 <= i < |es| ==> names[i] == es[i].name
  {
    seq(|es|, i requires 0 <= i < |es| => es[i].name)
  }

  predicate Sorted(es: seq<ChildEntry>) {
    Increasing(Names(es))
  }

  function Find(es: seq<ChildEntry>, name: Bytes): Option<ChildEntry> {
    var r := Rank(Names(es), name);
    if FoundAt(Names(es), name, r) then Some(es[r]) else None
  }

  /** The entries before `name`. */
  function Lower(es: seq<ChildEntry>, name: Bytes): seq<ChildEntry> {
    es[..Rank(Names(es), name)]
  }

  /** Where the entries past the name start. */
  function UpperStart(es: seq<ChildEntry>, name: Bytes): (u: nat)
    ensures u <= |es|
  {
    var r := Rank(Names(es), name);
    if FoundAt(Names(es), name, r) then r + 1 else r
  }

  /** The entries after `name`. */
  function Upper(es: seq<ChildEntry>, name: Bytes): seq<ChildEntry> {
    es[UpperStart(es, name)..]
  }

  function Upsert(es: seq<ChildEntry>, e: ChildEntry): seq<ChildEntry> {
    Lower(es, e.name) + ([e] + Upper(es, e.name))
  }

  function Remove(es: seq<ChildEntry>, name: Bytes): seq<ChildEntry> {
    Lower(es, name) + Upper(es, name)
  }

  lemma SortedBetween(es: seq<ChildEntry>, i: nat, j: nat)
    requires Sorted(es) && i < |es| && j < |es|
    ensures i < j <==> Less(es[i].name, es[j].name)
    ensures i == j <==> es[i].name == es[j].name
  {
    var names := Names(es);
    if i < j {
      assert Less(names[i], names[j]);
    } else if j < i {
      assert Less(names[j], names[i]);
    }
    LessIrreflexive(names[i]);
    if Less(names[i], names[j]) && Less(names[j], names[i]) { LessTransitive(names[i], names[j], names[i]); }
  }

  /** A piece of a sorted sequence is sorted. */
  lemma SortedSlice(es: seq<ChildEntry>, lo: nat, hi: nat)
    requires Sorted(es) && lo <= hi <= |es|
    ensures Sorted(es[lo..hi])
  {}

  /** Every name of the first sequence comes before every name of the second. */
  predicate AllBefore(a: seq<ChildEntry>, b: seq<ChildEntry>) {
    forall x, y :: x in a && y in b ==> Less(x.name, y.name)
  }

  lemma SortedConcat(a: seq<ChildEntry>, b: seq<ChildEntry>)
    requires Sorted(a) && Sorted(b) && AllBefore(a, b)
    ensures Sorted(a + b)
  {}

  lemma FindMember(es: seq<ChildEntry>, name: Bytes)
    requires Sorted(es)
    ensures Find(es, name).Some? ==> Find(es, name).value in es && Find(es, name).value.name == name
    ensures forall x :: x in es && x.name == name ==> Find(es, name) == Some(x)
  {
    var r := Rank(Names(es), name);
    BelowRank(Names(es), name);
    forall x | x in es && x.name == name ensures Find(es, name) == Some(x) {
      var i :| 0 <= i < |es| && es[i] == x;
      LessIrreflexive(name);
      AboveRank(Names(es), name, i);
    }
  }

  predicate AllBelow(es: seq<ChildEntry>, name: Bytes) {
    forall x :: x in es ==> Less(x.name, name)
  }

  predicate AllAbove(name: Bytes, es: seq<ChildEntry>) {
    forall x :: x in es ==> Less(name, x.name)
  }

  lemma LowerPiece(es: seq<ChildEntry>, name: Bytes)
    requires Sorted(es)
    ensures Sorted(Lower(es, name)) && AllBelow(Lower(es, name), name)
  {
    var r := Rank(Names(es), name);
    BelowRank(Names(es), name);
    SortedSlice(es, 0, r);
    assert es[0..r] == es[..r];
    forall x | x in es[..r] ensures Less(x.name, name) {
      var i :| 0 <= i < r && es[i] == x;
    }
  }

  lemma UpperPiece(es: seq<ChildEntry>, name: Bytes)
    requires Sorted(es)
    ensures Sorted(Upper(es, name)) && AllAbove(name, Upper(es, name))
  {
    var r := Rank(Names(es), name);
    var u := if FoundAt(Names(es), name, r) then r + 1 else r;
    SortedSlice(es, u, |es|);
    assert es[u..|es|] == es[u..];
    forall x | x in es[u..] ensures Less(name, x.name) {
      var i :| u <= i < |es| && es[i] == x;
      AboveRank(Names(es), name, i);
    }
  }

  /** The entry of that name, if there is one. */
  function Hit(es: seq<ChildEntry>, name: Bytes): seq<ChildEntry> {
    var r := Rank(Names(es), name);
    if FoundAt(Names(es), name, r) then [es[r]] else []
  }

  lemma Reassembled(es: seq<ChildEntry>, name: Bytes)
    ensures es == Lower(es, name) + (Hit(es, name) + Upper(es, name))
    ensures forall x :: x in Hit(es, name) ==> x.name == name
  {}

  lemma PieceMembers(es: seq<ChildEntry>, name: Bytes)
    requires Sorted(es)
    ensures forall x :: x in Remove(es, name) <==> x in es && x.name != name
  {
    Reassembled(es, name);
    LowerPiece(es, name);
    UpperPiece(es, name);
    LessIrreflexive(name);
    PartsWithout(es, Lower(es, name), Hit(es, name), Upper(es, name), name);
  }

  lemma PartsWithout(es: seq<ChildEntry>, lo: seq<ChildEntry>, hit: seq<ChildEntry>, up: seq<ChildEntry>, name: Bytes)
    requires es == lo + (hit + up) && AllBelow(lo, name) && AllAbove(name, up) && !Less(name, name)
    requires forall x :: x in hit ==> x.name == name
    ensures forall x :: x in lo + up <==> x in es && x.name != name
  {}

  lemma UpsertMembers(es: seq<ChildEntry>, e: ChildEntry)
    requires Sorted(es)
    ensures forall x :: x in Upsert(es, e) <==> x == e || (x in es && x.name != e.name)
  {
    PieceMembers(es, e.name);
    assert forall x :: x in Upsert(es, e) <==> x == e || x in Remove(es, e.name);
  }

  lemma UpsertSorted(es: seq<ChildEntry>, e: ChildEntry)
    requires Sorted(es)
    ensures Sorted(Upsert(es, e))
  {
    LowerPiece(es, e.name);
    UpperPiece(es, e.name);
    SortedConcat([e], Upper(es, e.name));
    forall x, y | x in Lower(es, e.name) && y in [e] + Upper(es, e.name) ensures Less(x.name, y.name) {
      if y != e { LessTransitive(x.name, e.name, y.name); }
    }
    SortedConcat(Lower(es, e.name), [e] + Upper(es, e.name));
  }

  lemma RemoveSorted(es: seq<ChildEntry>, name: Bytes)
    requires Sorted(es)
    ensures Sorted(Remove(es, name))
  {}

  // ---------------------------------------------------------------------------
  // Locality: an operation on a middle piece is an operation on the whole
  // ---------------------------------------------------------------------------

  /** `name` belongs strictly between the two outer pieces. */
  predicate Surrounds(pre: seq<ChildEntry>, name: Bytes, post: seq<ChildEntry>) {
    AllBelow(pre, name) && AllAbove(name, post)
  }

  lemma RankInMiddle(pre: seq<ChildEntry>, mid: seq<ChildEntry>, post: seq<ChildEntry>, name: Bytes)
    requires Surrounds(pre, name, post)
    ensures var r := Rank(Names(mid), name);
            && Rank(Names(pre + mid + post), name) == |pre| + r
            && (FoundAt(Names(pre + mid + post), name, |pre| + r) <==> FoundAt(Names(mid), name, r))
  {
    var whole := pre + mid + post;
    var r := Rank(Names(mid), name);
    BelowRank(Names(mid), name);
    forall i | 0 <= i < |pre| + r ensures Less(Names(whole)[i], name) {
      if i < |pre| { assert whole[i] in pre; } else { assert whole[i] == mid[i - |pre|]; }
    }
    if |pre| + r < |whole| {
      if r < |mid| {
        assert whole[|pre| + r] == mid[r];
      } else {
        var y := whole[|pre| + r];
        assert y in post;
        LessIrreflexive(name);
        if Less(y.name, name) { LessTransitive(name, y.name, name); }
      }
    }
    RankIs(Names(whole), name, |pre| + r);
  }

  lemma MiddleSlices<T>(pre: seq<T>, mid: seq<T>, post: seq<T>, r: nat)
    requires r <= |mid|
    ensures (pre + mid + post)[..|pre| + r] == pre + mid[..r]
    ensures (pre + mid + post)[|pre| + r..] == mid[r..] + post
  {}

  lemma MiddleRegrouped<T>(pre: seq<T>, a: seq<T>, b: seq<T>, post: seq<T>)
    ensures (pre + a) + (b + post) == pre + (a + b) + post
  {}

  lemma PiecesInMiddle(pre: seq<ChildEntry>, mid: seq<ChildEntry>, post: seq<ChildEntry>, name: Bytes)
    requires Surrounds(pre, name, post)
    ensures Lower(pre + mid + post, name) == pre + Lower(mid, name)
    ensures Upper(pre + mid + post, name) == Upper(mid, name) + post
  {
    LowerInMiddle(pre, mid, post, name);
    UpperInMiddle(pre, mid, post, name);
  }

  lemma LowerInMiddle(pre: seq<ChildEntry>, mid: seq<ChildEntry>, post: seq<ChildEntry>, name: Bytes)
    requires Surrounds(pre, name, post)
    ensures Lower(pre + mid + post, name) == pre + Lower(mid, name)
  {
    RankInMiddle(pre, mid, post, name);
    MiddleSlices(pre, mid, post, Rank(Names(mid), name));
  }

  lemma UpperInMiddle(pre: seq<ChildEntry>, mid: seq<ChildEntry>, post: seq<ChildEntry>, name: Bytes)
    requires Surrounds(pre, name, post)
    ensures Upper(pre + mid + post, name) == Upper(mid, name) + post
  {
    UpperStartInMiddle(pre, mid, post, name);
    AfterInMiddle(pre, mid, post, UpperStart(mid, name));
  }

  lemma UpperStartInMiddle(pre: seq<ChildEntry>, mid: seq<ChildEntry>, post: seq<ChildEntry>, name: Bytes)
    requires Surrounds(pre, name, post)
    ensures UpperStart(pre + mid + post, name) == |pre| + UpperStart(mid, name)
  {
    RankInMiddle(pre, mid, post, name);
  }


  lemma AfterInMiddle<T>(pre: seq<T>, mid: seq<T>, post: seq<T>, r: nat)
    requires r <= |mid|
    ensures (pre + mid + post)[|pre| + r..] == mid[r..] + post
  {}

  lemma UpsertInMiddle(pre: seq<ChildEntry>, mid: seq<ChildEntry>, post: seq<ChildEntry>, e: ChildEntry)
    requires Surrounds(pre, e.name, post)
    ensures Upsert(pre + mid + post, e) == pre + Upsert(mid, e) + post
  {
    PiecesInMiddle(pre, mid, post, e.name);
    var lo, up := Lower(mid, e.name), Upper(mid, e.name);
    assert [e] + (up + post) == ([e] + up) + post;
    MiddleRegrouped(pre, lo, [e] + up, post);
  }

  lemma RemoveInMiddle(pre: seq<ChildEntry>, mid: seq<ChildEntry>, post: seq<ChildEntry>, name: Bytes)
    requires Surrounds(pre, name, post)
    ensures Remove(pre + mid + post, name) == pre + Remove(mid, name) + post
  {
    PiecesInMiddle(pre, mid, post, name);
    MiddleRegrouped(pre, Lower(mid, name), Upper(mid, name), post);
  }

  lemma FindInMiddle(pre: seq<ChildEntry>, mid: seq<ChildEntry>, post: seq<ChildEntry>, name: Bytes)
    requires Surrounds(pre, name, post)
    ensures Find(pre + mid + post, name) == Find(mid, name)
  {
    RankInMiddle(pre, mid, post, name);
  }

  // ---------------------------------------------------------------------------
  // The map a sorted sequence stands for
  // ---------------------------------------------------------------------------

  lemma NamesAreUnique(es: seq<ChildEntry>)
    requires Sorted(es)
    ensures forall x, y :: x in es && y in es && x.name == y.name ==> x == y
  {
    forall x, y | x in es && y in es && x.name == y.name ensures x == y {
      var i :| 0 <= i < |es| && es[i] == x;
      var j :| 0 <= j < |es| && es[j] == y;
      SortedBetween(es, i, j);
    }
  }

  function Directory(es: seq<ChildEntry>): (m: map<Bytes, ChildEntry>)
    requires Sorted(es)
    ensures forall x :: x in es ==> x.name in m && m[x.name] == x
    ensures forall n :: n in m ==> m[n] in es && m[n].name == n
  {
    NamesAreUnique(es);
    map x | x in es :: x.name := x
  }

  lemma DirectoryWith(es: seq<ChildEntry>, e: ChildEntry, u: seq<ChildEntry>)
    requires Sorted(es) && Sorted(u)
    requires forall x :: x in u <==> x == e || (x in es && x.name != e.name)
    ensures Directory(u) == Directory(es)[e.name := e]
  {}

  lemma DirectoryWithout(es: seq<ChildEntry>, name: Bytes, u: seq<ChildEntry>)
    requires Sorted(es) && Sorted(u)
    requires forall x :: x in u <==> x in es && x.name != name
    ensures Directory(u) == Directory(es) - {name}
  {}

  lemma UpsertDirectory(es: seq<ChildEntry>, e: ChildEntry)
    requires Sorted(es)
    ensures Sorted(Upsert(es, e)) && Directory(Upsert(es, e)) == Directory(es)[e.name := e]
  {
    UpsertSorted(es, e);
    UpsertMembers(es, e);
    DirectoryWith(es, e, Upsert(es, e));
  }

  lemma RemoveDirectory(es: seq<ChildEntry>, name: Bytes)
    requires Sorted(es)
    ensures Sorted(Remove(es, name)) && Directory(Remove(es, name)) == Directory(es) - {name}
  {
    RemoveSorted(es, name);
    PieceMembers(es, name);
    DirectoryWithout(es, name, Remove(es, name));
  }

  lemma FindDirectory(es: seq<ChildEntry>, name: Bytes)
    requires Sorted(es)
    ensures Find(es, name) == if name in Directory(es) then Some(Directory(es)[name]) else None
  {
    FindMember(es, name);
  }

  /** A sorted listing is determined by what it lists. */
  lemma {:induction false} ListingIsDetermined(a: seq<ChildEntry>, b: seq<ChildEntry>)
    requires Sorted(a) && Sorted(b) && Directory(a) == Directory(b)
    ensures a == b
  {
    forall x ensures x in a <==> x in b {
      if x in a { assert Directory(b)[x.name] == x; }
      if x in b { assert Directory(a)[x.name] == x; }
    }
    SameMembers(a, b);
  }

  lemma {:induction false} SameMembers(a: seq<ChildEntry>, b: seq<ChildEntry>)
    requires Sorted(a) && Sorted(b)
    requires forall x :: x in a <==> x in b
    ensures a == b
  {
    assert a == [] || a[0] in b;
    assert b == [] || b[0] in a;
    if a != [] {
      HeadsAgree(a, b);
      TailsSame(a, b);
      SameMembers(a[1..], b[1..]);
      assert a == [a[0]] + a[1..] && b == [b[0]] + b[1..];
    }
  }

  lemma TailsSame(a: seq<ChildEntry>, b: seq<ChildEntry>)
    requires Sorted(a) && Sorted(b) && a != [] && b != [] && a[0] == b[0]
    requires forall x :: x in a <==> x in b
    ensures Sorted(a[1..]) && Sorted(b[1..]) && forall x :: x in a[1..] <==> x in b[1..]
  {
    SortedSlice(a, 1, |a|);
    SortedSlice(b, 1, |b|);
    assert a[1..|a|] == a[1..] && b[1..|b|] == b[1..];
    forall x ensures x in a[1..] <==> x in b[1..] { TailMembers(a, x); TailMembers(b, x); }
  }

  lemma TailMembers(a: seq<ChildEntry>, x: ChildEntry)
    requires Sorted(a) && a != []
    ensures x in a[1..] <==> x in a && x != a[0]
  {
    if x in a[1..] {
      var i :| 1 <= i < |a| && a[i] == x;
      SortedBetween(a, 0, i);
    }
  }

  lemma HeadsAgree(a: seq<ChildEntry>, b: seq<ChildEntry>)
    requires Sorted(a) && Sorted(b) && a != [] && b != []
    requires forall x :: x in a <==> x in b
    ensures a[0] == b[0]
  {
    assert a[0] in b && b[0] in a;
    var i :| 0 <= i < |b| && b[i] == a[0];
    var j :| 0 <= j < |a| && a[j] == b[0];
    SortedBetween(b, 0, i);
    SortedBetween(a, 0, j);
    if i > 0 && j > 0 {
      LessTransitive(a[0].name, b[0].name, a[0].name);
      LessIrreflexive(a[0].name);
    }
  }
}
