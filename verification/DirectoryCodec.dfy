/**
 Directory entries and B-tree nodes, and their bytes: `ChildEntry::serialize`,
 `BTreeNode::serialize` and the readers that undo them.
 */
module DirectoryCodec {
  import opened Common
  import opened Words
  import opened Bytes

  datatype Error = NotFound | Corrupt | UnexpectedEof | InvalidInput

  const MAX_STRING: nat := 0xFFFF

  const LEAF_MARKER: byte := 0
  const INTERNAL_MARKER: byte := 1

  /** Strings are held as their bytes; that they are UTF-8 is part of `Encodable`. */
  datatype ChildEntry = ChildEntry(
    entryType: byte,
    hash: Bytes,
    totalSize: Word,
    createdAt: i64,
    updatedAt: i64,
    name: Bytes,
    contentType: Option<Bytes>,
    virtualTime: Word,
    nodeId: Word)

  /** Children are named by the hashes of their nodes. */
  datatype BTreeNode = Leaf(entries: seq<ChildEntry>) | Internal(keys: seq<Bytes>, children: seq<Bytes>)

  // ---------------------------------------------------------------------------
  // Writing
  // ---------------------------------------------------------------------------

  function ContentTypeBytes(e: ChildEntry): Bytes {
    if e.contentType.Some? then e.contentType.value else []
  }

  function EncodeString(s: Bytes): Bytes {
    LittleEndian(|s|, 2) + s
  }

  function EncodeU64(n: Word): Bytes {
    LittleEndian(n, 8)
  }

  function EncodeEntry(e: ChildEntry): Result<Bytes, Error> {
    if |e.name| > MAX_STRING then Err(InvalidInput)
    else if |ContentTypeBytes(e)| > MAX_STRING then Err(InvalidInput)
    else Ok(EntryBytes(e))
  }

  function EntryBytes(e: ChildEntry): Bytes {
    [e.entryType] + (e.hash + (EncodeU64(e.totalSize)
      + (EncodeU64(ToUnsigned(e.createdAt)) + (EncodeU64(ToUnsigned(e.updatedAt))
        + (EncodeString(e.name) + (EncodeString(ContentTypeBytes(e))
          + (EncodeU64(e.virtualTime) + EncodeU64(e.nodeId))))))))
  }

  function EncodeEntries(es: seq<ChildEntry>): Result<Bytes, Error> {
    if es == [] then Ok([]) else
    var head := EncodeEntry(es[0]);
    if head.Err? then Err(head.error) else
    var tail := EncodeEntries(es[1..]);
    if tail.Err? then Err(tail.error) else Ok(head.value + tail.value)
  }

  function EncodeKeys(keys: seq<Bytes>): Result<Bytes, Error> {
    if keys == [] then Ok([])
    else if |keys[0]| > MAX_STRING then Err(InvalidInput)
    else
      var tail := EncodeKeys(keys[1..]);
      if tail.Err? then Err(tail.error) else Ok(EncodeString(keys[0]) + tail.value)
  }

  function Joined(hashes: seq<Bytes>): Bytes {
    if hashes == [] then [] else hashes[0] + Joined(hashes[1..])
  }

  /** A count is truncated to 16 bits. */
  function EncodeNode(node: BTreeNode): Result<Bytes, Error> {
    match node
    case Leaf(es) =>
      var body := EncodeEntries(es);
      if body.Err? then Err(body.error) else Ok([LEAF_MARKER] + (LittleEndian(|es|, 2) + body.value))
    case Internal(keys, children) =>
      var body := EncodeKeys(keys);
      if body.Err? then Err(body.error)
      else Ok([INTERNAL_MARKER] + (LittleEndian(|keys|, 2) + (body.value + Joined(children))))
  }

  // ---------------------------------------------------------------------------
  // Reading: each reader returns what it read and the bytes that follow
  // ---------------------------------------------------------------------------

  function ReadBytes(d: Bytes, n: nat): Result<(Bytes, Bytes), Error> {
    if n > |d| then Err(UnexpectedEof) else Ok((d[..n], d[n..]))
  }

  function U16(d: Bytes): (n: nat)
    requires |d| >= 2
    ensures n <= MAX_STRING
  {
    (d[0] as nat) + 256 * (d[1] as nat)
  }

  function ReadU16(d: Bytes): (r: Result<(nat, Bytes), Error>)
    ensures r.Ok? ==> r.value.0 <= MAX_STRING
  {
    if |d| < 2 then Err(UnexpectedEof) else Ok((U16(d), d[2..]))
  }

  function ReadU64(d: Bytes): Result<(Word, Bytes), Error> {
    if |d| < 8 then Err(UnexpectedEof) else
    FromLittleEndianFits(d[..8]);
    PowersOf256();
    Ok((FromLittleEndian(d[..8]), d[8..]))
  }

  function ReadI64(d: Bytes): Result<(i64, Bytes), Error> {
    var (w, rest) :- ReadU64(d);
    Ok((ToSigned(w), rest))
  }

  function ReadString(d: Bytes): Result<(Bytes, Bytes), Error> {
    var (n, rest) :- ReadU16(d);
    var (s, rest') :- ReadBytes(rest, n);
    if ValidUtf8(s) then Ok((s, rest')) else Err(Corrupt)
  }

  /** Entries written before the last two fields existed end early. */
  function ReadOptionalU64(d: Bytes): (Word, Bytes) {
    var r := ReadU64(d);
    if r.Ok? then r.value else (0, d)
  }

  function DecodeEntry(d: Bytes, hashLength: nat): Result<(ChildEntry, Bytes), Error> {
    if d == [] then Err(UnexpectedEof) else
    var (hash, d1) :- ReadBytes(d[1..], hashLength);
    var (totalSize, d2) :- ReadU64(d1);
    var (createdAt, d3) :- ReadI64(d2);
    var (updatedAt, d4) :- ReadI64(d3);
    var (name, d5) :- ReadString(d4);
    var (contentType, d6) :- ReadString(d5);
    var (virtualTime, d7) := ReadOptionalU64(d6);
    var (nodeId, d8) := ReadOptionalU64(d7);
    Ok((ChildEntry(d[0], hash, totalSize, createdAt, updatedAt, name,
                   if contentType == [] then None else Some(contentType), virtualTime, nodeId), d8))
  }

  lemma DecodeEntryConsumes(d: Bytes, hashLength: nat)
    ensures DecodeEntry(d, hashLength).Ok? ==> |DecodeEntry(d, hashLength).value.1| < |d|
  {}

  function DecodeEntries(d: Bytes, hashLength: nat): Result<seq<ChildEntry>, Error>
    decreases |d|
  {
    if d == [] then Ok([]) else
    var (head, rest) :- DecodeEntry(d, hashLength);
    DecodeEntryConsumes(d, hashLength);
    var tail :- DecodeEntries(rest, hashLength);
    Ok([head] + tail)
  }

  function DecodeKeys(d: Bytes, count: nat): Result<(seq<Bytes>, Bytes), Error> {
    if count == 0 then Ok(([], d)) else
    if |d| < 2 then Err(Corrupt) else
    var n, rest := U16(d), d[2..];
    if n > |rest| || !ValidUtf8(rest[..n]) then Err(Corrupt) else
    var (tail, rest') :- DecodeKeys(rest[n..], count - 1);
    Ok(([rest[..n]] + tail, rest'))
  }

  function DecodeHashes(d: Bytes, hashLength: nat, count: nat): Result<seq<Bytes>, Error> {
    if count == 0 then Ok([])
    else if hashLength > |d| then Err(Corrupt)
    else
      var tail :- DecodeHashes(d[hashLength..], hashLength, count - 1);
      Ok([d[..hashLength]] + tail)
  }

  function DecodeNode(d: Bytes, hashLength: nat): Result<BTreeNode, Error> {
    if |d| < 3 then Err(Corrupt)
    else if d[0] == LEAF_MARKER then
      var (count, rest) :- ReadU16(d[1..]);
      if count == 0 then Ok(Leaf([])) else
      var entries :- DecodeEntries(rest, hashLength);
      Ok(Leaf(entries))
    else if d[0] == INTERNAL_MARKER then
      var (count, rest) :- ReadU16(d[1..]);
      var (keys, rest') :- DecodeKeys(rest, count);
      var children :- DecodeHashes(rest', hashLength, count + 1);
      Ok(Internal(keys, children))
    else Err(Corrupt)
  }

  lemma {:induction false} FromLittleEndianFits(b: Bytes)
    ensures FromLittleEndian(b) < Pow256(|b|)
  {
    if b != [] { FromLittleEndianFits(b[1..]); }
  }

  // ---------------------------------------------------------------------------
  // Round trips
  // ---------------------------------------------------------------------------

  lemma ReadU16Back(n: nat, rest: Bytes)
    requires n <= MAX_STRING
    ensures ReadU16(LittleEndian(n, 2) + rest) == Ok((n, rest))
  {}

  lemma ReadU64Back(n: Word, rest: Bytes)
    ensures ReadU64(EncodeU64(n) + rest) == Ok((n, rest))
  {
    var b := EncodeU64(n);
    PowersOf256();
    LittleEndianRoundTrip(n, 8);
    assert (b + rest)[..8] == b && (b + rest)[8..] == rest;
  }

  lemma ReadI64Back(n: i64, rest: Bytes)
    ensures ReadI64(EncodeU64(ToUnsigned(n)) + rest) == Ok((n, rest))
  {
    ReadU64Back(ToUnsigned(n), rest);
    SignedRoundTrip(n);
  }

  lemma ReadBytesBack(s: Bytes, rest: Bytes)
    ensures ReadBytes(s + rest, |s|) == Ok((s, rest))
  {}

  /** The bytes of a Rust `String`. */
  predicate IsString(s: Bytes) {
    ValidUtf8(s)
  }

  lemma ReadStringBack(s: Bytes, rest: Bytes)
    requires IsString(s) && |s| <= MAX_STRING
    ensures ReadString(EncodeString(s) + rest) == Ok((s, rest))
  {
    assert EncodeString(s) + rest == LittleEndian(|s|, 2) + (s + rest);
    ReadU16Back(|s|, s + rest);
    ReadBytesBack(s, rest);
  }

  /** An empty content type is not told from a missing one. */
  function AsRead(e: ChildEntry): ChildEntry {
    if e.contentType == Some([]) then e.(contentType := None) else e
  }

  /** The entry as its reader gets it back, whatever follows it in the buffer. */
  lemma EntryRoundTrip(e: ChildEntry, rest: Bytes)
    requires IsString(e.name) && IsString(ContentTypeBytes(e)) && EncodeEntry(e).Ok?
    ensures DecodeEntry(EncodeEntry(e).value + rest, |e.hash|) == Ok((AsRead(e), rest))
  {
    var ct := ContentTypeBytes(e);
    var r8 := EncodeU64(e.nodeId) + rest;
    var r7 := EncodeU64(e.virtualTime) + r8;
    var r6 := EncodeString(ct) + r7;
    var r5 := EncodeString(e.name) + r6;
    var r4 := EncodeU64(ToUnsigned(e.updatedAt)) + r5;
    var r3 := EncodeU64(ToUnsigned(e.createdAt)) + r4;
    var r2 := EncodeU64(e.totalSize) + r3;
    var r1 := e.hash + r2;
    EntryBytesSplit(e, rest);
    var d := [e.entryType] + r1;
    assert EntryBytes(e) + rest == d;
    assert d[0] == e.entryType && d[1..] == r1;
    ReadBytesBack(e.hash, r2);
    ReadU64Back(e.totalSize, r3);
    ReadI64Back(e.createdAt, r4);
    ReadI64Back(e.updatedAt, r5);
    ReadStringBack(e.name, r6);
    ReadStringBack(ct, r7);
    ReadU64Back(e.virtualTime, r8);
    ReadU64Back(e.nodeId, rest);
  }

  lemma EntryBytesSplit(e: ChildEntry, rest: Bytes)
    ensures EntryBytes(e) + rest ==
      [e.entryType] + (e.hash + (EncodeU64(e.totalSize)
        + (EncodeU64(ToUnsigned(e.createdAt)) + (EncodeU64(ToUnsigned(e.updatedAt))
          + (EncodeString(e.name) + (EncodeString(ContentTypeBytes(e))
            + (EncodeU64(e.virtualTime) + (EncodeU64(e.nodeId) + rest))))))))
  {}

  /** An entry as its type makes it: its strings are strings and its hash has the store's length. */
  predicate Proper(e: ChildEntry, hashLength: nat) {
    |e.hash| == hashLength && IsString(e.name) && IsString(ContentTypeBytes(e))
  }

  /** An entry that comes back as it was: its hash has the store's length and its strings fit. */
  predicate Encodable(e: ChildEntry, hashLength: nat) {
    && Proper(e, hashLength)
    && |e.name| <= MAX_STRING && |ContentTypeBytes(e)| <= MAX_STRING
    && e.contentType != Some([])
  }

  /** A proper entry that can be written is, as it will be read, one that comes back. */
  lemma AsReadIsEncodable(e: ChildEntry, hashLength: nat)
    requires Proper(e, hashLength) && EncodeEntry(e).Ok?
    ensures Encodable(AsRead(e), hashLength) && EncodeEntry(AsRead(e)) == EncodeEntry(e)
  {}

  /** The same entries but for empty content types. */
  ghost predicate ReadAlike(a: seq<ChildEntry>, b: seq<ChildEntry>) {
    |a| == |b| && forall i :: 0 <= i < |a| ==> AsRead(a[i]) == AsRead(b[i])
  }

  lemma SameEntryBytes(a: ChildEntry, b: ChildEntry)
    requires AsRead(a) == AsRead(b)
    ensures EncodeEntry(a) == EncodeEntry(b) && a.name == b.name
  {
    assert ContentTypeBytes(a) == ContentTypeBytes(b);
  }

  lemma {:induction false} SameBytes(a: seq<ChildEntry>, b: seq<ChildEntry>)
    requires ReadAlike(a, b)
    ensures EncodeEntries(a) == EncodeEntries(b)
  {
    if a != [] {
      SameEntryBytes(a[0], b[0]);
      SameBytes(a[1..], b[1..]);
    }
  }

  /** One entry that cannot be written is enough. */
  lemma {:induction false} CannotEncode(es: seq<ChildEntry>, i: nat)
    requires i < |es| && EncodeEntry(es[i]).Err?
    ensures EncodeEntries(es).Err?
  {
    if i > 0 { CannotEncode(es[1..], i - 1); }
  }

  lemma {:induction false} EntriesRoundTrip(es: seq<ChildEntry>, hashLength: nat)
    requires forall i :: 0 <= i < |es| ==> Encodable(es[i], hashLength)
    ensures EncodeEntries(es).Ok? && DecodeEntries(EncodeEntries(es).value, hashLength) == Ok(es)
  {
    if es != [] {
      EntriesRoundTrip(es[1..], hashLength);
      EntryRoundTrip(es[0], EncodeEntries(es[1..]).value);
      assert [es[0]] + es[1..] == es;
    }
  }

  lemma KeyBack(k: Bytes, d: Bytes, count: nat)
    requires IsString(k) && |k| <= MAX_STRING && DecodeKeys(d, count).Ok?
    ensures DecodeKeys(EncodeString(k) + d, count + 1)
              == Ok(([k] + DecodeKeys(d, count).value.0, DecodeKeys(d, count).value.1))
  {
    var whole := EncodeString(k) + d;
    assert whole == LittleEndian(|k|, 2) + (k + d);
    ReadU16Back(|k|, k + d);
    assert whole[2..][..|k|] == k && whole[2..][|k|..] == d;
  }

  lemma {:induction false} KeysRoundTrip(keys: seq<Bytes>, rest: Bytes)
    requires forall i :: 0 <= i < |keys| ==> IsString(keys[i]) && |keys[i]| <= MAX_STRING
    ensures EncodeKeys(keys).Ok? && DecodeKeys(EncodeKeys(keys).value + rest, |keys|) == Ok((keys, rest))
  {
    if keys == [] {
      assert [] + rest == rest;
    } else {
      KeysRoundTrip(keys[1..], rest);
      EncodeKeysCons(keys, rest);
      KeyBack(keys[0], EncodeKeys(keys[1..]).value + rest, |keys| - 1);
      assert [keys[0]] + keys[1..] == keys;
    }
  }

  lemma EncodeKeysCons(keys: seq<Bytes>, rest: Bytes)
    requires keys != [] && |keys[0]| <= MAX_STRING && EncodeKeys(keys[1..]).Ok?
    ensures EncodeKeys(keys).Ok?
    ensures EncodeKeys(keys).value + rest == EncodeString(keys[0]) + (EncodeKeys(keys[1..]).value + rest)
  {}

  lemma {:induction false} JoinedLength(hashes: seq<Bytes>, hashLength: nat)
    requires forall i :: 0 <= i < |hashes| ==> |hashes[i]| == hashLength
    ensures |Joined(hashes)| == |hashes| * hashLength
  {
    if hashes != [] { JoinedLength(hashes[1..], hashLength); }
  }

  lemma {:induction false} HashesRoundTrip(hashes: seq<Bytes>, hashLength: nat)
    requires forall i :: 0 <= i < |hashes| ==> |hashes[i]| == hashLength
    ensures DecodeHashes(Joined(hashes), hashLength, |hashes|) == Ok(hashes)
  {
    if hashes != [] {
      HashesRoundTrip(hashes[1..], hashLength);
      var d := Joined(hashes);
      assert d[..hashLength] == hashes[0] && d[hashLength..] == Joined(hashes[1..]);
      assert [hashes[0]] + hashes[1..] == hashes;
    }
  }

  lemma {:induction false} HashesTooShort(d: Bytes, hashLength: nat, count: nat)
    requires hashLength > 0 && |d| < count * hashLength
    ensures DecodeHashes(d, hashLength, count) == Err(Corrupt)
  {
    if hashLength <= |d| {
      assert count * hashLength == (count - 1) * hashLength + hashLength;
      HashesTooShort(d[hashLength..], hashLength, count - 1);
    }
  }

  /** A node that comes back as it was. */
  predicate EncodableNode(node: BTreeNode, hashLength: nat) {
    match node
    case Leaf(es) => |es| <= MAX_STRING && forall i :: 0 <= i < |es| ==> Encodable(es[i], hashLength)
    case Internal(keys, children) =>
      && |keys| <= MAX_STRING && |children| == |keys| + 1
      && (forall i :: 0 <= i < |keys| ==> IsString(keys[i]) && |keys[i]| <= MAX_STRING)
      && (forall i :: 0 <= i < |children| ==> |children[i]| == hashLength)
  }

  lemma NodeRoundTrip(node: BTreeNode, hashLength: nat)
    requires EncodableNode(node, hashLength)
    ensures EncodeNode(node).Ok? && DecodeNode(EncodeNode(node).value, hashLength) == Ok(node)
  {
    match node
    case Leaf(es) =>
      EntriesRoundTrip(es, hashLength);
      HeaderBack(LEAF_MARKER, |es|, EncodeEntries(es).value);
    case Internal(keys, children) =>
      KeysRoundTrip(keys, Joined(children));
      HashesRoundTrip(children, hashLength);
      HeaderBack(INTERNAL_MARKER, |keys|, EncodeKeys(keys).value + Joined(children));
  }

  lemma HeaderBack(marker: byte, count: nat, body: Bytes)
    requires count <= MAX_STRING
    ensures var d := [marker] + (LittleEndian(count, 2) + body);
            |d| >= 3 && d[0] == marker && ReadU16(d[1..]) == Ok((count, body))
  {}

  /** A node with as many keys as children cannot be read back. */
  lemma TooFewChildren(keys: seq<Bytes>, children: seq<Bytes>, hashLength: nat)
    requires hashLength > 0 && |keys| <= MAX_STRING && |children| == |keys|
    requires forall i :: 0 <= i < |keys| ==> IsString(keys[i]) && |keys[i]| <= MAX_STRING
    requires forall i :: 0 <= i < |children| ==> |children[i]| == hashLength
    ensures EncodeNode(Internal(keys, children)).Ok?
    ensures DecodeNode(EncodeNode(Internal(keys, children)).value, hashLength) == Err(Corrupt)
  {
    KeysRoundTrip(keys, Joined(children));
    HeaderBack(INTERNAL_MARKER, |keys|, EncodeKeys(keys).value + Joined(children));
    JoinedLength(children, hashLength);
    assert (|keys| + 1) * hashLength == |keys| * hashLength + hashLength;
    HashesTooShort(Joined(children), hashLength, |keys| + 1);
  }
}
