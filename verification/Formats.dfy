/**
 The formats, spelled out: at which offset each field of a directory entry and of a node lies, which
 bytes the lines of a log consist of, and what the paths of the workers look like.
 */
module Formats {
  import opened Common
  import opened Words
  import opened Mixers
  import opened Bytes
  import opened Decimal
  import opened DirectoryCodec
  import opened Checkpoint
  import opened CrashWorker
  import B = BTreeStore
  import G = GcBench
  import P = EnginePath

  // ---------------------------------------------------------------------------
  // Little-endian numbers
  // ---------------------------------------------------------------------------

  lemma {:induction false} QuotientTwice(n: nat, i: nat)
    ensures n / 256 / Pow256(i) == n / Pow256(i + 1)
  {
    var p := Pow256(i);
    var q, r := n / 256 / p, n / 256 % p;
    assert n == 256 * p * q + (256 * r + n % 256) by { assert n == 256 * (p * q + r) + n % 256; }
    assert Pow256(i + 1) == 256 * p;
    QuotientIsUnique(n, 256 * p, q, 256 * r + n % 256);
  }

  /** The byte at index `i` counts in powers of 256. */
  lemma {:induction false} LittleEndianAt(n: nat, w: nat, i: nat)
    requires i < w
    ensures LittleEndian(n, w)[i] == n / Pow256(i) % 256
  {
    if i == 0 {
      assert Pow256(0) == 1;
    } else {
      LittleEndianAt(n / 256, w - 1, i - 1);
      QuotientTwice(n, i - 1);
    }
  }

  // ---------------------------------------------------------------------------
  // Directory entries and nodes
  // ---------------------------------------------------------------------------

  /** The bytes from an offset on, so many of them, if there are. */
  predicate Lies(part: Bytes, b: Bytes, at: nat) {
    at + |part| <= |b| && b[at..at + |part|] == part
  }

  /** From an offset on there is this and nothing else. */
  predicate EndsIn(b: Bytes, at: nat, rest: Bytes) {
    at <= |b| && b[at..] == rest
  }

  lemma Step(b: Bytes, at: nat, part: Bytes, rest: Bytes)
    requires EndsIn(b, at, part + rest)
    ensures Lies(part, b, at) && EndsIn(b, at + |part|, rest)
  {
    assert b[at..at + |part|] == b[at..][..|part|] && b[at + |part|..] == b[at..][|part|..];
  }

  /** A string behind its length. */
  lemma StringStep(b: Bytes, at: nat, text: Bytes, rest: Bytes)
    requires EndsIn(b, at, EncodeString(text) + rest)
    ensures Lies(LittleEndian(|text|, 2), b, at) && Lies(text, b, at + 2) && EndsIn(b, at + 2 + |text|, rest)
  {
    TwoSteps(b, at, LittleEndian(|text|, 2), text, rest);
  }

  lemma TwoSteps(b: Bytes, at: nat, length: Bytes, text: Bytes, rest: Bytes)
    requires EndsIn(b, at, length + text + rest)
    ensures Lies(length, b, at) && Lies(text, b, at + |length|) && EndsIn(b, at + |length| + |text|, rest)
  {
    Regroup(length, text, rest);
    Step(b, at, length, text + rest);
    Step(b, at + |length|, text, rest);
  }

  /** Type, hash, size, the two times, the name, the content type, and the two that older entries lack. */
  lemma EntryLayout(e: ChildEntry)
    requires EncodeEntry(e).Ok?
    ensures var b, h, n, c := EncodeEntry(e).value, |e.hash|, |e.name|, |ContentTypeBytes(e)|;
            && |b| == 45 + h + n + c && n <= 65535 && c <= 65535
            && Lies([e.entryType], b, 0) && Lies(e.hash, b, 1)
            && Lies(LittleEndian(e.totalSize, 8), b, 1 + h)
            && Lies(LittleEndian(ToUnsigned(e.createdAt), 8), b, 9 + h)
            && Lies(LittleEndian(ToUnsigned(e.updatedAt), 8), b, 17 + h)
            && Lies(LittleEndian(n, 2), b, 25 + h) && Lies(e.name, b, 27 + h)
            && Lies(LittleEndian(c, 2), b, 27 + h + n) && Lies(ContentTypeBytes(e), b, 29 + h + n)
            && Lies(LittleEndian(e.virtualTime, 8), b, 29 + h + n + c)
            && Lies(LittleEndian(e.nodeId, 8), b, 37 + h + n + c)
  {
    var b, h := EntryBytes(e), |e.hash|;
    var node := EncodeU64(e.nodeId);
    var times := EncodeU64(e.virtualTime) + node;
    var strings := EncodeString(e.name) + (EncodeString(ContentTypeBytes(e)) + times);
    var changed := EncodeU64(ToUnsigned(e.updatedAt)) + strings;
    var made := EncodeU64(ToUnsigned(e.createdAt)) + changed;
    var size := EncodeU64(e.totalSize) + made;
    assert b[0..] == b;
    Step(b, 0, [e.entryType], e.hash + size);
    Step(b, 1, e.hash, size);
    Step(b, 1 + h, EncodeU64(e.totalSize), made);
    Step(b, 9 + h, EncodeU64(ToUnsigned(e.createdAt)), changed);
    Step(b, 17 + h, EncodeU64(ToUnsigned(e.updatedAt)), strings);
    StringStep(b, 25 + h, e.name, EncodeString(ContentTypeBytes(e)) + times);
    StringStep(b, 27 + h + |e.name|, ContentTypeBytes(e), times);
    Step(b, 29 + h + |e.name| + |ContentTypeBytes(e)|, EncodeU64(e.virtualTime), node);
    assert node + [] == node;
    Step(b, 37 + h + |e.name| + |ContentTypeBytes(e)|, node, []);
  }

  /** Strings past 65535 bytes are refused, and only they. */
  lemma EntryEncodesExactly(e: ChildEntry)
    ensures EncodeEntry(e).Ok? <==> |e.name| <= 65535 && |ContentTypeBytes(e)| <= 65535
    ensures EncodeEntry(e).Err? ==> EncodeEntry(e).error == InvalidInput
  {}

  /** What every version of an entry has: all but the last two numbers. */
  function Front(e: ChildEntry): Bytes {
    [e.entryType] + (e.hash + (EncodeU64(e.totalSize) + (EncodeU64(ToUnsigned(e.createdAt))
      + (EncodeU64(ToUnsigned(e.updatedAt)) + (EncodeString(e.name) + EncodeString(ContentTypeBytes(e)))))))
  }

  lemma FrontSplit(e: ChildEntry, tail: Bytes)
    ensures Front(e) + tail ==
      [e.entryType] + (e.hash + (EncodeU64(e.totalSize) + (EncodeU64(ToUnsigned(e.createdAt))
        + (EncodeU64(ToUnsigned(e.updatedAt)) + (EncodeString(e.name) + (EncodeString(ContentTypeBytes(e)) + tail))))))
  {}

  /** Entries that end before one or both of the last two numbers are read with zeros there. */
  lemma OlderEntryReads(e: ChildEntry, tail: Bytes)
    requires IsString(e.name) && IsString(ContentTypeBytes(e)) && EncodeEntry(e).Ok?
    ensures var (time, rest) := ReadOptionalU64(tail);
            var (node, rest') := ReadOptionalU64(rest);
            DecodeEntry(Front(e) + tail, |e.hash|) == Ok((AsRead(e).(virtualTime := time, nodeId := node), rest'))
    ensures DecodeEntry(Front(e), |e.hash|) == Ok((AsRead(e).(virtualTime := 0, nodeId := 0), []))
    ensures DecodeEntry(Front(e) + LittleEndian(e.virtualTime, 8), |e.hash|) == Ok((AsRead(e).(nodeId := 0), []))
  {
    FrontReads(e, tail);
    FrontReads(e, []);
    assert Front(e) + [] == Front(e);
    FrontReads(e, LittleEndian(e.virtualTime, 8));
    ReadU64Back(e.virtualTime, []);
    assert EncodeU64(e.virtualTime) + [] == LittleEndian(e.virtualTime, 8);
  }

  lemma FrontReads(e: ChildEntry, tail: Bytes)
    requires IsString(e.name) && IsString(ContentTypeBytes(e)) && EncodeEntry(e).Ok?
    ensures var (time, rest) := ReadOptionalU64(tail);
            var (node, rest') := ReadOptionalU64(rest);
            DecodeEntry(Front(e) + tail, |e.hash|) == Ok((AsRead(e).(virtualTime := time, nodeId := node), rest'))
  {
    var ct := ContentTypeBytes(e);
    var r6 := EncodeString(ct) + tail;
    var r5 := EncodeString(e.name) + r6;
    var r4 := EncodeU64(ToUnsigned(e.updatedAt)) + r5;
    var r3 := EncodeU64(ToUnsigned(e.createdAt)) + r4;
    var r2 := EncodeU64(e.totalSize) + r3;
    var r1 := e.hash + r2;
    FrontSplit(e, tail);
    var d := [e.entryType] + r1;
    assert d[0] == e.entryType && d[1..] == r1;
    ReadBytesBack(e.hash, r2);
    ReadU64Back(e.totalSize, r3);
    ReadI64Back(e.createdAt, r4);
    ReadI64Back(e.updatedAt, r5);
    ReadStringBack(e.name, r6);
    ReadStringBack(ct, tail);
  }

  lemma CutAfter(part: Bytes, rest: Bytes, k: nat)
    requires |part| <= k <= |part + rest|
    ensures (part + rest)[..k] == part + rest[..k - |part|]
  {}

  lemma CutString(text: Bytes, rest: Bytes, k: nat)
    requires IsString(text) && |text| <= MAX_STRING && k <= |EncodeString(text) + rest|
    ensures if k < 2 + |text| then ReadString((EncodeString(text) + rest)[..k]) == Err(UnexpectedEof)
            else ReadString((EncodeString(text) + rest)[..k]) == Ok((text, rest[..k - 2 - |text|]))
  {
    var d := EncodeString(text) + rest;
    if k >= 2 + |text| {
      CutAfter(EncodeString(text), rest, k);
      ReadStringBack(text, rest[..k - 2 - |text|]);
    } else if k >= 2 {
      assert d == LittleEndian(|text|, 2) + (text + rest);
      CutAfter(LittleEndian(|text|, 2), text + rest, k);
      ReadU16Back(|text|, (text + rest)[..k - 2]);
    }
  }

  lemma CutNumber(n: Word, rest: Bytes, k: nat)
    requires k <= |EncodeU64(n) + rest|
    ensures if k < 8 then ReadU64((EncodeU64(n) + rest)[..k]) == Err(UnexpectedEof)
            else ReadU64((EncodeU64(n) + rest)[..k]) == Ok((n, rest[..k - 8]))
  {
    if k >= 8 {
      CutAfter(EncodeU64(n), rest, k);
      ReadU64Back(n, rest[..k - 8]);
    }
  }

  lemma CutTime(n: i64, rest: Bytes, k: nat)
    requires k <= |EncodeU64(ToUnsigned(n)) + rest|
    ensures if k < 8 then ReadI64((EncodeU64(ToUnsigned(n)) + rest)[..k]) == Err(UnexpectedEof)
            else ReadI64((EncodeU64(ToUnsigned(n)) + rest)[..k]) == Ok((n, rest[..k - 8]))
  {
    CutNumber(ToUnsigned(n), rest, k);
    SignedRoundTrip(n);
  }

  /** The reader of the strings runs out of bytes. */
  predicate StringsTooShort(d: Bytes) {
    var name := ReadString(d);
    name == Err(UnexpectedEof) || (name.Ok? && ReadString(name.value.1) == Err(UnexpectedEof))
  }

  /** The reader of the times, or of what follows. */
  predicate TimesTooShort(d: Bytes) {
    var made := ReadI64(d);
    if made.Err? then made == Err(UnexpectedEof) else
    var changed := ReadI64(made.value.1);
    changed == Err(UnexpectedEof) || (changed.Ok? && StringsTooShort(changed.value.1))
  }

  lemma CutStrings(name: Bytes, ct: Bytes, k: nat)
    requires IsString(name) && IsString(ct) && |name| <= MAX_STRING && |ct| <= MAX_STRING
    requires k < |EncodeString(name) + EncodeString(ct)|
    ensures StringsTooShort((EncodeString(name) + EncodeString(ct))[..k])
  {
    CutString(name, EncodeString(ct), k);
    if k >= 2 + |name| {
      assert EncodeString(ct) + [] == EncodeString(ct);
      CutString(ct, [], k - 2 - |name|);
    }
  }

  lemma CutTimes(made: i64, changed: i64, strings: Bytes, k: nat)
    requires k < 16 + |strings| && (k >= 16 ==> StringsTooShort(strings[..k - 16]))
    ensures TimesTooShort((EncodeU64(ToUnsigned(made)) + (EncodeU64(ToUnsigned(changed)) + strings))[..k])
  {
    CutTime(made, EncodeU64(ToUnsigned(changed)) + strings, k);
    if k >= 8 { CutTime(changed, strings, k - 8); }
  }

  /** An entry cut anywhere before that is refused as too short. */
  lemma CutEntryIsRefused(e: ChildEntry, k: nat)
    requires IsString(e.name) && IsString(ContentTypeBytes(e)) && EncodeEntry(e).Ok? && k < |Front(e)|
    ensures DecodeEntry(Front(e)[..k], |e.hash|) == Err(UnexpectedEof)
  {
    var strings := EncodeString(e.name) + EncodeString(ContentTypeBytes(e));
    var times := EncodeU64(ToUnsigned(e.createdAt)) + (EncodeU64(ToUnsigned(e.updatedAt)) + strings);
    var size := EncodeU64(e.totalSize) + times;
    if k > |e.hash| {
      var n := k - 1 - |e.hash|;
      CutNumber(e.totalSize, times, n);
      if n >= 24 { CutStrings(e.name, ContentTypeBytes(e), n - 24); }
      if n >= 8 { CutTimes(e.createdAt, e.updatedAt, strings, n - 8); }
    }
    CutHead(e, e.hash + size, size, k);
  }

  lemma CutHead(e: ChildEntry, rest: Bytes, size: Bytes, k: nat)
    requires rest == e.hash + size && k <= 1 + |rest|
    requires k > |e.hash| ==>
               var number := ReadU64(size[..k - 1 - |e.hash|]);
               number == Err(UnexpectedEof) || (number.Ok? && TimesTooShort(number.value.1))
    ensures DecodeEntry(([e.entryType] + rest)[..k], |e.hash|) == Err(UnexpectedEof)
  {
    if k > 0 {
      var d := ([e.entryType] + rest)[..k];
      assert d[0] == e.entryType && d[1..] == rest[..k - 1];
      if k > |e.hash| {
        CutAfter(e.hash, size, k - 1);
        ReadBytesBack(e.hash, size[..k - 1 - |e.hash|]);
      }
    }
  }

  /** A leaf is a zero byte, the number of its entries and the entries. */
  lemma LeafLayout(es: seq<ChildEntry>)
    requires EncodeNode(Leaf(es)).Ok?
    ensures var b := EncodeNode(Leaf(es)).value;
            Lies([0], b, 0) && Lies(LittleEndian(|es|, 2), b, 1)
            && EncodeEntries(es).Ok? && EndsIn(b, 3, EncodeEntries(es).value)
  {
    var b, entries := EncodeNode(Leaf(es)).value, EncodeEntries(es).value;
    assert b[0..] == b;
    Step(b, 0, [0], LittleEndian(|es|, 2) + entries);
    Step(b, 1, LittleEndian(|es|, 2), entries);
  }

  /** A leaf is read by its bytes: a count of entries that is wrong, unless it is zero, goes unnoticed. */
  lemma LeafCountIsIgnored(es: seq<ChildEntry>, count: nat, hashLength: nat)
    requires 0 < count <= 65535 && forall i :: 0 <= i < |es| ==> Encodable(es[i], hashLength)
    ensures EncodeEntries(es).Ok?
    ensures DecodeNode([0] + (LittleEndian(count, 2) + EncodeEntries(es).value), hashLength) == Ok(Leaf(es))
    ensures DecodeNode([0] + (LittleEndian(0, 2) + EncodeEntries(es).value), hashLength) == Ok(Leaf([]))
  {
    EntriesRoundTrip(es, hashLength);
    var body := EncodeEntries(es).value;
    ReadU16Back(count, body);
    ReadU16Back(0, body);
    assert ([0] + (LittleEndian(count, 2) + body))[1..] == LittleEndian(count, 2) + body;
    assert ([0] + (LittleEndian(0, 2) + body))[1..] == LittleEndian(0, 2) + body;
  }

  /** Anything too short, or with another first byte, is refused as corrupt. */
  lemma UnknownNodeIsCorrupt(d: Bytes, hashLength: nat)
    requires |d| < 3 || d[0] > 1
    ensures DecodeNode(d, hashLength) == Err(Corrupt)
  {}

  /** An internal node is a one, the number of its keys, the keys and the hashes of the children. */
  lemma InternalLayout(keys: seq<Bytes>, children: seq<Bytes>)
    requires EncodeNode(Internal(keys, children)).Ok?
    ensures var b := EncodeNode(Internal(keys, children)).value;
            Lies([1], b, 0) && Lies(LittleEndian(|keys|, 2), b, 1)
            && EncodeKeys(keys).Ok? && Lies(EncodeKeys(keys).value, b, 3)
            && EndsIn(b, 3 + |EncodeKeys(keys).value|, Joined(children))
  {
    var b, strings := EncodeNode(Internal(keys, children)).value, EncodeKeys(keys).value;
    assert b[0..] == b;
    Step(b, 0, [1], LittleEndian(|keys|, 2) + (strings + Joined(children)));
    Step(b, 1, LittleEndian(|keys|, 2), strings + Joined(children));
    Step(b, 3, strings, Joined(children));
  }

  /** A node is stored under the hash of its bytes behind a prefix of its kind. */
  lemma NodeHash(algo: B.Algo, node: BTreeNode)
    requires B.PutNode(algo, node).Ok?
    ensures EncodeNode(node) == Ok(B.PutNode(algo, node).value.data)
    ensures B.PutNode(algo, node).value.hash == algo.hash(Ascii("btree:") + B.PutNode(algo, node).value.data)
  {
    assert B.PREFIX == Ascii("btree:");
  }

  // ---------------------------------------------------------------------------
  // Lines of logs
  // ---------------------------------------------------------------------------

  /** A path, a tab and a body; a sign, a tab and a path; a hash sign and a comment. */
  lemma LineFormats(path: Bytes, body: Bytes)
    ensures Content(Committed(path, body)) == path + [9] + body
    ensures Content(Added(path)) == [43, 9] + path && Content(Deleted(path)) == [45, 9] + path
    ensures Content(Comment(body)) == [35] + body
    ensures Print([Added(path)]) == [43, 9] + path + [10]
  {
    assert [Added(path)][1..] == [];
  }

  lemma AsciiConcat(a: string, b: string)
    ensures Ascii(a + b) == Ascii(a) + Ascii(b)
  {}

  /** A return in front of the end of a line is no part of it. */
  lemma ReturnIsStripped(text: Bytes)
    requires 10 !in text && ValidUtf8(text)
    ensures Lines(text + [13, 10]) == [text]
  {
    var log, line := text + [13, 10], text + [13];
    assert log[..|text| + 1] == line && log[|text| + 2..] == [];
    IndexOfIs(log, NEWLINE, |text| + 1);
    assert ValidUtf8([13]) by { assert [13][1..] == []; }
    Utf8Concat(text, [13]);
    assert line[..|text|] == text;
  }

  /** What a new worker logs first. */
  lemma BannerFormat(mode: Mode)
    ensures Content(Banner(mode)) == Ascii("# worker up mode=" + ModeName(mode))
    ensures ModeName(Writes) == "writes" && ModeName(Mixed) == "mixed"
    ensures ModeName(Gc) == "gc" && ModeName(Stress) == "stress"
  {
    AsciiConcat(" worker up mode=", ModeName(mode));
    AsciiConcat("#", " worker up mode=" + ModeName(mode));
    assert Ascii("#") == [35];
    assert "#" + (" worker up mode=" + ModeName(mode)) == "# worker up mode=" + ModeName(mode);
  }

  // ---------------------------------------------------------------------------
  // Paths
  // ---------------------------------------------------------------------------

  /** The characters paths are made of besides names. */
  lemma PathMarks()
    ensures P.ROOT == [SLASH] == Ascii("/") && [P.DOT] == Ascii(".") && P.NUL == 0
  {}

  /** The digits of a number, filled up with zeros to a width. */
  predicate IsDecimal(d: Bytes, n: nat, w: nat) {
    && |d| >= w && |d| > 0 && ValueOf(d) == n && (forall i :: 0 <= i < |d| ==> 48 <= d[i] < 58)
    && (|d| > w && |d| > 1 ==> d[0] != 48)
  }

  lemma {:induction false} PaddedIsDecimal(n: nat, w: nat)
    ensures IsDecimal(Padded(n, w), n, w)
    decreases n + w
  {
    PaddedRoundTrip(n, w);
    PaddedIsDigits(n, w);
    if !(n < 10 && w <= 1) {
      PaddedIsDecimal(n / 10, if w == 0 then 0 else w - 1);
      FirstDigit(n, w);
    }
  }

  lemma FirstDigit(n: nat, w: nat)
    requires !(n < 10 && w <= 1)
    requires IsDecimal(Padded(n / 10, if w == 0 then 0 else w - 1), n / 10, if w == 0 then 0 else w - 1)
    ensures |Padded(n, w)| >= w && (|Padded(n, w)| > w && |Padded(n, w)| > 1 ==> Padded(n, w)[0] != 48)
  {
    var v := if w == 0 then 0 else w - 1;
    var d := Padded(n / 10, v);
    assert Padded(n, w) == d + [48 + n % 10] && (d + [48 + n % 10])[0] == d[0];
    if |d| == 1 && v == 0 { assert d == [d[0]] && [d[0]][..0] == [] && ValueOf(d) == d[0] - 48; }
  }

  /** Text, a number and text. */
  predicate Framed(path: Bytes, before: string, n: nat, w: nat, after: string) {
    && |path| >= |before| + |after| && Lies(Ascii(before), path, 0) && Lies(Ascii(after), path, |path| - |after|)
    && IsDecimal(path[|before|..|path| - |after|], n, w)
  }

  lemma FramedIs(before: string, n: nat, w: nat, after: string)
    ensures Framed(Ascii(before) + Padded(n, w) + Ascii(after), before, n, w, after)
  {
    var path := Ascii(before) + Padded(n, w) + Ascii(after);
    PaddedIsDecimal(n, w);
    assert path[|before|..|path| - |after|] == Padded(n, w);
    assert path[0..|before|] == Ascii(before) && path[|path| - |after|..|path|] == Ascii(after);
  }

  /** The paths of the numbered files and of the collected ones. */
  lemma DataPathFormats(c: nat)
    ensures Framed(DataPath(c), "/data/file-", c, 8, ".txt")
    ensures Framed(GcPath(c), "/gc/file-", c % 256, 4, ".json")
  {
    FramedIs("/data/file-", c, 8, ".txt");
    FramedIs("/gc/file-", c % 256, 4, ".json");
  }

  /** The paths of the documents that are merged into. */
  lemma DocPathFormats(c: nat, item: nat)
    ensures Framed(StatePath(c), "/stress/state/doc-", c % 64, 3, ".json")
    ensures Framed(MergePath(c, item), "/stress/batch-merge/doc-", (c + item) % 96, 3, ".json")
  {
    FramedIs("/stress/state/doc-", c % 64, 3, ".json");
    FramedIs("/stress/batch-merge/doc-", (c + item) % 96, 3, ".json");
  }

  /** The paths of the overwritten and of the tiny files. */
  lemma FilePathFormats(c: nat)
    ensures Framed(OverwritePath(c), "/stress/overwrites/file-", c % 128, 3, ".json")
    ensures Framed(TinyPath(c), "/stress/tiny/file-", c, 8, ".json")
  {
    FramedIs("/stress/overwrites/file-", c % 128, 3, ".json");
    FramedIs("/stress/tiny/file-", c, 8, ".json");
  }

  /** A batch file: its folder by the count, the count, and the item. */
  lemma BatchPathFormat(c: nat, item: nat)
    requires item < 16
    ensures var path := BatchPath(c, item);
            && |path| >= 42 && Framed(path[..26], "/stress/batches/", c % 512, 4, "/file-")
            && IsDecimal(path[26..|path| - 8], c, 8) && Framed(path[|path| - 8..], "-", item, 2, ".json")
  {
    var path := BatchPath(c, item);
    BatchFolderWidth(c);
    BatchEndWidth(item);
    PaddedIsDecimal(c, 8);
    FramedIs("/stress/batches/", c % 512, 4, "/file-");
    FramedIs("-", item, 2, ".json");
    assert path[..26] == BatchFolder(c) && path[26..|path| - 8] == Padded(c, 8) && path[|path| - 8..] == BatchEnd(item);
  }

  /** The text of a numbered file: its count and the hash of it. */
  lemma DataBodyFormat(c: nat) returns (count: Bytes, hash: Bytes)
    ensures IsDecimal(count, c, 1) && IsDecimal(hash, FastishHash(c % WORDS), 1)
    ensures DataBody(c) == Ascii("entry ") + count + Ascii(" payload ") + hash
  {
    count, hash := Padded(c, 1), Padded(FastishHash(c % WORDS), 1);
    PaddedIsDecimal(c, 1);
    PaddedIsDecimal(FastishHash(c % WORDS), 1);
  }

  /** The paths of the collection benchmark. */
  lemma BenchPathFormat(a: nat, b: nat, i: nat) returns (x: Bytes, y: Bytes, z: Bytes)
    ensures IsDecimal(x, a, 1) && IsDecimal(y, b, 1) && IsDecimal(z, i, 6)
    ensures G.FilePath(a, b, i) == Ascii("/dir") + x + Ascii("/dir") + y + Ascii("/file-") + z + Ascii(".bin")
  {
    x, y, z := Padded(a, 1), Padded(b, 1), Padded(i, 6);
    PaddedIsDecimal(a, 1);
    PaddedIsDecimal(b, 1);
    PaddedIsDecimal(i, 6);
    assert Ascii("/file-") == Ascii("/file") + [MINUS];
  }
}
