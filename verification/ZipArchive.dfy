/**
 * Archives as sections 4.3.7, 4.3.12 and 4.3.16 of PKWARE APPNOTE.TXT lay them out, written and read back:
 * the walkers of the upload gate return exactly the entries that were written.
 */
module ZipArchive {
  import opened Wrappers
  import opened DocxSanitize

  /** `width` bytes, the least significant one first. */
  function Digits(n: nat, width: nat): (b: Buffer)
    requires n < Power256(width)
    ensures |b| == width && LittleEndian(b) == n
  {
    if width == 0 then [] else
      var rest := Digits(n / 0x100, width - 1);
      assert ([n % 0x100] + rest)[1..] == rest;
      [n % 0x100] + rest
  }

  function Le16(n: nat): (b: Buffer)
    requires n < 0x1_0000
    ensures |b| == 2 && U16(b, 0) == n
  {
    assert Power256(2) == 0x1_0000;
    assert Digits(n, 2)[0..2] == Digits(n, 2);
    Digits(n, 2)
  }

  function Le32(n: nat): (b: Buffer)
    requires n < 0x1_0000_0000
    ensures |b| == 4 && U32(b, 0) == n
  {
    assert Power256(2) == 0x1_0000 && Power256(4) == 0x1_0000_0000;
    assert Digits(n, 4)[0..4] == Digits(n, 4);
    Digits(n, 4)
  }

  /** A file to store. The groups of bytes no reader here looks at are kept as they come. */
  datatype File = File(
    name: Buffer, method_: nat, data: Buffer, uncompressedSize: nat,
    localInfo: Buffer, localExtra: Buffer, descriptor: Buffer,
    versions: Buffer, stamp: Buffer, attributes: Buffer, extra: Buffer, comment: Buffer)

  predicate FileOk(f: File) {
    && |f.name| < 0x1_0000 && f.method_ < 0x1_0000 && |f.data| < 0x1_0000_0000 && f.uncompressedSize < 0x1_0000_0000
    && |f.localInfo| == 22 && |f.localExtra| < 0x1_0000
    && |f.versions| == 6 && |f.stamp| == 8 && |f.attributes| == 8 && |f.extra| < 0x1_0000 && |f.comment| < 0x1_0000
  }

  type Files = fs: seq<File> | forall i :: 0 <= i < |fs| ==> FileOk(fs[i])

  // ---------------------------------------------------------------- writing

  /** Section 4.3.7: the local header with name and extra field. */
  function LocalHeader(f: File): (b: Buffer)
    requires FileOk(f)
    ensures |b| == LFH_SIZE
  {
    Le32(LFH_SIGNATURE) + f.localInfo + Le16(|f.name|) + Le16(|f.localExtra|)
  }

  /** The local header, the data, and a data descriptor if there is one. */
  function LocalPart(f: File): Buffer
    requires FileOk(f)
  {
    LocalHeader(f) + (f.name + f.localExtra) + f.data + f.descriptor
  }

  /** Section 4.3.12: the fixed part of a central directory header. */
  function CentralHeader(f: File, at: nat): (b: Buffer)
    requires FileOk(f) && at < 0x1_0000_0000
    ensures |b| == CDH_SIZE
  {
    (Le32(CDH_SIGNATURE) + f.versions + Le16(f.method_))
    + (f.stamp + Le32(|f.data|) + Le32(f.uncompressedSize))
    + (Le16(|f.name|) + Le16(|f.extra|) + Le16(|f.comment|))
    + (f.attributes + Le32(at))
  }

  function CentralPart(f: File, at: nat): Buffer
    requires FileOk(f) && at < 0x1_0000_0000
  {
    CentralHeader(f, at) + (f.name + (f.extra + f.comment))
  }

  /** Section 4.3.16: the fixed part of the end record, announcing a comment of the given length. */
  function EndRecord(disks: Buffer, count: nat, size: nat, offset: nat, commentLength: nat): (b: Buffer)
    requires |disks| == 6 && count < 0x1_0000 && size < 0x1_0000_0000 && offset < 0x1_0000_0000
             && commentLength < 0x1_0000
    ensures |b| == EOCD_SIZE
  {
    Le32(EOCD_SIGNATURE) + disks + Le16(count) + Le32(size) + Le32(offset) + Le16(commentLength)
  }

  function Concat(parts: seq<Buffer>): Buffer {
    if parts == [] then [] else parts[0] + Concat(parts[1..])
  }

  function Locals(files: Files): seq<Buffer> {
    seq(|files|, i requires 0 <= i < |files| => LocalPart(files[i]))
  }

  /** Where the local header of file `i` starts. */
  function Start(files: Files, i: nat): nat
    requires i <= |files|
  {
    |Concat(Locals(files)[..i])|
  }

  predicate InReach(files: Files) {
    |files| < 0x1_0000 && forall i :: 0 <= i <= |files| ==> Start(files, i) < 0x1_0000_0000
  }

  function Centrals(files: Files): seq<Buffer>
    requires InReach(files)
  {
    seq(|files|, i requires 0 <= i < |files| => CentralPart(files[i], Start(files, i)))
  }

  /** The format's own limits: 16-bit counts, 32-bit offsets. */
  predicate Writable(files: Files, disks: Buffer, comment: Buffer) {
    && |disks| == 6 && InReach(files) && |comment| < 0x1_0000
    && |Concat(Locals(files))| < 0x1_0000_0000 && |Concat(Centrals(files))| < 0x1_0000_0000
  }

  /** What follows the central directory: the end record and the archive comment. */
  function End(files: Files, disks: Buffer, comment: Buffer): Buffer
    requires Writable(files, disks, comment)
  {
    EndRecord(disks, |files|, |Concat(Centrals(files))|, |Concat(Locals(files))|, |comment|) + comment
  }

  function Write(files: Files, disks: Buffer, comment: Buffer): Buffer
    requires Writable(files, disks, comment)
  {
    Concat(Locals(files)) + Concat(Centrals(files)) + End(files, disks, comment)
  }

  /** No second end signature where a whole end record would still fit behind it. */
  predicate Quiet(end: Buffer) {
    forall j :: 0 < j <= |end| - EOCD_SIZE ==> U32(end, j) != EOCD_SIGNATURE
  }

  function ListedAs(f: File, at: nat): Header {
    Header(f.name, f.method_, |f.data|, f.uncompressedSize, at)
  }

  /** The entries a reader should see. */
  function Listed(files: Files): seq<Header> {
    seq(|files|, i requires 0 <= i < |files| => ListedAs(files[i], Start(files, i)))
  }

  // ---------------------------------------------------------------- reading a number out of its context

  lemma U16In(a: Buffer, x: Buffer, b: Buffer, k: nat)
    requires k + 2 <= |x|
    ensures U16(a + x + b, |a| + k) == U16(x, k)
  {
    assert (a + x + b)[|a| + k..|a| + k + 2] == x[k..k + 2];
  }

  lemma U32In(a: Buffer, x: Buffer, b: Buffer, k: nat)
    requires k + 4 <= |x|
    ensures U32(a + x + b, |a| + k) == U32(x, k)
  {
    assert (a + x + b)[|a| + k..|a| + k + 4] == x[k..k + 4];
  }

  lemma CentralFront(f: File)
    requires FileOk(f)
    ensures var x := Le32(CDH_SIGNATURE) + f.versions + Le16(f.method_);
            U32(x, 0) == CDH_SIGNATURE
            && U16(x, 10) == f.method_
  {
    var x := Le32(CDH_SIGNATURE) + f.versions + Le16(f.method_);
    assert x == [] + Le32(CDH_SIGNATURE) + (f.versions + Le16(f.method_));
    U32In([], Le32(CDH_SIGNATURE), f.versions + Le16(f.method_), 0);
    assert x == (Le32(CDH_SIGNATURE) + f.versions) + Le16(f.method_) + [];
    U16In(Le32(CDH_SIGNATURE) + f.versions, Le16(f.method_), [], 0);
  }

  lemma CentralSizes(f: File)
    requires FileOk(f)
    ensures var x := f.stamp + Le32(|f.data|) + Le32(f.uncompressedSize);
            U32(x, 8) == |f.data|
            && U32(x, 12) == f.uncompressedSize
  {
    var c, u := Le32(|f.data|), Le32(f.uncompressedSize);
    U32In(f.stamp, c, u, 0);
    assert f.stamp + c + u == (f.stamp + c) + u + [];
    U32In(f.stamp + c, u, [], 0);
  }

  lemma CentralLengths(n: nat, e: nat, c: nat)
    requires n < 0x1_0000 && e < 0x1_0000 && c < 0x1_0000
    ensures var x := Le16(n) + Le16(e) + Le16(c); U16(x, 0) == n && U16(x, 2) == e && U16(x, 4) == c
  {
    var x := Le16(n) + Le16(e) + Le16(c);
    assert x == [] + Le16(n) + (Le16(e) + Le16(c));
    U16In([], Le16(n), Le16(e) + Le16(c), 0);
    U16In(Le16(n), Le16(e), Le16(c), 0);
    assert x == (Le16(n) + Le16(e)) + Le16(c) + [];
    U16In(Le16(n) + Le16(e), Le16(c), [], 0);
  }

  lemma CentralOffset(attributes: Buffer, at: nat)
    requires |attributes| == 8 && at < 0x1_0000_0000
    ensures U32(attributes + Le32(at), 8) == at
  {
    assert attributes + Le32(at) == attributes + Le32(at) + [];
    U32In(attributes, Le32(at), [], 0);
  }

  /** The fields of a central directory header, at the places section 4.3.12 gives them. */
  lemma CentralFields(f: File, at: nat)
    requires FileOk(f) && at < 0x1_0000_0000
    ensures var h := CentralHeader(f, at);
            && U32(h, 0) == CDH_SIGNATURE && U16(h, 10) == f.method_ && U32(h, 20) == |f.data|
               && U32(h, 24) == f.uncompressedSize
            && U16(h, 28) == |f.name| && U16(h, 30) == |f.extra| && U16(h, 32) == |f.comment| && U32(h, 42) == at
  {
    var front := Le32(CDH_SIGNATURE) + f.versions + Le16(f.method_);
    var sizes := f.stamp + Le32(|f.data|) + Le32(f.uncompressedSize);
    var lengths := Le16(|f.name|) + Le16(|f.extra|) + Le16(|f.comment|);
    var rear := f.attributes + Le32(at);
    CentralFront(f);
    CentralSizes(f);
    CentralLengths(|f.name|, |f.extra|, |f.comment|);
    CentralOffset(f.attributes, at);
    FourGroups(front, sizes, lengths, rear);
  }

  lemma FourGroups(front: Buffer, sizes: Buffer, lengths: Buffer, rear: Buffer)
    requires |front| == 12 && |sizes| == 16 && |lengths| == 6 && |rear| == 12
    ensures var h := front + sizes + lengths + rear;
            && U32(h, 0) == U32(front, 0) && U16(h, 10) == U16(front, 10) && U32(h, 20) == U32(sizes, 8)
               && U32(h, 24) == U32(sizes, 12)
            && U16(h, 28) == U16(lengths, 0) && U16(h, 30) == U16(lengths, 2) && U16(h, 32) == U16(lengths, 4)
               && U32(h, 42) == U32(rear, 8)
  {
    var h := front + sizes + lengths + rear;
    assert h == [] + front + (sizes + lengths + rear);
    U32In([], front, sizes + lengths + rear, 0);
    U16In([], front, sizes + lengths + rear, 10);
    assert h == front + sizes + (lengths + rear);
    U32In(front, sizes, lengths + rear, 8);
    U32In(front, sizes, lengths + rear, 12);
    U16In(front + sizes, lengths, rear, 0);
    U16In(front + sizes, lengths, rear, 2);
    U16In(front + sizes, lengths, rear, 4);
    assert h == front + sizes + lengths + rear + [];
    U32In(front + sizes + lengths, rear, [], 8);
  }

  // ---------------------------------------------------------------- the central directory read back

  /** Some bytes, between any others, are read as a header and skipped over. */
  predicate ReadsAs(before: Buffer, bytes: Buffer, after: Buffer, h: Header) {
    var buf, o := before + bytes + after, |before|;
    HeaderFits(buf, o) && NameFits(buf, o) && HeaderAt(buf, o) == h && NextHeader(buf, o) == |before| + |bytes|
  }

  ghost predicate Encodes(bytes: Buffer, h: Header) {
    forall before, after :: ReadsAs(before, bytes, after, h)
  }

  lemma HeaderInPlace(before: Buffer, h: Buffer, name: Buffer, tail: Buffer, after: Buffer, as_: Header)
    requires |h| == CDH_SIZE && U32(h, 0) == CDH_SIGNATURE && U16(h, 10) == as_.method_
             && U32(h, 20) == as_.compressedSize
    requires U32(h, 24) == as_.uncompressedSize && U16(h, 28) == |name| && U16(h, 30) + U16(h, 32) == |tail|
             && U32(h, 42) == as_.localOffset
    requires as_.name == name
    ensures ReadsAs(before, h + (name + tail), after, as_)
  {
    var buf, o := before + (h + (name + tail)) + after, |before|;
    assert buf == before + h + (name + tail + after);
    HeaderInContext(before, h, name + tail + after);
    assert buf[o + CDH_SIZE..o + CDH_SIZE + |name|] == name;
  }

  lemma CentralPartEncodes(f: File, at: nat)
    requires FileOk(f) && at < 0x1_0000_0000
    ensures Encodes(CentralPart(f, at), ListedAs(f, at))
  {
    CentralFields(f, at);
    forall before, after ensures ReadsAs(before, CentralPart(f, at), after, ListedAs(f, at)) {
      HeaderInPlace(before, CentralHeader(f, at), f.name, f.extra + f.comment, after, ListedAs(f, at));
    }
  }

  lemma HeaderInContext(before: Buffer, h: Buffer, rest: Buffer)
    requires |h| == CDH_SIZE
    ensures var buf, o := before + h + rest, |before|;
            && U32(buf, o) == U32(h, 0) && U16(buf, o + 10) == U16(h, 10) && U32(buf, o + 20) == U32(h, 20)
               && U32(buf, o + 24) == U32(h, 24)
            && U16(buf, o + 28) == U16(h, 28) && U16(buf, o + 30) == U16(h, 30) && U16(buf, o + 32) == U16(h, 32)
               && U32(buf, o + 42) == U32(h, 42)
  {
    U32In(before, h, rest, 0);
    U16In(before, h, rest, 10);
    U32In(before, h, rest, 20);
    U32In(before, h, rest, 24);
    U16In(before, h, rest, 28);
    U16In(before, h, rest, 30);
    U16In(before, h, rest, 32);
    U32In(before, h, rest, 42);
  }

  ghost predicate Yields(buf: Buffer, o: nat, n: nat, hs: seq<Header>) {
    Walk(buf, o, n) == hs && Strict(buf, o, n) == Some(hs)
  }

  /** One step of both walks. */
  lemma WalkOne(buf: Buffer, o: nat, n: nat, h: Header, next: nat, rest: seq<Header>)
    requires n > 0 && HeaderFits(buf, o) && NameFits(buf, o) && HeaderAt(buf, o) == h && NextHeader(buf, o) == next
    requires Yields(buf, next, n - 1, rest)
    ensures Yields(buf, o, n, [h] + rest)
  {
  }

  lemma WalkOnePart(before: Buffer, part: Buffer, rest: Buffer, after: Buffer, n: nat, h: Header, others: seq<Header>)
    requires n > 0 && ReadsAs(before, part, rest + after, h)
    requires Yields((before + part) + rest + after, |before + part|, n - 1, others)
    ensures Yields(before + (part + rest) + after, |before|, n, [h] + others)
  {
    Regroup(before, part, rest, after);
    WalkOne(before + part + (rest + after), |before|, n, h, |before| + |part|, others);
  }

  lemma {:induction false} ReadsDirectory(before: Buffer, parts: seq<Buffer>, hs: seq<Header>, after: Buffer, n: nat)
    requires n <= |parts| == |hs| && forall i :: 0 <= i < |parts| ==> Encodes(parts[i], hs[i])
    ensures Yields(before + Concat(parts) + after, |before|, n, hs[..n])
    decreases n
  {
    if n > 0 {
      assert ReadsAs(before, parts[0], Concat(parts[1..]) + after, hs[0]);
      ReadsDirectory(before + parts[0], parts[1..], hs[1..], after, n - 1);
      WalkOnePart(before, parts[0], Concat(parts[1..]), after, n, hs[0], hs[1..][..n - 1]);
      assert hs[..n] == [hs[0]] + hs[1..][..n - 1];
    }
  }

  lemma Regroup(before: Buffer, part: Buffer, rest: Buffer, after: Buffer)
    ensures before + (part + rest) + after == before + part + (rest + after) == (before + part) + rest + after
  {
  }

  lemma SixGroups(s: Buffer, disks: Buffer, c: Buffer, z: Buffer, o: Buffer, n: Buffer)
    requires |s| == 4 && |disks| == 6 && |c| == 2 && |z| == 4 && |o| == 4
    ensures var e := s + disks + c + z + o + n;
            U32(e, 0) == U32(s, 0) && U16(e, 10) == U16(c, 0) && U32(e, 16) == U32(o, 0)
  {
    var e := s + disks + c + z + o + n;
    assert e == [] + s + (disks + c + z + o + n);
    U32In([], s, disks + c + z + o + n, 0);
    assert e == (s + disks) + c + (z + o + n);
    U16In(s + disks, c, z + o + n, 0);
    assert e == (s + disks + c + z) + o + n;
    U32In(s + disks + c + z, o, n, 0);
  }

  predicate IsEnd(end: Buffer, count: nat, offset: nat) {
    && EOCD_SIZE <= |end| <= EOCD_SIZE + 0xFFFF
    && U32(end, 0) == EOCD_SIGNATURE && U16(end, 10) == count && U32(end, 16) == offset
  }

  lemma EndFields(disks: Buffer, count: nat, size: nat, offset: nat, comment: Buffer)
    requires |disks| == 6 && count < 0x1_0000 && size < 0x1_0000_0000 && offset < 0x1_0000_0000 && |comment| < 0x1_0000
    ensures IsEnd(EndRecord(disks, count, size, offset, |comment|) + comment, count, offset)
  {
    SixGroups(Le32(EOCD_SIGNATURE), disks, Le16(count), Le32(size), Le32(offset), Le16(|comment|));
    FixedPart(EndRecord(disks, count, size, offset, |comment|), comment);
  }

  lemma FixedPart(e: Buffer, comment: Buffer)
    requires |e| == EOCD_SIZE
    ensures U32(e + comment, 0) == U32(e, 0) && U16(e + comment, 10) == U16(e, 10) && U32(e + comment, 16) == U32(e, 16)
  {
    assert e + comment == [] + e + comment;
    U32In([], e, comment, 0);
    U16In([], e, comment, 10);
    U32In([], e, comment, 16);
  }

  lemma InEnd(before: Buffer, end: Buffer, j: nat)
    requires j + 4 <= |end|
    ensures U32(before + end, |before| + j) == U32(end, j)
  {
    assert before + end == before + end + [];
    U32In(before, end, [], j);
  }

  /** The backward search stops at the true end record exactly when the comment holds no end signature within reach. */
  lemma FindsEndExactlyWhen(before: Buffer, end: Buffer)
    requires EOCD_SIZE <= |end| <= EOCD_SIZE + 0xFFFF && U32(end, 0) == EOCD_SIGNATURE
    ensures Eocd(before + end) == |before| <==> Quiet(end)
  {
    var buf, n := before + end, |before|;
    InEnd(before, end, 0);
    assert EocdAt(buf, n);
    if Quiet(end) {
      forall j | n < j <= |buf| - EOCD_SIZE ensures !EocdAt(buf, j) {
        InEnd(before, end, j - n);
      }
    } else {
      var j :| 0 < j <= |end| - EOCD_SIZE && U32(end, j) == EOCD_SIGNATURE;
      InEnd(before, end, j);
      assert EocdAt(buf, n + j);
    }
  }

  lemma FindsEnd(before: Buffer, end: Buffer, count: nat, offset: nat)
    requires IsEnd(end, count, offset) && Quiet(end)
    ensures Eocd(before + end) == |before| && U16(before + end, |before| + 10) == count
            && U32(before + end, |before| + 16) == offset
  {
    FindsEndExactlyWhen(before, end);
    InEnd(before, end, 16);
    assert before + end == before + end + [];
    U16In(before, end, [], 10);
  }

  lemma DirectoryOf(buf: Buffer, eocd: nat, count: nat, o: nat, all: seq<Header>)
    requires Eocd(buf) == eocd && U16(buf, eocd + 10) == count == |all| && U32(buf, eocd + 16) == o
    requires Yields(buf, o, count, all) && Yields(buf, o, ReadLimit(count), all[..ReadLimit(count)])
    ensures Entries(buf) == all && Directory(buf) == if all == [] then Err(Corrupt) else Ok(all[..ReadLimit(count)])
  {
  }

  lemma ReadsArchive(locals: Buffer, parts: seq<Buffer>, hs: seq<Header>, end: Buffer)
    requires |parts| == |hs| < 0x1_0000 && forall i :: 0 <= i < |parts| ==> Encodes(parts[i], hs[i])
    requires IsEnd(end, |hs|, |locals|) && Quiet(end)
    ensures var buf := locals + Concat(parts) + end;
            Entries(buf) == hs && Directory(buf) == if hs == [] then Err(Corrupt) else Ok(hs[..ReadLimit(|hs|)])
  {
    var centrals, limit := Concat(parts), ReadLimit(|hs|);
    FindsEnd(locals + centrals, end, |hs|, |locals|);
    ReadsDirectory(locals, parts, hs, end, |hs|);
    ReadsDirectory(locals, parts, hs, end, limit);
    assert hs[..|hs|] == hs;
    DirectoryOf(locals + centrals + end, |locals + centrals|, |hs|, |locals|, hs);
  }

  /** Both walkers return exactly the given files; beyond its cap the strict one stops with one entry too many. */
  ghost predicate ListsAll(buf: Buffer, files: Files) {
    && Entries(buf) == Listed(files)
    && Directory(buf) == if files == [] then Err(Corrupt) else Ok(Listed(files)[..ReadLimit(|files|)])
  }

  /** Holds of every archive without a comment, and of every comment without an end signature within reach. */
  lemma ReadingUndoesWriting(files: Files, disks: Buffer, comment: Buffer)
    requires Writable(files, disks, comment) && Quiet(End(files, disks, comment))
    ensures ListsAll(Write(files, disks, comment), files)
  {
    var locals, centrals := Concat(Locals(files)), Concat(Centrals(files));
    EndFields(disks, |files|, |centrals|, |locals|, comment);
    ReadsFiles(locals, files, End(files, disks, comment));
  }

  /** An archive without a comment needs no condition. */
  lemma PlainArchiveComesBack(files: Files, disks: Buffer)
    requires Writable(files, disks, [])
    ensures ListsAll(Write(files, disks, []), files)
  {
    ReadingUndoesWriting(files, disks, []);
  }

  lemma ReadsFiles(locals: Buffer, files: Files, end: Buffer)
    requires InReach(files) && IsEnd(end, |files|, |locals|) && Quiet(end)
    ensures ListsAll(locals + Concat(Centrals(files)) + end, files)
  {
    AllEncode(files);
    ReadsArchive(locals, Centrals(files), Listed(files), end);
  }

  lemma AllEncode(files: Files)
    requires InReach(files)
    ensures forall i :: 0 <= i < |files| ==> Encodes(Centrals(files)[i], Listed(files)[i])
  {
    forall i | 0 <= i < |files| ensures Encodes(Centrals(files)[i], Listed(files)[i]) {
      CentralPartEncodes(files[i], Start(files, i));
    }
  }

  // ---------------------------------------------------------------- the parts read back

  lemma LocalFields(f: File)
    requires FileOk(f)
    ensures var h := LocalHeader(f);
            U32(h, 0) == LFH_SIGNATURE && U16(h, 26) == |f.name|
            && U16(h, 28) == |f.localExtra|
  {
    var s, n, x := Le32(LFH_SIGNATURE), Le16(|f.name|), Le16(|f.localExtra|);
    var h := LocalHeader(f);
    assert h == [] + s + (f.localInfo + n + x);
    U32In([], s, f.localInfo + n + x, 0);
    U16In(s + f.localInfo, n, x, 0);
    assert h == (s + f.localInfo + n) + x + [];
    U16In(s + f.localInfo + n, x, [], 0);
  }

  /** What a reader should get for a file: stored data as it is, deflated data inflated, nothing for other methods. */
  function Stored(f: File, env: Environment): Content {
    if f.method_ == 0 then Bytes(f.data)
    else if f.method_ == 8 then
      match env.inflate(f.data)
      case Output(bytes) => Bytes(bytes)
      case OutputTooLarge => Overflow
      case BadStream => Broken
    else Missing
  }

  lemma ReadsPart(before: Buffer, f: File, after: Buffer, env: Environment)
    requires FileOk(f)
    ensures ReadEntryBytes(before + LocalPart(f) + after, ListedAs(f, |before|), env) == Stored(f, env)
  {
    LocalFields(f);
    var names, rest := f.name + f.localExtra, f.data + (f.descriptor + after);
    LocalRegroup(before, LocalHeader(f), names, f.data, f.descriptor, after);
    ReadsInPlace(before, LocalHeader(f), names, f.data, f.descriptor + after, f, env);
  }

  lemma LocalRegroup(before: Buffer, h: Buffer, names: Buffer, data: Buffer, descriptor: Buffer, after: Buffer)
    ensures before + (h + names + data + descriptor) + after == before + h + (names + data + (descriptor + after))
  {
  }

  lemma ReadsInPlace(before: Buffer, h: Buffer, names: Buffer, data: Buffer, after: Buffer, f: File, env: Environment)
    requires |h| == LFH_SIZE && U32(h, 0) == LFH_SIGNATURE && U16(h, 26) + U16(h, 28) == |names| && f.data == data
    ensures ReadEntryBytes(before + h + (names + data + after), ListedAs(f, |before|), env) == Stored(f, env)
  {
    var rest := names + data + after;
    U32In(before, h, rest, 0);
    U16In(before, h, rest, 26);
    U16In(before, h, rest, 28);
    var start := |before| + LFH_SIZE + |names|;
    assert (before + h + rest)[start..start + |data|] == data;
  }

  lemma {:induction false} ConcatSplit(parts: seq<Buffer>, k: nat)
    requires k < |parts|
    ensures Concat(parts) == Concat(parts[..k]) + parts[k] + Concat(parts[k + 1..])
  {
    if k > 0 {
      ConcatSplit(parts[1..], k - 1);
      assert parts[..k][1..] == parts[1..][..k - 1] && parts[1..][k..] == parts[k + 1..];
      Regroup(parts[0], Concat(parts[1..][..k - 1]), parts[k], Concat(parts[k + 1..]));
    }
  }

  /** Every written part is read back through the entry that lists it. */
  lemma PartsComeBack(files: Files, disks: Buffer, comment: Buffer, k: nat, env: Environment)
    requires Writable(files, disks, comment) && Quiet(End(files, disks, comment)) && k < |files|
    ensures var buf := Write(files, disks, comment);
            Entries(buf) == Listed(files) && ReadEntryBytes(buf, Listed(files)[k], env) == Stored(files[k], env)
  {
    ReadingUndoesWriting(files, disks, comment);
    var locals, centrals := Locals(files), Concat(Centrals(files));
    ConcatSplit(locals, k);
    PartInArchive(Concat(locals[..k]), files[k], Concat(locals[k + 1..]), centrals, End(files, disks, comment), env);
  }

  lemma PartInArchive(before: Buffer, f: File, after: Buffer, centrals: Buffer, end: Buffer, env: Environment)
    requires FileOk(f)
    ensures ReadEntryBytes((before + LocalPart(f) + after) + centrals + end, ListedAs(f, |before|), env)
            == Stored(f, env)
  {
    Behind(before, LocalPart(f), after, centrals, end);
    ReadsPart(before, f, after + centrals + end, env);
  }

  lemma Behind(a: Buffer, b: Buffer, c: Buffer, d: Buffer, e: Buffer)
    ensures (a + b + c) + d + e == a + b + (c + d + e)
  {
  }
}
