/**
 * The DOCX upload gate (shared/src/docx-sanitize.ts): walking a ZIP archive by its central directory (sections
 * 4.3.7, 4.3.12 and 4.3.16 of PKWARE APPNOTE.TXT) and refusing macros, bombs, external entities and DDE links.
 * Every read of the buffer is a `U16` or `U32` whose precondition keeps it inside.
 */
module DocxSanitize {
  import opened Wrappers
  import Text

  type Byte = b: int | 0 <= b < 256
  type Buffer = seq<Byte>

  const MAX_COMPRESSED_BYTES := 25 * 1024 * 1024
  const MAX_UNCOMPRESSED_BYTES := 200 * 1024 * 1024
  const MAX_COMPRESSION_RATIO := 200
  const MAX_ENTRIES := 2048
  const MAX_EXTRACT_BYTES := 16 * 1024 * 1024
  const EOCD_SIGNATURE := 0x06054b50
  const CDH_SIGNATURE := 0x02014b50
  const LFH_SIGNATURE := 0x04034b50

  datatype Reason = NotOoxml | VbaMacro | Xxe | Dde | ZipBomb | TooLarge | Corrupt

  function Power256(n: nat): nat {
    if n == 0 then 1 else 0x100 * Power256(n - 1)
  }

  function LittleEndian(b: Buffer): (n: nat)
    ensures n < Power256(|b|)
  {
    if b == [] then 0 else
      var low: nat := b[0];
      low + 0x100 * LittleEndian(b[1..])
  }

  function U16(buf: Buffer, o: nat): (n: nat)
    requires o + 2 <= |buf|
    ensures n < 0x1_0000
  {
    assert Power256(2) == 0x1_0000;
    LittleEndian(buf[o..o + 2])
  }

  function U32(buf: Buffer, o: nat): (n: nat)
    requires o + 4 <= |buf|
    ensures n < 0x1_0000_0000
  {
    assert Power256(2) == 0x1_0000 && Power256(4) == 0x1_0000_0000;
    LittleEndian(buf[o..o + 4])
  }

  // ---------------------------------------------------------------- the end of the central directory

  const EOCD_SIZE := 22

  /** The lowest position looked at: a comment has at most 65535 bytes. */
  function SearchFloor(buf: Buffer): nat {
    if |buf| > EOCD_SIZE + 0xFFFF then |buf| - (EOCD_SIZE + 0xFFFF) else 0
  }

  predicate EocdAt(buf: Buffer, i: int) {
    SearchFloor(buf) <= i <= |buf| - EOCD_SIZE && U32(buf, i) == EOCD_SIGNATURE
  }

  /** The last end record at or below `i`, or -1. */
  function EocdBelow(buf: Buffer, i: int): (e: int)
    requires i <= |buf| - EOCD_SIZE
    ensures e == -1 || EocdAt(buf, e)
    ensures forall j :: e < j <= i ==> !EocdAt(buf, j)
    decreases i
  {
    if i < SearchFloor(buf) then -1 else if U32(buf, i) == EOCD_SIGNATURE then i else EocdBelow(buf, i - 1)
  }

  function Eocd(buf: Buffer): (e: int)
    ensures e == -1 || EocdAt(buf, e)
    ensures forall j :: j > e ==> !EocdAt(buf, j)
  {
    EocdBelow(buf, |buf| - EOCD_SIZE)
  }

  method FindEocd(buf: Buffer) returns (i: int)
    ensures i == Eocd(buf)
  {
    i := |buf| - EOCD_SIZE;
    while i >= SearchFloor(buf)
      invariant i <= |buf| - EOCD_SIZE && Eocd(buf) == EocdBelow(buf, i)
    {
      if U32(buf, i) == EOCD_SIGNATURE {
        return i;
      }
      i := i - 1;
    }
    return -1;
  }

  /** The end record: the last signature with room for a record behind it, and for 65535 bytes of comment at most. */
  lemma EocdMeans(buf: Buffer, i: int)
    requires 0 <= i <= |buf| - 22 && |buf| - 22 - 0xFFFF <= i && U32(buf, i) == 0x06054b50
    ensures i <= Eocd(buf) <= |buf| - 22 && U32(buf, Eocd(buf)) == 0x06054b50
  {
    assert EocdAt(buf, i);
  }

  lemma NoEocd(buf: Buffer)
    ensures Eocd(buf) == -1 <==>
            forall i :: 0 <= i <= |buf| - 22 && |buf| - 22 - 0xFFFF <= i ==> U32(buf, i) != 0x06054b50
  {
    forall i | 0 <= i <= |buf| - 22 && |buf| - 22 - 0xFFFF <= i ensures EocdAt(buf, i) <==> U32(buf, i) == 0x06054b50 {
    }
    if Eocd(buf) != -1 {
      assert EocdAt(buf, Eocd(buf));
    }
  }

  // ---------------------------------------------------------------- central directory headers

  datatype Header = Header(name: Buffer, method_: nat, compressedSize: nat, uncompressedSize: nat, localOffset: nat)

  const CDH_SIZE := 46

  predicate HeaderFits(buf: Buffer, o: nat) {
    o + CDH_SIZE <= |buf| && U32(buf, o) == CDH_SIGNATURE
  }

  predicate NameFits(buf: Buffer, o: nat)
    requires HeaderFits(buf, o)
  {
    o + CDH_SIZE + U16(buf, o + 28) <= |buf|
  }

  /** A header as read at `o`; a name running over the end is cut off there, as `toString` does. */
  function HeaderAt(buf: Buffer, o: nat): Header
    requires HeaderFits(buf, o)
  {
    var nameStart, nameLen := o + CDH_SIZE, U16(buf, o + 28);
    var nameEnd := if nameStart + nameLen <= |buf| then nameStart + nameLen else |buf|;
    Header(buf[nameStart..nameEnd], U16(buf, o + 10), U32(buf, o + 20), U32(buf, o + 24), U32(buf, o + 42))
  }

  function NextHeader(buf: Buffer, o: nat): nat
    requires HeaderFits(buf, o)
  {
    o + CDH_SIZE + U16(buf, o + 28) + U16(buf, o + 30) + U16(buf, o + 32)
  }

  /** Up to `n` headers from `o` on, until one does not fit. */
  function Walk(buf: Buffer, o: nat, n: nat): seq<Header>
    decreases n
  {
    if n == 0 || !HeaderFits(buf, o) then [] else [HeaderAt(buf, o)] + Walk(buf, NextHeader(buf, o), n - 1)
  }

  /** All `n` headers from `o` on, or nothing when one of them, its name included, is not there. */
  function Strict(buf: Buffer, o: nat, n: nat): Option<seq<Header>>
    decreases n
  {
    if n == 0 then Some([])
    else if !HeaderFits(buf, o) || !NameFits(buf, o) then None
    else Prepend([HeaderAt(buf, o)], Strict(buf, NextHeader(buf, o), n - 1))
  }

  function Prepend(front: seq<Header>, rest: Option<seq<Header>>): Option<seq<Header>> {
    if rest.None? then None else Some(front + rest.value)
  }

  lemma PrependNothing(rest: Option<seq<Header>>, front: seq<Header>)
    ensures Prepend([], rest) == rest && Prepend(front, Some([])) == Some(front)
  {
    assert front + [] == front;
    assert rest.Some? ==> [] + rest.value == rest.value;
  }

  lemma StepWalk(before: seq<Header>, buf: Buffer, o: nat, n: nat)
    requires n > 0 && HeaderFits(buf, o)
    ensures before + Walk(buf, o, n) == before + [HeaderAt(buf, o)] + Walk(buf, NextHeader(buf, o), n - 1)
  {
  }

  lemma StepStrict(before: seq<Header>, buf: Buffer, o: nat, n: nat)
    requires n > 0 && HeaderFits(buf, o) && NameFits(buf, o)
    ensures Prepend(before, Strict(buf, o, n))
            == Prepend(before + [HeaderAt(buf, o)], Strict(buf, NextHeader(buf, o), n - 1))
  {
    var rest := Strict(buf, NextHeader(buf, o), n - 1);
    assert rest.Some? ==> before + ([HeaderAt(buf, o)] + rest.value) == before + [HeaderAt(buf, o)] + rest.value;
  }

  /** The strict walk is the lenient one wherever it succeeds. */
  lemma {:induction false} StrictIsWalk(buf: Buffer, o: nat, n: nat)
    ensures Strict(buf, o, n).Some? ==> Strict(buf, o, n).value == Walk(buf, o, n) && |Walk(buf, o, n)| == n
    decreases n
  {
    if n > 0 && HeaderFits(buf, o) {
      StrictIsWalk(buf, NextHeader(buf, o), n - 1);
    }
  }

  predicate HeaderThere(buf: Buffer, o: nat) {
    o + 46 <= |buf| && U32(buf, o) == 0x02014b50
  }

  /** One step of the strict walk, by the field offsets of section 4.3.12. */
  lemma StrictStep(buf: Buffer, o: nat, n: nat)
    requires n > 0
    ensures !HeaderThere(buf, o) ==> Strict(buf, o, n).None?
    ensures HeaderThere(buf, o) && o + 46 + U16(buf, o + 28) > |buf| ==> Strict(buf, o, n).None?
    ensures HeaderThere(buf, o) && o + 46 + U16(buf, o + 28) <= |buf| ==>
              var name, extra, comment := U16(buf, o + 28), U16(buf, o + 30), U16(buf, o + 32);
              var rest := Strict(buf, o + 46 + name + extra + comment, n - 1);
              Strict(buf, o, n) ==
              if rest.None? then None
              else Some([Header(buf[o + 46..o + 46 + name], U16(buf, o + 10), U32(buf, o + 20), U32(buf, o + 24),
                                U32(buf, o + 42))] + rest.value)
  {
  }

  /** One step of the lenient walk: it stops where no header is, and cuts a name off at the end of the buffer. */
  lemma WalkStep(buf: Buffer, o: nat, n: nat)
    requires n > 0
    ensures !HeaderThere(buf, o) ==> Walk(buf, o, n) == []
    ensures HeaderThere(buf, o) ==>
              var name, extra, comment := U16(buf, o + 28), U16(buf, o + 30), U16(buf, o + 32);
              var h := Walk(buf, o, n)[0];
              && Walk(buf, o, n)[1..] == Walk(buf, o + 46 + name + extra + comment, n - 1)
              && h.name == (if o + 46 + name <= |buf| then buf[o + 46..o + 46 + name] else buf[o + 46..])
              && h.method_ == U16(buf, o + 10) && h.compressedSize == U32(buf, o + 20)
              && h.uncompressedSize == U32(buf, o + 24) && h.localOffset == U32(buf, o + 42)
  {
  }

  /** One more than the cap is read before the walk stops, so that the excess shows. */
  function ReadLimit(count: nat): nat {
    if count <= MAX_ENTRIES then count else MAX_ENTRIES + 1
  }

  function Headers(buf: Buffer, o: nat, n: nat): Result<seq<Header>, Reason> {
    if n == 0 || Strict(buf, o, n).None? then Err(Corrupt) else Ok(Strict(buf, o, n).value)
  }

  /** What the strict walker makes of a buffer. */
  function Directory(buf: Buffer): Result<seq<Header>, Reason> {
    var eocd := Eocd(buf);
    if eocd < 0 then Err(Corrupt) else Headers(buf, U32(buf, eocd + 16), ReadLimit(U16(buf, eocd + 10)))
  }

  /** What the lenient walker makes of it. */
  function Entries(buf: Buffer): seq<Header> {
    var eocd := Eocd(buf);
    if eocd < 0 then [] else Walk(buf, U32(buf, eocd + 16), U16(buf, eocd + 10))
  }

  /** Where the strict walk starts, how far it goes, and what it makes of nothing. */
  lemma DirectoryMeans(buf: Buffer)
    ensures Eocd(buf) == -1 ==> Directory(buf) == Err(Corrupt) && Entries(buf) == []
    ensures Eocd(buf) != -1 ==>
              var start, count := U32(buf, Eocd(buf) + 16), U16(buf, Eocd(buf) + 10);
              && Entries(buf) == Walk(buf, start, count)
              && (count == 0 ==> Directory(buf) == Err(Corrupt))
              && (0 < count ==>
                    var walked := Strict(buf, start, if count <= 2048 then count else 2049);
                    Directory(buf) == if walked.None? then Err(Corrupt) else Ok(walked.value))
  {
  }

  method CheckedHeader(buf: Buffer, offset: nat) returns (header: Option<Header>)
    ensures header == if HeaderFits(buf, offset) && NameFits(buf, offset) then Some(HeaderAt(buf, offset)) else None
  {
    if offset + CDH_SIZE > |buf| {
      return None;
    }
    if U32(buf, offset) != CDH_SIGNATURE {
      return None;
    }
    if offset + CDH_SIZE + U16(buf, offset + 28) > |buf| {
      return None;
    }
    return Some(HeaderAt(buf, offset));
  }

  /** What the strict walk still has to deliver from `o` on, with `entries` already read. */
  ghost function Remaining(buf: Buffer, o: nat, n: nat, entries: seq<Header>): Result<seq<Header>, Reason> {
    var all := Prepend(entries, Strict(buf, o, n));
    if all.None? || all.value == [] then Err(Corrupt) else Ok(all.value)
  }

  lemma RemainingFacts(buf: Buffer, o: nat, n: nat, entries: seq<Header>)
    ensures Remaining(buf, o, n, []) == Headers(buf, o, n)
    ensures Remaining(buf, o, 0, entries) == if entries == [] then Err(Corrupt) else Ok(entries)
    ensures n > 0 && !(HeaderFits(buf, o) && NameFits(buf, o)) ==> Remaining(buf, o, n, entries) == Err(Corrupt)
    ensures n > 0 && HeaderFits(buf, o) && NameFits(buf, o) ==>
              Remaining(buf, o, n, entries) == Remaining(buf, NextHeader(buf, o), n - 1, entries + [HeaderAt(buf, o)])
  {
    StrictIsWalk(buf, o, n);
    PrependNothing(Strict(buf, o, n), entries);
    if n > 0 && HeaderFits(buf, o) && NameFits(buf, o) {
      StepStrict(entries, buf, o, n);
    }
  }

  method ReadHeaders(buf: Buffer, start: nat, entryCount: nat) returns (r: Result<seq<Header>, Reason>)
    ensures r == Headers(buf, start, ReadLimit(entryCount))
  {
    var offset: nat := start;
    ghost var n := ReadLimit(entryCount);
    RemainingFacts(buf, start, n, []);
    var entries: seq<Header> := [];
    while |entries| < entryCount && |entries| <= MAX_ENTRIES
      invariant |entries| <= n
      invariant Headers(buf, start, n) == Remaining(buf, offset, n - |entries|, entries)
      decreases n - |entries|
    {
      var header := CheckedHeader(buf, offset);
      RemainingFacts(buf, offset, n - |entries|, entries);
      if header.None? {
        return Err(Corrupt);
      }
      entries := entries + [header.value];
      offset := NextHeader(buf, offset);
    }
    RemainingFacts(buf, offset, 0, entries);
    return if entries == [] then Err(Corrupt) else Ok(entries);
  }

  /** The strict walker. */
  method ParseCentralDirectory(buf: Buffer) returns (r: Result<seq<Header>, Reason>)
    ensures r == Directory(buf)
  {
    var eocd := FindEocd(buf);
    if eocd < 0 {
      return Err(Corrupt);
    }
    r := ReadHeaders(buf, U32(buf, eocd + 16), U16(buf, eocd + 10));
  }

  /** The lenient walker behind the content scan and the placeholder reader. */
  method IterCentralDirectory(buf: Buffer) returns (entries: seq<Header>)
    ensures entries == Entries(buf)
  {
    var eocd := FindEocd(buf);
    if eocd < 0 {
      return [];
    }
    entries := ListHeaders(buf, U32(buf, eocd + 16), U16(buf, eocd + 10));
  }

  /** What the lenient walk lists in all, with `entries` read and `n` headers to go from `o` on. */
  ghost function Listing(buf: Buffer, o: nat, n: nat, entries: seq<Header>): seq<Header> {
    entries + Walk(buf, o, n)
  }

  lemma ListingFacts(buf: Buffer, o: nat, n: nat, entries: seq<Header>)
    ensures Listing(buf, o, n, []) == Walk(buf, o, n)
    ensures n == 0 || !HeaderFits(buf, o) ==> Listing(buf, o, n, entries) == entries
    ensures n > 0 && HeaderFits(buf, o) ==>
              Listing(buf, o, n, entries) == Listing(buf, NextHeader(buf, o), n - 1, entries + [HeaderAt(buf, o)])
  {
    assert [] + Walk(buf, o, n) == Walk(buf, o, n) && entries + [] == entries;
    if n > 0 && HeaderFits(buf, o) {
      StepWalk(entries, buf, o, n);
    }
  }

  method ListHeaders(buf: Buffer, start: nat, entryCount: nat) returns (entries: seq<Header>)
    ensures entries == Walk(buf, start, entryCount)
  {
    var offset: nat := start;
    entries := [];
    ListingFacts(buf, start, entryCount, []);
    for i := 0 to entryCount
      invariant Walk(buf, start, entryCount) == Listing(buf, offset, entryCount - i, entries)
    {
      ListingFacts(buf, offset, entryCount - i, entries);
      if offset + CDH_SIZE > |buf| || U32(buf, offset) != CDH_SIGNATURE {
        return entries;
      }
      entries := entries + [HeaderAt(buf, offset)];
      offset := NextHeader(buf, offset);
    }
    ListingFacts(buf, offset, 0, entries);
  }

  /** Whenever the strict walker delivers no more than the cap, the lenient one delivers the same, in the same order. */
  lemma WalkersAgree(buf: Buffer)
    requires Directory(buf).Ok? && |Directory(buf).value| <= MAX_ENTRIES
    ensures Entries(buf) == Directory(buf).value && U16(buf, Eocd(buf) + 10) == |Entries(buf)|
  {
    var o, count := U32(buf, Eocd(buf) + 16), U16(buf, Eocd(buf) + 10);
    StrictIsWalk(buf, o, ReadLimit(count));
  }

  // ---------------------------------------------------------------- one part's bytes

  datatype Inflation = Output(bytes: Buffer) | OutputTooLarge | BadStream

  /** The runtime's text and inflate functions; `upperText` is the Latin-1 text of some bytes in upper case. */
  datatype Environment = Environment(
    utf8: Buffer -> string,
    toLowerCase: string -> string,
    upperText: Buffer -> string,
    inflate: Buffer -> Inflation)

  datatype Content = Missing | Bytes(bytes: Buffer) | Overflow | Broken

  const LFH_SIZE := 30

  function ReadEntryBytes(buf: Buffer, h: Header, env: Environment): Content {
    var o := h.localOffset;
    if o + LFH_SIZE > |buf| || U32(buf, o) != LFH_SIGNATURE then Missing
    else
      var dataStart := o + LFH_SIZE + U16(buf, o + 26) + U16(buf, o + 28);
      var dataEnd := dataStart + h.compressedSize;
      if dataEnd > |buf| then Missing
      else if h.method_ == 0 then Bytes(buf[dataStart..dataEnd])
      else if h.method_ == 8 then
        match env.inflate(buf[dataStart..dataEnd])
        case Output(bytes) => Bytes(bytes)
        case OutputTooLarge => Overflow
        case BadStream => Broken
      else Missing
  }

  // ---------------------------------------------------------------- active content

  predicate ContainsAt(s: string, i: nat, sub: string) {
    i + |sub| <= |s| && s[i..i + |sub|] == sub
  }

  predicate Contains(s: string, sub: string) {
    exists i :: 0 <= i <= |s| && ContainsAt(s, i, sub)
  }

  predicate IsWord(s: string, i: int) {
    0 <= i < |s| && ('A' <= s[i] <= 'Z' || 'a' <= s[i] <= 'z' || '0' <= s[i] <= '9' || s[i] == '_')
  }

  predicate Boundary(s: string, i: int) {
    IsWord(s, i - 1) != IsWord(s, i)
  }

  /** A word SYSTEM or PUBLIC, white space, and a quote at `j`. */
  predicate ExternalIdAt(s: string, i: nat, j: nat) {
    && (ContainsAt(s, i, "SYSTEM") || ContainsAt(s, i, "PUBLIC")) && Boundary(s, i)
    && i + 6 < j < |s| && Text.All(s[i + 6..j], Text.IsSpace) && (s[j] == '"' || s[j] == '\'')
  }

  /** A W:FLDSIMPLE tag with the word DDE at `j`. */
  predicate DdeFieldAt(s: string, i: nat, j: nat) {
    && ContainsAt(s, i, "W:FLDSIMPLE") && Boundary(s, i) && Boundary(s, i + 11)
    && i + 11 <= j && ContainsAt(s, j, "DDE") && Boundary(s, j) && Boundary(s, j + 3) && '>' !in s[i + 11..j]
  }

  predicate HasXxe(upper: string) {
    || Contains(upper, "<!DOCTYPE") || Contains(upper, "<!ENTITY")
    || exists i, j :: 0 <= i < |upper| && 0 <= j < |upper| && ExternalIdAt(upper, i, j)
  }

  predicate HasDde(upper: string) {
    || Contains(upper, "DDEAUTO")
    || exists i, j :: 0 <= i < |upper| && 0 <= j < |upper| && DdeFieldAt(upper, i, j)
  }

  function ActiveContent(upper: string): Option<Reason> {
    if HasXxe(upper) then Some(Xxe) else if HasDde(upper) then Some(Dde) else None
  }

  /** `text` holds `marker`, with `before` in front of it and `after` behind. */
  ghost predicate Holds(text: string, marker: string) {
    exists before: string, after: string :: text == before + marker + after
  }

  lemma ContainsMeansHolds(text: string, marker: string)
    ensures Contains(text, marker) <==> Holds(text, marker)
  {
    if i :| 0 <= i <= |text| && ContainsAt(text, i, marker) {
      assert text == text[..i] + marker + text[i + |marker|..];
    }
    if before: string, after: string :| text == before + marker + after {
      assert ContainsAt(text, |before|, marker);
    }
  }

  predicate WordSign(c: char) {
    'A' <= c <= 'Z' || 'a' <= c <= 'z' || '0' <= c <= '9' || c == '_'
  }

  predicate EndsOutsideWord(s: string) {
    s == "" || !WordSign(s[|s| - 1])
  }

  predicate StartsOutsideWord(s: string) {
    s == "" || !WordSign(s[0])
  }

  /** The word SYSTEM or PUBLIC, white space and a quote. */
  predicate IsExternalId(before: string, word: string, spaces: string, quote: string) {
    && EndsOutsideWord(before) && (word == "SYSTEM" || word == "PUBLIC")
    && spaces != "" && Text.All(spaces, Text.IsSpace) && (quote == "\"" || quote == "'")
  }

  ghost predicate HoldsExternalId(text: string) {
    exists before: string, word: string, spaces: string, quote: string, after: string ::
      IsExternalId(before, word, spaces, quote) && text == before + word + spaces + quote + after
  }

  lemma ExternalIdIn(text: string, before: string, word: string, spaces: string, quote: string, after: string)
    requires IsExternalId(before, word, spaces, quote) && text == before + word + spaces + quote + after
    ensures HasXxe(text)
  {
    var i, j := |before|, |before| + 6 + |spaces|;
    Pieces(before, word, spaces, quote, after);
    assert text[i] == word[0];
    assert ExternalIdAt(text, i, j);
  }

  lemma Pieces(a: string, b: string, c: string, d: string, e: string)
    ensures var s, i, j := a + b + c + d + e, |a| + |b|, |a| + |b| + |c|;
            && s[|a|..i] == b && s[i..j] == c && s[j..j + |d|] == d && (|d| > 0 ==> s[j] == d[0])
            && (|b| > 0 ==> s[|a|] == b[0]) && (|a| > 0 ==> s[|a| - 1] == a[|a| - 1])
  {
  }

  lemma ExternalIdAtHolds(text: string, i: nat, j: nat)
    requires ExternalIdAt(text, i, j)
    ensures HoldsExternalId(text)
  {
    var before, word, spaces, quote, after := text[..i], text[i..i + 6], text[i + 6..j], text[j..j + 1], text[j + 1..];
    assert text == before + word + spaces + quote + after;
    assert quote == "\"" || quote == "'";
    assert text[i] == word[0] && (i > 0 ==> before[|before| - 1] == text[i - 1]);
    assert IsExternalId(before, word, spaces, quote);
  }

  /** Refused as XXE are exactly texts with a DTD, an entity declaration or an external identifier in them. */
  lemma XxeExactlyWhen(text: string)
    ensures HasXxe(text) <==> Holds(text, "<!DOCTYPE") || Holds(text, "<!ENTITY") || HoldsExternalId(text)
  {
    ContainsMeansHolds(text, "<!DOCTYPE");
    ContainsMeansHolds(text, "<!ENTITY");
    if before, word, spaces, quote, after :|
      IsExternalId(before, word, spaces, quote) && text == before + word + spaces + quote + after {
      ExternalIdIn(text, before, word, spaces, quote, after);
    }
    if i, j :| 0 <= i < |text| && 0 <= j < |text| && ExternalIdAt(text, i, j) {
      ExternalIdAtHolds(text, i, j);
    }
  }

  /** The word DDE behind a tag name W:FLDSIMPLE, in the same tag. */
  predicate IsDdeField(before: string, between: string, after: string) {
    && EndsOutsideWord(before) && between != "" && StartsOutsideWord(between) && EndsOutsideWord(between)
    && '>' !in between && StartsOutsideWord(after)
  }

  ghost predicate HoldsDdeField(text: string) {
    exists before: string, between: string, after: string ::
      IsDdeField(before, between, after) && text == before + "W:FLDSIMPLE" + between + "DDE" + after
  }

  lemma DdeFieldIn(text: string, before: string, between: string, after: string)
    requires IsDdeField(before, between, after) && text == before + "W:FLDSIMPLE" + between + "DDE" + after
    ensures HasDde(text)
  {
    var i, j := |before|, |before| + 11 + |between|;
    assert text[i..i + 11] == "W:FLDSIMPLE" && text[i + 11..j] == between && text[j..j + 3] == "DDE";
    assert text[i] == 'W' && (i > 0 ==> text[i - 1] == before[i - 1]);
    assert text[i + 10] == 'E' && text[i + 11] == between[0];
    assert text[j - 1] == between[|between| - 1] && text[j] == 'D';
    assert text[j + 2] == 'E' && (after != "" ==> text[j + 3] == after[0]);
    assert DdeFieldAt(text, i, j);
  }

  lemma DdeFieldAtHolds(text: string, i: nat, j: nat)
    requires DdeFieldAt(text, i, j)
    ensures HoldsDdeField(text)
  {
    var before, between, after := text[..i], text[i + 11..j], text[j + 3..];
    assert text[i + 10] == text[i..i + 11][10] == 'E' && text[j] == text[j..j + 3][0] == 'D';
    assert text[i] == text[i..i + 11][0] == 'W' && text[j + 2] == text[j..j + 3][2] == 'E';
    assert text == before + "W:FLDSIMPLE" + between + "DDE" + after;
    assert IsDdeField(before, between, after);
  }

  /** Refused as DDE are exactly texts with DDEAUTO or such a field in them. */
  lemma DdeExactlyWhen(text: string)
    ensures HasDde(text) <==> Holds(text, "DDEAUTO") || HoldsDdeField(text)
  {
    ContainsMeansHolds(text, "DDEAUTO");
    if before, between, after :|
      IsDdeField(before, between, after) && text == before + "W:FLDSIMPLE" + between + "DDE" + after {
      DdeFieldIn(text, before, between, after);
    }
    if i, j :| 0 <= i < |text| && 0 <= j < |text| && DdeFieldAt(text, i, j) {
      DdeFieldAtHolds(text, i, j);
    }
  }

  function AsciiLower(s: string): string {
    seq(|s|, i requires 0 <= i < |s| => if 'A' <= s[i] <= 'Z' then (s[i] as int + 32) as char else s[i])
  }

  predicate EndsWith(s: string, suffix: string) {
    |suffix| <= |s| && s[|s| - |suffix|..] == suffix
  }

  predicate IsScannedPart(name: string) {
    var n := AsciiLower(name);
    "word/" <= n || EndsWith(n, ".xml") || EndsWith(n, ".rels")
  }

  /** Letters become small ones, everything else stays. */
  lemma AsciiLowerMeans(s: string, k: nat)
    requires k < |s|
    ensures |AsciiLower(s)| == |s|
    ensures forall i :: 0 <= i < 26 && s[k] == "ABCDEFGHIJKLMNOPQRSTUVWXYZ"[i] ==>
                          AsciiLower(s)[k] == "abcdefghijklmnopqrstuvwxyz"[i]
    ensures s[k] !in "ABCDEFGHIJKLMNOPQRSTUVWXYZ" ==> AsciiLower(s)[k] == s[k]
  {
    if 'A' <= s[k] <= 'Z' {
      var i := s[k] as int - 'A' as int;
      LetterAt(i);
    }
    forall i | 0 <= i < 26 ensures s[k] == "ABCDEFGHIJKLMNOPQRSTUVWXYZ"[i] ==>
                          AsciiLower(s)[k] == "abcdefghijklmnopqrstuvwxyz"[i] {
      LetterAt(i);
    }
  }

  lemma LetterAt(i: nat)
    requires i < 26
    ensures "ABCDEFGHIJKLMNOPQRSTUVWXYZ"[i] == ('A' as int + i) as char
    ensures "abcdefghijklmnopqrstuvwxyz"[i] == ('a' as int + i) as char
  {
  }

  lemma EndsWithMeans(s: string, suffix: string)
    ensures EndsWith(s, suffix) <==> exists x: string :: s == x + suffix
  {
    if EndsWith(s, suffix) {
      assert s == s[..|s| - |suffix|] + suffix;
    }
  }

  /** Scanned are the parts under "word/", and those whose names end with ".xml" or ".rels", in any case. */
  lemma ScannedPartsAre(name: string)
    ensures IsScannedPart(name) <==>
            var n := AsciiLower(name);
            || (exists x: string :: n == "word/" + x)
            || (exists x: string :: n == x + ".xml") || (exists x: string :: n == x + ".rels")
  {
    var n := AsciiLower(name);
    EndsWithMeans(n, ".xml");
    EndsWithMeans(n, ".rels");
    if "word/" <= n {
      assert n == "word/" + n[5..];
    }
  }

  /** Why one part condemns the archive, if it does. */
  function PartReason(buf: Buffer, h: Header, env: Environment): Option<Reason> {
    if !IsScannedPart(env.utf8(h.name)) then None
    else
      match ReadEntryBytes(buf, h, env)
      case Missing => None
      case Overflow => Some(ZipBomb)
      case Broken => Some(Corrupt)
      case Bytes(bytes) => ActiveContent(env.upperText(bytes))
  }

  function FirstReason(buf: Buffer, entries: seq<Header>, env: Environment): Option<Reason> {
    if entries == [] then None
    else if PartReason(buf, entries[0], env).Some? then PartReason(buf, entries[0], env)
    else FirstReason(buf, entries[1..], env)
  }

  lemma {:induction false} NoReasonInAny(buf: Buffer, entries: seq<Header>, env: Environment)
    ensures FirstReason(buf, entries, env).None?
            <==> forall i :: 0 <= i < |entries| ==> PartReason(buf, entries[i], env).None?
  {
    if entries != [] {
      NoReasonInAny(buf, entries[1..], env);
      assert forall i :: 1 <= i < |entries| ==> entries[i] == entries[1..][i - 1];
    }
  }

  method ScanInflatedXmlParts(buf: Buffer, env: Environment) returns (r: Option<Reason>)
    ensures r == FirstReason(buf, Entries(buf), env)
  {
    var entries := IterCentralDirectory(buf);
    for i := 0 to |entries|
      invariant FirstReason(buf, entries, env) == FirstReason(buf, entries[i..], env)
    {
      assert entries[i..][1..] == entries[i + 1..];
      r := PartReason(buf, entries[i], env);
      if r.Some? {
        return r;
      }
    }
    return None;
  }

  // ---------------------------------------------------------------- the gate

  predicate HasName(entries: seq<Header>, name: string, env: Environment) {
    exists i :: 0 <= i < |entries| && env.toLowerCase(env.utf8(entries[i].name)) == name
  }

  predicate IsMacro(name: string) {
    EndsWith(name, "vbaproject.bin") || Contains(name, "/vbaproject")
  }

  predicate HasMacro(entries: seq<Header>, env: Environment) {
    exists i :: 0 <= i < |entries| && IsMacro(env.toLowerCase(env.utf8(entries[i].name)))
  }

  function Uncompressed(entries: seq<Header>): nat {
    if entries == [] then 0 else Uncompressed(entries[..|entries| - 1]) + entries[|entries| - 1].uncompressedSize
  }

  function Compressed(entries: seq<Header>): nat {
    if entries == [] then 0 else Compressed(entries[..|entries| - 1]) + entries[|entries| - 1].compressedSize
  }

  /**
   * The checks on the listed entries, in the order of the code; the quotient of two such sums is exact enough to
   * compare.
   */
  function ListingReason(entries: seq<Header>, env: Environment): Option<Reason> {
    if !HasName(entries, "[content_types].xml", env) || !HasName(entries, "word/document.xml", env) then Some(NotOoxml)
    else if HasMacro(entries, env) then Some(VbaMacro)
    else if |entries| > MAX_ENTRIES then Some(ZipBomb)
    else if Uncompressed(entries) > MAX_UNCOMPRESSED_BYTES then Some(ZipBomb)
    else if Compressed(entries) > 0 && Uncompressed(entries) > MAX_COMPRESSION_RATIO * Compressed(entries)
        then Some(ZipBomb)
    else None
  }

  function Verdict(buf: Buffer, env: Environment): Result<seq<Header>, Reason> {
    if |buf| == 0 then Err(Corrupt)
    else if |buf| > MAX_COMPRESSED_BYTES then Err(TooLarge)
    else if Directory(buf).Err? then Directory(buf)
    else if ListingReason(Directory(buf).value, env).Some? then Err(ListingReason(Directory(buf).value, env).value)
    else if ActiveContent(env.upperText(buf)).Some? then Err(ActiveContent(env.upperText(buf)).value)
    else if FirstReason(buf, Entries(buf), env).Some? then Err(FirstReason(buf, Entries(buf), env).value)
    else Directory(buf)
  }

  method CheckListing(entries: seq<Header>, env: Environment) returns (r: Option<Reason>)
    ensures r == ListingReason(entries, env)
  {
    if !HasName(entries, "[content_types].xml", env) || !HasName(entries, "word/document.xml", env) {
      return Some(NotOoxml);
    }
    for i := 0 to |entries|
      invariant forall j :: 0 <= j < i ==> !IsMacro(env.toLowerCase(env.utf8(entries[j].name)))
    {
      if IsMacro(env.toLowerCase(env.utf8(entries[i].name))) {
        return Some(VbaMacro);
      }
    }
    if |entries| > MAX_ENTRIES {
      return Some(ZipBomb);
    }
    var totalUncompressed, totalCompressed := SumSizes(entries);
    if totalUncompressed > MAX_UNCOMPRESSED_BYTES {
      return Some(ZipBomb);
    }
    if totalCompressed > 0 && totalUncompressed > MAX_COMPRESSION_RATIO * totalCompressed {
      return Some(ZipBomb);
    }
    return None;
  }

  method SumSizes(entries: seq<Header>) returns (totalUncompressed: nat, totalCompressed: nat)
    ensures totalUncompressed == Uncompressed(entries) && totalCompressed == Compressed(entries)
  {
    totalUncompressed, totalCompressed := 0, 0;
    for i := 0 to |entries|
      invariant totalUncompressed == Uncompressed(entries[..i]) && totalCompressed == Compressed(entries[..i])
    {
      assert entries[..i + 1][..i] == entries[..i];
      totalUncompressed := totalUncompressed + entries[i].uncompressedSize;
      totalCompressed := totalCompressed + entries[i].compressedSize;
    }
    assert entries[..|entries|] == entries;
  }

  method SanitizeDocxBuffer(buf: Buffer, env: Environment) returns (r: Result<seq<Header>, Reason>)
    ensures r == Verdict(buf, env)
  {
    if |buf| == 0 {
      return Err(Corrupt);
    }
    if |buf| > MAX_COMPRESSED_BYTES {
      return Err(TooLarge);
    }
    r := ParseCentralDirectory(buf);
    if r.Err? {
      return;
    }
    var listing := CheckListing(r.value, env);
    if listing.Some? {
      return Err(listing.value);
    }
    if ActiveContent(env.upperText(buf)).Some? {
      return Err(ActiveContent(env.upperText(buf)).value);
    }
    var inParts := ScanInflatedXmlParts(buf, env);
    if inParts.Some? {
      return Err(inParts.value);
    }
  }

  /** Sizes add up. */
  lemma {:induction false} SizesAddUp(first: seq<Header>, second: seq<Header>)
    ensures Uncompressed(first + second) == Uncompressed(first) + Uncompressed(second)
    ensures Compressed(first + second) == Compressed(first) + Compressed(second)
    decreases |second|
  {
    if second == [] {
      assert first + second == first;
    } else {
      var n := |second| - 1;
      assert (first + second)[..|first + second| - 1] == first + second[..n];
      SizesAddUp(first, second[..n]);
    }
  }

  lemma SizesOfOne(h: Header)
    ensures Uncompressed([h]) == h.uncompressedSize && Compressed([h]) == h.compressedSize
  {
    assert [h][..0] == [];
  }

  /** Macros are files called vbaproject.bin, or anything on a path that goes on with "/vbaproject". */
  lemma MacrosAre(name: string)
    ensures IsMacro(name) <==> (exists x: string :: name == x + "vbaproject.bin") || Holds(name, "/vbaproject")
  {
    EndsWithMeans(name, "vbaproject.bin");
    ContainsMeansHolds(name, "/vbaproject");
  }

  /** An entry without a local header, with data beyond the end, or of another method has no bytes. */
  lemma UnreadableIsMissing(buf: Buffer, h: Header, env: Environment)
    ensures h.localOffset + 30 > |buf| || U32(buf, h.localOffset) != 0x04034b50 ==>
              ReadEntryBytes(buf, h, env).Missing?
    ensures h.localOffset + 30 <= |buf| ==>
              var o := h.localOffset;
              o + 30 + U16(buf, o + 26) + U16(buf, o + 28) + h.compressedSize > |buf| ==>
                ReadEntryBytes(buf, h, env).Missing?
    ensures h.method_ != 0 && h.method_ != 8 ==> ReadEntryBytes(buf, h, env).Missing?
  {
  }

  /** The parts an accepted archive's readers can see are free of markers, whichever walker lists them. */
  predicate PartIsSafe(buf: Buffer, h: Header, env: Environment) {
    IsScannedPart(env.utf8(h.name)) ==>
      match ReadEntryBytes(buf, h, env)
      case Missing => true
      case Bytes(bytes) => !HasXxe(env.upperText(bytes)) && !HasDde(env.upperText(bytes))
      case _ => false
  }

  ghost predicate Acceptable(buf: Buffer, env: Environment) {
    && 0 < |buf| <= 25 * 1024 * 1024 && Directory(buf).Ok?
    && var entries := Directory(buf).value;
    && entries == Entries(buf) && |entries| == U16(buf, Eocd(buf) + 10) <= 2048
    && HasName(entries, "[content_types].xml", env) && HasName(entries, "word/document.xml", env)
       && !HasMacro(entries, env)
    && Uncompressed(entries) <= 200 * 1024 * 1024
    && (Compressed(entries) > 0 ==> Uncompressed(entries) <= 200 * Compressed(entries))
    && !HasXxe(env.upperText(buf)) && !HasDde(env.upperText(buf))
    && forall i :: 0 <= i < |entries| ==> PartIsSafe(buf, entries[i], env)
  }

  /** Acceptance says all of it, and all of it is enough. */
  lemma AcceptedExactlyWhen(buf: Buffer, env: Environment)
    ensures Verdict(buf, env).Ok? <==> Acceptable(buf, env)
    ensures Verdict(buf, env).Ok? ==> Verdict(buf, env).value == Entries(buf)
  {
    NoUnsafePart(buf, Entries(buf), env);
    NoActiveContent(env.upperText(buf));
    if Directory(buf).Ok? {
      ListedWithinBounds(Directory(buf).value, env);
      if |Directory(buf).value| <= MAX_ENTRIES {
        WalkersAgree(buf);
      }
    }
  }

  lemma NoActiveContent(text: string)
    ensures ActiveContent(text).None? <==> !HasXxe(text) && !HasDde(text)
  {
  }

  lemma ListedWithinBounds(entries: seq<Header>, env: Environment)
    ensures ListingReason(entries, env).None? <==>
            && |entries| <= 2048
            && HasName(entries, "[content_types].xml", env) && HasName(entries, "word/document.xml", env)
               && !HasMacro(entries, env)
            && Uncompressed(entries) <= 200 * 1024 * 1024
            && (Compressed(entries) > 0 ==> Uncompressed(entries) <= 200 * Compressed(entries))
  {
  }

  /** And a refusal names the first of the conditions that fails, in this order. */
  lemma RefusedFor(buf: Buffer, env: Environment)
    ensures buf == [] ==> Verdict(buf, env) == Err(Corrupt)
    ensures |buf| > 25 * 1024 * 1024 ==> Verdict(buf, env) == Err(TooLarge)
    ensures 0 < |buf| <= 25 * 1024 * 1024 ==>
              match Directory(buf)
              case Err(_) => Verdict(buf, env) == Err(Corrupt)
              case Ok(entries) =>
                var names := set i | 0 <= i < |entries| :: env.toLowerCase(env.utf8(entries[i].name));
                && (!({"[content_types].xml", "word/document.xml"} <= names) <==> Verdict(buf, env) == Err(NotOoxml))
                && ({"[content_types].xml", "word/document.xml"} <= names ==>
                      ((exists name :: name in names && IsMacro(name)) <==> Verdict(buf, env) == Err(VbaMacro)))
  {
    if Directory(buf).Ok? {
      NeverFormat(buf, Entries(buf), env);
      ListingRefuses(Directory(buf).value, env);
    }
  }

  lemma ListingRefuses(entries: seq<Header>, env: Environment)
    ensures var names := set i | 0 <= i < |entries| :: env.toLowerCase(env.utf8(entries[i].name));
            && (!({"[content_types].xml", "word/document.xml"} <= names)
                <==> ListingReason(entries, env) == Some(NotOoxml))
            && ({"[content_types].xml", "word/document.xml"} <= names ==>
                  ((exists name :: name in names && IsMacro(name)) <==> ListingReason(entries, env) == Some(VbaMacro)))
  {
    var names := set i | 0 <= i < |entries| :: env.toLowerCase(env.utf8(entries[i].name));
    forall name ensures HasName(entries, name, env) <==> name in names {
    }
    assert HasMacro(entries, env) <==> exists name :: name in names && IsMacro(name);
  }

  lemma {:induction false} NeverFormat(buf: Buffer, entries: seq<Header>, env: Environment)
    ensures FirstReason(buf, entries, env) !in {Some(NotOoxml), Some(VbaMacro)}
  {
    if entries != [] {
      NeverFormat(buf, entries[1..], env);
    }
  }

  /** Bounds refuse as bombs, markers by their kind, broken parts as bombs or corrupt. */
  lemma RefusedPart(buf: Buffer, h: Header, env: Environment)
    requires IsScannedPart(env.utf8(h.name))
    ensures match ReadEntryBytes(buf, h, env)
            case Missing => PartReason(buf, h, env) == None
            case Overflow => PartReason(buf, h, env) == Some(ZipBomb)
            case Broken => PartReason(buf, h, env) == Some(Corrupt)
            case Bytes(bytes) =>
              var text := env.upperText(bytes);
              && (PartReason(buf, h, env) == Some(Xxe) <==> HasXxe(text))
              && (PartReason(buf, h, env) == Some(Dde) <==> HasDde(text) && !HasXxe(text))
  {
  }

  lemma NoUnsafePart(buf: Buffer, entries: seq<Header>, env: Environment)
    ensures FirstReason(buf, entries, env).None?
            <==> forall i :: 0 <= i < |entries| ==> PartIsSafe(buf, entries[i], env)
  {
    NoReasonInAny(buf, entries, env);
    forall i | 0 <= i < |entries| ensures PartReason(buf, entries[i], env).None? <==> PartIsSafe(buf, entries[i], env) {
      SafePart(buf, entries[i], env);
    }
  }

  lemma SafePart(buf: Buffer, h: Header, env: Environment)
    ensures PartReason(buf, h, env).None? <==> PartIsSafe(buf, h, env)
  {
  }
}
