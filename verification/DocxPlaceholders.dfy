/** Reading the `{{key}}` placeholders out of a DOCX package (shared/src/docx-sanitize.ts:231-317). */
module DocxPlaceholders {
  import opened Wrappers
  import DocxSanitize
  import Text

  // ---------------------------------------------------------------- dropping XML tags

  function IndexOf(s: string, c: char): (i: int)
    ensures -1 <= i < |s|
    ensures i >= 0 ==> s[i] == c
    ensures forall k :: 0 <= k < |s| && (i < 0 || k < i) ==> s[k] != c
  {
    if s == "" then -1
    else if s[0] == c then 0
    else
      var i := IndexOf(s[1..], c);
      assert forall k :: 1 <= k < |s| ==> s[k] == s[1..][k - 1];
      if i < 0 then -1 else i + 1
  }

  /** `replace(/<[^>]*>/g, '')`: a tag reaches from a "<" to the next ">"; without one the rest stays. */
  function Strip(s: string): string {
    if s == "" then ""
    else if s[0] == '<' then
      var end := IndexOf(s, '>');
      if end < 0 then s else Strip(s[end + 1..])
    else [s[0]] + Strip(s[1..])
  }

  /** Every "<" has been closed: the text behind `s` is outside any tag. */
  predicate Closed(s: string) {
    s == "" ||
    if s[0] == '<' then IndexOf(s, '>') >= 0 && Closed(s[IndexOf(s, '>') + 1..]) else Closed(s[1..])
  }

  /** A complete tag. */
  predicate IsTag(t: string) {
    |t| >= 2 && t[0] == '<' && t[|t| - 1] == '>' && '>' !in t[..|t| - 1]
  }

  lemma IndexOfAppend(s: string, c: char, x: string)
    requires c in s
    ensures IndexOf(s + x, c) == IndexOf(s, c)
  {
    var i := IndexOf(s, c);
    assert (s + x)[i] == c;
    assert forall k :: 0 <= k < i ==> (s + x)[k] == s[k];
  }

  lemma {:induction false} StripAppend(a: string, x: string)
    requires Closed(a)
    ensures Strip(a + x) == Strip(a) + Strip(x)
    decreases |a|
  {
    if a == "" {
      assert a + x == x;
    } else if a[0] == '<' {
      var end := IndexOf(a, '>');
      IndexOfAppend(a, '>', x);
      assert (a + x)[end + 1..] == a[end + 1..] + x;
      StripAppend(a[end + 1..], x);
    } else {
      assert (a + x)[1..] == a[1..] + x;
      StripAppend(a[1..], x);
    }
  }

  lemma {:induction false} ClosedAppend(a: string, x: string)
    requires Closed(a) && Closed(x)
    ensures Closed(a + x)
    decreases |a|
  {
    if a == "" {
      assert a + x == x;
    } else if a[0] == '<' {
      var end := IndexOf(a, '>');
      IndexOfAppend(a, '>', x);
      assert (a + x)[end + 1..] == a[end + 1..] + x;
      ClosedAppend(a[end + 1..], x);
    } else {
      assert (a + x)[1..] == a[1..] + x;
      ClosedAppend(a[1..], x);
    }
  }

  lemma StripTag(t: string, x: string)
    requires IsTag(t)
    ensures Strip(t + x) == Strip(x) && Closed(t)
  {
    var n := |t| - 1;
    assert forall k :: 0 <= k < n ==> t[..n][k] == t[k];
    IndexOfAppend(t, '>', x);
    assert (t + x)[n + 1..] == x && t[n + 1..] == "";
  }

  /** A complete tag put anywhere outside the existing tags disappears again. */
  lemma InsertedTagDisappears(a: string, t: string, b: string)
    requires Closed(a) && IsTag(t)
    ensures Strip(a + t + b) == Strip(a + b)
  {
    TagInside(a, t, b);
    Regrouped(a, t, b);
  }

  lemma TagInside(a: string, t: string, b: string)
    requires Closed(a) && IsTag(t)
    ensures Strip(a + (t + b)) == Strip(a + b)
  {
    StripAppend(a, t + b);
    StripAppend(a, b);
    StripTag(t, b);
  }

  lemma Regrouped(a: string, t: string, b: string)
    ensures a + t + b == a + (t + b)
  {
  }

  lemma {:induction false} PlainTextStays(s: string)
    ensures '<' !in s ==> Strip(s) == s && Closed(s)
    ensures s != "" && s[0] == '<' && '>' !in s ==> Strip(s) == s
  {
    if s != "" && s[0] != '<' {
      PlainTextStays(s[1..]);
      assert s == [s[0]] + s[1..];
    }
  }

  /** Texts with a tag between each two of them. */
  function Woven(texts: seq<string>, tags: seq<string>): string
    requires |texts| == |tags| + 1
  {
    if tags == [] then texts[0] else texts[0] + tags[0] + Woven(texts[1..], tags[1..])
  }

  lemma TextBeforeTag(text: string, tag: string, more: string)
    requires '<' !in text && IsTag(tag)
    ensures Strip(text + (tag + more)) == text + Strip(more)
  {
    PlainTextStays(text);
    StripAppend(text, tag + more);
    StripTag(tag, more);
  }

  lemma TextBeforeRest(text: string, rest: string)
    requires '<' !in text && (rest == "" || (rest[0] == '<' && '>' !in rest))
    ensures Strip(text + rest) == text + rest
  {
    PlainTextStays(text);
    StripAppend(text, rest);
    PlainTextStays(rest);
  }

  lemma Regroup(a: string, b: string, c: string, d: string)
    ensures a + b + c + d == a + (b + (c + d)) && a + (b + c) == a + b + c
  {
  }

  /** What is left is exactly the text outside the tags, a last unclosed "<" included. */
  lemma {:induction false} StripLeavesTheTexts(texts: seq<string>, tags: seq<string>, rest: string)
    requires |texts| == |tags| + 1
    requires (forall i :: 0 <= i < |texts| ==> '<' !in texts[i]) && forall i :: 0 <= i < |tags| ==> IsTag(tags[i])
    requires rest == "" || (rest[0] == '<' && '>' !in rest)
    ensures Strip(Woven(texts, tags) + rest) == Concat(texts) + rest
  {
    if tags == [] {
      TextBeforeRest(texts[0], rest);
      assert Concat(texts[1..]) == "" && texts[0] + "" == texts[0];
    } else {
      var text, tag, more, left := texts[0], tags[0], Woven(texts[1..], tags[1..]), Concat(texts[1..]);
      StripLeavesTheTexts(texts[1..], tags[1..], rest);
      TextBeforeTag(text, tag, more + rest);
      Regroup(text, tag, more, rest);
      Regroup(text, left, rest, "");
    }
  }

  // ---------------------------------------------------------------- placeholders in text

  predicate IsKeyChar(c: char) {
    'A' <= c <= 'Z' || 'a' <= c <= 'z' || '0' <= c <= '9' || c == '_' || c == '-'
  }

  /** A flat dotted variable key. */
  predicate IsKey(s: string) {
    var segments := Text.Split(s, '.');
    forall i :: 0 <= i < |segments| ==> segments[i] != "" && Text.All(segments[i], IsKeyChar)
  }

  predicate IsBrace(c: char) {
    c == '{' || c == '}'
  }

  predicate BraceFree(text: string, from: nat, to: nat)
    requires from <= to <= |text|
  {
    forall k :: from <= k < to ==> !IsBrace(text[k])
  }

  /** "{{" at `i`, "}}" at `j`, and at least one character, no brace, between them. */
  predicate PlaceholderAt(text: string, i: nat, j: nat) {
    && i + 2 < j && j + 2 <= |text| && text[i] == text[i + 1] == '{' && text[j] == text[j + 1] == '}'
    && BraceFree(text, i + 2, j)
  }

  ghost predicate Declares(text: string, key: string) {
    IsKey(key) && exists i: nat, j: nat :: PlaceholderAt(text, i, j) && Text.Trim(text[i + 2..j]) == key
  }

  /** The first brace at or behind `i`. */
  method NextBrace(text: string, i: nat) returns (j: nat)
    requires i <= |text|
    ensures i <= j <= |text| && BraceFree(text, i, j) && (j < |text| ==> IsBrace(text[j]))
  {
    j := i;
    while j < |text| && !IsBrace(text[j])
      invariant i <= j <= |text| && BraceFree(text, i, j)
    {
      j := j + 1;
    }
  }

  /** One attempt of the pattern at `i`; a match can only end at the first brace behind the opening ones. */
  method MatchAt(text: string, i: nat) returns (end: Option<nat>)
    requires i <= |text|
    ensures end.Some? ==> PlaceholderAt(text, i, end.value)
    ensures forall j: nat :: PlaceholderAt(text, i, j) ==> end == Some(j)
  {
    if i + 2 > |text| || text[i] != '{' || text[i + 1] != '{' {
      return None;
    }
    var j := NextBrace(text, i + 2);
    if i + 2 < j && j + 2 <= |text| && text[j] == text[j + 1] == '}' {
      return Some(j);
    }
    return None;
  }

  /** A match starting inside another one would need a brace where there is none. */
  lemma NoOverlap(text: string, i: nat, j: nat, k: nat, l: nat)
    requires PlaceholderAt(text, i, j) && PlaceholderAt(text, k, l) && i < k
    ensures j + 2 <= k
  {
    assert IsBrace(text[k]) && IsBrace(text[k + 1]);
  }

  ghost predicate DeclaredBefore(text: string, key: string, p: nat) {
    IsKey(key) && exists i: nat, j: nat :: i < p && PlaceholderAt(text, i, j) && Text.Trim(text[i + 2..j]) == key
  }

  lemma NothingAt(text: string, p: nat, key: string)
    requires forall j: nat :: !PlaceholderAt(text, p, j)
    ensures DeclaredBefore(text, key, p + 1) <==> DeclaredBefore(text, key, p)
  {
  }

  /** A match and all it spans add exactly its own key. */
  lemma ConsumedMatch(text: string, p: nat, end: nat, key: string)
    requires PlaceholderAt(text, p, end) && forall j: nat :: PlaceholderAt(text, p, j) ==> j == end
    ensures DeclaredBefore(text, key, end + 2) <==>
            DeclaredBefore(text, key, p) || (IsKey(key) && Text.Trim(text[p + 2..end]) == key)
  {
    forall k: nat, l: nat | PlaceholderAt(text, k, l) && p < k ensures end + 2 <= k {
      NoOverlap(text, p, end, k, l);
    }
  }

  /** The scan over the text: each match is consumed, and the next attempt starts behind it. */
  method ScanKeys(text: string) returns (keys: seq<string>)
    ensures Text.Sorted(keys) && forall k :: k in keys <==> Declares(text, k)
  {
    keys := [];
    var p := 0;
    while p < |text|
      invariant 0 <= p
      invariant Text.Sorted(keys) && forall k :: k in keys <==> DeclaredBefore(text, k, p)
    {
      var end := MatchAt(text, p);
      if end.None? {
        forall k ensures DeclaredBefore(text, k, p + 1) <==> DeclaredBefore(text, k, p) {
          NothingAt(text, p, k);
        }
        p := p + 1;
      } else {
        var raw := Text.Trim(text[p + 2..end.value]);
        forall k ensures DeclaredBefore(text, k, end.value + 2)
            <==> DeclaredBefore(text, k, p) || (IsKey(k) && raw == k) {
          ConsumedMatch(text, p, end.value, k);
        }
        if IsKey(raw) {
          keys := Text.InsertSorted(keys, raw);
        }
        p := end.value + 2;
      }
    }
    forall k ensures Declares(text, k) <==> DeclaredBefore(text, k, p) {
      AllBefore(text, k, p);
    }
  }

  lemma AllBefore(text: string, key: string, p: nat)
    requires p >= |text|
    ensures Declares(text, key) <==> DeclaredBefore(text, key, p)
  {
  }

  // ---------------------------------------------------------------- what is declared, spelled out

  /** Segments of letters, digits, "_" and "-", joined by dots. */
  ghost predicate IsDotted(key: string) {
    exists segments: seq<string> ::
      segments != [] && key == Text.Join(segments, '.') && forall i :: 0 <= i < |segments| ==> IsSegment(segments[i])
  }

  predicate IsSegment(segment: string) {
    segment != "" && forall k :: 0 <= k < |segment| ==>
      var c := segment[k]; 'A' <= c <= 'Z' || 'a' <= c <= 'z' || '0' <= c <= '9' || c == '_' || c == '-'
  }

  lemma SegmentsAreKeys(segment: string)
    ensures IsSegment(segment) <==> segment != "" && Text.All(segment, IsKeyChar)
  {
  }

  lemma KeysAreDotted(key: string)
    ensures IsKey(key) <==> IsDotted(key)
  {
    if IsKey(key) {
      var segments := Text.Split(key, '.');
      Text.JoinSplit(key, '.');
      forall i | 0 <= i < |segments| ensures IsSegment(segments[i]) {
        SegmentsAreKeys(segments[i]);
      }
    }
    if IsDotted(key) {
      var segments: seq<string> :| segments != [] && key == Text.Join(segments, '.') &&
                                   forall i :: 0 <= i < |segments| ==> IsSegment(segments[i]);
      forall i | 0 <= i < |segments| ensures Text.All(segments[i], IsKeyChar) && '.' !in segments[i] {
        SegmentsAreKeys(segments[i]);
      }
      Text.SplitJoin(segments, '.');
      forall i | 0 <= i < |segments| ensures segments[i] != "" {
        SegmentsAreKeys(segments[i]);
      }
    }
  }

  lemma {:induction false} JoinedChars(segments: seq<string>)
    requires segments != [] && forall i :: 0 <= i < |segments| ==> segments[i] != "" && Text.All(segments[i], IsKeyChar)
    ensures var key := Text.Join(segments, '.');
            && key != "" && Text.All(key, c => IsKeyChar(c) || c == '.')
            && IsKeyChar(key[0]) && IsKeyChar(key[|key| - 1])
  {
    if |segments| > 1 {
      JoinedChars(segments[1..]);
    }
  }

  /** A key has no brace in it, and no white space around it. */
  lemma KeyChars(key: string)
    requires IsKey(key)
    ensures key != "" && Text.Trimmed(key) && BraceFree(key, 0, |key|)
  {
    Text.JoinSplit(key, '.');
    JoinedChars(Text.Split(key, '.'));
  }

  /** "{{", white space, the key, white space, "}}". */
  ghost predicate Occurs(text: string, key: string) {
    exists before: string, a: string, b: string, after: string ::
      Text.All(a, Text.IsSpace) && Text.All(b, Text.IsSpace) && text == before + "{{" + a + key + b + "}}" + after
  }

  lemma OccurrenceIsDeclared(text: string, key: string, before: string, a: string, b: string, after: string)
    requires IsKey(key) && Text.All(a, Text.IsSpace) && Text.All(b, Text.IsSpace)
    requires text == before + "{{" + a + key + b + "}}" + after
    ensures Declares(text, key)
  {
    var i, inner := |before|, a + key + b;
    var j := i + 2 + |inner|;
    KeyChars(key);
    Text.TrimPadded(a, key, b);
    assert text == before + "{{" + inner + "}}" + after;
    assert text[i + 2..j] == inner;
    forall k | i + 2 <= k < j ensures !IsBrace(text[k]) {
      assert text[k] == inner[k - i - 2];
    }
    assert PlaceholderAt(text, i, j);
  }

  lemma DeclaredOccurs(text: string, key: string)
    requires Declares(text, key)
    ensures Occurs(text, key)
  {
    var i: nat, j: nat :| PlaceholderAt(text, i, j) && Text.Trim(text[i + 2..j]) == key;
    var a, b := Text.TrimTakesSpaces(text[i + 2..j]);
    AroundTheBraces(text, i, j);
    BetweenTheBraces(text[..i], a, key, b, text[j + 2..]);
  }

  lemma AroundTheBraces(text: string, i: nat, j: nat)
    requires PlaceholderAt(text, i, j)
    ensures text == text[..i] + "{{" + text[i + 2..j] + "}}" + text[j + 2..]
  {
  }

  lemma BetweenTheBraces(before: string, a: string, key: string, b: string, after: string)
    ensures before + "{{" + (a + key + b) + "}}" + after == before + "{{" + a + key + b + "}}" + after
  {
  }

  /** Extracted are exactly the dotted keys that stand between double braces, with white space around or not. */
  lemma ScannedExactlyWhenOccurring(text: string, keys: seq<string>, key: string)
    requires forall k :: k in keys <==> Declares(text, k)
    ensures key in keys <==> IsDotted(key) && Occurs(text, key)
  {
    KeysAreDotted(key);
    if IsDotted(key) && Occurs(text, key) {
      var before, a, b, after :|
        Text.All(a, Text.IsSpace) && Text.All(b, Text.IsSpace) && text == before + "{{" + a + key + b + "}}" + after;
      OccurrenceIsDeclared(text, key, before, a, b, after);
    }
    if key in keys {
      DeclaredOccurs(text, key);
    }
  }

  // ---------------------------------------------------------------- the package

  predicate AllDigits(s: string) {
    Text.All(s, Text.IsDigit)
  }

  /** The body and all headers and footers, in any case. */
  predicate IsPlaceholderPart(name: string) {
    var n := DocxSanitize.AsciiLower(name);
    && |n| >= 9 && n[..5] == "word/" && n[|n| - 4..] == ".xml"
    && var stem := n[5..|n| - 4];
    || stem == "document"
    || (|stem| >= 6 && (stem[..6] == "header" || stem[..6] == "footer") && AllDigits(stem[6..]))
  }

  /** The texts of the readable parts, in directory order. */
  function PartTexts(buf: DocxSanitize.Buffer, entries: seq<DocxSanitize.Header>,
                     env: DocxSanitize.Environment): seq<string> {
    if entries == [] then []
    else
      var rest := PartTexts(buf, entries[1..], env);
      var content := DocxSanitize.ReadEntryBytes(buf, entries[0], env);
      if IsPlaceholderPart(env.utf8(entries[0].name)) && content.Bytes? then [env.utf8(content.bytes)] + rest else rest
  }

  lemma StemOf(n: string, stem: string)
    requires n == "word/" + stem + ".xml"
    ensures |n| >= 9 && n[..5] == "word/" && n[|n| - 4..] == ".xml" && n[5..|n| - 4] == stem
  {
  }

  /** "word/", "header" or "footer", a number and ".xml". */
  ghost predicate IsNumbered(n: string, kind: string) {
    exists d: string :: AllDigits(d) && n == "word/" + (kind + d) + ".xml"
  }

  lemma NumberedStem(n: string, kind: string)
    requires |kind| == 6 && |n| >= 9 && n[..5] == "word/" && n[|n| - 4..] == ".xml"
    ensures var stem := n[5..|n| - 4];
            IsNumbered(n, kind) <==> |stem| >= 6 && stem[..6] == kind && AllDigits(stem[6..])
  {
    var stem := n[5..|n| - 4];
    if |stem| >= 6 && stem[..6] == kind && AllDigits(stem[6..]) {
      assert stem == kind + stem[6..] && n == "word/" + stem + ".xml";
    }
    if d: string :| AllDigits(d) && n == "word/" + (kind + d) + ".xml" {
      StemOf(n, kind + d);
      assert (kind + d)[..6] == kind && (kind + d)[6..] == d;
    }
  }

  /** Which parts are read: the document, and headers and footers with any number. */
  lemma PlaceholderPartsAre(name: string)
    ensures var n := DocxSanitize.AsciiLower(name);
            IsPlaceholderPart(name) <==> n == "word/document.xml" || IsNumbered(n, "header") || IsNumbered(n, "footer")
  {
    var n := DocxSanitize.AsciiLower(name);
    StemOf("word/document.xml", "document");
    if |n| >= 9 && n[..5] == "word/" && n[|n| - 4..] == ".xml" {
      NumberedStem(n, "header");
      NumberedStem(n, "footer");
      assert n == "word/" + n[5..|n| - 4] + ".xml";
    } else {
      NumberedShape(n, "header");
      NumberedShape(n, "footer");
    }
  }

  lemma NumberedShape(n: string, kind: string)
    ensures IsNumbered(n, kind) ==> |n| >= 9 && n[..5] == "word/" && n[|n| - 4..] == ".xml"
  {
    if d: string :| AllDigits(d) && n == "word/" + (kind + d) + ".xml" {
      StemOf(n, kind + d);
    }
  }

  /** Entry by entry: the text of a readable part, nothing for any other. */
  lemma {:induction false} PartTextsOfMore(buf: DocxSanitize.Buffer, first: seq<DocxSanitize.Header>,
                                           second: seq<DocxSanitize.Header>, env: DocxSanitize.Environment)
    ensures PartTexts(buf, first + second, env) == PartTexts(buf, first, env) + PartTexts(buf, second, env)
  {
    if first == [] {
      assert first + second == second;
    } else {
      assert (first + second)[1..] == first[1..] + second;
      PartTextsOfMore(buf, first[1..], second, env);
    }
  }

  lemma PartTextsOfOne(buf: DocxSanitize.Buffer, h: DocxSanitize.Header, env: DocxSanitize.Environment)
    ensures PartTexts(buf, [h], env) ==
            match DocxSanitize.ReadEntryBytes(buf, h, env)
            case Bytes(bytes) => if IsPlaceholderPart(env.utf8(h.name)) then [env.utf8(bytes)] else []
            case _ => []
  {
    assert [h][1..] == [];
  }

  /** Parts are appended until the text exceeds the cap. */
  function Collected(xml: string, parts: seq<string>): string
    decreases |parts|
  {
    if parts == [] then xml
    else if |xml + parts[0]| > DocxSanitize.MAX_EXTRACT_BYTES then xml + parts[0]
    else Collected(xml + parts[0], parts[1..])
  }

  function Concat(parts: seq<string>): string {
    if parts == [] then "" else parts[0] + Concat(parts[1..])
  }

  lemma {:induction false} CollectsAllUnderCap(xml: string, parts: seq<string>)
    requires |xml| + |Concat(parts)| <= DocxSanitize.MAX_EXTRACT_BYTES
    ensures Collected(xml, parts) == xml + Concat(parts)
    decreases |parts|
  {
    if parts != [] {
      CollectsAllUnderCap(xml + parts[0], parts[1..]);
      assert xml + (parts[0] + Concat(parts[1..])) == xml + parts[0] + Concat(parts[1..]);
    } else {
      assert xml + Concat(parts) == xml;
    }
  }

  lemma ConcatSnoc(parts: seq<string>, n: nat)
    requires n < |parts|
    ensures Concat(parts[..n + 1]) == Concat(parts[..n]) + parts[n]
  {
    if n == 0 {
      assert parts[..1] == [parts[0]] && Concat([parts[0]][1..]) == "" && parts[..0] == [];
    } else {
      ConcatSnoc(parts[1..], n - 1);
      assert parts[..n + 1][1..] == parts[1..][..n] && parts[..n][1..] == parts[1..][..n - 1];
    }
  }

  /** The first `n` parts: all of them, or the last of them is the first to take the text over the cap. */
  ghost predicate StopsBehind(xml: string, parts: seq<string>, n: nat) {
    && n <= |parts| && (n < |parts| ==> n > 0 && |xml + Concat(parts[..n])| > DocxSanitize.MAX_EXTRACT_BYTES)
    && forall m :: 0 < m < n ==> |xml + Concat(parts[..m])| <= DocxSanitize.MAX_EXTRACT_BYTES
  }

  lemma {:induction false} CollectsUpToTheCap(xml: string, parts: seq<string>, n: nat)
    requires StopsBehind(xml, parts, n)
    ensures Collected(xml, parts) == xml + Concat(parts[..n])
    decreases |parts|
  {
    if parts == [] {
      assert xml + Concat(parts[..n]) == xml;
    } else {
      ConcatSnoc(parts, 0);
      assert Concat(parts[..1]) == parts[0];
      if n == 1 {
        OneIsEnough(xml, parts);
      } else {
        forall m | 0 <= m < n ensures xml + parts[0] + Concat(parts[1..][..m]) == xml + Concat(parts[..m + 1]) {
          assert parts[..m + 1][1..] == parts[1..][..m];
        }
        CollectsUpToTheCap(xml + parts[0], parts[1..], n - 1);
      }
    }
  }

  lemma OneIsEnough(xml: string, parts: seq<string>)
    requires parts != [] && (|parts| > 1 ==> |xml + parts[0]| > DocxSanitize.MAX_EXTRACT_BYTES)
    ensures Collected(xml, parts) == xml + parts[0]
  {
    assert Collected(xml + parts[0], []) == xml + parts[0];
  }

  method ReadZipParts(buf: DocxSanitize.Buffer, env: DocxSanitize.Environment) returns (parts: seq<string>)
    ensures parts == PartTexts(buf, DocxSanitize.Entries(buf), env)
  {
    var entries := DocxSanitize.IterCentralDirectory(buf);
    parts := [];
    for i := 0 to |entries|
      invariant parts == PartTexts(buf, entries[..i], env)
    {
      assert entries[..i + 1] == entries[..i] + [entries[i]];
      PartTextsOfMore(buf, entries[..i], [entries[i]], env);
      PartTextsOfOne(buf, entries[i], env);
      if IsPlaceholderPart(env.utf8(entries[i].name)) {
        var content := DocxSanitize.ReadEntryBytes(buf, entries[i], env);
        if content.Bytes? {
          parts := parts + [env.utf8(content.bytes)];
        }
      }
    }
    assert entries[..|entries|] == entries;
  }

  /** The keys are those the stripped text declares, sorted and once each. */
  ghost predicate Extracts(keys: seq<string>, xml: string) {
    Text.Sorted(keys) && forall k :: k in keys <==> Declares(Strip(xml), k)
  }

  method ExtractDocxPlaceholders(buf: DocxSanitize.Buffer, env: DocxSanitize.Environment) returns (keys: seq<string>)
    ensures Extracts(keys, Collected("", PartTexts(buf, DocxSanitize.Entries(buf), env)))
  {
    var parts := ReadZipParts(buf, env);
    var xml := "";
    var i := 0;
    while i < |parts|
      invariant 0 <= i <= |parts|
      invariant Collected("", parts) == Collected(xml, parts[i..])
    {
      assert parts[i..][1..] == parts[i + 1..];
      xml := xml + parts[i];
      if |xml| > DocxSanitize.MAX_EXTRACT_BYTES {
        break;
      }
      i := i + 1;
    }
    keys := ScanKeys(Strip(xml));
  }

  // ---------------------------------------------------------------- inserted tags do not matter

  /** Edits are applied one after the other. */
  datatype Edit = Insert(at: nat, tag: string)

  /** Each tag goes to a place outside the tags already there. */
  predicate OutsideTags(xml: string, edits: seq<Edit>)
    decreases |edits|
  {
    edits == [] ||
    (edits[0].at <= |xml| && IsTag(edits[0].tag) && Closed(xml[..edits[0].at])
        && OutsideTags(Edited(xml, edits[0]), edits[1..]))
  }

  function Edited(xml: string, e: Edit): string {
    if e.at <= |xml| then xml[..e.at] + e.tag + xml[e.at..] else xml
  }

  function AllEdited(xml: string, edits: seq<Edit>): string
    decreases |edits|
  {
    if edits == [] then xml else AllEdited(Edited(xml, edits[0]), edits[1..])
  }

  lemma {:induction false} EditsDisappear(xml: string, edits: seq<Edit>)
    requires OutsideTags(xml, edits)
    ensures Strip(AllEdited(xml, edits)) == Strip(xml)
    decreases |edits|
  {
    if edits != [] {
      var e := edits[0];
      InsertedTagDisappears(xml[..e.at], e.tag, xml[e.at..]);
      assert xml[..e.at] + xml[e.at..] == xml;
      EditsDisappear(Edited(xml, e), edits[1..]);
    }
  }

  /**
   * Tags inserted anywhere outside existing ones, even inside a placeholder, leave the extracted keys alone, as
   * long as both packages stay under the cap.
   */
  lemma TagsDoNotMatter(parts: seq<string>, tagged: seq<string>, edits: seq<Edit>, keys: seq<string>,
                        taggedKeys: seq<string>)
    requires |Concat(parts)| <= DocxSanitize.MAX_EXTRACT_BYTES && |Concat(tagged)| <= DocxSanitize.MAX_EXTRACT_BYTES
    requires OutsideTags(Concat(parts), edits) && Concat(tagged) == AllEdited(Concat(parts), edits)
    requires Extracts(keys, Collected("", parts)) && Extracts(taggedKeys, Collected("", tagged))
    ensures keys == taggedKeys
  {
    assert "" + Concat(parts) == Concat(parts) && "" + Concat(tagged) == Concat(tagged);
    CollectsAllUnderCap("", parts);
    CollectsAllUnderCap("", tagged);
    EditsDisappear(Concat(parts), edits);
    SameText(Collected("", parts), Collected("", tagged), keys, taggedKeys);
  }

  lemma SameText(xml: string, tagged: string, keys: seq<string>, taggedKeys: seq<string>)
    requires Strip(xml) == Strip(tagged) && Extracts(keys, xml) && Extracts(taggedKeys, tagged)
    ensures keys == taggedKeys
  {
    Text.SortedUnique(keys, taggedKeys);
  }
}
