/** The string operations the source leans on: numerals, split and join, trim, and the order of `sort()`. */
module Text {

  // ---------------------------------------------------------------- numerals

  predicate IsDigit(c: char) { '0' <= c <= '9' }

  predicate IsOctal(c: char) { '0' <= c <= '7' }

  predicate IsHex(c: char) { IsDigit(c) || 'a' <= c <= 'f' || 'A' <= c <= 'F' }

  predicate All(s: string, p: char -> bool) {
    forall i :: 0 <= i < |s| ==> p(s[i])
  }

  /** The value of one digit; 0 for a character that is none. */
  function DigitValue(c: char): (d: nat)
    ensures d < 16
    ensures IsDigit(c) ==> d < 10
    ensures IsOctal(c) ==> d < 8
  {
    if IsDigit(c) then (c - '0') as nat
    else if 'a' <= c <= 'f' then (c - 'a') as nat + 10
    else if 'A' <= c <= 'F' then (c - 'A') as nat + 10
    else 0
  }

  /** Hexadecimal digits may be written in either case. */
  lemma CaseOfDigits(i: nat)
    requires i < 6
    ensures IsHex("abcdef"[i]) && IsHex("ABCDEF"[i]) && DigitValue("abcdef"[i]) == DigitValue("ABCDEF"[i]) == 10 + i
  {
  }

  /** The number a digit string denotes in positional notation. */
  function Value(s: string, base: nat): nat {
    if s == "" then 0 else Value(s[..|s| - 1], base) * base + DigitValue(s[|s| - 1])
  }

  function DigitChar(d: nat): (c: char)
    requires d < 16
    ensures DigitValue(c) == d && IsHex(c)
    ensures d < 10 ==> IsDigit(c)
    ensures d < 8 ==> IsOctal(c)
    ensures c == '0' <==> d == 0
  {
    "0123456789abcdef"[d]
  }

  /** The shortest numeral of `n`, as `toString` prints it. */
  function Numeral(n: nat, base: nat): (s: string)
    requires 2 <= base <= 16
    ensures s != "" && All(s, IsHex) && (base <= 10 ==> All(s, IsDigit)) && (base <= 8 ==> All(s, IsOctal))
    ensures n > 0 ==> s[0] != '0'
  {
    if n < base then [DigitChar(n)]
    else
      DivShrinks(n, base);
      Numeral(n / base, base) + [DigitChar(n % base)]
  }

  lemma {:induction false} MulAtLeast(k: nat, m: nat)
    requires k >= 1
    ensures k * m >= m
  {
    if k > 1 {
      MulAtLeast(k - 1, m);
      assert k * m == (k - 1) * m + m;
    }
  }

  /** Quotient and remainder are what they look like. */
  lemma Quotient(v: nat, q: nat, r: nat, m: nat)
    requires v == q * m + r && r < m
    ensures v / m == q && v % m == r
  {
    var p := v / m;
    DivMod(v, m);
    assert p < q ==> q * m - p * m == (q - p) * m;
    assert q < p ==> p * m - q * m == (p - q) * m;
    if p < q {
      MulAtLeast(q - p, m);
    } else if q < p {
      MulAtLeast(p - q, m);
    }
  }

  lemma DivShrinks(n: nat, base: nat)
    requires 2 <= base <= n
    ensures 0 < n / base < n
  {
    var q := n / base;
    DivMod(n, base);
    assert q == 0 ==> q * base == 0;
    MulAtLeast(base - 1, q);
    assert q * base == q + (base - 1) * q;
  }

  function Decimal(n: nat): (s: string)
    ensures s != "" && All(s, IsDigit) && (n > 0 ==> s[0] != '0')
  {
    Numeral(n, 10)
  }

  lemma DivMod(n: nat, base: nat)
    requires base >= 1
    ensures n / base * base + n % base == n && n % base < base
  {
  }

  lemma {:induction false} NumeralValue(n: nat, base: nat)
    requires 2 <= base <= 16
    ensures Value(Numeral(n, base), base) == n
  {
    if n < base {
      assert Numeral(n, base)[..0] == "";
      assert Value(Numeral(n, base), base) == Value("", base) * base + n;
    } else {
      NumeralValue(n / base, base);
      DivMod(n, base);
      ValueSnoc(Numeral(n / base, base), DigitChar(n % base), base);
    }
  }

  lemma ValueSnoc(s: string, c: char, base: nat)
    ensures Value(s + [c], base) == Value(s, base) * base + DigitValue(c)
  {
    assert (s + [c])[..|s|] == s;
  }

  // ---------------------------------------------------------------- split and join

  /** `s.split(c)` for a one-character separator. */
  function Split(s: string, c: char): (parts: seq<string>)
    ensures parts != []
    ensures forall i :: 0 <= i < |parts| ==> c !in parts[i]
  {
    if s == "" then [""]
    else
      var rest := Split(s[1..], c);
      if s[0] == c then [""] + rest else [[s[0]] + rest[0]] + rest[1..]
  }

  function Join(parts: seq<string>, c: char): string
    requires parts != []
  {
    if |parts| == 1 then parts[0] else parts[0] + [c] + Join(parts[1..], c)
  }

  lemma {:induction false} SplitJoin(parts: seq<string>, c: char)
    requires parts != [] && forall i :: 0 <= i < |parts| ==> c !in parts[i]
    ensures Split(Join(parts, c), c) == parts
  {
    if |parts| == 1 {
      SplitOne(parts[0], c);
    } else {
      var rest := Join(parts[1..], c);
      SplitJoin(parts[1..], c);
      SplitFirst(parts[0], rest, c);
      assert Join(parts, c) == parts[0] + ([c] + rest);
    }
  }

  lemma {:induction false} SplitOne(s: string, c: char)
    requires c !in s
    ensures Split(s, c) == [s]
  {
    if s != "" {
      SplitOne(s[1..], c);
      assert [s[0]] + s[1..] == s;
    }
  }

  lemma {:induction false} SplitFirst(s: string, rest: string, c: char)
    requires c !in s
    ensures Split(s + ([c] + rest), c) == [s] + Split(rest, c)
  {
    if s == "" {
      assert s + ([c] + rest) == [c] + rest && ([c] + rest)[1..] == rest;
    } else {
      SplitFirst(s[1..], rest, c);
      assert (s + ([c] + rest))[1..] == s[1..] + ([c] + rest);
      assert [s[0]] + s[1..] == s;
    }
  }

  lemma {:induction false} JoinSplit(s: string, c: char)
    ensures Join(Split(s, c), c) == s
  {
    if s != "" {
      JoinSplit(s[1..], c);
      var rest := Split(s[1..], c);
      if s[0] != c && |rest| > 1 {
        assert ([[s[0]] + rest[0]] + rest[1..])[1..] == rest[1..];
      } else if s[0] == c {
        assert ([""] + rest)[1..] == rest;
      }
    }
  }

  /** `s.lastIndexOf(c)`. */
  function LastIndexOf(s: string, c: char): (i: int)
    ensures -1 <= i < |s|
    ensures i >= 0 ==> s[i] == c
    ensures forall j :: i < j < |s| ==> s[j] != c
  {
    if s == "" then -1
    else
      var n := |s| - 1;
      if s[n] == c then n
      else
        var i := LastIndexOf(s[..n], c);
        assert forall j :: 0 <= j < n ==> s[j] == s[..n][j];
        i
  }

  lemma LastIndexAfter(a: string, c: char, b: string)
    requires c !in b
    ensures LastIndexOf(a + [c] + b, c) == |a|
    ensures (a + [c] + b)[..|a|] == a && (a + [c] + b)[|a| + 1..] == b
  {
    LastIndexIs(a + [c] + b, c, |a|);
  }

  lemma LastIndexIs(s: string, c: char, k: nat)
    requires k < |s| && s[k] == c && forall j :: k < j < |s| ==> s[j] != c
    ensures LastIndexOf(s, c) == k
  {
  }

  // ---------------------------------------------------------------- trim

  /** The white space and line terminators `trim` and `\s` know. */
  predicate IsSpace(c: char) {
    || '\U{09}' <= c <= '\U{0D}' || '\U{2000}' <= c <= '\U{200A}'
    || c in [' ', '\U{A0}', '\U{1680}', '\U{2028}', '\U{2029}', '\U{202F}', '\U{205F}', '\U{3000}', '\U{FEFF}']
  }

  /** The white space and line ends of the language, one by one. */
  lemma SpacesAre(c: char)
    ensures IsSpace(c) <==>
            c in {'\t', '\n', '\U{0B}', '\U{0C}', '\r', ' ', '\U{A0}', '\U{1680}', '\U{2000}', '\U{2001}', '\U{2002}',
                  '\U{2003}', '\U{2004}', '\U{2005}', '\U{2006}', '\U{2007}', '\U{2008}', '\U{2009}', '\U{200A}',
                  '\U{2028}', '\U{2029}', '\U{202F}', '\U{205F}', '\U{3000}', '\U{FEFF}'}
  {
  }

  function TrimStart(s: string): string {
    if s != "" && IsSpace(s[0]) then TrimStart(s[1..]) else s
  }

  function TrimEnd(s: string): string {
    if s != "" && IsSpace(s[|s| - 1]) then TrimEnd(s[..|s| - 1]) else s
  }

  function Trim(s: string): string {
    TrimEnd(TrimStart(s))
  }

  /** The result of `Trim` has nothing left to trim, and such strings are exactly the ones it leaves alone. */
  predicate Trimmed(s: string) {
    s == "" || (!IsSpace(s[0]) && !IsSpace(s[|s| - 1]))
  }

  lemma {:induction false} TrimStartFacts(s: string)
    ensures TrimStart(s) == "" || !IsSpace(TrimStart(s)[0])
    ensures |TrimStart(s)| <= |s| && TrimStart(s) == s[|s| - |TrimStart(s)|..]
    ensures All(s[..|s| - |TrimStart(s)|], IsSpace)
  {
    if s != "" && IsSpace(s[0]) {
      TrimStartFacts(s[1..]);
    }
  }

  lemma {:induction false} TrimEndFacts(s: string)
    ensures TrimEnd(s) == "" || !IsSpace(TrimEnd(s)[|TrimEnd(s)| - 1])
    ensures |TrimEnd(s)| <= |s| && TrimEnd(s) == s[..|TrimEnd(s)|]
    ensures All(s[|TrimEnd(s)|..], IsSpace)
  {
    if s != "" && IsSpace(s[|s| - 1]) {
      TrimEndFacts(s[..|s| - 1]);
      assert s[|TrimEnd(s)|..] == s[..|s| - 1][|TrimEnd(s)|..] + [s[|s| - 1]];
    }
  }

  lemma TrimFacts(s: string)
    ensures Trimmed(Trim(s))
    ensures Trimmed(s) <==> Trim(s) == s
  {
    TrimStartFacts(s);
    TrimEndFacts(TrimStart(s));
  }

  /** `Trim` takes white space off both ends, and only white space. */
  lemma TrimTakesSpaces(s: string) returns (a: string, b: string)
    ensures All(a, IsSpace) && All(b, IsSpace) && s == a + Trim(s) + b
  {
    var t := TrimStart(s);
    TrimStartFacts(s);
    TrimEndFacts(t);
    a, b := s[..|s| - |t|], t[|Trim(s)|..];
    assert s == a + t && t == Trim(s) + b;
  }

  lemma {:induction false} TrimStartPadded(a: string, s: string)
    requires All(a, IsSpace) && s != "" && !IsSpace(s[0])
    ensures TrimStart(a + s) == s
  {
    if a == "" {
      assert a + s == s;
    } else {
      assert (a + s)[1..] == a[1..] + s;
      TrimStartPadded(a[1..], s);
    }
  }

  lemma {:induction false} TrimEndPadded(s: string, b: string)
    requires All(b, IsSpace) && s != "" && !IsSpace(s[|s| - 1])
    ensures TrimEnd(s + b) == s
  {
    if b == "" {
      assert s + b == s;
    } else {
      assert (s + b)[..|s + b| - 1] == s + b[..|b| - 1];
      TrimEndPadded(s, b[..|b| - 1]);
    }
  }

  /** White space around a trimmed text comes off again. */
  lemma TrimPadded(a: string, s: string, b: string)
    requires All(a, IsSpace) && All(b, IsSpace) && s != "" && Trimmed(s)
    ensures Trim(a + s + b) == s
  {
    assert a + s + b == a + (s + b);
    TrimStartPadded(a, s + b);
    TrimEndPadded(s, b);
  }

  lemma TrimBlank(s: string)
    ensures Trim(s) == "" <==> All(s, IsSpace)
  {
    TrimFacts(s);
    var a, b := TrimTakesSpaces(s);
    if Trim(s) != "" {
      assert s[|a|] == Trim(s)[0];
    }
  }

  // ---------------------------------------------------------------- the order of sort()

  /** The default order of `sort()`: by code units, a prefix first. */
  predicate Less(a: string, b: string) {
    b != "" && (a == "" || a[0] < b[0] || (a[0] == b[0] && Less(a[1..], b[1..])))
  }

  lemma {:induction false} LessTransitive(a: string, b: string, c: string)
    requires Less(a, b) && Less(b, c)
    ensures Less(a, c)
  {
    if a != "" && a[0] == b[0] && b[0] == c[0] {
      LessTransitive(a[1..], b[1..], c[1..]);
    }
  }

  lemma {:induction false} LessTotal(a: string, b: string)
    ensures a == b || Less(a, b) || Less(b, a)
    ensures !(Less(a, b) && Less(b, a)) && !Less(a, a)
  {
    if a != "" && b != "" && a[0] == b[0] {
      LessTotal(a[1..], b[1..]);
      assert a == [a[0]] + a[1..] && b == [b[0]] + b[1..];
    }
    if a != "" {
      LessTotal(a[1..], a[1..]);
    }
  }

  ghost predicate Sorted(xs: seq<string>) {
    forall i, j :: 0 <= i < j < |xs| ==> Less(xs[i], xs[j])
  }

  /** Puts `x` in its place in a sorted list without repetitions. */
  method InsertSorted(xs: seq<string>, x: string) returns (ys: seq<string>)
    requires Sorted(xs)
    ensures Sorted(ys) && forall y :: y in ys <==> y in xs || y == x
  {
    var i := 0;
    while i < |xs| && Less(xs[i], x)
      invariant 0 <= i <= |xs|
      invariant forall j :: 0 <= j < i ==> Less(xs[j], x)
    {
      i := i + 1;
    }
    if i < |xs| && xs[i] == x {
      return xs;
    }
    if i < |xs| {
      LessTotal(xs[i], x);
      forall j | i < j < |xs| ensures Less(x, xs[j]) {
        LessTransitive(x, xs[i], xs[j]);
      }
    }
    InsertedIsSorted(xs, i, x);
    ys := xs[..i] + [x] + xs[i..];
  }

  lemma InsertedIsSorted(xs: seq<string>, i: nat, x: string)
    requires Sorted(xs) && i <= |xs| && forall j :: 0 <= j < |xs| ==> if j < i then Less(xs[j], x) else Less(x, xs[j])
    ensures var ys := xs[..i] + [x] + xs[i..];
            Sorted(ys) && forall y :: y in ys <==> y in xs || y == x
  {
    var ys := xs[..i] + [x] + xs[i..];
    forall k, l | 0 <= k < l < |ys| ensures Less(ys[k], ys[l]) {
      assert ys[k] == (if k < i then xs[k] else if k == i then x else xs[k - 1]);
      assert ys[l] == (if l < i then xs[l] else if l == i then x else xs[l - 1]);
    }
    InsertedMembers(xs, i, x);
  }

  lemma InsertedMembers(xs: seq<string>, i: nat, x: string)
    requires i <= |xs|
    ensures forall y :: y in xs[..i] + [x] + xs[i..] <==> y in xs || y == x
  {
    assert xs == xs[..i] + xs[i..];
  }

  lemma HeadOnce(xs: seq<string>)
    requires xs != [] && Sorted(xs)
    ensures xs[0] !in xs[1..]
  {
    LessTotal(xs[0], xs[0]);
    assert forall j :: 0 <= j < |xs| - 1 ==> xs[1..][j] == xs[j + 1];
  }

  /** A sorted list without repetitions is determined by its elements. */
  lemma {:induction false} SortedUnique(xs: seq<string>, ys: seq<string>)
    requires Sorted(xs) && Sorted(ys) && forall y :: y in xs <==> y in ys
    ensures xs == ys
  {
    assert ys != [] ==> ys[0] in xs;
    if xs != [] {
      assert xs[0] in ys && ys[0] in xs;
      if xs[0] != ys[0] {
        LessTotal(xs[0], ys[0]);
      }
      assert xs == [xs[0]] + xs[1..] && ys == [ys[0]] + ys[1..];
      HeadOnce(xs);
      HeadOnce(ys);
      assert forall y :: y in xs[1..] <==> y in xs && y != xs[0];
      assert forall y :: y in ys[1..] <==> y in ys && y != ys[0];
      SortedUnique(xs[1..], ys[1..]);
    }
  }
}
