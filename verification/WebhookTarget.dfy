/**
 * Canonicalising and classifying webhook hosts (shared/src/webhook-target.ts): inet_aton numerals and
 * IPv6 text (section 2.2 of RFC 4291).
 */
module WebhookTarget {
  import opened Wrappers
  import Text

  // ---------------------------------------------------------------- IPv4 values

  const TWO32 := 0x1_0000_0000

  /** Byte `i` of a 32-bit value, the most significant one first. */
  function Byte(v: nat, i: nat): nat
    requires i < 4
  {
    if i == 0 then v / 0x100_0000 % 256
    else if i == 1 then v / 0x1_0000 % 256
    else if i == 2 then v / 0x100 % 256
    else v % 256
  }

  lemma BytesDetermine(v: nat, a: nat, b: nat, c: nat, d: nat)
    requires a < 256 && b < 256 && c < 256 && d < 256
    requires v == a * 0x100_0000 + b * 0x1_0000 + c * 0x100 + d
    ensures v < TWO32 && Byte(v, 0) == a && Byte(v, 1) == b && Byte(v, 2) == c && Byte(v, 3) == d
  {
    Text.Quotient(v, a, b * 0x1_0000 + c * 0x100 + d, 0x100_0000);
    Text.Quotient(v, a * 0x100 + b, c * 0x100 + d, 0x1_0000);
    Text.Quotient(v, a * 0x1_0000 + b * 0x100 + c, d, 0x100);
    Text.Quotient(a, 0, a, 256);
    Text.Quotient(a * 0x100 + b, a, b, 256);
    Text.Quotient(a * 0x1_0000 + b * 0x100 + c, a * 0x100 + b, c, 256);
  }

  lemma BytesOf(v: nat)
    requires v < TWO32
    ensures v == Byte(v, 0) * 0x100_0000 + Byte(v, 1) * 0x1_0000 + Byte(v, 2) * 0x100 + Byte(v, 3)
  {
    var p, d := v / 256, v % 256;
    var q, c := p / 256, p % 256;
    var a, b := q / 256, q % 256;
    BytesDetermine(v, a, b, c, d);
  }

  function Bytes(v: nat): seq<nat> {
    [Byte(v, 0), Byte(v, 1), Byte(v, 2), Byte(v, 3)]
  }

  function QuadParts(v: nat): seq<string> {
    [Text.Decimal(Byte(v, 0)), Text.Decimal(Byte(v, 1)), Text.Decimal(Byte(v, 2)), Text.Decimal(Byte(v, 3))]
  }

  /** The canonical dotted quad. */
  function QuadText(v: nat): string {
    Text.Join(QuadParts(v), '.')
  }

  lemma QuadSplit(v: nat)
    ensures Text.Split(QuadText(v), '.') == QuadParts(v)
  {
    assert forall i :: 0 <= i < 4 ==> '.' !in QuadParts(v)[i];
    Text.SplitJoin(QuadParts(v), '.');
  }

  lemma QuadTextInjective(v: nat, w: nat)
    requires v < TWO32 && w < TWO32
    ensures QuadText(v) == QuadText(w) <==> v == w
  {
    if QuadText(v) == QuadText(w) {
      QuadSplit(v);
      QuadSplit(w);
      forall i | 0 <= i < 4 ensures Byte(v, i) == Byte(w, i) {
        assert QuadParts(v)[i] == QuadParts(w)[i];
        Text.NumeralValue(Byte(v, i), 10);
        Text.NumeralValue(Byte(w, i), 10);
      }
      BytesOf(v);
      BytesOf(w);
    }
  }

  // ---------------------------------------------------------------- the deny-list for IPv4

  datatype Reason = PrivateIp | Loopback | LinkLocal | Metadata | InternalHost | Malformed

  predicate ShortNumber(s: string) {
    1 <= |s| <= 3 && Text.All(s, Text.IsDigit)
  }

  /** The decision on four numbers, with the metadata address recognised by its text. */
  function Verdict(a: nat, b: nat, c: nat, d: nat, isMetadata: bool): Option<Reason> {
    if a > 255 || c > 255 || d > 255 || b > 255 then Some(Malformed)
    else if a == 127 then Some(Loopback)
    else if a == 10 then Some(PrivateIp)
    else if a == 172 && 16 <= b <= 31 then Some(PrivateIp)
    else if a == 192 && b == 168 then Some(PrivateIp)
    else if a == 169 && b == 254 then Some(if isMetadata then Metadata else LinkLocal)
    else if a == 0 then Some(PrivateIp)
    else None
  }

  /** On text; anything but four groups of one to three digits is not this function's business. */
  function IsPrivateIpv4(host: string): Option<Reason> {
    var m := Text.Split(host, '.');
    if |m| != 4 || !(forall i :: 0 <= i < 4 ==> ShortNumber(m[i])) then None
    else Verdict(Text.Value(m[0], 10), Text.Value(m[1], 10), Text.Value(m[2], 10), Text.Value(m[3], 10),
                 host == "169.254.169.254")
  }

  /** The text check looks at four groups of one to three digits only, and none of them may exceed a byte. */
  lemma OnlyQuadTexts(host: string)
    ensures var m := Text.Split(host, '.');
            var plain := |m| == 4 && forall i :: 0 <= i < |m| ==> 1 <= |m[i]| <= 3 && Text.All(m[i], Text.IsDigit);
            && (!plain ==> IsPrivateIpv4(host) == None)
            && (plain ==>
                  ((exists i :: 0 <= i < |m| && Text.Value(m[i], 10) > 255) <==>
                   IsPrivateIpv4(host) == Some(Malformed)))
  {
  }

  /** The deny-list by address blocks: the meaning of the check, on numbers instead of text. */
  function Denied(v: nat): Option<Reason> {
    if 0x7F00_0000 <= v < 0x8000_0000 then Some(Loopback)          // 127.0.0.0/8
    else if 0x0A00_0000 <= v < 0x0B00_0000 then Some(PrivateIp)    // 10.0.0.0/8
    else if 0xAC10_0000 <= v < 0xAC20_0000 then Some(PrivateIp)    // 172.16.0.0/12
    else if 0xC0A8_0000 <= v < 0xC0A9_0000 then Some(PrivateIp)    // 192.168.0.0/16
    else if v == 0xA9FE_A9FE then Some(Metadata)                   // 169.254.169.254
    else if 0xA9FE_0000 <= v < 0xA9FF_0000 then Some(LinkLocal)    // 169.254.0.0/16
    else if v < 0x0100_0000 then Some(PrivateIp)                   // 0.0.0.0/8
    else None
  }

  lemma ByteNumeral(n: nat)
    requires n < 256
    ensures ShortNumber(Text.Decimal(n)) && Text.Value(Text.Decimal(n), 10) == n
  {
    Text.NumeralValue(n, 10);
    assert n >= 10 ==> |Text.Numeral(n, 10)| == |Text.Numeral(n / 10, 10)| + 1;
    assert n / 10 >= 10 ==> |Text.Numeral(n / 10, 10)| == |Text.Numeral(n / 10 / 10, 10)| + 1;
    assert n / 10 / 10 < 10;
  }

  lemma VerdictOnText(host: string, m: seq<string>, n: seq<nat>)
    requires Text.Split(host, '.') == m && |m| == |n| == 4
    requires forall i :: 0 <= i < 4 ==> ShortNumber(m[i]) && Text.Value(m[i], 10) == n[i]
    ensures IsPrivateIpv4(host) == Verdict(n[0], n[1], n[2], n[3], host == "169.254.169.254")
  {
  }

  lemma VerdictOnBlocks(v: nat, a: nat, b: nat, c: nat, d: nat)
    requires a < 256 && b < 256 && c < 256 && d < 256
    requires v == a * 0x100_0000 + b * 0x1_0000 + c * 0x100 + d
    ensures Verdict(a, b, c, d, v == 0xA9FE_A9FE) == Denied(v)
  {
  }

  lemma QuadPartsRead(v: nat)
    ensures forall i :: 0 <= i < 4 ==>
              ShortNumber(QuadParts(v)[i]) && Text.Value(QuadParts(v)[i], 10) == Bytes(v)[i] && Bytes(v)[i] < 256
  {
    forall i | 0 <= i < 4
      ensures ShortNumber(QuadParts(v)[i]) && Text.Value(QuadParts(v)[i], 10) == Bytes(v)[i] && Bytes(v)[i] < 256
    {
      ByteNumeral(Byte(v, i));
    }
  }

  /** Reading the canonical text denies exactly the addresses of the listed blocks. */
  lemma PrivateMeansDenied(v: nat)
    requires v < TWO32
    ensures IsPrivateIpv4(QuadText(v)) == Denied(v)
  {
    QuadSplit(v);
    QuadPartsRead(v);
    VerdictOnText(QuadText(v), QuadParts(v), Bytes(v));
    MetadataText();
    QuadTextInjective(v, 0xA9FE_A9FE);
    BytesOf(v);
    VerdictOnBlocks(v, Byte(v, 0), Byte(v, 1), Byte(v, 2), Byte(v, 3));
  }

  lemma OneMoreDigit(n: nat, d: nat)
    requires n >= 1 && d < 10
    ensures Text.Decimal(n * 10 + d) == Text.Decimal(n) + [Text.DigitChar(d)]
  {
    Text.Quotient(n * 10 + d, n, d, 10);
  }

  lemma MetadataText()
    ensures QuadText(0xA9FE_A9FE) == "169.254.169.254"
  {
    var v, p := 0xA9FE_A9FE, ["169", "254", "169", "254"];
    BytesDetermine(v, 169, 254, 169, 254);
    OneMoreDigit(1, 6);
    OneMoreDigit(16, 9);
    OneMoreDigit(2, 5);
    OneMoreDigit(25, 4);
    assert Text.Decimal(1) == "1" && Text.Decimal(2) == "2";
    assert Text.Decimal(169) == "169" && Text.Decimal(254) == "254";
    assert QuadParts(v) == p;
    JoinOfFour("169", "254");
  }

  lemma JoinOfFour(x: string, y: string)
    ensures Text.Join([x, y, x, y], '.') == x + "." + y + "." + x + "." + y
  {
    assert Text.Join([y], '.') == y;
    assert [x, y][1..] == [y] && Text.Join([x, y], '.') == x + "." + y;
    assert [y, x, y][1..] == [x, y] && Text.Join([y, x, y], '.') == y + "." + (x + "." + y);
    assert [x, y, x, y][1..] == [y, x, y];
  }

  // ---------------------------------------------------------------- numerals as inet_aton reads them

  predicate IsHexPart(p: string) {
    |p| > 2 && p[0] == '0' && (p[1] == 'x' || p[1] == 'X') && Text.All(p[2..], Text.IsHex)
  }

  predicate IsOctalPart(p: string) {
    |p| > 1 && p[0] == '0' && Text.All(p, Text.IsOctal)
  }

  predicate IsDecimalPart(p: string) {
    p != "" && Text.All(p, Text.IsDigit)
  }

  predicate LooksNumeric(host: string) {
    var parts := Text.Split(host, '.');
    forall i :: 0 <= i < |parts| ==> IsHexPart(parts[i]) || IsDecimalPart(parts[i])
  }

  const MAX_SAFE := 0x1F_FFFF_FFFF_FFFF

  /** The number a part denotes; a zero-led decimal that is no octal number, or a huge one, has none. */
  function PartValue(p: string): Option<nat> {
    var n := if IsHexPart(p) then Text.Value(p[2..], 16) else if IsOctalPart(p) then Text.Value(p, 8)
        else Text.Value(p, 10);
    if !IsHexPart(p) && !IsOctalPart(p) && (!IsDecimalPart(p) || (|p| > 1 && p[0] == '0')) then None
    else if n > MAX_SAFE then None
    else Some(n)
  }

  /** What one to four numbers denote: the last one fills the bytes the others leave. */
  function Aton(nums: seq<nat>): Option<nat> {
    match |nums|
    case 1 => if nums[0] < TWO32 then Some(nums[0]) else None
    case 2 => if nums[0] < 256 && nums[1] < 0x100_0000 then Some(nums[0] * 0x100_0000 + nums[1]) else None
    case 3 => if nums[0] < 256 && nums[1] < 256 && nums[2] < 0x1_0000
        then Some(nums[0] * 0x100_0000 + nums[1] * 0x1_0000 + nums[2]) else None
    case 4 =>
      if nums[0] < 256 && nums[1] < 256 && nums[2] < 256 && nums[3] < 256
      then Some(nums[0] * 0x100_0000 + nums[1] * 0x1_0000 + nums[2] * 0x100 + nums[3]) else None
    case _ => None
  }

  /** Reads every piece, or nothing when one of them cannot be read. */
  function ReadEach(pieces: seq<string>, read: string -> Option<nat>): Option<seq<nat>> {
    if forall i :: 0 <= i < |pieces| ==> read(pieces[i]).Some?
    then Some(seq(|pieces|, i requires 0 <= i < |pieces| => read(pieces[i]).GetOr(0)))
    else None
  }

  lemma ReadEachIs(pieces: seq<string>, read: string -> Option<nat>, values: seq<nat>)
    requires |values| == |pieces| && forall i :: 0 <= i < |pieces| ==> read(pieces[i]) == Some(values[i])
    ensures ReadEach(pieces, read) == Some(values)
  {
    assert ReadEach(pieces, read).value == values;
  }

  /** The address a host denotes as a numeral. */
  function Denotes(host: string): Option<nat> {
    var nums := ReadEach(Text.Split(host, '.'), PartValue);
    if nums.None? then None else Aton(nums.value)
  }

  datatype Numeral = NotNumeric | Invalid | Quad(text: string)

  function Canonical(host: string): Numeral {
    if !LooksNumeric(host) then NotNumeric
    else if Denotes(host).None? then Invalid
    else Quad(QuadText(Denotes(host).value))
  }

  function Pow256(n: nat): nat {
    if n == 0 then 1 else 256 * Pow256(n - 1)
  }

  /** The code; that its last range test never fires is part of what is proved here. */
  method ParseNumericIpv4(host: string) returns (r: Numeral)
    ensures r == Canonical(host)
  {
    if !LooksNumeric(host) {
      return NotNumeric;
    }
    var parts := Text.Split(host, '.');
    if |parts| > 4 {
      return Invalid;
    }
    var nums: seq<nat> := [];
    for i := 0 to |parts|
      invariant |nums| == i
      invariant forall j :: 0 <= j < i ==> PartValue(parts[j]) == Some(nums[j])
    {
      var n := PartValue(parts[i]);
      if n.None? {
        return Invalid;
      }
      nums := nums + [n.value];
    }
    ReadEachIs(parts, PartValue, nums);
    r := Assemble(nums);
  }

  method Assemble(nums: seq<nat>) returns (r: Numeral)
    requires 1 <= |nums| <= 4
    ensures r == if Aton(nums).None? then Invalid else Quad(QuadText(Aton(nums).value))
  {
    var last := |nums| - 1;
    assert Pow256(1) == 256 && Pow256(2) == 0x1_0000 && Pow256(3) == 0x100_0000 && Pow256(4) == TWO32;
    var maxLast := Pow256(4 - last) - 1;
    if nums[last] > maxLast {
      return Invalid;
    }
    for i := 0 to last
      invariant forall j :: 0 <= j < i ==> nums[j] <= 255
    {
      if nums[i] > 255 {
        return Invalid;
      }
    }
    var value := Weigh(nums);
    AtonOf(nums);
    if value > 0xFFFF_FFFF {
      assert false;
    }
    r := Quad(QuadText(value));
  }

  method Weigh(nums: seq<nat>) returns (value: nat)
    requires 1 <= |nums| <= 4
    ensures value == nums[|nums| - 1] + Leading(nums, |nums| - 1)
  {
    var last := |nums| - 1;
    value := nums[last];
    for i := 0 to last
      invariant value == nums[last] + Leading(nums, i)
    {
      value := value + nums[i] * Pow256(3 - i);
    }
  }

  /** The weight of the first `n` numbers. */
  function Leading(nums: seq<nat>, n: nat): nat
    requires n <= |nums| && n <= 4
  {
    if n == 0 then 0 else Leading(nums, n - 1) + nums[n - 1] * Pow256(4 - n)
  }

  /** When all parts are in range the sum fits 32 bits, and it is what the numeral denotes. */
  lemma AtonOf(nums: seq<nat>)
    requires 1 <= |nums| <= 4
    requires nums[|nums| - 1] < Pow256(5 - |nums|) && forall j :: 0 <= j < |nums| - 1 ==> nums[j] <= 255
    ensures nums[|nums| - 1] + Leading(nums, |nums| - 1) < TWO32
    ensures Aton(nums) == Some(nums[|nums| - 1] + Leading(nums, |nums| - 1))
  {
    assert Pow256(0) == 1 && Pow256(1) == 256 && Pow256(2) == 0x1_0000 && Pow256(3) == 0x100_0000 && Pow256(4) == TWO32;
    assert Leading(nums, 0) == 0;
    assert |nums| >= 2 ==> Leading(nums, 1) == nums[0] * 0x100_0000;
    assert |nums| >= 3 ==> Leading(nums, 2) == nums[0] * 0x100_0000 + nums[1] * 0x1_0000;
    assert |nums| >= 4 ==> Leading(nums, 3) == nums[0] * 0x100_0000 + nums[1] * 0x1_0000 + nums[2] * 0x100;
  }

  lemma DenotesBelow(host: string)
    ensures Denotes(host).Some? ==> Denotes(host).value < TWO32
  {
  }

  /** What parts mean: `0x` and hexadecimal digits, `0` and octal digits, decimal digits; up to the safe integers. */
  lemma PartsMean(n: nat)
    ensures var v := if n <= MAX_SAFE then Some(n) else None;
            && PartValue("0x" + Text.Numeral(n, 16)) == v && PartValue("0X" + Text.Numeral(n, 16)) == v
            && PartValue("0" + Text.Numeral(n, 8)) == v && PartValue(Text.Numeral(n, 10)) == v
  {
    HexPartMeans(n);
    OctalPartMeans(n);
    DecimalPartMeans(n);
  }

  lemma HexPartMeans(n: nat)
    ensures var v := if n <= MAX_SAFE then Some(n) else None;
            PartValue("0x" + Text.Numeral(n, 16)) == v && PartValue("0X" + Text.Numeral(n, 16)) == v
  {
    Text.NumeralValue(n, 16);
    assert ("0x" + Text.Numeral(n, 16))[2..] == Text.Numeral(n, 16);
    assert ("0X" + Text.Numeral(n, 16))[2..] == Text.Numeral(n, 16);
  }

  lemma OctalPartMeans(n: nat)
    ensures PartValue("0" + Text.Numeral(n, 8)) == if n <= MAX_SAFE then Some(n) else None
  {
    var digits := Text.Numeral(n, 8);
    Text.NumeralValue(n, 8);
    LeadingZero(digits, 8);
    assert ("0" + digits)[0] == '0' && digits[0] == ("0" + digits)[1];
  }

  lemma DecimalPartMeans(n: nat)
    ensures PartValue(Text.Numeral(n, 10)) == if n <= MAX_SAFE then Some(n) else None
  {
    Text.NumeralValue(n, 10);
  }

  lemma {:induction false} LeadingZero(digits: string, base: nat)
    requires base in {8, 10, 16} && Text.Value(digits, base) >= 0
    ensures Text.Value("0" + digits, base) == Text.Value(digits, base)
  {
    if digits == "" {
      assert "0" + digits == "0";
    } else {
      var n := |digits| - 1;
      LeadingZero(digits[..n], base);
      assert ("0" + digits)[..n + 1] == "0" + digits[..n];
    }
  }

  /** Parts that mean nothing: decimal digits behind a zero with an 8 or 9 among them, and anything that is no part. */
  lemma PartsWithoutMeaning(p: string)
    ensures IsDecimalPart(p) && |p| > 1 && p[0] == '0' && (exists i :: 0 <= i < |p| && (p[i] == '8' || p[i] == '9')) ==>
              PartValue(p).None?
    ensures !IsDecimalPart(p) && !IsHexPart(p) ==> PartValue(p).None?
  {
    if i :| 0 <= i < |p| && (p[i] == '8' || p[i] == '9') {
      assert !Text.IsOctal(p[i]);
    }
    if IsOctalPart(p) {
      assert forall i :: 0 <= i < |p| ==> Text.IsOctal(p[i]) ==> Text.IsDigit(p[i]);
    }
  }

  /** What fits: at most four numbers, bytes but for the last, which fills what they leave. */
  predicate InRange(nums: seq<nat>) {
    match |nums|
    case 1 => nums[0] < 0x1_0000_0000
    case 2 => nums[0] < 256 && nums[1] < 0x100_0000
    case 3 => nums[0] < 256 && nums[1] < 256 && nums[2] < 0x1_0000
    case 4 => nums[0] < 256 && nums[1] < 256 && nums[2] < 256 && nums[3] < 256
    case _ => false
  }

  /** Among numeric hosts, exactly those are invalid that have a part without meaning, or numbers that do not fit. */
  lemma InvalidExactlyWhen(host: string, nums: seq<nat>)
    ensures !LooksNumeric(host) <==> Canonical(host) == NotNumeric
    ensures var parts := Text.Split(host, '.');
            && (LooksNumeric(host) && (exists i :: 0 <= i < |parts| && PartValue(parts[i]).None?) ==>
                  Canonical(host) == Invalid)
            && (LooksNumeric(host) && |nums| == |parts| &&
                (forall i :: 0 <= i < |nums| ==> PartValue(parts[i]) == Some(nums[i])) ==>
                  (Canonical(host) == Invalid <==> !InRange(nums)))
  {
    var parts := Text.Split(host, '.');
    if |nums| == |parts| && forall i :: 0 <= i < |nums| ==> PartValue(parts[i]) == Some(nums[i]) {
      ReadEachIs(parts, PartValue, nums);
    }
  }

  /** A canonical quad denotes its own value, so canonicalising again is the identity. */
  lemma QuadDenotesItself(v: nat)
    requires v < TWO32
    ensures LooksNumeric(QuadText(v)) && Denotes(QuadText(v)) == Some(v)
    ensures Canonical(QuadText(v)) == Quad(QuadText(v))
  {
    QuadDenotes(v, QuadText(v));
  }

  lemma QuadDenotes(v: nat, text: string)
    requires v < TWO32 && text == QuadText(v)
    ensures LooksNumeric(text) && Denotes(text) == Some(v)
  {
    QuadSplit(v);
    QuadReads(v);
    DenotesByBytes(text, QuadParts(v), v);
  }

  lemma DenotesByBytes(host: string, parts: seq<string>, v: nat)
    requires v < TWO32 && Text.Split(host, '.') == parts && ReadEach(parts, PartValue) == Some(Bytes(v))
    requires forall i :: 0 <= i < |parts| ==> IsDecimalPart(parts[i])
    requires forall i :: 0 <= i < 4 ==> Bytes(v)[i] < 256
    ensures LooksNumeric(host) && Denotes(host) == Some(v)
  {
    FourParts(host, parts, Bytes(v));
    BytesOf(v);
  }

  lemma QuadReads(v: nat)
    ensures ReadEach(QuadParts(v), PartValue) == Some(Bytes(v))
    ensures forall i :: 0 <= i < 4 ==> IsDecimalPart(QuadParts(v)[i]) && Bytes(v)[i] < 256
  {
    PartsAreCanonical(v);
    ReadEachIs(QuadParts(v), PartValue, Bytes(v));
  }

  lemma PartsAreCanonical(v: nat)
    ensures forall i :: 0 <= i < 4 ==> IsDecimalPart(QuadParts(v)[i]) && PartValue(QuadParts(v)[i]) == Some(Bytes(v)[i])
    ensures forall i :: 0 <= i < 4 ==> Bytes(v)[i] < 256
  {
    forall i | 0 <= i < 4 ensures IsDecimalPart(QuadParts(v)[i]) && PartValue(QuadParts(v)[i]) == Some(Bytes(v)[i]) {
      CanonicalPart(Byte(v, i));
    }
  }

  lemma FourParts(host: string, parts: seq<string>, n: seq<nat>)
    requires Text.Split(host, '.') == parts && |n| == 4 && ReadEach(parts, PartValue) == Some(n)
    requires forall i :: 0 <= i < |parts| ==> IsDecimalPart(parts[i])
    requires forall i :: 0 <= i < 4 ==> n[i] < 256
    ensures LooksNumeric(host)
    ensures Denotes(host) == Some(n[0] * 0x100_0000 + n[1] * 0x1_0000 + n[2] * 0x100 + n[3])
  {
  }

  lemma CanonicalPart(n: nat)
    requires n < 256
    ensures var p := Text.Decimal(n); IsDecimalPart(p) && PartValue(p) == Some(n)
  {
    var p := Text.Decimal(n);
    Text.NumeralValue(n, 10);
    assert n == 0 ==> p == "0";
    assert |p| > 1 ==> Text.IsDigit(p[1]);
  }

  // ---------------------------------------------------------------- IPv6 text

  /** `s.split('::')`. */
  function SplitDouble(s: string): (halves: seq<string>)
    ensures halves != []
  {
    if s == "" then [""]
    else if |s| >= 2 && s[0] == ':' && s[1] == ':' then [""] + SplitDouble(s[2..])
    else
      var rest := SplitDouble(s[1..]);
      [[s[0]] + rest[0]] + rest[1..]
  }

  /** The leading hex digits of a group, as `parseInt` takes them: a zone identifier may follow the last one. */
  function HexPrefix(g: string): (p: string)
    ensures p <= g && Text.All(p, Text.IsHex)
    ensures Text.All(g, Text.IsHex) ==> p == g
  {
    if g == "" || !Text.IsHex(g[0]) then "" else [g[0]] + HexPrefix(g[1..])
  }

  function HexWord(g: string): Option<nat> {
    var p := HexPrefix(g);
    if p != "" && Text.Value(p, 16) <= 0xFFFF then Some(Text.Value(p, 16)) else None
  }

  function GroupsOf(half: string): seq<string> {
    if half == "" then [] else Text.Split(half, ':')
  }

  /** The two hextets of an embedded dotted quad. */
  function Hextets(v: nat): seq<string> {
    [Text.Numeral(v / 0x1_0000, 16), Text.Numeral(v % 0x1_0000, 16)]
  }

  /** The value of four plain decimal bytes. */
  function DottedValue(s: string): Option<nat> {
    var q := Text.Split(s, '.');
    if |q| == 4 && forall i :: 0 <= i < 4 ==> IsDecimalPart(q[i]) && Text.Value(q[i], 10) <= 255
    then Some(Text.Value(q[0], 10) * 0x100_0000 + Text.Value(q[1], 10) * 0x1_0000 + Text.Value(q[2], 10) * 0x100
              + Text.Value(q[3], 10))
    else None
  }

  /** Rewrites a dotted tail into two hextets. */
  function WithoutDots(host: string): Option<string> {
    var di := Text.LastIndexOf(host, ':');
    var tail := host[di + 1..];
    if '.' !in tail then Some(host)
    else
      var v := DottedValue(tail);
      if v.None? then None else Some(host[..di + 1] + Text.Join(Hextets(v.value), ':'))
  }

  function Zeros(n: nat): seq<nat> {
    seq(n, _ => 0)
  }

  /** The eight words of the groups before and, if there is a "::", behind it; the gap is filled with zeros. */
  function GroupWords(head: seq<string>, tail: Option<seq<string>>): Option<seq<nat>> {
    var hw, tw := ReadEach(head, HexWord), ReadEach(tail.GetOr([]), HexWord);
    if hw.None? || tw.None? then None
    else if tail.None? then if |head| == 8 then hw else None
    else if |head| + |tail.value| > 8 then None
    else Some(hw.value + Zeros(8 - |head| - |tail.value|) + tw.value)
  }

  function HalvesWords(halves: seq<string>): Option<seq<nat>>
    requires halves != []
  {
    if |halves| > 2 then None
    else GroupWords(GroupsOf(halves[0]), if |halves| == 2 then Some(GroupsOf(halves[1])) else None)
  }

  /** The eight words of an IPv6 literal; the caller has checked with `isIP` that it is one. */
  function Ipv6Words(host: string): Option<seq<nat>> {
    var s := WithoutDots(host);
    if s.None? then None else HalvesWords(SplitDouble(s.value))
  }

  method ExpandIpv6(host: string, isIPv6: string -> bool) returns (words: Option<seq<nat>>)
    ensures words == if isIPv6(host) then Ipv6Words(host) else None
  {
    if !isIPv6(host) {
      return None;
    }
    var s := WithoutDots(host);
    if s.None? {
      return None;
    }
    var halves := SplitDouble(s.value);
    if |halves| > 2 {
      return None;
    }
    words := ExpandGroups(GroupsOf(halves[0]), if |halves| == 2 then Some(GroupsOf(halves[1])) else None);
  }

  method ExpandGroups(head: seq<string>, tail: Option<seq<string>>) returns (words: Option<seq<nat>>)
    ensures words == GroupWords(head, tail)
  {
    var tailGroups := tail.GetOr([]);
    var hw := ReadGroups(head);
    var tw := ReadGroups(tailGroups);
    if hw.None? || tw.None? {
      return None;
    }
    var ws := hw.value;
    if tail.Some? {
      var fill := 8 - |head| - |tailGroups|;
      if fill < 0 {
        return None;
      }
      for i := 0 to fill
        invariant ws == hw.value + Zeros(i)
      {
        ws := ws + [0];
      }
    }
    ws := ws + tw.value;
    assert tail.None? ==> ws == hw.value;
    if |ws| != 8 {
      return None;
    }
    return Some(ws);
  }

  method ReadGroups(groups: seq<string>) returns (words: Option<seq<nat>>)
    ensures words == ReadEach(groups, HexWord)
  {
    var ws := [];
    for i := 0 to |groups|
      invariant |ws| == i
      invariant forall j :: 0 <= j < i ==> HexWord(groups[j]) == Some(ws[j])
    {
      var w := HexWord(groups[i]);
      if w.None? {
        return None;
      }
      ws := ws + [w.value];
    }
    ReadEachIs(groups, HexWord, ws);
    return Some(ws);
  }

  // The three forms of section 2.2 of RFC 4291: groups of hex digits, one "::" anywhere, a dotted quad at the end.

  datatype Ipv6Text =
    Full(groups: seq<string>, quad: Option<nat>)
    | Compressed(head: seq<string>, tail: seq<string>, quad: Option<nat>)

  predicate GroupOk(g: string) {
    g != "" && Text.All(g, Text.IsHex) && HexWord(g).Some?
  }

  predicate QuadOk(quad: Option<nat>) {
    quad.Some? ==> quad.value < TWO32
  }

  function QuadWidth(quad: Option<nat>): nat {
    if quad.Some? then 2 else 0
  }

  predicate TextOk(t: Ipv6Text) {
    match t
    case Full(groups, quad) =>
      (forall i :: 0 <= i < |groups| ==> GroupOk(groups[i])) && QuadOk(quad) && |groups| + QuadWidth(quad) == 8
    case Compressed(head, tail, quad) =>
      && (forall i :: 0 <= i < |head| ==> GroupOk(head[i])) && (forall i :: 0 <= i < |tail| ==> GroupOk(tail[i]))
      && QuadOk(quad) && |head| + |tail| + QuadWidth(quad) <= 7
  }

  function Joined(groups: seq<string>): string {
    if groups == [] then "" else Text.Join(groups, ':')
  }

  function QuadGroups(quad: Option<nat>): seq<string> {
    if quad.Some? then [QuadText(quad.value)] else []
  }

  function Print(t: Ipv6Text): string {
    match t
    case Full(groups, quad) => Joined(groups + QuadGroups(quad))
    case Compressed(head, tail, quad) => Joined(head) + "::" + Joined(tail + QuadGroups(quad))
  }

  function Values(groups: seq<string>): seq<nat>
  {
    seq(|groups|, i requires 0 <= i < |groups| => HexWord(groups[i]).GetOr(0))
  }

  function QuadWords(quad: Option<nat>): seq<nat> {
    if quad.Some? then [quad.value / 0x1_0000, quad.value % 0x1_0000] else []
  }

  /** The address a text stands for. */
  function Meaning(t: Ipv6Text): seq<nat>
    requires TextOk(t)
  {
    match t
    case Full(groups, quad) => Values(groups) + QuadWords(quad)
    case Compressed(head, tail, quad) =>
      Values(head) + Zeros(8 - |head| - |tail| - QuadWidth(quad)) + Values(tail) + QuadWords(quad)
  }

  lemma ValuesByWords(groups: seq<string>, i: nat)
    requires i < |groups| && GroupOk(groups[i])
    ensures Values(groups)[i] == Text.Value(groups[i], 16)
  {
  }

  /** Word by word: the groups, and a quad as its two halves. */
  lemma FullByWords(groups: seq<string>, quad: Option<nat>, i: nat)
    requires TextOk(Full(groups, quad)) && i < 8
    ensures |Meaning(Full(groups, quad))| == 8
    ensures Meaning(Full(groups, quad))[i] ==
            if i < |groups| then Text.Value(groups[i], 16)
            else if i == 6 then quad.value / 0x1_0000 else quad.value % 0x1_0000
  {
    if i < |groups| {
      ValuesByWords(groups, i);
    }
  }

  /** Word by word: the groups in front, zeros for the gap, the groups behind it, and a quad as its two halves. */
  lemma CompressedByWords(head: seq<string>, tail: seq<string>, quad: Option<nat>, i: nat)
    requires TextOk(Compressed(head, tail, quad)) && i < 8
    ensures |Meaning(Compressed(head, tail, quad))| == 8
    ensures var last := if quad.Some? then 6 else 8;
            Meaning(Compressed(head, tail, quad))[i] ==
            if i < |head| then Text.Value(head[i], 16)
            else if i < last - |tail| then 0
            else if i < last then Text.Value(tail[i - (last - |tail|)], 16)
            else if i == 6 then quad.value / 0x1_0000 else quad.value % 0x1_0000
  {
    var last := if quad.Some? then 6 else 8;
    if i < |head| {
      ValuesByWords(head, i);
    } else if last - |tail| <= i < last {
      ValuesByWords(tail, i - (last - |tail|));
    }
  }

  /** No address is read from a dotted tail that is not four bytes, from two gaps, or from too few or many groups. */
  lemma NoAddress(host: string)
    ensures var tail := host[Text.LastIndexOf(host, ':') + 1..];
            var q := Text.Split(tail, '.');
            '.' in tail && (|q| != 4 || exists i :: 0 <= i < 4 && (!IsDecimalPart(q[i]) || Text.Value(q[i], 10) > 255))
            ==> Ipv6Words(host).None?
    ensures '.' !in host && |SplitDouble(host)| > 2 ==> Ipv6Words(host).None?
    ensures '.' !in host && |SplitDouble(host)| == 1 && |GroupsOf(host)| != 8 ==> Ipv6Words(host).None?
    ensures '.' !in host && |SplitDouble(host)| == 2 ==>
              |GroupsOf(SplitDouble(host)[0])| + |GroupsOf(SplitDouble(host)[1])| > 8 ==> Ipv6Words(host).None?
  {
    WithoutQuad(host);
    Undotted(host);
    if |SplitDouble(host)| == 1 {
      OnePiece(host);
    }
  }

  lemma WithoutQuad(host: string)
    ensures var tail := host[Text.LastIndexOf(host, ':') + 1..];
            var q := Text.Split(tail, '.');
            '.' in tail && (|q| != 4 || exists i :: 0 <= i < 4 && (!IsDecimalPart(q[i]) || Text.Value(q[i], 10) > 255))
            ==> WithoutDots(host).None?
  {
  }

  lemma Undotted(host: string)
    ensures '.' !in host ==> Ipv6Words(host) == HalvesWords(SplitDouble(host))
  {
  }

  lemma {:induction false} OnePiece(s: string)
    requires |SplitDouble(s)| == 1
    ensures SplitDouble(s) == [s]
  {
    if s != "" && !(|s| >= 2 && s[0] == ':' && s[1] == ':') {
      OnePiece(s[1..]);
      assert [s[0]] + s[1..] == s;
    }
  }

  lemma HextetOk(w: nat)
    requires w < 0x1_0000
    ensures HexWord(Text.Numeral(w, 16)) == Some(w)
  {
    Text.NumeralValue(w, 16);
  }

  lemma GroupChars(g: string)
    requires GroupOk(g)
    ensures g != "" && ':' !in g && '.' !in g
  {
  }

  lemma WordsOfGroups(groups: seq<string>)
    requires forall i :: 0 <= i < |groups| ==> GroupOk(groups[i])
    ensures ReadEach(groups, HexWord) == Some(Values(groups))
  {
    ReadEachIs(groups, HexWord, Values(groups));
  }

  /** No empty piece between single colons, at either end or inside. */
  predicate NoDouble(s: string) {
    forall i :: 0 <= i < |s| - 1 ==> !(s[i] == ':' && s[i + 1] == ':')
  }

  lemma {:induction false} JoinedShape(groups: seq<string>)
    requires groups != [] && forall i :: 0 <= i < |groups| ==> groups[i] != "" && ':' !in groups[i]
    ensures var s := Text.Join(groups, ':'); s != "" && s[0] != ':' && s[|s| - 1] != ':' && NoDouble(s)
  {
    if |groups| > 1 {
      var rest := Text.Join(groups[1..], ':');
      JoinedShape(groups[1..]);
      var s, n := groups[0] + [':'] + rest, |groups[0]|;
      assert s == Text.Join(groups, ':');
      forall i | 0 <= i < |s| - 1 ensures !(s[i] == ':' && s[i + 1] == ':') {
        if i < n {
          assert s[i] == groups[0][i];
        } else if i == n {
          assert s[i + 1] == rest[0];
        } else {
          assert s[i] == rest[i - n - 1] && s[i + 1] == rest[i - n];
        }
      }
    }
  }

  lemma {:induction false} SplitDoubleNone(s: string)
    requires NoDouble(s)
    ensures SplitDouble(s) == [s]
  {
    if s != "" {
      SplitDoubleNone(s[1..]);
      assert [s[0]] + s[1..] == s;
    }
  }

  lemma {:induction false} SplitDoubleAt(s: string, rest: string)
    requires NoDouble(s) && (s == "" || s[|s| - 1] != ':')
    ensures SplitDouble(s + "::" + rest) == [s] + SplitDouble(rest)
  {
    var t := s + "::" + rest;
    if s == "" {
      assert t[2..] == rest;
    } else {
      SplitDoubleAt(s[1..], rest);
      assert t[1..] == s[1..] + "::" + rest;
      assert t[1] == if |s| > 1 then s[1] else ':';
      assert [s[0]] + s[1..] == s;
    }
  }

  lemma GroupsOfJoined(groups: seq<string>)
    requires forall i :: 0 <= i < |groups| ==> groups[i] != "" && ':' !in groups[i]
    ensures GroupsOf(Joined(groups)) == groups
    ensures NoDouble(Joined(groups)) && (Joined(groups) == "" || Joined(groups)[|Joined(groups)| - 1] != ':')
  {
    if groups != [] {
      JoinedShape(groups);
      Text.SplitJoin(groups, ':');
    }
  }

  /** Groups without dots, with or without a "::", are read as what they mean. */
  lemma ReadsGroups(t: Ipv6Text)
    requires TextOk(t) && t.quad.None?
    ensures HalvesWords(SplitDouble(Print(t))) == Some(Meaning(t))
  {
    match t
    case Full(groups, _) => ReadsFull(groups);
    case Compressed(head, tail, _) => ReadsCompressed(head, tail);
  }

  lemma ReadsFull(groups: seq<string>)
    requires TextOk(Full(groups, None))
    ensures HalvesWords(SplitDouble(Print(Full(groups, None)))) == Some(Meaning(Full(groups, None)))
  {
    PlainGroups(groups);
    assert groups + QuadGroups(None) == groups;
    SplitDoubleNone(Joined(groups));
    WordsOfFull(groups);
    assert Values(groups) + QuadWords(None) == Values(groups);
  }

  lemma WordsOfFull(groups: seq<string>)
    requires |groups| == 8 && ReadEach(groups, HexWord) == Some(Values(groups))
    ensures GroupWords(groups, None) == Some(Values(groups))
  {
    ReadEachIs([], HexWord, []);
  }

  lemma ReadsCompressed(head: seq<string>, tail: seq<string>)
    requires TextOk(Compressed(head, tail, None))
    ensures HalvesWords(SplitDouble(Print(Compressed(head, tail, None)))) == Some(Meaning(Compressed(head, tail, None)))
  {
    PlainGroups(head);
    PlainGroups(tail);
    SplitCompressed(head, tail);
    WordsOfCompressed(head, tail);
  }

  lemma SplitCompressed(head: seq<string>, tail: seq<string>)
    requires NoDouble(Joined(head)) && (Joined(head) == "" || Joined(head)[|Joined(head)| - 1] != ':')
             && NoDouble(Joined(tail))
    ensures SplitDouble(Print(Compressed(head, tail, None))) == [Joined(head), Joined(tail)]
  {
    assert tail + QuadGroups(None) == tail;
    SplitDoubleAt(Joined(head), Joined(tail));
    SplitDoubleNone(Joined(tail));
    assert [Joined(head)] + [Joined(tail)] == [Joined(head), Joined(tail)];
  }

  lemma WordsOfCompressed(head: seq<string>, tail: seq<string>)
    requires ReadEach(head, HexWord) == Some(Values(head)) && ReadEach(tail, HexWord) == Some(Values(tail))
    requires TextOk(Compressed(head, tail, None))
    ensures GroupWords(head, Some(tail)) == Some(Meaning(Compressed(head, tail, None)))
  {
    var words := Values(head) + Zeros(8 - |head| - |tail|) + Values(tail);
    assert words + QuadWords(None) == words;
  }

  lemma PlainGroups(groups: seq<string>)
    requires forall i :: 0 <= i < |groups| ==> GroupOk(groups[i])
    ensures GroupsOf(Joined(groups)) == groups
    ensures NoDouble(Joined(groups)) && (Joined(groups) == "" || Joined(groups)[|Joined(groups)| - 1] != ':')
    ensures ReadEach(groups, HexWord) == Some(Values(groups))
  {
    forall i | 0 <= i < |groups| ensures groups[i] != "" && ':' !in groups[i] {
      GroupChars(groups[i]);
    }
    GroupsOfJoined(groups);
    WordsOfGroups(groups);
  }

  // Embedded quads: rewriting the dots changes the text of an address, not the address.

  function Plain(t: Ipv6Text): Ipv6Text {
    if t.quad.None? then t
    else
      match t
      case Full(groups, quad) => Full(groups + Hextets(quad.value), None)
      case Compressed(head, tail, quad) => Compressed(head, tail + Hextets(quad.value), None)
  }

  lemma HextetsOk(v: nat)
    requires v < TWO32
    ensures forall i :: 0 <= i < 2 ==> GroupOk(Hextets(v)[i])
    ensures Values(Hextets(v)) == QuadWords(Some(v))
  {
    HextetOk(v / 0x1_0000);
    HextetOk(v % 0x1_0000);
  }

  lemma PlainMeansTheSame(t: Ipv6Text)
    requires TextOk(t)
    ensures TextOk(Plain(t)) && Plain(t).quad.None? && Meaning(Plain(t)) == Meaning(t)
  {
    if t.quad.Some? {
      match t {
        case Full(groups, quad) => PlainFull(groups, quad.value);
        case Compressed(head, tail, quad) => PlainCompressed(head, tail, quad.value);
      }
    }
  }

  lemma PlainFull(groups: seq<string>, v: nat)
    requires TextOk(Full(groups, Some(v)))
    ensures var t := Full(groups + Hextets(v), None); TextOk(t) && Meaning(t) == Meaning(Full(groups, Some(v)))
  {
    HextetsOk(v);
    ValuesAppend(groups, Hextets(v));
  }

  lemma PlainCompressed(head: seq<string>, tail: seq<string>, v: nat)
    requires TextOk(Compressed(head, tail, Some(v)))
    ensures var t := Compressed(head, tail + Hextets(v), None);
            TextOk(t)
            && Meaning(t) == Meaning(Compressed(head, tail, Some(v)))
  {
    HextetsOk(v);
    ValuesAppend(tail, Hextets(v));
    var front := Values(head) + Zeros(8 - |head| - |tail| - 2);
    assert front + (Values(tail) + QuadWords(Some(v))) + [] == front + Values(tail) + QuadWords(Some(v));
  }

  lemma ValuesAppend(a: seq<string>, b: seq<string>)
    ensures Values(a + b) == Values(a) + Values(b)
    ensures Values(a + b) + [] == Values(a) + Values(b)
  {
  }

  lemma {:induction false} JoinAppend(xs: seq<string>, ys: seq<string>, c: char)
    requires xs != [] && ys != []
    ensures Text.Join(xs + ys, c) == Text.Join(xs, c) + [c] + Text.Join(ys, c)
  {
    if |xs| == 1 {
      assert (xs + ys)[1..] == ys;
    } else {
      assert (xs + ys)[1..] == xs[1..] + ys;
      JoinAppend(xs[1..], ys, c);
    }
  }

  /** What precedes an embedded quad; it ends with a colon. */
  function Front(t: Ipv6Text): string {
    match t
    case Full(groups, _) => Lead(groups)
    case Compressed(head, tail, _) => Joined(head) + "::" + Lead(tail)
  }

  lemma PrintsAfterFront(t: Ipv6Text)
    requires TextOk(t) && t.quad.Some?
    ensures Print(t) == Front(t) + QuadText(t.quad.value)
    ensures Print(Plain(t)) == Front(t) + Text.Join(Hextets(t.quad.value), ':')
    ensures Front(t) != "" && Front(t)[|Front(t)| - 1] == ':'
  {
    var q := t.quad.value;
    match t
    case Full(groups, _) =>
      JoinedAfter(groups, QuadGroups(t.quad));
      JoinedAfter(groups, Hextets(q));
      assert groups + Hextets(q) + QuadGroups(None) == groups + Hextets(q);
    case Compressed(head, tail, _) =>
      JoinedAfter(tail, QuadGroups(t.quad));
      JoinedAfter(tail, Hextets(q));
      assert tail + Hextets(q) + QuadGroups(None) == tail + Hextets(q);
      AfterGap(Joined(head) + "::", Lead(tail), QuadText(q), Text.Join(Hextets(q), ':'));
  }

  /** Groups and the colon behind them. */
  function Lead(groups: seq<string>): string {
    if groups == [] then "" else Joined(groups) + ":"
  }

  lemma JoinedAfter(groups: seq<string>, more: seq<string>)
    requires more != []
    ensures Joined(groups + more) == Lead(groups) + Text.Join(more, ':')
    ensures |more| == 1 ==> Joined(groups + more) == Lead(groups) + more[0]
  {
    if groups == [] {
      assert groups + more == more;
    } else {
      JoinAppend(groups, more, ':');
    }
    JoinOfOne(more, ':');
    assert Joined(groups + more) == Text.Join(groups + more, ':');
  }

  lemma JoinOfOne(xs: seq<string>, c: char)
    ensures |xs| == 1 ==> Text.Join(xs, c) == xs[0]
  {
  }

  lemma AfterGap(a: string, b: string, x: string, y: string)
    ensures a + (b + x) == a + b + x && a + (b + y) == a + b + y
  {
  }

  lemma QuadTextShape(v: nat)
    ensures ':' !in QuadText(v) && '.' in QuadText(v)
  {
    QuadSplit(v);
    SeveralParts(QuadText(v));
    JoinHasNoColon(QuadParts(v));
  }

  lemma QuadDotted(v: nat)
    requires v < TWO32
    ensures DottedValue(QuadText(v)) == Some(v)
  {
    QuadSplit(v);
    QuadPartsRead(v);
    DottedParts(QuadText(v), QuadParts(v), Bytes(v));
    BytesOf(v);
  }

  lemma SeveralParts(host: string)
    requires |Text.Split(host, '.')| > 1
    ensures '.' in host
  {
    if '.' !in host {
      Text.SplitOne(host, '.');
    }
  }

  lemma DottedParts(host: string, q: seq<string>, n: seq<nat>)
    requires Text.Split(host, '.') == q && |q| == |n| == 4
    requires forall i :: 0 <= i < 4 ==> IsDecimalPart(q[i]) && Text.Value(q[i], 10) == n[i] && n[i] < 256
    ensures DottedValue(host) == Some(n[0] * 0x100_0000 + n[1] * 0x1_0000 + n[2] * 0x100 + n[3])
  {
  }

  lemma {:induction false} JoinedHasNoDot(groups: seq<string>)
    requires forall i :: 0 <= i < |groups| ==> '.' !in groups[i]
    ensures '.' !in Joined(groups)
  {
    if |groups| > 1 {
      JoinedHasNoDot(groups[1..]);
    }
  }

  lemma DotsRewritten(t: Ipv6Text)
    requires TextOk(t)
    ensures WithoutDots(Print(t)) == Some(Print(Plain(t)))
  {
    if t.quad.Some? {
      var q := QuadText(t.quad.value);
      PrintsAfterFront(t);
      QuadTextShape(t.quad.value);
      QuadDotted(t.quad.value);
      RewriteTail(Front(t), q, t.quad.value);
    } else {
      match t {
        case Full(groups, _) =>
          assert groups + QuadGroups(None) == groups;
          JoinedHasNoDot(groups);
        case Compressed(head, tail, _) =>
          assert tail + QuadGroups(None) == tail;
          JoinedHasNoDot(head);
          JoinedHasNoDot(tail);
      }
    }
  }

  lemma RewriteTail(front: string, q: string, v: nat)
    requires front != "" && front[|front| - 1] == ':' && ':' !in q && '.' in q && DottedValue(q) == Some(v)
    ensures WithoutDots(front + q) == Some(front + Text.Join(Hextets(v), ':'))
  {
    var host, n := front + q, |front| - 1;
    assert host == front[..n] + [':'] + q;
    Text.LastIndexAfter(front[..n], ':', q);
    assert host[..n + 1] == front && host[n + 1..] == q;
  }

  /** Reading undoes printing, for every form of section 2.2 of RFC 4291 and any compressed run of zeros. */
  lemma ReadUndoesPrint(t: Ipv6Text)
    requires TextOk(t)
    ensures Ipv6Words(Print(t)) == Some(Meaning(t))
  {
    DotsRewritten(t);
    PlainMeansTheSame(t);
    ReadsGroups(Plain(t));
  }

  // ---------------------------------------------------------------- classifying hosts

  /** The dotted quad of two words. */
  function EmbeddedText(hi: nat, lo: nat): string {
    Text.Join([Text.Decimal(hi / 256 % 256), Text.Decimal(hi % 256), Text.Decimal(lo / 256 % 256),
               Text.Decimal(lo % 256)], '.')
  }

  /** The code's masks: `(w & 0xfe00)` and `(w & 0xffc0)` clear the low nine and six bits. */
  function ClassifyWords(w: seq<nat>): Option<Reason>
    requires |w| == 8
  {
    if (forall i :: 0 <= i < 5 ==> w[i] == 0) && (w[5] == 0xFFFF || w[5] == 0) then
      if w[5] == 0 && w[6] == 0 && w[7] <= 1 then Some(Loopback)
      else IsPrivateIpv4(EmbeddedText(w[6], w[7]))
    else if w[0] - w[0] % 0x200 == 0xFC00 then Some(PrivateIp)
    else if w[0] - w[0] % 0x40 == 0xFE80 then Some(LinkLocal)
    else None
  }

  lemma WordsHaveLength(host: string)
    ensures Ipv6Words(host).Some? ==> |Ipv6Words(host).value| == 8
  {
  }

  function ClassifyIpv6(host: string, isIPv6: string -> bool): Option<Reason> {
    WordsHaveLength(host);
    if !isIPv6(host) || Ipv6Words(host).None? then None else ClassifyWords(Ipv6Words(host).value)
  }

  /** The words with an IPv4 address in the last two, behind 0xffff or zero. */
  function Embedding(marker: nat, v: nat): seq<nat> {
    [0, 0, 0, 0, 0, marker, v / 0x1_0000, v % 0x1_0000]
  }

  lemma EmbeddedBytes(v: nat)
    requires v < TWO32
    ensures var hi, lo := v / 0x1_0000, v % 0x1_0000;
            hi / 256 % 256 == Byte(v, 0) && hi % 256 == Byte(v, 1) && lo / 256 % 256 == Byte(v, 2)
                && lo % 256 == Byte(v, 3)
  {
    var a, b, c, d := Byte(v, 0), Byte(v, 1), Byte(v, 2), Byte(v, 3);
    BytesOf(v);
    Text.Quotient(v, a * 0x100 + b, c * 0x100 + d, 0x1_0000);
    Text.Quotient(a * 0x100 + b, a, b, 256);
    Text.Quotient(c * 0x100 + d, c, d, 256);
  }

  lemma EmbeddedTextIsQuad(v: nat)
    requires v < TWO32
    ensures EmbeddedText(v / 0x1_0000, v % 0x1_0000) == QuadText(v)
  {
    EmbeddedBytes(v);
  }

  lemma EmbeddedVerdict(w: seq<nat>)
    requires |w| == 8 && (forall i :: 0 <= i < 5 ==> w[i] == 0) && (w[5] == 0xFFFF || w[5] == 0)
    ensures ClassifyWords(w) == if w[5] == 0 && w[6] == 0 && w[7] <= 1 then Some(Loopback)
            else IsPrivateIpv4(EmbeddedText(w[6], w[7]))
  {
  }

  lemma EmbeddedWords(marker: nat, v: nat)
    requires v < TWO32 && (marker == 0xFFFF || marker == 0)
    ensures ClassifyWords(Embedding(marker, v)) == if marker == 0 && v < 2 then Some(Loopback) else Denied(v)
  {
    EmbeddedTextIsQuad(v);
    EmbeddedVerdict(Embedding(marker, v));
    PrivateMeansDenied(v);
    assert v < 2 <==> v / 0x1_0000 == 0 && v % 0x1_0000 < 2;
  }

  /** However it is spelled, an IPv4-mapped or IPv4-compatible address gets the verdict of its IPv4 address. */
  lemma EmbeddedIpv4ClassifiesAsIpv4(t: Ipv6Text, v: nat, isIPv6: string -> bool)
    requires TextOk(t) && v < TWO32 && isIPv6(Print(t))
    ensures Meaning(t) == Embedding(0xFFFF, v) ==> ClassifyIpv6(Print(t), isIPv6) == Denied(v)
    ensures Meaning(t) == Embedding(0, v)
            ==> ClassifyIpv6(Print(t), isIPv6) == if v < 2 then Some(Loopback) else Denied(v)
  {
    VerdictOnMeaning(t, isIPv6);
    EmbeddedWords(0xFFFF, v);
    EmbeddedWords(0, v);
  }

  lemma VerdictOnMeaning(t: Ipv6Text, isIPv6: string -> bool)
    requires TextOk(t) && isIPv6(Print(t))
    ensures |Meaning(t)| == 8 && (forall i :: 0 <= i < 8 ==> Meaning(t)[i] <= 0xFFFF)
    ensures ClassifyIpv6(Print(t), isIPv6) == ClassifyWords(Meaning(t))
  {
    ReadUndoesPrint(t);
    WordsInRange(t);
  }

  lemma WordsInRange(t: Ipv6Text)
    requires TextOk(t)
    ensures |Meaning(t)| == 8 && forall i :: 0 <= i < 8 ==> Meaning(t)[i] <= 0xFFFF
  {
  }

  /** The other denied blocks, fc00::/7 and fe80::/10; everything else is let through. */
  lemma OtherIpv6Blocks(t: Ipv6Text, isIPv6: string -> bool)
    requires TextOk(t) && isIPv6(Print(t)) && Meaning(t)[0] != 0
    ensures ClassifyIpv6(Print(t), isIPv6) ==
            if 0xFC00 <= Meaning(t)[0] <= 0xFDFF then Some(PrivateIp)
            else if 0xFE80 <= Meaning(t)[0] <= 0xFEBF then Some(LinkLocal) else None
  {
    VerdictOnMeaning(t, isIPv6);
    MaskedBlocks(Meaning(t));
  }

  lemma MaskedBlocks(w: seq<nat>)
    requires |w| == 8 && 0 < w[0] <= 0xFFFF
    ensures ClassifyWords(w) ==
            if 0xFC00 <= w[0] <= 0xFDFF then Some(PrivateIp) else if 0xFE80 <= w[0] <= 0xFEBF then Some(LinkLocal)
                else None
  {
  }

  /** `isIP(host) === 4`: four decimal bytes without leading zeros. */
  predicate IsIP4(host: string) {
    var q := Text.Split(host, '.');
    |q| == 4 && forall i :: 0 <= i < 4 ==>
      IsDecimalPart(q[i]) && (|q[i]| == 1 || q[i][0] != '0') && Text.Value(q[i], 10) <= 255
  }

  predicate EndsWith(s: string, suffix: string) {
    |suffix| <= |s| && s[|s| - |suffix|..] == suffix
  }

  /** `lower` is the host in lower case; `extra` are the deployment's own suffixes. */
  predicate IsInternalHost(lower: string, extra: seq<string>) {
    || lower == "localhost"
    || (exists i :: 0 <= i < |extra| && EndsWith(lower, extra[i]))
    || EndsWith(lower, ".internal") || EndsWith(lower, ".local") || EndsWith(lower, ".ts.net")
       || EndsWith(lower, ".lan")
  }

  datatype Environment = Environment(isIPv6: string -> bool, toLowerCase: string -> string, extraSuffixes: seq<string>)

  predicate IsLiteral(host: string) {
    ':' in host || IsIP4(host) || LooksNumeric(host)
  }

  function ClassifyNumeric(host: string): Option<Reason> {
    if IsIP4(host) then IsPrivateIpv4(host)
    else
      match Canonical(host)
      case NotNumeric => None
      case Invalid => Some(Malformed)
      case Quad(text) => IsPrivateIpv4(text)
  }

  /** The gate for a URL as written. */
  function ClassifyHost(host: string, env: Environment): Option<Reason> {
    if host == "" then Some(Malformed)
    else if ':' in host then if env.isIPv6(host) then ClassifyIpv6(host, env.isIPv6) else Some(Malformed)
    else if IsLiteral(host) then ClassifyNumeric(host)
    else if IsInternalHost(env.toLowerCase(host), env.extraSuffixes) then Some(InternalHost)
    else None
  }

  /** The gate for a resolved address. */
  function ClassifyResolvedIp(host: string, env: Environment): Option<Reason> {
    if ':' in host then ClassifyIpv6(host, env.isIPv6) else ClassifyNumeric(host)
  }

  /**
   * What the send-time gate lets through: literals by their own verdict, names when no address they resolve to is
   * denied.
   */
  predicate Allowed(host: string, addresses: seq<string>, env: Environment) {
    if IsLiteral(host) then ClassifyResolvedIp(host, env).None?
    else forall i :: 0 <= i < |addresses| ==> ClassifyResolvedIp(addresses[i], env).None?
  }

  /** The send-time gate; a failed lookup passes. */
  method AssertResolvedTargetAllowed(host: string, lookup: Option<seq<string>>, env: Environment)
      returns (denied: Option<Reason>)
    ensures denied.None? <==> Allowed(host, lookup.GetOr([]), env)
    ensures IsLiteral(host) ==> denied == ClassifyResolvedIp(host, env)
  {
    if IsLiteral(host) {
      return ClassifyResolvedIp(host, env);
    }
    denied := FirstDenied(lookup.GetOr([]), address => ClassifyResolvedIp(address, env));
  }

  method FirstDenied(addresses: seq<string>, verdict: string -> Option<Reason>) returns (denied: Option<Reason>)
    ensures denied.None? <==> forall i :: 0 <= i < |addresses| ==> verdict(addresses[i]).None?
    ensures denied.Some? ==> exists i :: 0 <= i < |addresses| && denied == verdict(addresses[i])
  {
    for i := 0 to |addresses|
      invariant forall j :: 0 <= j < i ==> verdict(addresses[j]).None?
    {
      var r := verdict(addresses[i]);
      if r.Some? {
        return r;
      }
    }
    return None;
  }

  lemma {:induction false} NumeralOfValue(p: string)
    requires p != "" && Text.All(p, Text.IsDigit) && (|p| == 1 || p[0] != '0')
    ensures Text.Decimal(Text.Value(p, 10)) == p && (p[0] != '0' ==> Text.Value(p, 10) > 0)
  {
    var n := |p| - 1;
    if n == 0 {
      assert Text.Value(p[..0], 10) == 0;
      assert p == [Text.DigitChar(Text.DigitValue(p[0]))];
    } else {
      NumeralOfValue(p[..n]);
      var front, d := Text.Value(p[..n], 10), Text.DigitValue(p[n]);
      assert Text.Value(p, 10) == front * 10 + d && d < 10;
      assert (front * 10 + d) / 10 == front && (front * 10 + d) % 10 == d;
      assert p == p[..n] + [p[n]] && p[n] == Text.DigitChar(d);
    }
  }

  /** A plain dotted quad is the canonical text of what it denotes. */
  lemma PlainQuadIsCanonical(host: string)
    requires IsIP4(host)
    ensures LooksNumeric(host) && Denotes(host).Some? && Denotes(host).value < TWO32
            && host == QuadText(Denotes(host).value)
  {
    var q := Text.Split(host, '.');
    var n := [Text.Value(q[0], 10), Text.Value(q[1], 10), Text.Value(q[2], 10), Text.Value(q[3], 10)];
    forall i | 0 <= i < 4 ensures q[i] == Text.Decimal(n[i]) && PartValue(q[i]) == Some(n[i]) {
      NumeralOfValue(q[i]);
      CanonicalPart(n[i]);
    }
    ReadEachIs(q, PartValue, n);
    FourParts(host, q, n);
    var v := Denotes(host).value;
    BytesDetermine(v, n[0], n[1], n[2], n[3]);
    assert QuadParts(v) == q;
    Text.JoinSplit(host, '.');
  }

  /**
   * All spellings of an address classify alike: decimal, octal, hex or short, both gates give the verdict of
   * the address itself, and a numeral that denotes no address is refused.
   */
  lemma SpellingsClassifyAlike(host: string, env: Environment)
    requires LooksNumeric(host)
    ensures ClassifyHost(host, env) == ClassifyResolvedIp(host, env) ==
            if Denotes(host).Some? then Denied(Denotes(host).value) else Some(Malformed)
  {
    NumericHasNoColon(host);
    if IsIP4(host) {
      PlainQuadIsCanonical(host);
    }
    if Denotes(host).Some? {
      DenotesBelow(host);
      PrivateMeansDenied(Denotes(host).value);
    }
  }

  lemma NumericHasNoColon(host: string)
    requires LooksNumeric(host)
    ensures host != "" && ':' !in host
  {
    var parts := Text.Split(host, '.');
    Text.JoinSplit(host, '.');
    forall i | 0 <= i < |parts| ensures ':' !in parts[i] {
      if IsHexPart(parts[i]) {
        assert parts[i] == parts[i][..2] + parts[i][2..];
      }
    }
    JoinHasNoColon(parts);
    assert Text.Split("", '.')[0] == "" && !IsHexPart("") && !IsDecimalPart("");
  }

  lemma {:induction false} JoinHasNoColon(parts: seq<string>)
    requires parts != [] && forall i :: 0 <= i < |parts| ==> ':' !in parts[i]
    ensures ':' !in Text.Join(parts, '.')
  {
    if |parts| > 1 {
      JoinHasNoColon(parts[1..]);
    }
  }

  ghost predicate HasForm(name: string, suffix: string) {
    exists x: string :: name == x + suffix
  }

  lemma EndsWithHasForm(name: string, suffix: string)
    ensures EndsWith(name, suffix) <==> HasForm(name, suffix)
  {
    if EndsWith(name, suffix) {
      assert name == name[..|name| - |suffix|] + suffix;
    }
  }

  /** A name that is no literal is refused exactly when it is `localhost` or lies under an internal suffix. */
  lemma NamesAreInternalExactlyWhen(host: string, env: Environment)
    requires host != "" && !IsLiteral(host)
    ensures var name := env.toLowerCase(host);
            var internal := name == "localhost" || HasForm(name, ".internal") || HasForm(name, ".local")
                            || HasForm(name, ".ts.net") || HasForm(name, ".lan")
                            || exists i :: 0 <= i < |env.extraSuffixes| && HasForm(name, env.extraSuffixes[i]);
            ClassifyHost(host, env) == if internal then Some(InternalHost) else None
  {
    var name := env.toLowerCase(host);
    EndsWithHasForm(name, ".internal");
    EndsWithHasForm(name, ".local");
    EndsWithHasForm(name, ".ts.net");
    EndsWithHasForm(name, ".lan");
    forall i | 0 <= i < |env.extraSuffixes|
      ensures EndsWith(name, env.extraSuffixes[i]) <==> HasForm(name, env.extraSuffixes[i])
    {
      EndsWithHasForm(name, env.extraSuffixes[i]);
    }
  }

  lemma NoHostIsMalformed(env: Environment)
    ensures ClassifyHost("", env) == Some(Malformed)
  {
  }

  lemma ResolvedQuad(v: nat, text: string, env: Environment)
    requires v < TWO32 && text == QuadText(v)
    ensures ClassifyResolvedIp(text, env) == Denied(v)
  {
    QuadDenotes(v, text);
    SpellingsClassifyAlike(text, env);
  }

  /** The send-time gate lets a name through exactly when none of its IPv4 addresses is denied. */
  lemma NamesGoByTheirAddresses(host: string, addresses: seq<nat>, texts: seq<string>, env: Environment)
    requires !IsLiteral(host) && |texts| == |addresses|
    requires forall i :: 0 <= i < |addresses| ==> addresses[i] < TWO32 && texts[i] == QuadText(addresses[i])
    ensures Allowed(host, texts, env) <==> forall i :: 0 <= i < |addresses| ==> Denied(addresses[i]).None?
  {
    forall i | 0 <= i < |texts| ensures ClassifyResolvedIp(texts[i], env) == Denied(addresses[i]) {
      ResolvedQuad(addresses[i], texts[i], env);
    }
  }

  /** On literals the two gates differ exactly for text with a colon that is no IPv6 address. */
  lemma GatesAgreeOnLiterals(host: string, env: Environment)
    requires IsLiteral(host)
    ensures ClassifyHost(host, env) == ClassifyResolvedIp(host, env) <==> (':' in host ==> env.isIPv6(host))
  {
    if ':' !in host && host == "" {
      Text.SplitOne(host, '.');
    }
  }
}
