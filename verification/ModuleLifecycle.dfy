/** Version comparison and upgrade previews (shared/src/module-lifecycle.ts). */
module ModuleLifecycle {
  import opened Wrappers
  import Text

  datatype SemVer = SemVer(major: nat, minor: nat, patch: nat)

  /** The part before the first `-` or `+`. */
  function Core(s: string): string {
    if s == "" || s[0] == '-' || s[0] == '+' then "" else [s[0]] + Core(s[1..])
  }

  function Cleaned(version: string): string {
    var t := Text.Trim(version);
    Core(if t != "" && t[0] == 'v' then t[1..] else t)
  }

  predicate IsNumber(s: string) {
    s != "" && Text.All(s, Text.IsDigit)
  }

  function ParseSemVer(version: string): Option<SemVer> {
    var parts := Text.Split(Cleaned(version), '.');
    if |parts| == 3 && IsNumber(parts[0]) && IsNumber(parts[1]) && IsNumber(parts[2])
    then Some(SemVer(Text.Value(parts[0], 10), Text.Value(parts[1], 10), Text.Value(parts[2], 10)))
    else None
  }

  function Sign(a: int, b: int): int {
    if a < b then -1 else if a > b then 1 else 0
  }

  function Compare(a: SemVer, b: SemVer): int {
    if a.major != b.major then Sign(a.major, b.major)
    else if a.minor != b.minor then Sign(a.minor, b.minor)
    else Sign(a.patch, b.patch)
  }

  /** Unparsable versions count as 0.0.0. */
  function CompareSemVer(a: string, b: string): int {
    Compare(ParseSemVer(a).GetOr(SemVer(0, 0, 0)), ParseSemVer(b).GetOr(SemVer(0, 0, 0)))
  }

  datatype UpgradeClass = Patch | Minor | Major | Same

  function Classify(from: Option<SemVer>, to: Option<SemVer>): UpgradeClass {
    if from.None? || to.None? || Compare(to.value, from.value) <= 0 then Same
    else if to.value.major != from.value.major then Major
    else if to.value.minor != from.value.minor then Minor
    else Patch
  }

  datatype Step = Step(fromMajor: int, toMajor: int, scriptRef: string)

  /** The first declared step to a major version. */
  function FindStep(declared: seq<Step>, major: int): Option<Step> {
    if declared == [] then None
    else if declared[0].toMajor == major then Some(declared[0])
    else FindStep(declared[1..], major)
  }

  /** The declared steps to the majors `lo`, ..., `hi`, in this order. */
  function StepsTo(declared: seq<Step>, lo: int, hi: int): seq<Step>
    decreases hi - lo + 1
  {
    if lo > hi then []
    else (if FindStep(declared, lo).Some? then [FindStep(declared, lo).value] else []) + StepsTo(declared, lo + 1, hi)
  }

  /** The least major among `lo`, ..., `hi` without a step. */
  function FirstMissing(declared: seq<Step>, lo: int, hi: int): Option<int>
    decreases hi - lo + 1
  {
    if lo > hi then None
    else if FindStep(declared, lo).None? then Some(lo)
    else FirstMissing(declared, lo + 1, hi)
  }

  method ResolveRequiredMigrations(fromVersion: string, toVersion: string, declared: Option<seq<Step>>)
      returns (steps: seq<Step>)
    ensures steps == RequiredMigrations(ParseSemVer(fromVersion), ParseSemVer(toVersion), declared.GetOr([]))
  {
    steps := [];
    var from, to := ParseSemVer(fromVersion), ParseSemVer(toVersion);
    if !Classify(from, to).Major? {
      return;
    }
    if declared.None? {
      NothingDeclared(from.value.major + 1, to.value.major);
      return;
    }
    ghost var first := from.value.major + 1;
    var major, last := from.value.major + 1, to.value.major;
    assert first <= last;
    while major <= last
      invariant first <= major <= last + 1
      invariant StepsTo(declared.value, first, last) == steps + StepsTo(declared.value, major, last)
    {
      var step := FindStep(declared.value, major);
      if step.Some? {
        steps := steps + [step.value];
      }
      major := major + 1;
    }
  }

  function RequiredMigrations(from: Option<SemVer>, to: Option<SemVer>, declared: seq<Step>): seq<Step> {
    if Classify(from, to).Major? then StepsTo(declared, from.value.major + 1, to.value.major) else []
  }

  lemma {:induction false} NothingDeclared(lo: int, hi: int)
    ensures StepsTo([], lo, hi) == []
    decreases hi - lo + 1
  {
    if lo <= hi {
      NothingDeclared(lo + 1, hi);
    }
  }

  datatype Refusal = ModuleUnknown | VersionUnknown | VersionNotNewer | MigrationRequired(missingMajor: int)

  datatype Preview = Preview(upgradeClass: UpgradeClass, requiresConfirmation: bool, migrations: seq<Step>,
                             migrationRequired: bool)

  /** The first crossed major without a declared step. */
  method CheckSteps(declared: seq<Step>, lo: int, hi: int) returns (missing: Option<int>)
    ensures missing == FirstMissing(declared, lo, hi)
  {
    var major := lo;
    while major <= hi
      invariant FirstMissing(declared, lo, hi) == FirstMissing(declared, major, hi)
      decreases hi - major
    {
      if FindStep(declared, major).None? {
        return Some(major);
      }
      major := major + 1;
    }
    return None;
  }

  method PreviewUpgrade(known: set<string>, moduleId: string, fromVersion: string, toVersion: string,
                        declared: Option<seq<Step>>)
    returns (r: Result<Preview, Refusal>)
    ensures r == Previewed(moduleId in known, ParseSemVer(fromVersion), ParseSemVer(toVersion), declared.GetOr([]))
  {
    if moduleId !in known {
      return Err(ModuleUnknown);
    }
    var from, to := ParseSemVer(fromVersion), ParseSemVer(toVersion);
    if to.None? {
      return Err(VersionUnknown);
    }
    var cls := Classify(from, to);
    if cls.Same? {
      return Err(VersionNotNewer);
    }
    var migrations := ResolveRequiredMigrations(fromVersion, toVersion, declared);
    if cls.Major? {
      var missing := CheckSteps(declared.GetOr([]), from.value.major + 1, to.value.major);
      if missing.Some? {
        return Err(MigrationRequired(missing.value));
      }
    }
    return Ok(Preview(cls, cls.Major?, migrations, |migrations| > 0));
  }

  /** The preview of an upgrade between parsed versions (`None`: unparsable) of a module the registry may know. */
  function Previewed(known: bool, from: Option<SemVer>, to: Option<SemVer>, declared: seq<Step>)
    : Result<Preview, Refusal>
  {
    var cls := Classify(from, to);
    if !known then Err(ModuleUnknown)
    else if to.None? then Err(VersionUnknown)
    else if cls.Same? then Err(VersionNotNewer)
    else
      var missing := if cls.Major? then FirstMissing(declared, from.value.major + 1, to.value.major) else None;
      if missing.Some? then Err(MigrationRequired(missing.value))
      else
        var migrations := RequiredMigrations(from, to, declared);
        Ok(Preview(cls, cls.Major?, migrations, |migrations| > 0))
  }

  // ---------------------------------------------------------------- versions are ordered

  /** Comparing is a total preorder on all strings, and swapping the arguments flips the sign. */
  lemma CompareIsATotalPreorder(a: string, b: string, c: string)
    ensures CompareSemVer(a, a) == 0 && CompareSemVer(a, b) in {-1, 0, 1}
    ensures CompareSemVer(b, a) == -CompareSemVer(a, b)
    ensures CompareSemVer(a, b) <= 0 && CompareSemVer(b, c) <= 0 ==> CompareSemVer(a, c) <= 0
    ensures CompareSemVer(a, b) < 0 && CompareSemVer(b, c) <= 0 ==> CompareSemVer(a, c) < 0
    ensures CompareSemVer(a, b) <= 0 && CompareSemVer(b, c) < 0 ==> CompareSemVer(a, c) < 0
  {
    var zero := SemVer(0, 0, 0);
    CompareOrders(ParseSemVer(a).GetOr(zero), ParseSemVer(b).GetOr(zero), ParseSemVer(c).GetOr(zero));
  }

  /** Lexicographic order on the three numbers. */
  lemma CompareOrders(a: SemVer, b: SemVer, c: SemVer)
    ensures Compare(a, b) < 0 <==> a.major < b.major || (a.major == b.major &&
                                   (a.minor < b.minor || (a.minor == b.minor && a.patch < b.patch)))
    ensures Compare(a, a) == 0 && Compare(a, b) in {-1, 0, 1} && Compare(b, a) == -Compare(a, b)
    ensures Compare(a, b) <= 0 && Compare(b, c) <= 0 ==> Compare(a, c) <= 0
    ensures Compare(a, b) < 0 && Compare(b, c) <= 0 ==> Compare(a, c) < 0
    ensures Compare(a, b) <= 0 && Compare(b, c) < 0 ==> Compare(a, c) < 0
  {
  }

  function Print(v: SemVer): string {
    Text.Join([Text.Decimal(v.major), Text.Decimal(v.minor), Text.Decimal(v.patch)], '.')
  }

  /** `v` or nothing, three numbers with dots between them, and nothing or a suffix that begins with "-" or "+". */
  predicate IsVersion(text: string, prefix: string, a: string, b: string, c: string, suffix: string) {
    && text == prefix + (a + "." + b + "." + c) + suffix && (prefix == "" || prefix == "v")
    && a != "" && b != "" && c != "" && Text.All(a, Text.IsDigit) && Text.All(b, Text.IsDigit)
    && Text.All(c, Text.IsDigit) && (suffix == "" || suffix[0] == '-' || suffix[0] == '+')
  }

  lemma {:induction false} CoreSplits(s: string)
    ensures exists suffix: string :: s == Core(s) + suffix && (suffix == "" || suffix[0] == '-' || suffix[0] == '+')
    ensures '-' !in Core(s) && '+' !in Core(s)
  {
    if s == "" || s[0] == '-' || s[0] == '+' {
      assert s == Core(s) + s;
    } else {
      CoreSplits(s[1..]);
      var suffix: string :| s[1..] == Core(s[1..]) + suffix && (suffix == "" || suffix[0] == '-' || suffix[0] == '+');
      assert s == Core(s) + suffix;
    }
  }

  lemma ThreeParts(a: string, b: string, c: string)
    requires '.' !in a && '.' !in b && '.' !in c
    ensures Text.Split(a + "." + b + "." + c, '.') == [a, b, c]
    ensures Text.Join([a, b, c], '.') == a + "." + b + "." + c
  {
    JoinThree(a, b, c);
    Regrouped(a, b, c);
    Text.SplitJoin([a, b, c], '.');
  }

  lemma JoinThree(a: string, b: string, c: string)
    ensures Text.Join([a, b, c], '.') == a + "." + (b + "." + c)
  {
    assert [a, b, c][1..] == [b, c] && [b, c][1..] == [c];
    assert Text.Join([b, c], '.') == b + "." + c;
  }

  lemma Regrouped(a: string, b: string, c: string)
    ensures a + "." + (b + "." + c) == a + "." + b + "." + c
  {
  }

  lemma VersionParses(version: string, prefix: string, a: string, b: string, c: string, suffix: string)
    requires IsVersion(Text.Trim(version), prefix, a, b, c, suffix)
    ensures ParseSemVer(version) == Some(SemVer(Text.Value(a, 10), Text.Value(b, 10), Text.Value(c, 10)))
  {
    var core := a + "." + b + "." + c;
    assert (prefix + core + suffix)[|prefix|..] == core + suffix && core[0] == a[0];
    assert prefix == "v" ==> (prefix + core + suffix)[0] == 'v';
    assert prefix == "" ==> (prefix + core + suffix)[0] == a[0];
    assert Cleaned(version) == Core(core + suffix);
    assert forall i :: 0 <= i < |core| ==> Text.IsDigit(core[i]) || core[i] == '.';
    CoreOf(core, suffix);
    ThreeParts(a, b, c);
  }

  lemma {:induction false} CoreOf(core: string, suffix: string)
    requires '-' !in core && '+' !in core && (suffix == "" || suffix[0] == '-' || suffix[0] == '+')
    ensures Core(core + suffix) == core
  {
    if core != "" {
      assert (core + suffix)[1..] == core[1..] + suffix;
      CoreOf(core[1..], suffix);
    } else {
      assert core + suffix == suffix;
    }
  }

  /** Exactly such texts are versions, white space around them aside. */
  lemma ParsesExactlyWhen(version: string)
    ensures ParseSemVer(version).Some? <==>
            exists prefix: string, a: string, b: string, c: string, suffix: string ::
              IsVersion(Text.Trim(version), prefix, a, b, c, suffix)
  {
    if prefix, a, b, c, suffix :| IsVersion(Text.Trim(version), prefix, a, b, c, suffix) {
      VersionParses(version, prefix, a, b, c, suffix);
    }
    if ParseSemVer(version).Some? {
      var t := Text.Trim(version);
      var prefix := if t != "" && t[0] == 'v' then "v" else "";
      CoreIsVersion(t[|prefix|..], prefix, t);
    }
  }

  lemma CoreIsVersion(body: string, prefix: string, t: string)
    requires t == prefix + body && (prefix == "" || prefix == "v")
    requires var parts := Text.Split(Core(body), '.');
             |parts| == 3 && IsNumber(parts[0]) && IsNumber(parts[1]) && IsNumber(parts[2])
    ensures exists a: string, b: string, c: string, suffix: string :: IsVersion(t, prefix, a, b, c, suffix)
  {
    var parts := Text.Split(Core(body), '.');
    CoreSplits(body);
    var suffix: string :| body == Core(body) + suffix && (suffix == "" || suffix[0] == '-' || suffix[0] == '+');
    Text.JoinSplit(Core(body), '.');
    ThreeParts(parts[0], parts[1], parts[2]);
    assert parts == [parts[0], parts[1], parts[2]];
    assert prefix + (Core(body) + suffix) == prefix + Core(body) + suffix;
    assert IsVersion(t, prefix, parts[0], parts[1], parts[2], suffix);
  }

  /** A printed version parses back, with or without the `v` and a pre-release or build suffix. */
  lemma ParsePrint(v: SemVer, prefix: string, suffix: string)
    requires prefix == "" || prefix == "v"
    requires suffix == "" || ((suffix[0] == '-' || suffix[0] == '+') && !Text.IsSpace(suffix[|suffix| - 1]))
    ensures ParseSemVer(prefix + Print(v) + suffix) == Some(v)
  {
    PrintChars(v);
    CleanedPrint(Print(v), prefix, suffix);
    var parts := [Text.Decimal(v.major), Text.Decimal(v.minor), Text.Decimal(v.patch)];
    Text.NumeralValue(v.major, 10);
    Text.NumeralValue(v.minor, 10);
    Text.NumeralValue(v.patch, 10);
    assert forall i :: 0 <= i < 3 ==> '.' !in parts[i];
    Text.SplitJoin(parts, '.');
  }

  lemma CleanedPrint(s: string, prefix: string, suffix: string)
    requires s != "" && forall i :: 0 <= i < |s| ==> VersionChar(s[i]) && !Text.IsSpace(s[i])
    requires prefix == "" || prefix == "v"
    requires suffix == "" || ((suffix[0] == '-' || suffix[0] == '+') && !Text.IsSpace(suffix[|suffix| - 1]))
    ensures Cleaned(prefix + s + suffix) == s
  {
    var t := prefix + s + suffix;
    assert VersionChar(s[0]) && !Text.IsSpace(s[0]) && !Text.IsSpace(s[|s| - 1]);
    assert t[0] == if prefix == "" then s[0] else 'v';
    assert t[|t| - 1] == if suffix == "" then s[|s| - 1] else suffix[|suffix| - 1];
    Text.TrimFacts(t);
    assert (if t[0] == 'v' then t[1..] else t) == s + suffix;
    assert forall i :: 0 <= i < |s| ==> VersionChar(s[i]);
    CoreStops(s, suffix);
  }

  predicate VersionChar(c: char) {
    Text.IsDigit(c) || c == '.'
  }

  lemma PrintChars(v: SemVer)
    ensures Print(v) != "" && forall i :: 0 <= i < |Print(v)| ==> VersionChar(Print(v)[i]) && !Text.IsSpace(Print(v)[i])
  {
    var a, b, c := Text.Decimal(v.major), Text.Decimal(v.minor), Text.Decimal(v.patch);
    assert [a, b, c][1..] == [b, c] && [b, c][1..] == [c];
    assert Text.Join([b, c], '.') == b + ['.'] + c;
    assert Print(v) == a + ['.'] + (b + ['.'] + c);
  }

  lemma {:induction false} CoreStops(s: string, suffix: string)
    requires forall i :: 0 <= i < |s| ==> s[i] != '-' && s[i] != '+'
    requires suffix == "" || suffix[0] == '-' || suffix[0] == '+'
    ensures Core(s + suffix) == s
  {
    if s == "" {
      assert s + suffix == suffix;
    } else {
      assert (s + suffix)[1..] == s[1..] + suffix;
      CoreStops(s[1..], suffix);
    }
  }

  // ---------------------------------------------------------------- upgrades compose

  lemma {:induction false} StepsSplit(declared: seq<Step>, lo: int, mid: int, hi: int)
    requires lo <= mid + 1 && mid <= hi
    ensures StepsTo(declared, lo, hi) == StepsTo(declared, lo, mid) + StepsTo(declared, mid + 1, hi)
    ensures FirstMissing(declared, lo, hi) ==
            if FirstMissing(declared, lo, mid).Some? then FirstMissing(declared, lo, mid)
                else FirstMissing(declared, mid + 1, hi)
    decreases mid - lo + 1
  {
    if lo <= mid {
      StepsSplit(declared, lo + 1, mid, hi);
    }
  }

  predicate Declared(declared: seq<Step>, major: int) {
    exists s :: s in declared && s.toMajor == major
  }

  lemma {:induction false} FindStepFacts(declared: seq<Step>, major: int)
    ensures FindStep(declared, major).Some? <==> Declared(declared, major)
    ensures FindStep(declared, major).Some?
            ==> FindStep(declared, major).value in declared && FindStep(declared, major).value.toMajor == major
  {
    if declared != [] {
      if declared[0].toMajor == major {
        assert declared[0] in declared;
      } else {
        FindStepFacts(declared[1..], major);
        assert forall s :: s in declared <==> s == declared[0] || s in declared[1..];
      }
    }
  }

  /** Nothing missing: one step per major, in increasing order; otherwise the least undeclared major is named. */
  lemma {:induction false} StepsInOrder(declared: seq<Step>, lo: int, hi: int)
    requires lo <= hi + 1
    ensures var missing := FirstMissing(declared, lo, hi);
            && (missing.None? <==> forall m :: lo <= m <= hi ==> Declared(declared, m))
            && (missing.Some? ==> lo <= missing.value <= hi && !Declared(declared, missing.value)
                                  && forall m :: lo <= m < missing.value ==> Declared(declared, m))
    ensures FirstMissing(declared, lo, hi).None? ==>
              && |StepsTo(declared, lo, hi)| == hi - lo + 1
              && forall i :: 0 <= i <= hi - lo ==>
                   StepsTo(declared, lo, hi)[i] in declared
                   && StepsTo(declared, lo, hi)[i].toMajor == lo + i
    decreases hi - lo + 1
  {
    if lo <= hi {
      FindStepFacts(declared, lo);
      StepsInOrder(declared, lo + 1, hi);
      if FirstMissing(declared, lo, hi).None? {
        assert StepsTo(declared, lo, hi) == [FindStep(declared, lo).value] + StepsTo(declared, lo + 1, hi);
      }
    }
  }

  /** The class of an upgrade is the first number that differs; only major ones ask for confirmation and migrate. */
  lemma PreviewByFirstDifference(a: SemVer, b: SemVer, declared: seq<Step>)
    ensures a.major < b.major ==>
              var steps := StepsTo(declared, a.major + 1, b.major);
              Previewed(true, Some(a), Some(b), declared) ==
              (match FirstMissing(declared, a.major + 1, b.major)
               case None => Ok(Preview(Major, true, steps, true))
               case Some(m) => Err(MigrationRequired(m)))
    ensures a.major == b.major && a.minor < b.minor ==>
              Previewed(true, Some(a), Some(b), declared) == Ok(Preview(Minor, false, [], false))
    ensures a.major == b.major && a.minor == b.minor && a.patch < b.patch ==>
              Previewed(true, Some(a), Some(b), declared) == Ok(Preview(Patch, false, [], false))
    ensures b.major < a.major || (b.major == a.major && b.minor < a.minor)
            || (b.major == a.major && b.minor == a.minor && b.patch <= a.patch)
            ==> Previewed(true, Some(a), Some(b), declared) == Err(VersionNotNewer)
  {
    if a.major < b.major {
      StepsInOrder(declared, a.major + 1, b.major);
    }
  }

  /** What is not known is refused first: the module, then the target; an unreadable present version is never older. */
  lemma UnknownIsRefused(from: Option<SemVer>, to: Option<SemVer>, declared: seq<Step>)
    ensures Previewed(false, from, to, declared) == Err(ModuleUnknown)
    ensures Previewed(true, from, None, declared) == Err(VersionUnknown)
    ensures to.Some? ==> Previewed(true, None, to, declared) == Err(VersionNotNewer)
  {
  }

  /**
   * An upgrade goes through exactly when the module and both versions are known, it goes up, and no crossed major lacks
   * a step.
   */
  lemma UpgradeExactlyWhen(known: bool, a: Option<SemVer>, b: Option<SemVer>, declared: seq<Step>)
    ensures Previewed(known, a, b, declared).Ok? <==>
            && known && a.Some? && b.Some? && Compare(a.value, b.value) < 0
            && forall m :: a.value.major < m <= b.value.major ==> Declared(declared, m)
    ensures var r := Previewed(known, a, b, declared);
            r.Ok? ==>
              && |r.value.migrations| == b.value.major - a.value.major
              && forall i :: 0 <= i < |r.value.migrations| ==> r.value.migrations[i].toMajor == a.value.major + 1 + i
  {
    if a.Some? && b.Some? && Compare(a.value, b.value) < 0 {
      StepsInOrder(declared, a.value.major + 1, b.value.major);
    }
  }

  /**
   * Going from `a` to `c` directly is the same as stopping at `b` on the way: same verdict, same migrations in the same
   * order.
   */
  lemma UpgradeViaMiddle(known: bool, a: SemVer, b: SemVer, c: SemVer, declared: seq<Step>)
    requires Compare(a, b) < 0 && Compare(b, c) < 0
    ensures Compare(a, c) < 0
    ensures Previewed(known, Some(a), Some(c), declared).Ok? <==>
            Previewed(known, Some(a), Some(b), declared).Ok? && Previewed(known, Some(b), Some(c), declared).Ok?
    ensures RequiredMigrations(Some(a), Some(c), declared) ==
            RequiredMigrations(Some(a), Some(b), declared) + RequiredMigrations(Some(b), Some(c), declared)
  {
    CompareTransitive(a, b, c);
    StepsSplit(declared, a.major + 1, b.major, c.major);
    UpwardsIsBySteps(known, a, b, declared);
    UpwardsIsBySteps(known, b, c, declared);
    UpwardsIsBySteps(known, a, c, declared);
  }

  lemma CompareTransitive(a: SemVer, b: SemVer, c: SemVer)
    requires Compare(a, b) < 0 && Compare(b, c) < 0
    ensures Compare(a, c) < 0 && a.major <= b.major <= c.major
  {
  }

  lemma UpwardsIsBySteps(known: bool, a: SemVer, b: SemVer, declared: seq<Step>)
    requires Compare(a, b) < 0
    ensures Previewed(known, Some(a), Some(b), declared).Ok?
            <==> known && FirstMissing(declared, a.major + 1, b.major).None?
    ensures RequiredMigrations(Some(a), Some(b), declared) == StepsTo(declared, a.major + 1, b.major)
  {
  }

  ghost predicate Ascending(versions: seq<SemVer>) {
    |versions| >= 2 ==>
      Ascending(versions[..|versions| - 1]) && Compare(versions[|versions| - 2], versions[|versions| - 1]) < 0
  }

  ghost predicate AllHopsOk(known: bool, versions: seq<SemVer>, declared: seq<Step>) {
    |versions| >= 2 ==>
      && AllHopsOk(known, versions[..|versions| - 1], declared)
      && Previewed(known, Some(versions[|versions| - 2]), Some(versions[|versions| - 1]), declared).Ok?
  }

  function MigrationsAlong(versions: seq<SemVer>, declared: seq<Step>): seq<Step> {
    if |versions| < 2 then []
    else MigrationsAlong(versions[..|versions| - 1], declared)
         + RequiredMigrations(Some(versions[|versions| - 2]), Some(versions[|versions| - 1]), declared)
  }

  /**
   * Along any ascending list of releases, the direct upgrade is possible exactly when every hop is, and runs the same
   * migrations.
   */
  lemma {:induction false} UpgradeAlongReleases(known: bool, versions: seq<SemVer>, declared: seq<Step>)
    requires |versions| >= 2 && Ascending(versions)
    ensures var a, z := versions[0], versions[|versions| - 1];
            && Compare(a, z) < 0
            && (Previewed(known, Some(a), Some(z), declared).Ok? <==> AllHopsOk(known, versions, declared))
            && RequiredMigrations(Some(a), Some(z), declared) == MigrationsAlong(versions, declared)
  {
    var n := |versions|;
    if n == 2 {
      assert MigrationsAlong(versions[..1], declared) == [];
    } else {
      UpgradeAlongReleases(known, versions[..n - 1], declared);
      UpgradeViaMiddle(known, versions[0], versions[n - 2], versions[n - 1], declared);
    }
  }
}
