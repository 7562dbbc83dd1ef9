/** Astro Runtime versions: the old `X.Y.Z` format and the new `X.Y-Z[pre]` format under one
    comparison. */
module RuntimeVersions {
  import opened Strings
  import SemVer

  datatype VersionParts = VersionParts(airflowMajor: string, airflowMinor: string, astronomerPatch: string,
      prerelease: string)

  // ---------- the new format ----------

  /** What the tail of a new-format version may be: nothing, or `.` or `-` and at least one
      character, none of them a newline. Yields the pre-release. */
  function ParseTail(rest: string): Option<string> {
    if rest == "" then Some("")
    else if rest[0] in ".-" && |rest| > 1 && '\n' !in rest[1..] then Some(rest[1..])
    else None
  }

  function ParseNewFormat(v: string): Option<VersionParts> {
    var Piece(major, v1) :- Digits(v);
    var w1 :- After(v1, ".");
    var Piece(minor, v2) :- Digits(w1);
    var w2 :- After(v2, "-");
    var Piece(patch, v3) :- Digits(w2);
    var prerelease :- ParseTail(v3);
    Some(VersionParts(major, minor, patch, prerelease))
  }

  predicate IsNewFormat(v: string) { ParseNewFormat(v).Some? }

  /** The four groups of the pattern: three numbers and a one-line pre-release. */
  predicate IsParts(p: VersionParts) {
    && p.airflowMajor != "" && AllDigits(p.airflowMajor)
    && p.airflowMinor != "" && AllDigits(p.airflowMinor)
    && p.astronomerPatch != "" && AllDigits(p.astronomerPatch)
    && '\n' !in p.prerelease
  }

  /** The text the pattern `X.Y-Z`, or `X.Y-Z` `sep` `P`, stands for. */
  function Spell(p: VersionParts, sep: char): string {
    p.airflowMajor + ("." + (p.airflowMinor + ("-" + (p.astronomerPatch +
      (if p.prerelease == "" then "" else [sep] + p.prerelease)))))
  }

  /** Every spelling of four groups is read back as those groups. */
  lemma SpellingIsParsed(p: VersionParts, sep: char)
    requires IsParts(p) && sep in ".-"
    ensures ParseNewFormat(Spell(p, sep)) == Some(p)
  {
    hide Digits, After, DigitRun;
    var tail := if p.prerelease == "" then "" else [sep] + p.prerelease;
    var s3 := p.astronomerPatch + tail;
    DigitsOf(p.airflowMajor, "." + (p.airflowMinor + ("-" + s3)));
    AfterOf(".", p.airflowMinor + ("-" + s3));
    DigitsOf(p.airflowMinor, "-" + s3);
    AfterOf("-", s3);
    DigitsOf(p.astronomerPatch, tail);
  }

  /** What is read as four groups is a spelling of them. */
  lemma ParsedIsSpelling(v: string) returns (sep: char)
    requires IsNewFormat(v)
    ensures sep in ".-" && IsParts(ParseNewFormat(v).value) && v == Spell(ParseNewFormat(v).value, sep)
  {
    hide Digits, After, DigitRun;
    var Piece(major, v1) := Digits(v).value;
    var w1 := After(v1, ".").value;
    var Piece(minor, v2) := Digits(w1).value;
    var w2 := After(v2, "-").value;
    var Piece(patch, v3) := Digits(w2).value;
    sep := if v3 == "" then '.' else v3[0];
    assert v3 == if ParseNewFormat(v).value.prerelease == "" then "" else [sep] + v3[1..];
  }

  // ---------- validity and comparison ----------

  function StripVersionPrefix(version: string): string { TrimPrefix(version, "v") }

  function NormalizeVersion(v: string): string {
    match ParseNewFormat(v)
    case None => v
    case Some(p) =>
      p.airflowMajor + ("." + (p.airflowMinor + ("." + (p.astronomerPatch +
        (if p.prerelease != "" then "-" + p.prerelease else "")))))
  }

  predicate IsValidRuntimeVersion(version: string) {
    SemVer.IsValid("v" + NormalizeVersion(StripVersionPrefix(version)))
  }

  function CompareRuntimeVersions(v1: string, v2: string): int {
    if !IsValidRuntimeVersion(v1) && !IsValidRuntimeVersion(v2) then 0
    else if !IsValidRuntimeVersion(v1) then -1
    else if !IsValidRuntimeVersion(v2) then 1
    else
      var s1, s2 := StripVersionPrefix(v1), StripVersionPrefix(v2);
      if IsNewFormat(s1) && !IsNewFormat(s2) then 1
      else if !IsNewFormat(s1) && IsNewFormat(s2) then -1
      else SemVer.Compare("v" + NormalizeVersion(s1), "v" + NormalizeVersion(s2))
  }

  // ---------- the order of all strings ----------

  /** Three bands, lowest first; within a band the SemVer precedence decides. */
  datatype Rank = Invalid | OldFormat(oldVersion: SemVer.Version) | NewFormat(newVersion: SemVer.Version)

  function RankOf(v: string): Rank {
    var s := StripVersionPrefix(v);
    match SemVer.Key("v" + NormalizeVersion(s))
    case None => Invalid
    case Some(key) => if IsNewFormat(s) then NewFormat(key) else OldFormat(key)
  }

  function RankOrder(a: Rank, b: Rank): int {
    match (a, b)
    case (Invalid, Invalid) => 0
    case (OldFormat(x), OldFormat(y)) => SemVer.Precedence(x, y)
    case (NewFormat(x), NewFormat(y)) => SemVer.Precedence(x, y)
    case (Invalid, _) => -1
    case (_, Invalid) => 1
    case (OldFormat(_), NewFormat(_)) => -1
    case (NewFormat(_), OldFormat(_)) => 1
  }

  lemma CompareIsRankOrder(v1: string, v2: string)
    ensures CompareRuntimeVersions(v1, v2) == RankOrder(RankOf(v1), RankOf(v2))
  {
    hide NormalizeVersion, IsNewFormat, SemVer.Parse, SemVer.Precedence, SemVer.CompareParsed, SemVer.Denotes;
    SemVer.CompareIsPrecedence("v" + NormalizeVersion(StripVersionPrefix(v1)),
        "v" + NormalizeVersion(StripVersionPrefix(v2)));
  }

  lemma RankOrderLaws(a: Rank, b: Rank, c: Rank)
    ensures RankOrder(a, a) == 0
    ensures RankOrder(a, b) == -RankOrder(b, a)
    ensures -1 <= RankOrder(a, b) <= 1
    ensures RankOrder(a, b) == 0 <==> a == b
    ensures RankOrder(a, b) <= 0 && RankOrder(b, c) <= 0 ==> RankOrder(a, c) <= 0
  {
    match (a, b)
    case (OldFormat(x), OldFormat(y)) =>
      SemVer.PrecedenceLaws(x, y);
      SemVer.PrecedenceLaws(x, x);
      if c.OldFormat? && RankOrder(a, b) <= 0 && RankOrder(b, c) <= 0 {
        SemVer.PrecedenceTransitive(x, y, c.oldVersion);
      }
    case (NewFormat(x), NewFormat(y)) =>
      SemVer.PrecedenceLaws(x, y);
      SemVer.PrecedenceLaws(x, x);
      if c.NewFormat? && RankOrder(a, b) <= 0 && RankOrder(b, c) <= 0 {
        SemVer.PrecedenceTransitive(x, y, c.newVersion);
      }
    case (OldFormat(x), _) => SemVer.PrecedenceLaws(x, x);
    case (NewFormat(x), _) => SemVer.PrecedenceLaws(x, x);
    case _ =>
  }

  /** On all strings the comparison is reflexive, antisymmetric in sign, transitive and
      total. */
  lemma CompareIsTotalPreorder(u: string, v: string, w: string)
    ensures CompareRuntimeVersions(u, u) == 0
    ensures CompareRuntimeVersions(u, v) == -CompareRuntimeVersions(v, u)
    ensures -1 <= CompareRuntimeVersions(u, v) <= 1
    ensures CompareRuntimeVersions(u, v) <= 0 && CompareRuntimeVersions(v, w) <= 0 ==> CompareRuntimeVersions(u, w) <= 0
    ensures CompareRuntimeVersions(u, v) == 0 ==> CompareRuntimeVersions(u, w) == CompareRuntimeVersions(v, w)
  {
    CompareIsRankOrder(u, u);
    CompareIsRankOrder(u, v);
    CompareIsRankOrder(v, u);
    CompareIsRankOrder(v, w);
    CompareIsRankOrder(u, w);
    RankOrderLaws(RankOf(u), RankOf(v), RankOf(w));
  }

  /** Every invalid string is below every valid one, and every valid old-format version is
      below every valid new-format one, whatever the numbers. */
  lemma BandsAreOrdered(low: string, high: string)
    requires IsValidRuntimeVersion(high)
    requires !IsValidRuntimeVersion(low)
             || (!IsNewFormat(StripVersionPrefix(low)) && IsNewFormat(StripVersionPrefix(high)))
    ensures CompareRuntimeVersions(low, high) == -1 && CompareRuntimeVersions(high, low) == 1
  {
    CompareIsRankOrder(low, high);
    CompareIsRankOrder(high, low);
  }

  // ---------- the leading `v` ----------

  /** A prepended `v` makes no difference, against any version, exactly when the string is
      not already a valid version that starts with one: only one `v` is stripped. */
  lemma LeadingVIsIgnoredExactly(s: string)
    ensures (forall w :: CompareRuntimeVersions("v" + s, w) == CompareRuntimeVersions(s, w))
            <==> !(HasPrefix(s, "v") && IsValidRuntimeVersion(s))
  {
    assert StripVersionPrefix("v" + s) == s;
    if HasPrefix(s, "v") {
      DoubleVIsInvalid(s);
      forall w ensures !IsValidRuntimeVersion(s) ==>
          CompareRuntimeVersions("v" + s, w) == CompareRuntimeVersions(s, w) {}
      if IsValidRuntimeVersion(s) {
        assert CompareRuntimeVersions("v" + s, s) == -1;
        CompareIsTotalPreorder(s, s, s);
      }
    } else {
      assert StripVersionPrefix(s) == s;
      assert IsValidRuntimeVersion("v" + s) == IsValidRuntimeVersion(s);
      forall w ensures CompareRuntimeVersions("v" + s, w) == CompareRuntimeVersions(s, w) {}
    }
  }

  lemma DoubleVIsInvalid(s: string)
    requires HasPrefix(s, "v")
    ensures !IsValidRuntimeVersion("v" + s)
  {
    assert StripVersionPrefix("v" + s) == s;
    assert DigitRun(s) == 0;
    assert ("v" + s)[1..] == s;
  }

  // ---------- the Airflow major version ----------

  /** `semver.Major` without its `v`, "" for an invalid version. */
  function RuntimeVersionMajor(version: string): string {
    match SemVer.Parse("v" + NormalizeVersion(StripVersionPrefix(version)))
    case None => ""
    case Some(p) => p.major
  }

  function AirflowMajorVersionForRuntimeVersion(runtimeVersion: string): string {
    if !IsNewFormat(runtimeVersion) then (if SemVer.IsValid("v" + StripVersionPrefix(runtimeVersion)) then "2" else "")
    else RuntimeVersionMajor(runtimeVersion)
  }

  lemma ParsedMajorIsNotEmpty(v: string)
    ensures SemVer.Parse(v).Some? ==> SemVer.Parse(v).value.major != ""
  {}

  lemma NewFormatIsNotSemVer(s: string)
    requires IsNewFormat(s)
    ensures s[0] != 'v' && !SemVer.IsValid("v" + s) && !IsNewFormat("v" + s)
  {
    hide Digits, After, DigitRun;
    var sep := ParsedIsSpelling(s);
    var p := ParseNewFormat(s).value;
    var rest := "-" + (p.astronomerPatch + (if p.prerelease == "" then "" else [sep] + p.prerelease));
    assert s == p.airflowMajor + ("." + (p.airflowMinor + rest));
    assert s[0] == p.airflowMajor[0];
    AfterOf("v", s);
    DigitsOf(p.airflowMajor, "." + (p.airflowMinor + rest));
    AfterOf(".", p.airflowMinor + rest);
    DigitsOf(p.airflowMinor, rest);
    assert rest[0] == '-';
    assert After(rest, ".").None?;
    NoDigitsFirst("v" + s);
  }

  lemma NoDigitsFirst(s: string)
    requires s != "" && !IsDigit(s[0])
    ensures !IsNewFormat(s) && !SemVer.IsValid("v" + s)
  {
    assert ("v" + s)[1..] == s;
  }

  /** Unlike the comparison, the Airflow major version is not insensitive to a prepended `v`:
      the format is tested before the `v` is stripped. It is the same exactly when the string
      is neither a valid new-format version nor a SemVer string that has its `v` already. */
  lemma AirflowMajorIgnoresLeadingVExactly(s: string)
    ensures AirflowMajorVersionForRuntimeVersion("v" + s) == AirflowMajorVersionForRuntimeVersion(s)
            <==> !(IsNewFormat(s) && IsValidRuntimeVersion(s)) && !(HasPrefix(s, "v") && SemVer.IsValid(s))
  {
    hide SemVer.Parse, NormalizeVersion, IsNewFormat;
    assert StripVersionPrefix("v" + s) == s;
    NoDigitsFirst("v" + s);
    if IsNewFormat(s) {
      NewFormatIsNotSemVer(s);
      assert StripVersionPrefix(s) == s;
      ParsedMajorIsNotEmpty("v" + NormalizeVersion(s));
    } else if HasPrefix(s, "v") {
      assert s == "v" + s[1..];
      NoDigitsFirst(s);
    } else {
      assert StripVersionPrefix(s) == s;
    }
  }

  // ---------- new-format versions by number ----------

  /** The identifiers of a pre-release; build metadata, after a `+`, does not count. */
  function PrereleaseIdents(pre: string): seq<SemVer.Ident> {
    if pre == "" then [] else SemVer.IdentsOf(pre[..SemVer.IndexOf(pre, '+')])
  }

  function NumericKey(p: VersionParts): SemVer.Version
    requires IsParts(p)
  {
    SemVer.Version(Value(p.airflowMajor), Value(p.airflowMinor), Value(p.astronomerPatch),
        PrereleaseIdents(p.prerelease))
  }

  lemma NormalizedSuffix(pre: string)
    requires pre != "" && SemVer.ParseSuffix("-" + pre).Some?
    ensures SemVer.ParseSuffix("-" + pre).value == "-" + pre[..SemVer.IndexOf(pre, '+')]
  {
    var v := "-" + pre;
    assert v[1..] == pre;
    assert SemVer.IndexOf(v, '+') == 1 + SemVer.IndexOf(pre, '+');
    var n := SemVer.IndexOf(pre, '+');
    assert v[..n + 1] == "-" + pre[..n];
  }

  function NormalizedTail(p: VersionParts): string {
    if p.prerelease != "" then "-" + p.prerelease else ""
  }

  /** A new-format version is valid exactly when its numbers have no leading zeros and its
      pre-release is well formed. */
  lemma SpellingParses(p: VersionParts, sep: char)
    requires IsParts(p) && sep in ".-"
    ensures StripVersionPrefix(Spell(p, sep)) == Spell(p, sep) && IsNewFormat(Spell(p, sep))
    ensures SemVer.Parse("v" + NormalizeVersion(Spell(p, sep))) ==
            if Canonical(p.airflowMajor) && Canonical(p.airflowMinor) && Canonical(p.astronomerPatch)
               && SemVer.ParseSuffix(NormalizedTail(p)).Some?
            then Some(SemVer.Parsed(p.airflowMajor, p.airflowMinor, p.astronomerPatch,
                SemVer.ParseSuffix(NormalizedTail(p)).value))
            else None
  {
    SpellingIsParsed(p, sep);
    assert Spell(p, sep)[0] == p.airflowMajor[0];
    SemVer.ParseTriple(p.airflowMajor, p.airflowMinor, p.astronomerPatch, NormalizedTail(p));
  }

  /** What makes three numbers and a pre-release a version. */
  predicate IsWellFormed(p: VersionParts) {
    && Canonical(p.airflowMajor) && Canonical(p.airflowMinor) && Canonical(p.astronomerPatch)
    && SemVer.ParseSuffix(NormalizedTail(p)).Some?
  }

  /** The old format of the same groups: `X.Y.Z`, or `X.Y.Z-P`. */
  function SpellOld(p: VersionParts): string {
    p.airflowMajor + ("." + (p.airflowMinor + ("." + (p.astronomerPatch + NormalizedTail(p)))))
  }

  /** The old format is not taken for the new one, is compared as it stands, and is valid under
      the same condition, with or without a `v`. */
  lemma OldSpellingParses(p: VersionParts)
    requires IsParts(p)
    ensures !IsNewFormat(SpellOld(p)) && StripVersionPrefix(SpellOld(p)) == SpellOld(p)
    ensures StripVersionPrefix("v" + SpellOld(p)) == SpellOld(p) && !IsNewFormat("v" + SpellOld(p))
    ensures SemVer.Parse("v" + SpellOld(p)) ==
            if IsWellFormed(p)
            then Some(SemVer.Parsed(p.airflowMajor, p.airflowMinor, p.astronomerPatch,
                SemVer.ParseSuffix(NormalizedTail(p)).value))
            else None
  {
    hide Digits, After, DigitRun;
    var tail := "." + (p.astronomerPatch + NormalizedTail(p));
    DigitsOf(p.airflowMajor, "." + (p.airflowMinor + tail));
    AfterOf(".", p.airflowMinor + tail);
    DigitsOf(p.airflowMinor, tail);
    assert After(tail, "-").None?;
    assert SpellOld(p)[0] == p.airflowMajor[0];
    NoDigitsFirst("v" + SpellOld(p));
    assert ("v" + SpellOld(p))[1..] == SpellOld(p);
    SemVer.ParseTriple(p.airflowMajor, p.airflowMinor, p.astronomerPatch, NormalizedTail(p));
  }

  /** Validity of both formats, by their groups. */
  lemma ValidExactly(p: VersionParts, sep: char)
    requires IsParts(p) && sep in ".-"
    ensures IsValidRuntimeVersion(Spell(p, sep)) <==> IsWellFormed(p)
    ensures IsValidRuntimeVersion(SpellOld(p)) <==> IsWellFormed(p)
    ensures IsValidRuntimeVersion("v" + SpellOld(p)) <==> IsWellFormed(p)
  {
    SpellingParses(p, sep);
    OldSpellingParses(p);
    hide SemVer.Parse, IsNewFormat, SpellOld, Spell;
  }

  /** The Airflow major version: X of a valid `X.Y-Z`, 2 for a valid old-format version. */
  lemma AirflowMajorIs(p: VersionParts, sep: char)
    requires IsParts(p) && sep in ".-"
    ensures AirflowMajorVersionForRuntimeVersion(Spell(p, sep)) == if IsWellFormed(p) then p.airflowMajor else ""
    ensures AirflowMajorVersionForRuntimeVersion(SpellOld(p)) == if IsWellFormed(p) then "2" else ""
    ensures AirflowMajorVersionForRuntimeVersion("v" + SpellOld(p)) == if IsWellFormed(p) then "2" else ""
  {
    SpellingParses(p, sep);
    OldSpellingParses(p);
    hide SemVer.Parse, IsNewFormat, SpellOld, Spell, NormalizeVersion;
  }

  /** A valid new-format version ranks by its three numbers and its pre-release. */
  lemma NewFormatRank(p: VersionParts, sep: char)
    requires IsParts(p) && sep in ".-" && IsValidRuntimeVersion(Spell(p, sep))
    ensures RankOf(Spell(p, sep)) == NewFormat(NumericKey(p))
  {
    SpellingParses(p, sep);
    if p.prerelease != "" {
      NormalizedSuffix(p.prerelease);
      var cut := p.prerelease[..SemVer.IndexOf(p.prerelease, '+')];
      assert ("-" + cut)[1..] == cut;
    }
  }

  /** Valid new-format versions compare by X, then Y, then Z as numbers, then by pre-release
      precedence, whichever separators they use. */
  lemma NewFormatOrderIsNumeric(p: VersionParts, sep: char, q: VersionParts, tep: char)
    requires IsParts(p) && sep in ".-" && IsValidRuntimeVersion(Spell(p, sep))
    requires IsParts(q) && tep in ".-" && IsValidRuntimeVersion(Spell(q, tep))
    ensures CompareRuntimeVersions(Spell(p, sep), Spell(q, tep)) ==
            SemVer.Or(CompareNat(Value(p.airflowMajor), Value(q.airflowMajor)),
            SemVer.Or(CompareNat(Value(p.airflowMinor), Value(q.airflowMinor)),
            SemVer.Or(CompareNat(Value(p.astronomerPatch), Value(q.astronomerPatch)),
                      SemVer.PreOrder(PrereleaseIdents(p.prerelease), PrereleaseIdents(q.prerelease)))))
  {
    hide CompareRuntimeVersions, RankOf, Spell, IsValidRuntimeVersion, PrereleaseIdents;
    NewFormatRank(p, sep);
    NewFormatRank(q, tep);
    CompareIsRankOrder(Spell(p, sep), Spell(q, tep));
  }

  lemma OldFormatRank(p: VersionParts)
    requires IsParts(p) && IsWellFormed(p)
    ensures RankOf(SpellOld(p)) == OldFormat(NumericKey(p))
  {
    OldSpellingParses(p);
    if p.prerelease != "" {
      NormalizedSuffix(p.prerelease);
      var cut := p.prerelease[..SemVer.IndexOf(p.prerelease, '+')];
      assert ("-" + cut)[1..] == cut;
    }
    hide SemVer.Parse, IsNewFormat, SpellOld;
  }

  /** X first, then Y, then Z as numbers; then a release above its pre-releases, and these by
      their identifiers. */
  function OrderOfParts(p: VersionParts, q: VersionParts): int
    requires IsParts(p) && IsParts(q)
  {
    var (x, y, z) := (Value(p.airflowMajor), Value(p.airflowMinor), Value(p.astronomerPatch));
    var (u, v, w) := (Value(q.airflowMajor), Value(q.airflowMinor), Value(q.astronomerPatch));
    if x < u || (x == u && (y < v || (y == v && z < w))) then -1
    else if x != u || y != v || z != w then 1
    else if p.prerelease == "" then (if q.prerelease == "" then 0 else 1)
    else if q.prerelease == "" then -1
    else SemVer.IdentsOrder(PrereleaseIdents(p.prerelease), PrereleaseIdents(q.prerelease))
  }

  /** In each format versions compare by their groups, and between the formats the new one is
      above, whatever the numbers. */
  lemma BothFormatsCompare(p: VersionParts, sep: char, q: VersionParts, tep: char)
    requires IsParts(p) && IsWellFormed(p) && IsParts(q) && IsWellFormed(q) && sep in ".-" && tep in ".-"
    ensures CompareRuntimeVersions(Spell(p, sep), Spell(q, tep)) == OrderOfParts(p, q)
    ensures CompareRuntimeVersions(SpellOld(p), SpellOld(q)) == OrderOfParts(p, q)
    ensures CompareRuntimeVersions(SpellOld(p), Spell(q, tep)) == -1
  {
    hide CompareRuntimeVersions, RankOf, Spell, SpellOld, IsValidRuntimeVersion, IsWellFormed;
    ValidExactly(p, sep);
    ValidExactly(q, tep);
    NewFormatRank(p, sep);
    NewFormatRank(q, tep);
    OldFormatRank(p);
    OldFormatRank(q);
    CompareIsRankOrder(Spell(p, sep), Spell(q, tep));
    CompareIsRankOrder(SpellOld(p), SpellOld(q));
    CompareIsRankOrder(SpellOld(p), Spell(q, tep));
  }

  /** One version with this pre-release. */
  function With(p: VersionParts, pre: string): VersionParts { p.(prerelease := pre) }

  lemma PrereleasesDecide(p: VersionParts, sep: char, x: string, y: string)
    requires IsParts(With(p, x)) && IsWellFormed(With(p, x)) && IsParts(With(p, y)) && IsWellFormed(With(p, y))
    requires sep in ".-" && x != "" && y != "" && '+' !in x && '+' !in y
    ensures CompareRuntimeVersions(Spell(With(p, x), sep), Spell(With(p, y), sep)) ==
            SemVer.IdentsOrder(SemVer.IdentsOf(x), SemVer.IdentsOf(y))
  {
    hide CompareRuntimeVersions, IsWellFormed, Spell;
    BothFormatsCompare(With(p, x), sep, With(p, y), sep);
    SemVer.IndexOfAbsent(x, '+');
    SemVer.IndexOfAbsent(y, '+');
    assert x[..|x|] == x && y[..|y|] == y;
  }

  predicate IsIdent(d: string) { d != "" && '.' !in d && '+' !in d }

  /** Two versions that differ in one identifier of their pre-release, all before it being the
      same: numerals compare by value and are below other identifiers, and those compare byte
      by byte - so `alpha` is below `beta`, and a prefix below what it starts. */
  lemma OneIdentifierDecides(p: VersionParts, sep: char, q: string, a: char, b: char, s: string, t: string,
                             m: nat, n: nat)
    requires IsParts(p) && sep in ".-" && a < b && m < n
    ensures var (x, y) := (q + ([a] + s), q + ([b] + t));
            AreVersions(p, x, y) && !AllDigits(x) && !AllDigits(y) ==> Below(p, sep, x, y)
    ensures AreVersions(p, q, q + ([a] + s)) && !AllDigits(q) ==> Below(p, sep, q, q + ([a] + s))
    ensures AreVersions(p, Itoa(m), Itoa(n)) ==> Below(p, sep, Itoa(m), Itoa(n))
    ensures AreVersions(p, Itoa(m), q) && !AllDigits(q) ==> Below(p, sep, Itoa(m), q)
  {
    hide Below, IsWellFormed, SemVer.IdentOf, SemVer.IdentsOf;
    var (x, y) := (q + ([a] + s), q + ([b] + t));
    if AreVersions(p, x, y) && !AllDigits(x) && !AllDigits(y) {
      SemVer.IdentOrderMeans(q, a, b, s, t, m, n, x);
      BelowByIdent(p, sep, x, y);
    }
    if AreVersions(p, q, x) && !AllDigits(q) {
      SemVer.IdentOrderMeans(q, a, b, s, t, m, n, q);
      BelowByIdent(p, sep, q, x);
    }
    if AreVersions(p, Itoa(m), Itoa(n)) {
      assert !IsDigit("-"[0]);
      SemVer.IdentOrderMeans(q, a, b, s, t, m, n, "-");
      BelowByIdent(p, sep, Itoa(m), Itoa(n));
    }
    if AreVersions(p, Itoa(m), q) && !AllDigits(q) {
      SemVer.IdentOrderMeans(q, a, b, s, t, m, n, q);
      BelowByIdent(p, sep, Itoa(m), q);
    }
  }

  /** Both are identifiers that make a version. */
  predicate AreVersions(p: VersionParts, x: string, y: string) {
    && IsIdent(x) && IsIdent(y)
    && IsParts(With(p, x)) && IsWellFormed(With(p, x)) && IsParts(With(p, y)) && IsWellFormed(With(p, y))
  }

  predicate Below(p: VersionParts, sep: char, x: string, y: string) {
    CompareRuntimeVersions(Spell(With(p, x), sep), Spell(With(p, y), sep)) == -1
  }

  lemma BelowByIdent(p: VersionParts, sep: char, x: string, y: string)
    requires AreVersions(p, x, y) && sep in ".-"
    requires SemVer.IdentOrder(SemVer.IdentOf(x), SemVer.IdentOf(y)) == -1
    ensures Below(p, sep, x, y)
  {
    hide CompareRuntimeVersions, IsWellFormed, Spell, SemVer.IdentOf;
    PrereleasesDecide(p, sep, x, y);
    SemVer.OneIdent(x, true);
    SemVer.OneIdent(y, true);
    SemVer.IdentsOrderMeans([], SemVer.IdentOf(x), SemVer.IdentOf(y), [], []);
    assert [] + ([SemVer.IdentOf(x)] + []) == [SemVer.IdentOf(x)];
    assert [] + ([SemVer.IdentOf(y)] + []) == [SemVer.IdentOf(y)];
  }

  lemma PrereleaseIsWellFormed(p: VersionParts, pre: string)
    requires Canonical(p.airflowMajor) && Canonical(p.airflowMinor) && Canonical(p.astronomerPatch)
    requires pre != "" && '+' !in pre
    ensures IsWellFormed(With(p, pre)) <==> SemVer.ValidIdents(pre, true)
  {
    SemVer.SuffixParts("-" + pre, "");
    assert ("-" + pre) + "" == "-" + pre && ("-" + pre)[1..] == pre;
    hide SemVer.ParseSuffix, SemVer.ValidIdents;
  }

  predicate AllLetters(s: string) { forall i :: 0 <= i < |s| ==> 'A' <= s[i] <= 'Z' || 'a' <= s[i] <= 'z' }

  lemma LettersMakeVersions(p: VersionParts, d: string)
    requires IsParts(With(p, "")) && d != "" && AllLetters(d)
    requires Canonical(p.airflowMajor) && Canonical(p.airflowMinor) && Canonical(p.astronomerPatch)
    ensures IsIdent(d) && !AllDigits(d) && IsParts(With(p, d)) && IsWellFormed(With(p, d))
  {
    assert !IsDigit(d[0]);
    SemVer.OneIdent(d, true);
    PrereleaseIsWellFormed(p, d);
  }

  /** Of two pre-releases in letters, such as `alpha` and `beta`, the first letter that differs
      decides. */
  lemma LettersCompareByByte(p: VersionParts, sep: char, q: string, a: char, b: char, s: string, t: string)
    requires IsParts(p) && sep in ".-" && a < b
    requires Canonical(p.airflowMajor) && Canonical(p.airflowMinor) && Canonical(p.astronomerPatch)
    requires AllLetters(q + ([a] + s)) && AllLetters(q + ([b] + t))
    ensures Below(p, sep, q + ([a] + s), q + ([b] + t))
  {
    hide AllLetters, IsWellFormed, Below;
    LettersMakeVersions(p, q + ([a] + s));
    LettersMakeVersions(p, q + ([b] + t));
    OneIdentifierDecides(p, sep, q, a, b, s, t, 0, 1);
  }

  /** A further identifier makes a pre-release higher, and a common first one does not count. */
  lemma MoreIdentifiersDecide(p: VersionParts, sep: char, d: string, x: string, y: string)
    requires IsParts(p) && sep in ".-" && IsIdent(d) && x != "" && y != "" && '+' !in x && '+' !in y
    requires IsParts(With(p, x)) && IsWellFormed(With(p, x)) && IsParts(With(p, y)) && IsWellFormed(With(p, y))
    requires IsParts(With(p, d)) && IsWellFormed(With(p, d))
    requires IsWellFormed(With(p, d + ("." + x))) && IsWellFormed(With(p, d + ("." + y)))
    ensures Below(p, sep, d, d + ("." + x))
    ensures CompareRuntimeVersions(Spell(With(p, d + ("." + x)), sep), Spell(With(p, d + ("." + y)), sep)) ==
            CompareRuntimeVersions(Spell(With(p, x), sep), Spell(With(p, y), sep))
  {
    hide CompareRuntimeVersions, IsWellFormed, Spell, SemVer.IdentOf, SemVer.IdentsOf;
    var (i, xs, ys) := (SemVer.IdentOf(d), SemVer.IdentsOf(x), SemVer.IdentsOf(y));
    PrereleasesDecide(p, sep, x, y);
    PrereleasesDecide(p, sep, d + ("." + x), d + ("." + y));
    PrereleasesDecide(p, sep, d, d + ("." + x));
    SemVer.OneIdent(d, true);
    SemVer.MoreIdents(d, x, true);
    SemVer.MoreIdents(d, y, true);
    SemVer.IdentOrderLaws(i, i);
    assert ([i] + xs)[1..] == xs && ([i] + ys)[1..] == ys;
    SemVer.IdentsOrderMeans([i], xs[0], xs[0], xs[1..], xs[1..]);
    assert xs == [xs[0]] + xs[1..];
  }

  /** A release is above every pre-release of it. */
  lemma ReleaseAbovePrerelease(p: VersionParts, sep: char)
    requires IsParts(p) && sep in ".-" && p.prerelease != "" && IsValidRuntimeVersion(Spell(p, sep))
    ensures CompareRuntimeVersions(Spell(p.(prerelease := ""), sep), Spell(p, sep)) == 1
  {
    var r := p.(prerelease := "");
    SpellingParses(p, sep);
    SpellingParses(r, sep);
    NewFormatOrderIsNumeric(r, sep, p, sep);
  }

  lemma SameNormalized(p: VersionParts)
    requires IsParts(p)
    ensures NormalizeVersion(Spell(p, '-')) == NormalizeVersion(Spell(p, '.'))
  {
    SpellingIsParsed(p, '-');
    SpellingIsParsed(p, '.');
  }

  /** `X.Y-Z-P` and `X.Y-Z.P` are one version: level with each other, valid together and
      ranked alike against anything. */
  lemma SeparatorIsIrrelevant(p: VersionParts, w: string)
    requires IsParts(p)
    ensures CompareRuntimeVersions(Spell(p, '-'), Spell(p, '.')) == 0
    ensures IsValidRuntimeVersion(Spell(p, '-')) == IsValidRuntimeVersion(Spell(p, '.'))
    ensures CompareRuntimeVersions(Spell(p, '-'), w) == CompareRuntimeVersions(Spell(p, '.'), w)
  {
    hide NormalizeVersion, Spell, SemVer.Parse, SemVer.Compare;
    SpellingParses(p, '-');
    SpellingParses(p, '.');
    SameNormalized(p);
    CompareIsTotalPreorder(Spell(p, '-'), Spell(p, '-'), w);
  }
}
