/** Image tags, their parsing, and which of two is the better default. */
module ImageTags {
  import opened Strings
  import opened RuntimeVersions
  import SemVer

  /** `distro` is empty for Debian, else the ubi variant. */
  datatype ImageTagInfo = ImageTagInfo(runtimeVersion: string, pythonVersion: string, agentVersion: string,
      distro: string, isBase: bool)

  // ---------- parsing ----------

  /** `\d+\.\d+` */
  function ParseMinor(v: string): Option<Piece> {
    var Piece(x, v1) :- Digits(v);
    var w1 :- After(v1, ".");
    var Piece(y, v2) :- Digits(w1);
    Some(Piece(x + ("." + y), v2))
  }

  /** `\d+\.\d+(?:-\d+)?` */
  function ParseRuntime(v: string): Option<Piece> {
    var Piece(minor, v1) :- ParseMinor(v);
    if After(v1, "-").Some? && Digits(After(v1, "-").value).Some? then
      var Piece(z, v2) := Digits(After(v1, "-").value).value;
      Some(Piece(minor + ("-" + z), v2))
    else
      Some(Piece(minor, v1))
  }

  /** `(?:-(ubi\d*))?` */
  function ParseDistro(v: string): Piece {
    match After(v, "-ubi")
    case None => Piece("", v)
    case Some(w) => Piece("ubi" + w[..DigitRun(w)], w[DigitRun(w)..])
  }

  /** `(.+?)(?:-base)?$`: the fewest characters that leave nothing, or `-base`. */
  function ParseAgent(r: string): Option<string> {
    var agent := if |r| > |"-base"| && HasSuffix(r, "-base") then r[..|r| - |"-base"|] else r;
    if agent != "" && '\n' !in agent then Some(agent) else None
  }

  function ParseImageTag(imageTag: string): Option<ImageTagInfo> {
    var Piece(runtime, v1) :- ParseRuntime(imageTag);
    var Piece(distro, v2) := ParseDistro(v1);
    var v3 :- After(v2, "-python-");
    var Piece(python, v4) :- ParseMinor(v3);
    var v5 :- After(v4, "-astro-agent-");
    var agent :- ParseAgent(v5);
    Some(ImageTagInfo(runtime, python, agent, distro, HasSuffix(imageTag, "-base")))
  }

  // ---------- spelling ----------

  predicate IsNumber(s: string) { s != "" && AllDigits(s) }

  ghost predicate IsMinor(s: string) {
    exists x, y :: IsNumber(x) && IsNumber(y) && s == x + ("." + y)
  }

  ghost predicate IsRuntime(s: string) {
    IsMinor(s) || exists minor, z :: IsMinor(minor) && IsNumber(z) && s == minor + ("-" + z)
  }

  ghost predicate IsDistro(s: string) {
    s == "" || exists d :: AllDigits(d) && s == "ubi" + d
  }

  /** The groups an image tag is made of. */
  ghost predicate IsInfo(t: ImageTagInfo) {
    && IsRuntime(t.runtimeVersion) && IsDistro(t.distro) && IsMinor(t.pythonVersion)
    && t.agentVersion != "" && '\n' !in t.agentVersion
  }

  function SpellTag(t: ImageTagInfo): string {
    t.runtimeVersion + ((if t.distro == "" then "" else "-" + t.distro) + ("-python-" + (t.pythonVersion +
      ("-astro-agent-" + (t.agentVersion + (if t.isBase then "-base" else ""))))))
  }

  lemma ParseMinorOf(s: string, rest: string)
    requires IsMinor(s) && (rest == "" || !IsDigit(rest[0]))
    ensures ParseMinor(s + rest) == Some(Piece(s, rest))
  {
    var x, y :| IsNumber(x) && IsNumber(y) && s == x + ("." + y);
    Associate(x, "." + y, rest);
    Associate(".", y, rest);
    DigitsOf(x, "." + (y + rest));
    AfterOf(".", y + rest);
    DigitsOf(y, rest);
  }

  lemma ParseRuntimeOf(s: string, rest: string)
    requires IsRuntime(s) && |rest| > 1 && rest[0] == '-' && !IsDigit(rest[1])
    ensures ParseRuntime(s + rest) == Some(Piece(s, rest))
  {
    if IsMinor(s) {
      ParseMinorOf(s, rest);
    } else {
      var minor, z :| IsMinor(minor) && IsNumber(z) && s == minor + ("-" + z);
      Associate(minor, "-" + z, rest);
      Associate("-", z, rest);
      ParseMinorOf(minor, "-" + (z + rest));
      AfterOf("-", z + rest);
      DigitsOf(z, rest);
    }
  }

  lemma ParseDistroOf(distro: string, rest: string)
    requires IsDistro(distro) && HasPrefix(rest, "-p")
    ensures ParseDistro((if distro == "" then "" else "-" + distro) + rest) == Piece(distro, rest)
  {
    if distro == "" {
      assert "" + rest == rest;
      assert rest[1] == 'p';
    } else {
      var d :| AllDigits(d) && distro == "ubi" + d;
      assert ("-" + distro) + rest == "-ubi" + (d + rest);
      AfterOf("-ubi", d + rest);
      DigitRunOf(d, rest);
      assert (d + rest)[..|d|] == d && (d + rest)[|d|..] == rest;
    }
  }

  lemma SuffixOfTail(a: string, b: string, s: string)
    requires |s| <= |b|
    ensures HasSuffix(a + b, s) <==> HasSuffix(b, s)
  {
    assert (a + b)[|a + b| - |s|..] == b[|b| - |s|..];
  }

  /** The whole-tag suffix test, seen from what follows `-astro-agent-`. */
  lemma BaseSuffix(r: string)
    requires r != ""
    ensures HasSuffix("-astro-agent-" + r, "-base") <==> HasSuffix(r, "-base") || r == "base"
  {
    var t := "-astro-agent-" + r;
    if |r| >= 5 {
      SuffixOfTail("-astro-agent-", r, "-base");
    } else {
      var tail := t[|t| - 5..];
      assert tail[4 - |r|] == '-';
      assert |r| < 4 ==> "-base"[4 - |r|] != '-';
      assert |r| == 4 ==> tail[1..] == r && tail == "-" + r;
    }
  }

  lemma ParseAgentOf(agent: string, isBase: bool)
    requires agent != "" && '\n' !in agent
    ensures isBase ==> ParseAgent(agent + "-base") == Some(agent)
    ensures !isBase && !HasSuffix(agent, "-base") ==> ParseAgent(agent) == Some(agent)
  {
    var r := agent + "-base";
    assert r[..|agent|] == agent && r[|agent|..] == "-base";
  }

  /** Parsing the spelling of a tuple gives the tuple back exactly when it is a base image,
      or its agent is neither `base` nor something ending in `-base`. The optional distro and
      patch number never make a tag ambiguous; only the base marker does. */
  lemma ParseSpellExactly(t: ImageTagInfo)
    requires IsInfo(t)
    ensures ParseImageTag(SpellTag(t)) == Some(t)
            <==> t.isBase || (t.agentVersion != "base" && !HasSuffix(t.agentVersion, "-base"))
  {
    var r := t.agentVersion + (if t.isBase then "-base" else "");
    SpellingParts(t, r);
    BaseSuffix(r);
    ParseAgentOf(t.agentVersion, t.isBase);
    if t.isBase {
      assert r[|t.agentVersion|..] == "-base";
    } else {
      assert r == t.agentVersion;
    }
  }

  lemma SpellingParts(t: ImageTagInfo, r: string)
    requires IsInfo(t) && r == t.agentVersion + (if t.isBase then "-base" else "")
    ensures HasSuffix(SpellTag(t), "-base") <==> HasSuffix("-astro-agent-" + r, "-base")
    ensures ParseImageTag(SpellTag(t)) == match ParseAgent(r)
              case None => None
              case Some(agent) => Some(ImageTagInfo(t.runtimeVersion, t.pythonVersion, agent, t.distro,
                  HasSuffix(SpellTag(t), "-base")))
  {
    var s3 := "-astro-agent-" + r;
    var s2 := "-python-" + (t.pythonVersion + s3);
    var s1 := (if t.distro == "" then "" else "-" + t.distro) + s2;
    assert SpellTag(t) == t.runtimeVersion + s1;
    assert s1[0] == '-' && !IsDigit(s1[1]) by { TagTailStart(t.distro, s2); }
    ParseRuntimeOf(t.runtimeVersion, s1);
    ParseDistroOf(t.distro, s2);
    AfterOf("-python-", t.pythonVersion + s3);
    ParseMinorOf(t.pythonVersion, s3);
    AfterOf("-astro-agent-", r);
    SuffixOfTail(t.pythonVersion, s3, "-base");
    SuffixOfTail("-python-", t.pythonVersion + s3, "-base");
    SuffixOfTail(if t.distro == "" then "" else "-" + t.distro, s2, "-base");
    SuffixOfTail(t.runtimeVersion, s1, "-base");
  }

  lemma TagTailStart(distro: string, rest: string)
    requires IsDistro(distro) && HasPrefix(rest, "-p")
    ensures var s := (if distro == "" then "" else "-" + distro) + rest; |s| > 1 && s[0] == '-' && !IsDigit(s[1])
  {
    if distro == "" {
      assert "" + rest == rest && rest[1] == 'p';
    } else {
      var d :| AllDigits(d) && distro == "ubi" + d;
      assert (("-" + distro) + rest)[1] == 'u';
    }
  }

  lemma ParsedMinor(v: string)
    requires ParseMinor(v).Some?
    ensures var Piece(text, rest) := ParseMinor(v).value; IsMinor(text) && v == text + rest
  {
    hide Digits, After;
    var Piece(x, v1) := Digits(v).value;
    var w1 := After(v1, ".").value;
    var Piece(y, v2) := Digits(w1).value;
    assert IsNumber(x) && IsNumber(y) && IsMinor(x + ("." + y));
    Associate(".", y, v2);
    Associate(x, "." + y, v2);
  }

  lemma ParsedRuntime(v: string)
    requires ParseRuntime(v).Some?
    ensures var Piece(text, rest) := ParseRuntime(v).value; IsRuntime(text) && v == text + rest
  {
    hide Digits, After, ParseMinor;
    ParsedMinor(v);
    var Piece(minor, v1) := ParseMinor(v).value;
    if After(v1, "-").Some? && Digits(After(v1, "-").value).Some? {
      var Piece(z, v2) := Digits(After(v1, "-").value).value;
      assert IsNumber(z) && IsRuntime(minor + ("-" + z));
      Associate("-", z, v2);
      Associate(minor, "-" + z, v2);
    }
  }

  lemma ParsedDistro(v: string)
    ensures var Piece(text, rest) := ParseDistro(v);
            IsDistro(text) && v == (if text == "" then "" else "-" + text) + rest
  {
    match After(v, "-ubi")
    case None => assert "" + v == v;
    case Some(w) =>
      var k := DigitRun(w);
      assert AllDigits(w[..k]) && IsDistro("ubi" + w[..k]);
      assert "-ubi" + w == ("-" + ("ubi" + w[..k])) + w[k..];
  }

  lemma ParsedAgent(r: string)
    requires ParseAgent(r).Some?
    ensures var agent := ParseAgent(r).value;
            && agent != "" && '\n' !in agent
            && (r == agent || r == agent + "-base")
            && (HasSuffix(r, "-base") && r == agent ==> agent == "-base")
  {}

  /** Conversely, whatever is accepted is the spelling of a tuple, and of the one it yields but
      for an agent that is itself `base` or `-base`. */
  lemma ParsedTagIsSpelling(tag: string) returns (isBase: bool)
    requires ParseImageTag(tag).Some?
    ensures var t := ParseImageTag(tag).value;
            && IsInfo(t) && tag == SpellTag(t.(isBase := isBase))
            && (isBase != t.isBase ==> t.agentVersion == "base" || t.agentVersion == "-base")
  {
    hide Digits, After, ParseMinor, ParseRuntime, ParseDistro, ParseAgent, HasSuffix, IsRuntime, IsMinor, IsDistro;
    ParsedRuntime(tag);
    var Piece(runtime, v1) := ParseRuntime(tag).value;
    ParsedDistro(v1);
    var Piece(distro, v2) := ParseDistro(v1);
    var v3 := After(v2, "-python-").value;
    ParsedMinor(v3);
    var Piece(python, v4) := ParseMinor(v3).value;
    var v5 := After(v4, "-astro-agent-").value;
    ParsedAgent(v5);
    var agent := ParseAgent(v5).value;
    var t := ParseImageTag(tag).value;
    isBase := v5 != agent;
    assert v5 == agent + (if isBase then "-base" else "");
    assert tag == SpellTag(t.(isBase := isBase));
    BaseMarker(runtime, distro, python, v5, agent);
  }

  lemma BaseMarker(runtime: string, distro: string, python: string, r: string, agent: string)
    requires r != "" && (r == agent || r == agent + "-base")
    requires HasSuffix(r, "-base") && r == agent ==> agent == "-base"
    ensures var tail := (if distro == "" then "" else "-" + distro) + ("-python-" + (python + ("-astro-agent-" + r)));
            HasSuffix(runtime + tail, "-base") != (r != agent) ==> agent == "base" || agent == "-base"
  {
    var s3 := "-astro-agent-" + r;
    var s2 := "-python-" + (python + s3);
    var front := if distro == "" then "" else "-" + distro;
    BaseSuffix(r);
    SuffixOfTail(python, s3, "-base");
    SuffixOfTail("-python-", python + s3, "-base");
    SuffixOfTail(front, s2, "-base");
    SuffixOfTail(runtime, front + s2, "-base");
    if r != agent { SuffixOfTail(agent, "-base", "-base"); }
  }

  // ---------- which image is better ----------

  function DistroRank(distro: string): nat { if distro == "" then 1 else 0 }

  /** Runtime, then Python, then agent, then Debian over UBI. */
  function TagOrder(a: ImageTagInfo, b: ImageTagInfo): int {
    SemVer.Or(CompareRuntimeVersions(a.runtimeVersion, b.runtimeVersion),
    SemVer.Or(SemVer.Compare("v" + a.pythonVersion, "v" + b.pythonVersion),
    SemVer.Or(SemVer.Compare("v" + a.agentVersion, "v" + b.agentVersion),
              CompareNat(DistroRank(a.distro), DistroRank(b.distro)))))
  }

  predicate IsBetterImage(candidate: Option<ImageTagInfo>, current: Option<ImageTagInfo>) {
    if candidate.None? then false
    else if current.None? then true
    else TagOrder(candidate.value, current.value) > 0
  }

  /** The runtime decides, on a tie the Python version, on a tie the agent, and last Debian is
      better than UBI; any image is better than none. */
  lemma IsBetterMeans(a: ImageTagInfo, b: ImageTagInfo)
    ensures var runtime := CompareRuntimeVersions(a.runtimeVersion, b.runtimeVersion);
            var python := SemVer.Compare("v" + a.pythonVersion, "v" + b.pythonVersion);
            var agent := SemVer.Compare("v" + a.agentVersion, "v" + b.agentVersion);
            IsBetterImage(Some(a), Some(b)) <==>
              || runtime > 0
              || (runtime == 0 && python > 0)
              || (runtime == 0 && python == 0 && agent > 0)
              || (runtime == 0 && python == 0 && agent == 0 && a.distro == "" && b.distro != "")
    ensures IsBetterImage(Some(a), None) && !IsBetterImage(None, Some(a)) && !IsBetterImage(None, None)
  {}

  lemma TagOrderIsTotalPreorder(a: ImageTagInfo, b: ImageTagInfo, c: ImageTagInfo)
    ensures TagOrder(a, a) == 0 && TagOrder(a, b) == -TagOrder(b, a)
    ensures TagOrder(a, b) <= 0 && TagOrder(b, c) <= 0 ==> TagOrder(a, c) <= 0
  {
    PairLaws(a, b);
    PairLaws(a, a);
    PairLaws(b, c);
    PairLaws(a, c);
    CompareIsTotalPreorder(a.runtimeVersion, b.runtimeVersion, c.runtimeVersion);
    CompareIsTotalPreorder(c.runtimeVersion, a.runtimeVersion, b.runtimeVersion);
    CompareIsTotalPreorder(b.runtimeVersion, c.runtimeVersion, a.runtimeVersion);
    var (pa, pb, pc) := ("v" + a.pythonVersion, "v" + b.pythonVersion, "v" + c.pythonVersion);
    SemVer.CompareIsTotalPreorder(pa, pb, pc);
    SemVer.CompareIsTotalPreorder(pc, pa, pb);
    SemVer.CompareIsTotalPreorder(pb, pc, pa);
    var (ga, gb, gc) := ("v" + a.agentVersion, "v" + b.agentVersion, "v" + c.agentVersion);
    SemVer.CompareIsTotalPreorder(ga, gb, gc);
    SemVer.CompareIsTotalPreorder(gc, ga, gb);
    SemVer.CompareIsTotalPreorder(gb, gc, ga);
  }

  lemma PairLaws(a: ImageTagInfo, b: ImageTagInfo)
    ensures TagOrder(a, b) == -TagOrder(b, a)
    ensures CompareRuntimeVersions(a.runtimeVersion, b.runtimeVersion) ==
        -CompareRuntimeVersions(b.runtimeVersion, a.runtimeVersion)
    ensures SemVer.Compare("v" + a.pythonVersion, "v" + b.pythonVersion) ==
        -SemVer.Compare("v" + b.pythonVersion, "v" + a.pythonVersion)
    ensures SemVer.Compare("v" + a.agentVersion, "v" + b.agentVersion) ==
        -SemVer.Compare("v" + b.agentVersion, "v" + a.agentVersion)
  {
    CompareIsTotalPreorder(a.runtimeVersion, b.runtimeVersion, a.runtimeVersion);
    SemVer.CompareIsTotalPreorder("v" + a.pythonVersion, "v" + b.pythonVersion, "v");
    SemVer.CompareIsTotalPreorder("v" + a.agentVersion, "v" + b.agentVersion, "v");
  }

  /** "Better" is a strict weak order, with no image at the bottom: irreflexive, asymmetric,
      transitive, and being level is transitive too. */
  lemma IsBetterIsStrictWeakOrder(a: Option<ImageTagInfo>, b: Option<ImageTagInfo>, c: Option<ImageTagInfo>)
    ensures !IsBetterImage(a, a)
    ensures IsBetterImage(a, b) ==> !IsBetterImage(b, a)
    ensures IsBetterImage(a, b) && IsBetterImage(b, c) ==> IsBetterImage(a, c)
    ensures IsBetterImage(a, c) ==> IsBetterImage(a, b) || IsBetterImage(b, c)
  {
    if a.Some? { TagOrderIsTotalPreorder(a.value, a.value, a.value); }
    if a.Some? && b.Some? { TagOrderIsTotalPreorder(a.value, b.value, a.value); }
    if a.Some? && b.Some? && c.Some? {
      TagOrderIsTotalPreorder(b.value, c.value, b.value);
      TagOrderIsTotalPreorder(a.value, c.value, a.value);
      TagOrderIsTotalPreorder(a.value, b.value, c.value);
      TagOrderIsTotalPreorder(c.value, b.value, a.value);
      TagOrderIsTotalPreorder(a.value, c.value, b.value);
    }
  }
}
