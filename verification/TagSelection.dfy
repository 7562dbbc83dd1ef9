/** The selectors that pick the latest version, or the best image tag, out of Go maps. A map is
    visited in an arbitrary order, so every contract holds for every order. */
module TagSelection {
  import opened Strings
  import opened RuntimeVersions
  import opened ImageTags

  const VERSION_CHANNEL_STABLE := "stable"

  datatype RuntimeVersion = RuntimeVersion(channel: string, airflowVersion: string, yanked: bool)
  datatype ClientVersion = ClientVersion(channel: string, imageTags: seq<string>)

  datatype Error = NoTagAvailable(airflowVersion: string) | NoRuntimeVersions | NoClientVersions | NoNonBaseImages
  datatype Result = Ok(tag: string) | Err(error: Error)

  // ---------- the latest runtime ----------

  predicate Wanted(r: RuntimeVersion, airflowVersion: string) {
    r.channel == "stable" && !r.yanked && (airflowVersion == "" || r.airflowVersion == airflowVersion)
  }

  predicate WantedIn(versions: map<string, RuntimeVersion>, airflowVersion: string, v: string) {
    v in versions && Wanted(versions[v], airflowVersion)
  }

  method CollectWanted(versions: map<string, RuntimeVersion>, airflowVersion: string) returns (available: seq<string>)
    ensures forall v :: v in available <==> WantedIn(versions, airflowVersion, v)
  {
    available := [];
    var todo := versions.Keys;
    while todo != {}
      invariant todo <= versions.Keys
      invariant forall v :: v in available <==> v !in todo && WantedIn(versions, airflowVersion, v)
      decreases todo
    {
      var v :| v in todo;
      todo := todo - {v};
      var r := versions[v];
      if r.channel != VERSION_CHANNEL_STABLE { continue; }
      if r.yanked { continue; }
      if airflowVersion != "" && r.airflowVersion != airflowVersion { continue; }
      available := available + [v];
    }
  }

  /** `v` is in the set and nothing in the set is above it. */
  ghost predicate IsLatest(eligible: iset<string>, v: string) {
    v in eligible && forall w :: w in eligible ==> CompareRuntimeVersions(w, v) <= 0
  }

  ghost function WantedVersions(first: map<string, RuntimeVersion>, second: map<string, RuntimeVersion>,
      airflowVersion: string): iset<string> {
    iset v | WantedIn(first, airflowVersion, v) || WantedIn(second, airflowVersion, v)
  }

  method GetAstroRuntimeTag(runtimeVersions: map<string, RuntimeVersion>,
                            runtimeVersionsV3: map<string, RuntimeVersion>, airflowVersion: string)
    returns (r: Result)
    ensures r.Ok? ==> IsLatest(WantedVersions(runtimeVersions, runtimeVersionsV3, airflowVersion), r.tag)
    ensures r.Err? <==> WantedVersions(runtimeVersions, runtimeVersionsV3, airflowVersion) == iset{}
    ensures r.Err? ==> r.error == if airflowVersion != "" then NoTagAvailable(airflowVersion) else NoRuntimeVersions
  {
    hide CompareRuntimeVersions;
    ghost var eligible := WantedVersions(runtimeVersions, runtimeVersionsV3, airflowVersion);
    var available := CollectWanted(runtimeVersions, airflowVersion);
    var more := CollectWanted(runtimeVersionsV3, airflowVersion);
    available := available + more;
    assert forall v :: v in available <==> v in eligible;
    if |available| == 0 {
      return Err(if airflowVersion != "" then NoTagAvailable(airflowVersion) else NoRuntimeVersions);
    }
    assert available[0] in eligible;
    var latest := available[0];
    CompareIsTotalPreorder(latest, latest, latest);
    for i := 0 to |available|
      invariant latest in eligible
      invariant forall j :: 0 <= j < i ==> CompareRuntimeVersions(available[j], latest) <= 0
    {
      if CompareRuntimeVersions(available[i], latest) > 0 {
        CompareIsTotalPreorder(latest, available[i], latest);
        CompareIsTotalPreorder(available[i], available[i], latest);
        forall j | 0 <= j < i ensures CompareRuntimeVersions(available[j], available[i]) <= 0 {
          CompareIsTotalPreorder(available[j], latest, available[i]);
        }
        latest := available[i];
      }
    }
    r := Ok(latest);
  }

  /** Two picks from one set, whatever the orders they came from, compare equal. */
  lemma LatestIsUniqueUpToLevel(eligible: iset<string>, v: string, w: string)
    requires IsLatest(eligible, v) && IsLatest(eligible, w)
    ensures CompareRuntimeVersions(v, w) == 0
  {
    CompareIsTotalPreorder(v, w, v);
  }

  // ---------- resolving a floating tag ----------

  predicate Matches(versions: map<string, RuntimeVersion>, floatingTag: string, v: string) {
    v in versions && !versions[v].yanked && (HasPrefix(v, floatingTag + "-") || HasPrefix(v, floatingTag + "."))
  }

  ghost function MatchingVersions(versions: map<string, RuntimeVersion>, floatingTag: string): iset<string> {
    iset v | Matches(versions, floatingTag, v)
  }

  method PickLatestMatchingRuntimeVersion(floatingTag: string, runtimeVersionsV3: map<string, RuntimeVersion>)
    returns (latest: string)
    ensures latest == "" <==> MatchingVersions(runtimeVersionsV3, floatingTag) == iset{}
    ensures latest != "" ==> IsLatest(MatchingVersions(runtimeVersionsV3, floatingTag), latest)
  {
    hide CompareRuntimeVersions;
    latest := "";
    var todo := runtimeVersionsV3.Keys;
    while todo != {}
      invariant todo <= runtimeVersionsV3.Keys
      invariant latest == "" ==> forall v :: Matches(runtimeVersionsV3, floatingTag, v) ==> v in todo
      invariant latest != "" ==> Matches(runtimeVersionsV3, floatingTag, latest)
      invariant latest != "" ==> forall v :: Matches(runtimeVersionsV3, floatingTag, v) ==>
          v in todo || CompareRuntimeVersions(v, latest) <= 0
      decreases todo
    {
      var version :| version in todo;
      todo := todo - {version};
      if runtimeVersionsV3[version].yanked { continue; }
      if !HasPrefix(version, floatingTag + "-") && !HasPrefix(version, floatingTag + ".") { continue; }
      if latest == "" || CompareRuntimeVersions(version, latest) > 0 {
        CompareIsTotalPreorder(version, version, version);
        if latest != "" {
          CompareIsTotalPreorder(latest, version, latest);
          forall v | Matches(runtimeVersionsV3, floatingTag, v) && v !in todo
            ensures CompareRuntimeVersions(v, version) <= 0
          {
            CompareIsTotalPreorder(v, latest, version);
          }
        }
        latest := version;
      }
    }
    assert latest != "" ==> latest in MatchingVersions(runtimeVersionsV3, floatingTag);
  }

  /** A floating `X.Y` resolves to a new-format version of that very major and minor, or to
      an old-format one. */
  lemma FloatingTagKeepsItsMinor(x: string, y: string, versions: map<string, RuntimeVersion>, v: string)
    requires IsNumber(x) && IsNumber(y) && Matches(versions, x + ("." + y), v) && IsNewFormat(v)
    ensures ParseNewFormat(v).value.airflowMajor == x && ParseNewFormat(v).value.airflowMinor == y
  {
    hide IsNewFormat, ParseNewFormat;
    var sep := if HasPrefix(v, x + ("." + y) + "-") then "-" else ".";
    var rest := v[|x + ("." + y) + sep|..];
    SplitAfterMinor(x, y, sep, rest, v);
    MinorOfNewFormat(x, y, sep + rest, v);
  }

  lemma MinorOfNewFormat(x: string, y: string, tail: string, v: string)
    requires IsNumber(x) && IsNumber(y) && tail != "" && !IsDigit(tail[0])
    requires v == x + ("." + (y + tail)) && IsNewFormat(v)
    ensures ParseNewFormat(v).value.airflowMajor == x && ParseNewFormat(v).value.airflowMinor == y
  {
    DigitsOf(x, "." + (y + tail));
    AfterOf(".", y + tail);
    DigitsOf(y, tail);
  }

  lemma SplitAfterMinor(x: string, y: string, sep: string, rest: string, v: string)
    requires v == ((x + ("." + y)) + sep) + rest
    ensures v == x + ("." + (y + (sep + rest)))
  {
    assert ((x + ("." + y)) + sep) + rest == x + (("." + y) + (sep + rest));
    assert ("." + y) + (sep + rest) == "." + (y + (sep + rest));
  }

  // ---------- the best agent image ----------

  ghost predicate Offered(clientVersions: map<string, ClientVersion>, tag: string) {
    exists c :: c in clientVersions && clientVersions[c].channel == "stable"
        && tag in clientVersions[c].imageTags
  }

  /** Parses, is not above the requested runtime, and is not a base image. */
  predicate Usable(tag: string, runtimeVersion: string) {
    var info := ParseImageTag(tag);
    && info.Some?
    && (runtimeVersion == "" || CompareRuntimeVersions(info.value.runtimeVersion, runtimeVersion) <= 0)
    && !info.value.isBase
  }

  ghost predicate Eligible(clientVersions: map<string, ClientVersion>, runtimeVersion: string, tag: string) {
    Offered(clientVersions, tag) && Usable(tag, runtimeVersion)
  }

  predicate Beats(a: string, b: string) { IsBetterImage(ParseImageTag(a), ParseImageTag(b)) }

  /** The running best over the tags of one client version. */
  method BetterOf(imageTags: seq<string>, runtimeVersion: string, start: string) returns (best: string)
    requires start != "" ==> Usable(start, runtimeVersion)
    ensures best == start || best in imageTags
    ensures best != "" ==> Usable(best, runtimeVersion)
    ensures start != "" ==> best != "" && !Beats(start, best)
    ensures forall t :: t in imageTags && Usable(t, runtimeVersion) ==> best != "" && !Beats(t, best)
  {
    hide IsBetterImage, ParseImageTag, CompareRuntimeVersions;
    best := start;
    if start != "" { IsBetterIsStrictWeakOrder(ParseImageTag(start), ParseImageTag(start), ParseImageTag(start)); }
    for i := 0 to |imageTags|
      invariant best == start || best in imageTags
      invariant best != "" ==> Usable(best, runtimeVersion)
      invariant start != "" ==> best != "" && !Beats(start, best)
      invariant forall j :: 0 <= j < i && Usable(imageTags[j], runtimeVersion) ==>
                  best != "" && !Beats(imageTags[j], best)
    {
      var tag := imageTags[i];
      var tagInfo := ParseImageTag(tag);
      if tagInfo.None? { continue; }
      if runtimeVersion != "" && CompareRuntimeVersions(tagInfo.value.runtimeVersion, runtimeVersion) > 0 { continue; }
      if tagInfo.value.isBase { continue; }
      ghost var b := ParseImageTag(best);
      IsBetterIsStrictWeakOrder(tagInfo, tagInfo, tagInfo);
      if best == "" || IsBetterImage(tagInfo, ParseImageTag(best)) {
        if best != "" {
          IsBetterIsStrictWeakOrder(ParseImageTag(start), tagInfo, b);
          forall j | 0 <= j < i && Usable(imageTags[j], runtimeVersion) ensures !Beats(imageTags[j], tag) {
            IsBetterIsStrictWeakOrder(ParseImageTag(imageTags[j]), tagInfo, b);
          }
        }
        EmptyTagDoesNotParse();
        best := tag;
      }
    }
  }

  lemma EmptyTagDoesNotParse()
    ensures ParseImageTag("").None?
  {}

  ghost predicate AnyStable(clientVersions: map<string, ClientVersion>) {
    exists c :: c in clientVersions && clientVersions[c].channel == VERSION_CHANNEL_STABLE
  }

  method GetAstroAgentTag(clientVersions: map<string, ClientVersion>, runtimeVersion: string) returns (r: Result)
    ensures r.Ok? ==> Eligible(clientVersions, runtimeVersion, r.tag)
    ensures r.Ok? ==> forall t :: Eligible(clientVersions, runtimeVersion, t) ==> !Beats(t, r.tag)
    ensures r.Err? <==> forall t :: !Eligible(clientVersions, runtimeVersion, t)
    ensures r.Err? ==> r.error == if AnyStable(clientVersions) then NoNonBaseImages else NoClientVersions
  {
    hide IsBetterImage, ParseImageTag, CompareRuntimeVersions;
    var available: set<string> := {};
    var todo := clientVersions.Keys;
    while todo != {}
      invariant todo <= clientVersions.Keys
      invariant available == set c | c in clientVersions && c !in todo
          && clientVersions[c].channel == VERSION_CHANNEL_STABLE
      decreases todo
    {
      var c :| c in todo;
      todo := todo - {c};
      if clientVersions[c].channel == VERSION_CHANNEL_STABLE { available := available + {c}; }
    }
    if available == {} {
      assert forall c :: c in clientVersions && clientVersions[c].channel == VERSION_CHANNEL_STABLE ==> c in available;
      return Err(NoClientVersions);
    }
    assert AnyStable(clientVersions) by { var c :| c in available; }

    var best := "";
    var left := available;
    while left != {}
      invariant left <= available
      invariant best != "" ==> Eligible(clientVersions, runtimeVersion, best)
      invariant forall c, t ::
                  c in available && c !in left && t in clientVersions[c].imageTags && Usable(t, runtimeVersion) ==>
                    best != "" && !Beats(t, best)
      decreases left
    {
      var c :| c in left;
      left := left - {c};
      var previous := best;
      best := BetterOf(clientVersions[c].imageTags, runtimeVersion, previous);
      forall d, t | d in available && d !in left && t in clientVersions[d].imageTags && Usable(t, runtimeVersion)
        ensures best != "" && !Beats(t, best)
      {
        if d != c {
          IsBetterIsStrictWeakOrder(ParseImageTag(t), ParseImageTag(previous), ParseImageTag(best));
        }
      }
    }
    if best == "" { return Err(NoNonBaseImages); }
    r := Ok(best);
  }
}
