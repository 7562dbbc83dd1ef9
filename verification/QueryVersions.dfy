/** Which GraphQL query is sent to a platform of a given version: the one defined for the
    greatest version at or below it. */
module QueryVersions {
  import opened Strings
  import opened SemVer

  // ---------- version strings as the platform reports them ----------

  function Prerelease(v: string): string {
    match Parse(v)
    case None => ""
    case Some(p) => p.prerelease
  }

  /** With a leading `v`. */
  function Prefixed(version: string): string { if HasPrefix(version, "v") then version else "v" + version }

  /** With a leading `v`, and without a pre-release that ends the string. */
  function Sanitise(version: string): string {
    var v := Prefixed(version);
    TrimSuffix(v, Prerelease(v))
  }

  /** A version with a pre-release, taken apart. */
  lemma Decompose(v: string) returns (major: string, minor: string, patch: string, suffix: string)
    requires Prerelease(v) != ""
    ensures Canonical(major) && Canonical(minor) && Canonical(patch) && HasPrefix(suffix, "-")
        && ParseSuffix(suffix).Some?
    ensures v == "v" + (major + ("." + (minor + ("." + (patch + suffix)))))
    ensures Parse(v) == Some(Parsed(major, minor, patch, ParseSuffix(suffix).value))
  {
    hide Digits, After, Canonical, ParseSuffix;
    var v0 := After(v, "v").value;
    var p1 := ParseInt(v0).value;
    major := p1.text;
    var w1 := After(p1.rest, ".").value;
    var p2 := ParseInt(w1).value;
    minor := p2.text;
    var w2 := After(p2.rest, ".").value;
    var p3 := ParseInt(w2).value;
    patch := p3.text;
    suffix := p3.rest;
    SuffixStart(suffix);
  }

  lemma SuffixStart(suffix: string)
    requires ParseSuffix(suffix).Some? && ParseSuffix(suffix).value != ""
    ensures HasPrefix(suffix, "-") && ParseSuffix(suffix).value == suffix[..IndexOf(suffix, '+')]
  {}

  /** The numbers of a version string. */
  function Head(major: string, minor: string, patch: string): string {
    "v" + (major + ("." + (minor + ("." + patch))))
  }

  lemma HeadAndSuffix(major: string, minor: string, patch: string, suffix: string)
    ensures Head(major, minor, patch) + suffix == "v" + (major + ("." + (minor + ("." + (patch + suffix)))))
  {
    assert "v" + (major + ("." + (minor + ("." + patch)))) + suffix ==
        "v" + ((major + ("." + (minor + ("." + patch)))) + suffix);
    assert (major + ("." + (minor + ("." + patch)))) + suffix == major + (("." + (minor + ("." + patch))) + suffix);
    assert ("." + (minor + ("." + patch))) + suffix == "." + ((minor + ("." + patch)) + suffix);
    assert (minor + ("." + patch)) + suffix == minor + (("." + patch) + suffix);
    assert ("." + patch) + suffix == "." + (patch + suffix);
  }

  lemma HeadHasNoPlus(major: string, minor: string, patch: string)
    requires Canonical(major) && Canonical(minor) && Canonical(patch)
    ensures '+' !in Head(major, minor, patch) && HasPrefix(Head(major, minor, patch), "v")
  {
    assert '+' !in major && '+' !in minor && '+' !in patch && '+' !in "v" && '+' !in ".";
  }

  lemma ParseHead(major: string, minor: string, patch: string, suffix: string)
    requires Canonical(major) && Canonical(minor) && Canonical(patch) && (suffix == "" || suffix[0] == '-')
    ensures Parse(Head(major, minor, patch) + suffix) ==
            if ParseSuffix(suffix).Some? then Some(Parsed(major, minor, patch, ParseSuffix(suffix).value)) else None
  {
    HeadAndSuffix(major, minor, patch, suffix);
    ParseTriple(major, minor, patch, suffix);
  }

  lemma PrereleaseOfPrefixed(v: string)
    requires Prerelease(v) != ""
    ensures Key(Sanitise(v)) == Some(Key(v).value.(pre := [])) <==> '+' !in v
  {
    hide Head, Canonical, Parse, ParseSuffix, Key, Prerelease, Denotes, Sanitise;
    var major, minor, patch, suffix := Decompose(v);
    HeadAndSuffix(major, minor, patch, suffix);
    HeadHasNoPlus(major, minor, patch);
    PrereleaseIs(v, major, minor, patch, suffix);
    SuffixStart(suffix);
    var head, n := Head(major, minor, patch), IndexOf(suffix, '+');
    assert suffix == suffix[..n] + suffix[n..];
    if n == |suffix| {
      NoPlus(v, head, suffix);
      DropSuffix(head, suffix);
      ReleaseKey(v, major, minor, patch, suffix);
    } else {
      assert v[|head| + n] == '+';
      TrimmedKeepsPrerelease(v, major, minor, patch, suffix[..n], suffix[n..]);
    }
  }

  function WithoutPrerelease(key: Option<Version>): Option<Version> {
    match key
    case None => None
    case Some(v) => Some(v.(pre := []))
  }

  /** For every string, with or without a `v`, valid or not: sanitising gives the version
      without its pre-release exactly when there is none, or no build metadata follows it. */
  lemma PrereleaseIsDroppedExactly(version: string)
    ensures Key(Sanitise(version)) == WithoutPrerelease(Key(Prefixed(version)))
            <==> Prerelease(Prefixed(version)) == "" || '+' !in version
  {
    hide Key, Prerelease;
    var v := Prefixed(version);
    assert Sanitise(version) == Sanitise(v);
    assert '+' in v <==> '+' in version;
    if Prerelease(v) == "" {
      assert v[..|v| - 0] == v && Sanitise(v) == v;
      NothingToDrop(v);
    } else {
      PrereleaseOfPrefixed(v);
      PrereleaseMeansParsed(v);
      assert Key(v).Some? by { KeyOfParsed(v); }
    }
  }

  lemma NothingToDrop(v: string)
    requires Prerelease(v) == ""
    ensures WithoutPrerelease(Key(v)) == Key(v)
  {}

  lemma KeyOfParsed(v: string)
    ensures Key(v).Some? <==> Parse(v).Some?
  {}

  lemma NoPlus(v: string, head: string, suffix: string)
    requires v == head + suffix && '+' !in head && IndexOf(suffix, '+') == |suffix|
    ensures '+' !in v && suffix[..IndexOf(suffix, '+')] == suffix
  {
    assert suffix[..|suffix|] == suffix;
  }

  lemma PrereleaseIs(v: string, major: string, minor: string, patch: string, suffix: string)
    requires ParseSuffix(suffix).Some? && Parse(v) == Some(Parsed(major, minor, patch, ParseSuffix(suffix).value))
    ensures Prerelease(v) == ParseSuffix(suffix).value
  {}

  lemma DropSuffix(head: string, pre: string)
    requires HasPrefix(head, "v") && Prerelease(head + pre) == pre
    ensures Sanitise(head + pre) == head
  {
    assert HasPrefix(head + pre, "v");
    assert (head + pre)[|head + pre| - |pre|..] == pre && (head + pre)[..|head + pre| - |pre|] == head;
  }

  lemma ReleaseKey(v: string, major: string, minor: string, patch: string, pre: string)
    requires Canonical(major) && Canonical(minor) && Canonical(patch)
    requires Parse(v) == Some(Parsed(major, minor, patch, pre))
    ensures Key(v).Some? && Key(Head(major, minor, patch)) == Some(Key(v).value.(pre := []))
  {
    hide Parse, Head;
    ParseHead(major, minor, patch, "");
    assert Head(major, minor, patch) + "" == Head(major, minor, patch);
  }

  /** Whatever is trimmed after build metadata comes off the build, never off the
      pre-release. */
  lemma TrimmedKeepsPrerelease(v: string, major: string, minor: string, patch: string, pre: string, build: string)
    requires Canonical(major) && Canonical(minor) && Canonical(patch)
    requires pre != "" && pre[0] == '-' && '+' !in pre && build != "" && build[0] == '+'
    requires v == Head(major, minor, patch) + (pre + build) && HasPrefix(v, "v")
    requires Prerelease(v) == pre
    ensures Key(v).Some? && Key(Sanitise(v)) != Some(Key(v).value.(pre := []))
  {
    hide Head, Canonical, Parse, Prerelease;
    var left := CutFromBuild(v, Head(major, minor, patch), pre, build);
    ParseHead(major, minor, patch, pre + left);
    ParseHead(major, minor, patch, pre + build);
    IndexInSecond(pre, left, '+');
    IndexInSecond(pre, build, '+');
    PrereleaseMeansParsed(v);
  }

  lemma PrereleaseMeansParsed(v: string)
    requires Prerelease(v) != ""
    ensures Parse(v).Some?
  {}

  lemma SuffixInBuild(v: string, front: string, build: string, pre: string)
    requires v == front + build && build != "" && build[0] == '+' && '+' !in pre && HasSuffix(v, pre)
    ensures |build| > |pre|
  {
    assert v[|front|] == '+';
    NoneInTail(v, |v| - |pre|);
  }

  lemma NoneInTail(v: string, k: nat)
    requires k <= |v| && '+' !in v[k..]
    ensures forall m :: k <= m < |v| ==> v[m] != '+'
  {
    forall m | k <= m < |v| ensures v[m] != '+' {
      assert v[m] == v[k..][m - k];
    }
  }

  lemma CutFromBuild(v: string, head: string, pre: string, build: string) returns (left: string)
    requires pre != "" && '+' !in pre && build != "" && build[0] == '+'
    requires v == head + (pre + build) && HasPrefix(v, "v") && Prerelease(v) == pre
    ensures left != "" && left[0] == '+' && Sanitise(v) == head + (pre + left)
  {
    hide Prerelease;
    assert v == (head + pre) + build;
    if HasSuffix(v, pre) {
      SuffixInBuild(v, head + pre, build, pre);
      left := build[..|build| - |pre|];
      assert Sanitise(v) == v[..|v| - |pre|];
      assert v[..|v| - |pre|] == head + (pre + left);
    } else {
      left := build;
    }
  }

  // ---------- the list ----------

  datatype QueryByVersion = QueryByVersion(version: string, query: string)

  function Order(a: string, b: string): int { Compare(Sanitise(a), Sanitise(b)) }

  lemma OrderLaws(a: string, b: string, c: string)
    ensures Order(a, a) == 0 && Order(a, b) == -Order(b, a)
    ensures Order(a, b) <= 0 && Order(b, c) <= 0 ==> Order(a, c) <= 0
  {
    CompareIsTotalPreorder(Sanitise(a), Sanitise(b), Sanitise(c));
  }

  /** Listed versions are in the order of their precedence without pre-releases: those that are
      invalid first, level with each other, and then by number. */
  lemma OrderIsPrecedence(a: string, b: string)
    requires '+' !in a && '+' !in b
    ensures Order(a, b) == KeyOrder(WithoutPrerelease(Key(Prefixed(a))), WithoutPrerelease(Key(Prefixed(b))))
  {
    hide Sanitise, Prefixed, Key, KeyOrder, Compare, WithoutPrerelease, Prerelease;
    CompareIsPrecedence(Sanitise(a), Sanitise(b));
    PrereleaseIsDroppedExactly(a);
    PrereleaseIsDroppedExactly(b);
  }

  /** Of two versions with numbers the one with the lower major, then minor, then patch number is
      listed first, with or without a `v` and whatever their pre-releases. */
  lemma LowerIsFirst(x: (nat, nat, nat), y: (nat, nat, nat), a: string, b: string)
    requires HasNumbers(a, x) && HasNumbers(b, y) && '+' !in a && '+' !in b
    requires x.0 < y.0 || (x.0 == y.0 && (x.1 < y.1 || (x.1 == y.1 && x.2 < y.2)))
    ensures Order(a, b) == -1 && Order(b, a) == 1
  {
    OrderIsPrecedence(a, b);
    OrderIsPrecedence(b, a);
    hide Order, Key, Prefixed;
  }

  predicate HasNumbers(version: string, x: (nat, nat, nat)) {
    match Key(Prefixed(version))
    case None => false
    case Some(v) => v.major == x.0 && v.minor == x.1 && v.patch == x.2
  }

  predicate IsSorted(s: seq<QueryByVersion>) {
    forall i, j :: 0 <= i < j < |s| ==> Order(s[i].version, s[j].version) <= 0
  }

  /** `e` is listed and no listed version at or below `v` is above it; when none is at or
      below `v`, no listed version is above it at all. */
  ghost predicate IsChoice(listed: multiset<QueryByVersion>, v: string, e: QueryByVersion) {
    && e in listed
    && if exists f :: f in listed && Order(f.version, v) <= 0
       then Order(e.version, v) <= 0 && forall f :: f in listed && Order(f.version, v) <= 0 ==>
           Order(f.version, e.version) <= 0
       else forall f :: f in listed ==> Order(f.version, e.version) <= 0
  }

  ghost predicate DistinctVersions(listed: multiset<QueryByVersion>) {
    forall e, f :: e in listed && f in listed && e != f ==> Order(e.version, f.version) != 0
  }

  /** With distinct versions there is one choice, so neither the order of the list nor any
      earlier call shows in the answer. */
  lemma ChoiceIsUnique(listed: multiset<QueryByVersion>, v: string, e: QueryByVersion, f: QueryByVersion)
    requires DistinctVersions(listed) && IsChoice(listed, v, e) && IsChoice(listed, v, f)
    ensures e == f
  {
    OrderLaws(e.version, f.version, e.version);
  }

  /** Above the least listed version, a newer platform never gets an older query. */
  lemma ChoiceIsMonotone(listed: multiset<QueryByVersion>, v: string, w: string, least: QueryByVersion,
      e: QueryByVersion, f: QueryByVersion)
    requires Order(v, w) <= 0 && least in listed && Order(least.version, v) <= 0
    requires IsChoice(listed, v, e) && IsChoice(listed, w, f)
    ensures Order(e.version, f.version) <= 0
  {
    OrderLaws(e.version, v, w);
    OrderLaws(least.version, v, w);
  }

  // ---------- sorting in place ----------

  /** No entry is below its predecessor. */
  predicate AscendsFrom(s: seq<QueryByVersion>, from: nat) {
    forall i :: 0 < i < |s| && from <= i ==> Order(s[i].version, s[i - 1].version) >= 0
  }

  lemma {:induction false} LastIsHighest(s: seq<QueryByVersion>, i: nat)
    requires AscendsFrom(s, 1) && i < |s|
    ensures Order(s[i].version, s[|s| - 1].version) <= 0
    decreases |s| - i
  {
    hide Order;
    var last := s[|s| - 1].version;
    if i == |s| - 1 {
      OrderLaws(last, last, last);
    } else {
      LastIsHighest(s, i + 1);
      OrderLaws(s[i].version, s[i + 1].version, last);
      assert Order(s[i + 1].version, s[i + 1 - 1].version) >= 0;
    }
  }

  /** Neighbours in order make a sorted list. */
  lemma AscendingIsSorted(s: seq<QueryByVersion>)
    ensures AscendsFrom(s, 1) <==> IsSorted(s)
  {
    hide Order;
    if AscendsFrom(s, 1) {
      forall i, j | 0 <= i < j < |s| ensures Order(s[i].version, s[j].version) <= 0 {
        LastIsHighest(s[..j + 1], i);
      }
    }
    if IsSorted(s) {
      forall i | 0 < i < |s| ensures Order(s[i].version, s[i - 1].version) >= 0 {
        OrderLaws(s[i].version, s[i - 1].version, s[i].version);
      }
    }
  }

  lemma NothingAscends(s: seq<QueryByVersion>)
    ensures AscendsFrom(s, |s|) && (|s| == 0 ==> AscendsFrom(s, 1))
  {}

  lemma AscendStep(s: seq<QueryByVersion>, i: nat)
    requires 0 < i < |s| && AscendsFrom(s, i + 1)
    ensures AscendsFrom(s, i) <==> Order(s[i].version, s[i - 1].version) >= 0
    ensures AscendsFrom(s, 1) ==> AscendsFrom(s, i)
  {
    hide Order;
  }

  /** Sorted up to `i`, but for the entry at `j`, which is not above any after it. */
  predicate SortedBut(s: seq<QueryByVersion>, i: nat, j: nat)
    requires i < |s|
  {
    forall a, b :: 0 <= a < b <= i && b != j ==> Order(s[a].version, s[b].version) <= 0
  }

  function Swapped(s: seq<QueryByVersion>, i: nat, j: nat): seq<QueryByVersion>
    requires i < |s| && j < |s|
  {
    s[i := s[j]][j := s[i]]
  }

  lemma SwapDown(s: seq<QueryByVersion>, i: nat, j: nat)
    requires 0 < j <= i < |s| && SortedBut(s, i, j) && Order(s[j].version, s[j - 1].version) < 0
    ensures SortedBut(Swapped(s, j, j - 1), i, j - 1)
    ensures multiset(Swapped(s, j, j - 1)) == multiset(s)
  {
    hide Order;
    OrderLaws(s[j].version, s[j - 1].version, s[j].version);
  }

  lemma InPlace(s: seq<QueryByVersion>, i: nat, j: nat)
    requires j <= i < |s| && SortedBut(s, i, j) && (j > 0 ==> Order(s[j].version, s[j - 1].version) >= 0)
    ensures IsSorted(s[..i + 1])
  {
    hide Order;
    forall a | 0 <= a < j ensures Order(s[a].version, s[j].version) <= 0 {
      OrderLaws(s[j].version, s[j - 1].version, s[j].version);
      if a < j - 1 { OrderLaws(s[a].version, s[j - 1].version, s[j].version); }
    }
  }

  lemma NextEntry(s: seq<QueryByVersion>, i: nat)
    requires i < |s| && IsSorted(s[..i])
    ensures SortedBut(s, i, i)
  {
    hide Order;
    forall a, b | 0 <= a < b <= i && b != i ensures Order(s[a].version, s[b].version) <= 0 {
      assert s[a] == s[..i][a] && s[b] == s[..i][b];
    }
  }

  class QueryList {
    const items: array<QueryByVersion>

    constructor (items: array<QueryByVersion>)
      ensures this.items == items
    {
      this.items := items;
    }

    method Swap(i: nat, j: nat)
      requires i < items.Length && j < items.Length
      modifies items
      ensures items[..] == Swapped(old(items[..]), i, j)
    {
      items[i], items[j] := items[j], items[i];
    }

    /** `sort.IsSorted`: neighbours are enough. */
    method CheckSorted() returns (sorted: bool)
      ensures sorted <==> IsSorted(items[..])
    {
      hide *;
      ghost var s := items[..];
      AscendingIsSorted(s);
      NothingAscends(s);
      var i := items.Length;
      while i > 1
        invariant 0 <= i <= items.Length && (i == 0 ==> items.Length == 0)
        invariant AscendsFrom(s, i)
      {
        i := i - 1;
        assert s[i] == items[i] && s[i - 1] == items[i - 1];
        AscendStep(s, i);
        if Order(items[i].version, items[i - 1].version) < 0 { return false; }
      }
      sorted := true;
    }

    /** `sort.Sort` on a list as short as these: insertion by exchanging neighbours. What it
        promises is no more than a sorted permutation, as the library's sort is not stable. */
    method Sort()
      modifies items
      ensures IsSorted(items[..]) && multiset(items[..]) == multiset(old(items[..]))
    {
      hide *;
      NothingUnsorted(items[..]);
      for i := 0 to items.Length
        invariant IsSorted(items[..i])
        invariant multiset(items[..]) == multiset(old(items[..]))
      {
        var j := i;
        assert items[..i] == items[..][..i];
        NextEntry(items[..], i);
        while j > 0 && Order(items[j].version, items[j - 1].version) < 0
          invariant 0 <= j <= i && SortedBut(items[..], i, j)
          invariant multiset(items[..]) == multiset(old(items[..]))
        {
          ghost var s := items[..];
          assert s[j] == items[j] && s[j - 1] == items[j - 1];
          SwapDown(s, i, j);
          Swap(j, j - 1);
          j := j - 1;
        }
        assert items[..][j] == items[j] && (j > 0 ==> items[..][j - 1] == items[j - 1]);
        InPlace(items[..], i, j);
        assert items[..i + 1] == items[..][..i + 1];
      }
      assert items[..items.Length] == items[..];
    }

    method GreatestLowerBound(v: string) returns (query: string)
      requires items.Length > 0
      modifies items
      ensures multiset(items[..]) == multiset(old(items[..])) && IsSorted(items[..])
      ensures IsSorted(old(items[..])) ==> items[..] == old(items[..])
      ensures exists e :: IsChoice(multiset(items[..]), v, e) && query == e.query
    {
      hide Order, IsSorted, IsChoice;
      var sorted := CheckSorted();
      if !sorted { Sort(); }
      query := Search(items[..], v);
    }
  }

  lemma NothingUnsorted(s: seq<QueryByVersion>)
    ensures IsSorted(s[..0])
  {}

  /** From the highest version down to the first at or below `v`. */
  method Search(s: seq<QueryByVersion>, v: string) returns (query: string)
    requires s != [] && IsSorted(s)
    ensures exists e :: IsChoice(multiset(s), v, e) && query == e.query
  {
    hide Order, IsSorted, IsChoice;
    var i := |s|;
    while i > 0
      invariant 0 <= i <= |s|
      invariant forall j :: i <= j < |s| ==> Order(s[j].version, v) > 0
    {
      i := i - 1;
      OrderLaws(v, s[i].version, v);
      if Order(v, s[i].version) >= 0 {
        LastAtOrBelow(s, v, i);
        return s[i].query;
      }
    }
    HighestWhenNone(s, v);
    return s[|s| - 1].query;
  }

  lemma LastAtOrBelow(s: seq<QueryByVersion>, v: string, i: nat)
    requires i < |s| && IsSorted(s) && Order(s[i].version, v) <= 0
    requires forall j :: i < j < |s| ==> Order(s[j].version, v) > 0
    ensures IsChoice(multiset(s), v, s[i])
  {
    hide Order;
    OrderLaws(s[i].version, s[i].version, v);
    assert s[i] in multiset(s);
    forall f | f in multiset(s) && Order(f.version, v) <= 0 ensures Order(f.version, s[i].version) <= 0 {
      var j :| 0 <= j < |s| && s[j] == f;
    }
  }

  lemma HighestWhenNone(s: seq<QueryByVersion>, v: string)
    requires s != [] && IsSorted(s) && forall j :: 0 <= j < |s| ==> Order(s[j].version, v) > 0
    ensures IsChoice(multiset(s), v, s[|s| - 1])
  {
    hide Order;
    var last := s[|s| - 1];
    OrderLaws(last.version, last.version, v);
    assert last in multiset(s);
    forall f | f in multiset(s) ensures Order(f.version, last.version) <= 0 && Order(f.version, v) > 0 {
      var j :| 0 <= j < |s| && s[j] == f;
    }
  }
}
