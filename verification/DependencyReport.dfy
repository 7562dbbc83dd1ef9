/** The dependency-compare report of an upgrade test: two frozen package lists become thirteen
    lists of changes. Go maps are visited in an arbitrary order and the lists are package
    globals, so the contracts say what each call adds. */
module DependencyReport {
  import opened Strings

  // ---------- versions ----------

  /** What `semver.NewVersion` makes of a version string. */
  datatype Parsed = Version(major: nat, minor: nat, patch: nat) | InvalidSemVer | OtherError

  datatype Kind = Major | Minor | Patch | Unknown

  /** `None` is an error other than an invalid version, which stops the report. */
  function UpdateKind(before: Parsed, after: Parsed): Option<Kind> {
    if before == OtherError then None
    else if before == InvalidSemVer then Some(Unknown)
    else if after == OtherError then None
    else if after == InvalidSemVer then Some(Unknown)
    else if after.major > before.major then Some(Major)
    else if after.minor > before.minor then Some(Minor)
    else if after.patch > before.patch then Some(Patch)
    else Some(Unknown)
  }

  /** The error of the first version that has one decides; an invalid version is no error of
      the report. */
  method CheckVersionChange(before: Parsed, after: Parsed) returns (kind: Option<Kind>)
    ensures kind == UpdateKind(before, after)
    ensures kind.None? <==> before == OtherError || (before != InvalidSemVer && after == OtherError)
    ensures before == InvalidSemVer || (before.Version? && after == InvalidSemVer) ==> kind == Some(Unknown)
  {
    if !before.Version? { return if before == InvalidSemVer then Some(Unknown) else None; }
    if !after.Version? { return if after == InvalidSemVer then Some(Unknown) else None; }
    if after.major > before.major { return Some(Major); }
    if after.minor > before.minor { return Some(Minor); }
    if after.patch > before.patch { return Some(Patch); }
    return Some(Unknown);
  }

  function VersionOrder(a: Parsed, b: Parsed): int
    requires a.Version? && b.Version?
  {
    if a.major != b.major then CompareNat(a.major, b.major)
    else if a.minor != b.minor then CompareNat(a.minor, b.minor)
    else CompareNat(a.patch, b.patch)
  }

  /** The highest of the three numbers that differs. */
  function HighestChange(before: Parsed, after: Parsed): Kind
    requires before.Version? && after.Version?
  {
    if after.major != before.major then Major else if after.minor != before.minor then Minor else Patch
  }

  /** An upgrade is of the kind of the highest number that changed; but a downgrade is given a
      kind too, exactly when a lower number grew while a higher one shrank. */
  lemma KindIsUpgradeExactly(before: Parsed, after: Parsed)
    requires before.Version? && after.Version?
    ensures VersionOrder(after, before) > 0 ==> UpdateKind(before, after) == Some(HighestChange(before, after))
    ensures UpdateKind(before, after) != Some(Unknown) ==>
              (VersionOrder(after, before) > 0
               <==> after.major > before.major || (after.major == before.major && after.minor >= before.minor))
  {}

  // ---------- categories ----------

  datatype Category = AirflowUpdate
                    | ProviderUpdate(kind: Kind) | AddedProvider | RemovedProvider
                    | PackageUpdate(kind: Kind) | AddedPackage | RemovedPackage

  /** The thirteen lists, in the order they are written. */
  const CATEGORIES: seq<Category> := [
    AirflowUpdate,
    ProviderUpdate(Unknown), ProviderUpdate(Major), ProviderUpdate(Minor), ProviderUpdate(Patch),
    AddedProvider, RemovedProvider,
    PackageUpdate(Unknown), PackageUpdate(Major), PackageUpdate(Minor), PackageUpdate(Patch),
    AddedPackage, RemovedPackage
  ]

  const TITLES: seq<string> := [
    "Apache Airflow Update:\n",
    "Airflow Providers Unknown Updates:\n", "Airflow Providers Major Updates:\n", "Airflow Providers Minor Updates:\n",
    "Airflow Providers Patch Updates:\n", "Added Airflow Providers:\n", "Removed Airflow Providers:\n",
    "Unknown Updates:\n", "Major Updates:\n", "Minor Updates:\n", "Patch Updates:\n", "Added Packages:\n",
    "Removed Packages:\n"
  ]

  predicate IsProvider(pkg: string) { Contains(pkg, "apache-airflow-providers-") }

  /** What one package contributes. */
  datatype Change = Nothing | Adds(category: Category, text: string) | Aborts

  /** A version before and after; "" is an absent package. */
  datatype Pair = Pair(before: string, after: string)

  function ChangeOf(parse: string -> Parsed, pkg: string, v: Pair): Change {
    if v.before != "" && v.after != "" then
      if v.before == v.after then Nothing
      else match UpdateKind(parse(v.before), parse(v.after))
        case None => Aborts
        case Some(kind) =>
          Adds(if IsProvider(pkg) then ProviderUpdate(kind) else if pkg == "apache-airflow" then AirflowUpdate
              else PackageUpdate(kind),
               pkg + " " + v.before + " >> " + v.after)
    else if v.before != "" then Adds(if IsProvider(pkg) then RemovedProvider else RemovedPackage, pkg + "==" + v.before)
    else if v.after != "" then Adds(if IsProvider(pkg) then AddedProvider else AddedPackage, pkg + "==" + v.after)
    else Nothing
  }

  /** Unchanged packages add nothing, and an update is of the kind of its two versions; only two
      versions that differ can stop the report. */
  lemma ChangeMeans(parse: string -> Parsed, pkg: string, v: Pair)
    ensures var change := ChangeOf(parse, pkg, v);
            && (change == Nothing <==> v.before == v.after)
            && (change == Aborts <==>
                  v.before != "" && v.after != "" && v.before != v.after
                  && UpdateKind(parse(v.before), parse(v.after)).None?)
            && (change.Adds? && (change.category.ProviderUpdate? || change.category.PackageUpdate?) ==>
                  UpdateKind(parse(v.before), parse(v.after)) == Some(change.category.kind))
  {}

  /** Each list is written under the title of what it holds. */
  function TitleOf(c: Category): string {
    match c
    case AirflowUpdate => "Apache Airflow Update:\n"
    case ProviderUpdate(Unknown) => "Airflow Providers Unknown Updates:\n"
    case ProviderUpdate(Major) => "Airflow Providers Major Updates:\n"
    case ProviderUpdate(Minor) => "Airflow Providers Minor Updates:\n"
    case ProviderUpdate(Patch) => "Airflow Providers Patch Updates:\n"
    case AddedProvider => "Added Airflow Providers:\n"
    case RemovedProvider => "Removed Airflow Providers:\n"
    case PackageUpdate(Unknown) => "Unknown Updates:\n"
    case PackageUpdate(Major) => "Major Updates:\n"
    case PackageUpdate(Minor) => "Minor Updates:\n"
    case PackageUpdate(Patch) => "Patch Updates:\n"
    case AddedPackage => "Added Packages:\n"
    case RemovedPackage => "Removed Packages:\n"
  }

  lemma TitlesFit()
    ensures |TITLES| == |CATEGORIES|
  {}

  lemma TitlesAreOfCategories(i: nat)
    requires i < |CATEGORIES|
    ensures |TITLES| == |CATEGORIES| && TITLES[i] == TitleOf(CATEGORIES[i])
  {}

  // ---------- the lists ----------

  type Versions = map<string, Pair>

  predicate Parseable(parse: string -> Parsed, versions: Versions) {
    forall p :: p in versions ==> ChangeOf(parse, p, versions[p]) != Aborts
  }

  /** The entry one package adds to one list, if it does. */
  function TextOf(parse: string -> Parsed, versions: Versions, pkg: string, c: Category): seq<string>
    requires pkg in versions
  {
    match ChangeOf(parse, pkg, versions[pkg])
    case Adds(d, text) => if d == c then [text] else []
    case _ => []
  }

  /** The entries the packages of `order` add to one list, in that order. */
  function Texts(parse: string -> Parsed, versions: Versions, order: seq<string>, c: Category): seq<string>
    requires forall p :: p in order ==> p in versions
  {
    if order == [] then []
    else Texts(parse, versions, order[..|order| - 1], c) + TextOf(parse, versions, order[|order| - 1], c)
  }

  lemma {:induction false} TextsConcat(parse: string -> Parsed, versions: Versions, a: seq<string>, b: seq<string>,
      c: Category)
    requires (forall p :: p in a ==> p in versions) && (forall p :: p in b ==> p in versions)
    ensures Texts(parse, versions, a + b, c) == Texts(parse, versions, a, c) + Texts(parse, versions, b, c)
    decreases |b|
  {
    if b == [] {
      assert a + b == a;
    } else {
      var n := |b| - 1;
      hide TextOf;
      assert (a + b)[..|a + b| - 1] == a + b[..n] && (a + b)[|a + b| - 1] == b[n];
      TextsConcat(parse, versions, a, b[..n], c);
      Associate(Texts(parse, versions, a, c), Texts(parse, versions, b[..n], c), TextOf(parse, versions, b[n], c));
    }
  }

  /** Each package of the map once. */
  ghost predicate IsOrder(versions: Versions, order: seq<string>) {
    multiset(order) == multiset(versions.Keys)
  }

  /** How many packages of `order` changed. */
  function Changed(versions: Versions, order: seq<string>): nat
    requires forall p :: p in order ==> p in versions
  {
    if order == [] then 0
    else
      var n := |order| - 1;
      Changed(versions, order[..n]) + (if versions[order[n]].before != versions[order[n]].after then 1 else 0)
  }

  /** The entries of all the lists from `from` on. */
  function TotalTexts(parse: string -> Parsed, versions: Versions, order: seq<string>, from: nat): nat
    requires from <= |CATEGORIES| && forall p :: p in order ==> p in versions
    decreases |CATEGORIES| - from
  {
    if from == |CATEGORIES| then 0
    else |Texts(parse, versions, order, CATEGORIES[from])| + TotalTexts(parse, versions, order, from + 1)
  }

  /** Where a category is among the thirteen. */
  function IndexOf(c: Category): (i: nat)
    ensures i < |CATEGORIES| && CATEGORIES[i] == c
  {
    match c
    case AirflowUpdate => 0
    case ProviderUpdate(kind) => 1 + KindIndex(kind)
    case AddedProvider => 5
    case RemovedProvider => 6
    case PackageUpdate(kind) => 7 + KindIndex(kind)
    case AddedPackage => 11
    case RemovedPackage => 12
  }

  function KindIndex(kind: Kind): nat {
    match kind case Unknown => 0 case Major => 1 case Minor => 2 case Patch => 3
  }

  lemma EachCategoryOnce(i: nat)
    requires i < |CATEGORIES|
    ensures IndexOf(CATEGORIES[i]) == i
  {}

  /** How many entries one package adds to the lists from `from` on. */
  function TextsOfOne(parse: string -> Parsed, versions: Versions, pkg: string, from: nat): nat
    requires pkg in versions && from <= |CATEGORIES|
    decreases |CATEGORIES| - from
  {
    if from == |CATEGORIES| then 0
    else |TextOf(parse, versions, pkg, CATEGORIES[from])| + TextsOfOne(parse, versions, pkg, from + 1)
  }

  lemma {:induction false} TotalStep(parse: string -> Parsed, versions: Versions, order: seq<string>, from: nat)
    requires from <= |CATEGORIES| && order != [] && forall p :: p in order ==> p in versions
    ensures var n := |order| - 1;
            TotalTexts(parse, versions, order, from) ==
            TotalTexts(parse, versions, order[..n], from) + TextsOfOne(parse, versions, order[n], from)
    decreases |CATEGORIES| - from
  {
    hide TextOf, Texts;
    if from == |CATEGORIES| {
    } else {
      TotalStep(parse, versions, order, from + 1);
      TextsStep(parse, versions, order, CATEGORIES[from]);
    }
  }

  lemma TextsStep(parse: string -> Parsed, versions: Versions, order: seq<string>, c: Category)
    requires order != [] && forall p :: p in order ==> p in versions
    ensures var n := |order| - 1;
            |Texts(parse, versions, order, c)| ==
            |Texts(parse, versions, order[..n], c)| + |TextOf(parse, versions, order[n], c)|
  {
    hide TextOf;
  }

  lemma TextOfSize(parse: string -> Parsed, versions: Versions, pkg: string, i: nat)
    requires pkg in versions && i < |CATEGORIES|
    ensures var change := ChangeOf(parse, pkg, versions[pkg]);
            |TextOf(parse, versions, pkg, CATEGORIES[i])| ==
            if change.Adds? && IndexOf(change.category) == i then 1 else 0
  {
    hide ChangeOf;
    EachCategoryOnce(i);
  }

  /** A package adds one entry to one list, or none to any. */
  lemma {:induction false} OneEntryAtMost(parse: string -> Parsed, versions: Versions, pkg: string, from: nat)
    requires pkg in versions && from <= |CATEGORIES|
    ensures var change := ChangeOf(parse, pkg, versions[pkg]);
            TextsOfOne(parse, versions, pkg, from) == if change.Adds? && from <= IndexOf(change.category) then 1 else 0
    decreases |CATEGORIES| - from
  {
    hide ChangeOf, TextOf, IndexOf;
    if from == |CATEGORIES| {
    } else {
      OneEntryAtMost(parse, versions, pkg, from + 1);
      TextOfSize(parse, versions, pkg, from);
    }
  }

  /** The report is a partition: over all thirteen lists there are exactly as many new entries
      as packages that changed, so each adds one entry to one list and the others none. */
  lemma {:induction false} ReportIsPartition(parse: string -> Parsed, versions: Versions, order: seq<string>)
    requires Parseable(parse, versions) && forall p :: p in order ==> p in versions
    ensures TotalTexts(parse, versions, order, 0) == Changed(versions, order)
  {
    if order == [] {
      NoTexts(parse, versions, 0);
    } else {
      var n := |order| - 1;
      ReportIsPartition(parse, versions, order[..n]);
      TotalStep(parse, versions, order, 0);
      OneEntryAtMost(parse, versions, order[n], 0);
      assert order[n] in order;
    }
  }

  lemma {:induction false} NoTexts(parse: string -> Parsed, versions: Versions, from: nat)
    requires from <= |CATEGORIES|
    ensures TotalTexts(parse, versions, [], from) == 0
    decreases |CATEGORIES| - from
  {
    if from == |CATEGORIES| {
    } else {
      NoTexts(parse, versions, from + 1);
    }
  }

  // ---------- sorting ----------

  predicate AtMostAll(x: string, s: seq<string>) { forall y :: y in s ==> CompareStrings(x, y) <= 0 }

  predicate IsSorted(s: seq<string>) { s == [] || (AtMostAll(s[0], s[1..]) && IsSorted(s[1..])) }

  function Insert(x: string, s: seq<string>): (r: seq<string>)
    ensures multiset(r) == multiset(s) + multiset{x}
  {
    if s == [] || CompareStrings(x, s[0]) <= 0 then [x] + s
    else
      assert s == [s[0]] + s[1..];
      [s[0]] + Insert(x, s[1..])
  }

  lemma {:induction false} InsertIsSorted(x: string, s: seq<string>)
    requires IsSorted(s)
    ensures IsSorted(Insert(x, s))
  {
    if s == [] || CompareStrings(x, s[0]) <= 0 {
      assert ([x] + s)[1..] == s;
      forall y | y in s ensures CompareStrings(x, y) <= 0 {
        if y != s[0] {
          assert y in s[1..];
          CompareStringsTransitive(x, s[0], y);
        }
      }
    } else {
      var rest := Insert(x, s[1..]);
      InsertIsSorted(x, s[1..]);
      CompareStringsSign(x, s[0]);
      assert ([s[0]] + rest)[1..] == rest;
      forall y | y in rest ensures CompareStrings(s[0], y) <= 0 {
        assert y in multiset(rest);
        assert y == x || y in multiset(s[1..]);
      }
    }
  }

  /** `sort.Strings`: by `SortedIsUnique`, any sorting gives this. */
  function SortStrings(s: seq<string>): (r: seq<string>)
    ensures IsSorted(r) && multiset(r) == multiset(s)
  {
    if s == [] then []
    else
      assert s == [s[0]] + s[1..];
      InsertIsSorted(s[0], SortStrings(s[1..]));
      Insert(s[0], SortStrings(s[1..]))
  }

  lemma SortedHeadsAgree(a: seq<string>, b: seq<string>)
    requires IsSorted(a) && IsSorted(b) && multiset(a) == multiset(b) && a != [] && b != []
    ensures a[0] == b[0]
  {
    assert a[0] in multiset(a) && b[0] in multiset(b);
    assert a[0] in b && b[0] in a;
    assert a == [a[0]] + a[1..] && b == [b[0]] + b[1..];
    CompareStringsSign(a[0], b[0]);
  }

  lemma SameTails(a: seq<string>, b: seq<string>)
    requires a != [] && b != [] && a[0] == b[0] && multiset(a) == multiset(b)
    ensures multiset(a[1..]) == multiset(b[1..])
  {
    assert a == [a[0]] + a[1..] && b == [b[0]] + b[1..];
    assert multiset(a[1..]) == multiset(a) - multiset{a[0]} == multiset(b) - multiset{b[0]} == multiset(b[1..]);
  }

  lemma {:induction false} SortedIsUnique(a: seq<string>, b: seq<string>)
    requires IsSorted(a) && IsSorted(b) && multiset(a) == multiset(b)
    ensures a == b
  {
    assert |multiset(a)| == |multiset(b)|;
    if a == [] {
    } else {
      hide AtMostAll;
      SortedHeadsAgree(a, b);
      SameTails(a, b);
      SortedIsUnique(a[1..], b[1..]);
      assert a == [a[0]] + a[1..] && b == [b[0]] + b[1..];
    }
  }

  // ---------- order does not matter ----------

  lemma WithoutLast(a: seq<string>, front: seq<string>, back: seq<string>)
    requires a != [] && multiset(a) == multiset(front + ([a[|a| - 1]] + back))
    ensures multiset(a[..|a| - 1]) == multiset(front + back)
  {
    var x, init := a[|a| - 1], a[..|a| - 1];
    assert a == init + [x];
    assert multiset(a) == multiset(init) + multiset{x};
    assert multiset(init) == multiset(a) - multiset{x};
    assert multiset(front + ([x] + back)) == multiset(front) + multiset([x] + back) ==
        multiset(front) + (multiset{x} + multiset(back));
    assert multiset(front + back) == multiset(front) + multiset(back);
  }

  lemma TextsAround(parse: string -> Parsed, versions: Versions, front: seq<string>, x: string, back: seq<string>,
      c: Category)
    requires x in versions && (forall p :: p in front ==> p in versions) && (forall p :: p in back ==> p in versions)
    ensures multiset(Texts(parse, versions, front + ([x] + back), c)) ==
            multiset(Texts(parse, versions, front + back, c)) + multiset(TextOf(parse, versions, x, c))
  {
    hide TextOf;
    TextsConcat(parse, versions, front, [x] + back, c);
    TextsConcat(parse, versions, [x], back, c);
    TextsConcat(parse, versions, front, back, c);
    assert Texts(parse, versions, [x], c) == TextOf(parse, versions, x, c) by { assert [x][..0] == []; }
  }

  /** Two orders of the same packages give each list the same entries. */
  lemma {:induction false} SameEntriesInAnyOrder(parse: string -> Parsed, versions: Versions, a: seq<string>,
      b: seq<string>, c: Category)
    requires (forall p :: p in a ==> p in versions) && (forall p :: p in b ==> p in versions)
        && multiset(a) == multiset(b)
    ensures multiset(Texts(parse, versions, a, c)) == multiset(Texts(parse, versions, b, c))
    decreases |a|
  {
    hide TextOf;
    assert |multiset(a)| == |multiset(b)|;
    if a == [] {
    } else {
      var n := |a| - 1;
      assert a[n] in multiset(a) && a[n] in b;
      var i :| 0 <= i < |b| && b[i] == a[n];
      var front, back := b[..i], b[i + 1..];
      assert b == front + ([a[n]] + back);
      WithoutLast(a, front, back);
      SameEntriesInAnyOrder(parse, versions, a[..n], front + back, c);
      TextsAround(parse, versions, front, a[n], back, c);
    }
  }

  lemma OnlyAirflow(parse: string -> Parsed, versions: Versions, pkg: string)
    requires pkg in versions
    ensures |TextOf(parse, versions, pkg, AirflowUpdate)| <= if pkg == "apache-airflow" then 1 else 0
  {}

  /** The airflow list, which is never sorted, gets at most the one entry of its package. */
  lemma {:induction false} AirflowOnce(parse: string -> Parsed, versions: Versions, order: seq<string>)
    requires (forall p :: p in order ==> p in versions) && multiset(order)["apache-airflow"] <= 1
    ensures |Texts(parse, versions, order, AirflowUpdate)| <= multiset(order)["apache-airflow"]
  {
    if order == [] {
    } else {
      hide TextOf;
      var n := |order| - 1;
      assert order == order[..n] + [order[n]];
      assert multiset(order) == multiset(order[..n]) + multiset{order[n]};
      AirflowOnce(parse, versions, order[..n]);
      OnlyAirflow(parse, versions, order[n]);
    }
  }

  /** From empty lists each list ends up the same whatever order the map is visited in. */
  lemma SameListsInAnyOrder(parse: string -> Parsed, versions: Versions, a: seq<string>, b: seq<string>, c: Category)
    requires IsOrder(versions, a) && IsOrder(versions, b)
    requires (forall p :: p in a ==> p in versions) && (forall p :: p in b ==> p in versions)
    ensures Final(c, Texts(parse, versions, a, c)) == Final(c, Texts(parse, versions, b, c))
  {
    hide Texts, TextOf, SortStrings, IsSorted;
    SameEntriesInAnyOrder(parse, versions, a, b, c);
    var x, y := Texts(parse, versions, a, c), Texts(parse, versions, b, c);
    if c == AirflowUpdate {
      AirflowOnce(parse, versions, a);
      AirflowOnce(parse, versions, b);
      assert |x| == |multiset(x)| == |multiset(y)| == |y|;
      if |x| == 1 { assert x == [x[0]] && y == [y[0]] && x[0] in multiset(x); }
    } else {
      SortedIsUnique(SortStrings(x), SortStrings(y));
    }
  }

  /** A list as it is written: sorted, but for the airflow one. */
  function Final(c: Category, list: seq<string>): seq<string> {
    if c == AirflowUpdate then list else SortStrings(list)
  }

  function Lines(list: seq<string>): string {
    if list == [] then "" else list[0] + "\n" + Lines(list[1..])
  }

  /** A title, the entries and an empty line; nothing at all for an empty list. */
  function Section(title: string, list: seq<string>): string {
    if list == [] then "" else title + Lines(list) + "\n"
  }

  /** A report: each list under its title, in order. */
  function Render(titles: seq<string>, lists: seq<seq<string>>, from: nat): string
    requires |lists| == |titles| && from <= |titles|
    decreases |titles| - from
  {
    if from == |titles| then "" else Section(titles[from], lists[from]) + Render(titles, lists, from + 1)
  }

  /** Appends a list under its title, unless it is empty. */
  method WriteToCompareFile(title: string, pkgList: seq<string>, written: string) returns (text: string)
    ensures text == written + Section(title, pkgList)
  {
    text := written;
    if |pkgList| > 0 {
      text := text + title;
      for i := 0 to |pkgList|
        invariant text == written + (title + Lines(pkgList[..i]))
      {
        LinesSnoc(pkgList[..i], pkgList[i]);
        assert pkgList[..i + 1] == pkgList[..i] + [pkgList[i]];
        Associate(title, Lines(pkgList[..i]), pkgList[i] + "\n");
        Associate(written, title + Lines(pkgList[..i]), pkgList[i] + "\n");
        text := text + (pkgList[i] + "\n");
      }
      assert pkgList[..|pkgList|] == pkgList;
      Associate(written, title + Lines(pkgList), "\n");
      text := text + "\n";
    }
  }

  lemma {:induction false} LinesSnoc(list: seq<string>, line: string)
    ensures Lines(list + [line]) == Lines(list) + (line + "\n")
  {
    if list == [] {
      assert [line][1..] == [] && list + [line] == [line];
    } else {
      LinesSnoc(list[1..], line);
      assert (list + [line])[1..] == list[1..] + [line];
      Associate(list[0] + "\n", Lines(list[1..]), line + "\n");
    }
  }

  lemma NextSection(titles: seq<string>, lists: seq<seq<string>>, i: nat, written: string)
    requires |lists| == |titles| && i < |titles|
    ensures (written + Section(titles[i], lists[i])) + Render(titles, lists, i + 1) ==
            written + Render(titles, lists, i)
  {
    hide Section;
    Associate(written, Section(titles[i], lists[i]), Render(titles, lists, i + 1));
  }

  lemma NoSection(titles: seq<string>, lists: seq<seq<string>>, text: string)
    requires |lists| == |titles|
    ensures Render(titles, lists, |titles|) == "" && text + "" == text
    ensures "" + Render(titles, lists, 0) == Render(titles, lists, 0)
  {
    hide Section;
  }

  method WriteLists(titles: seq<string>, lists: seq<seq<string>>) returns (text: string)
    requires |lists| == |titles|
    ensures text == Render(titles, lists, 0)
  {
    hide *;
    text := "";
    NoSection(titles, lists, text);
    for i := 0 to |titles|
      invariant text + Render(titles, lists, i) == Render(titles, lists, 0)
    {
      NextSection(titles, lists, i, text);
      text := WriteToCompareFile(titles[i], lists[i], text);
    }
    NoSection(titles, lists, text);
  }

  // ---------- reading the frozen lists ----------

  datatype Frozen = Frozen(pkg: string, ver: string)

  /** Where `==` first is in `s`, or `|s|`. */
  function IndexOfEquals(s: string): (n: nat)
    ensures n <= |s|
    ensures n < |s| ==> n + 2 <= |s| && s[n..n + 2] == "=="
  {
    if s == "" || HasPrefix(s, "==") then 0 else 1 + IndexOfEquals(s[1..])
  }

  lemma {:induction false} NoEquals(s: string)
    ensures IndexOfEquals(s) == |s| <==> !Contains(s, "==")
  {
    if s == "" || HasPrefix(s, "==") {
    } else {
      NoEquals(s[1..]);
    }
  }

  lemma {:induction false} FirstEquals(pkg: string, ver: string)
    ensures IndexOfEquals(pkg + ("==" + ver)) == |pkg| <==> !Contains(pkg + "=", "==")
  {
    var line := pkg + ("==" + ver);
    if pkg == "" {
      assert line == "==" + ver && pkg + "=" == "=";
      assert ("=")[1..] == "";
    } else {
      FirstEquals(pkg[1..], ver);
      assert line[1..] == pkg[1..] + ("==" + ver);
      assert (pkg + "=")[1..] == pkg[1..] + "=";
      assert line[0] == (pkg + "=")[0] && line[1] == (pkg + "=")[1];
      assert HasPrefix(line, "==") <==> HasPrefix(pkg + "=", "==");
    }
  }

  /** A line with exactly two parts around `==`; any other line is ignored. */
  function ParseLine(line: string): Option<Frozen> {
    var n := IndexOfEquals(line);
    if n == |line| then None
    else if IndexOfEquals(line[n + 2..]) != |line[n + 2..]| then None
    else Some(Frozen(line[..n], line[n + 2..]))
  }

  /** The version the last line for `pkg` gives, "" without one. */
  function LastVersion(lines: seq<string>, pkg: string): string {
    if lines == [] then ""
    else
      var f := ParseLine(lines[|lines| - 1]);
      if f.Some? && f.value.pkg == pkg then f.value.ver else LastVersion(lines[..|lines| - 1], pkg)
  }

  predicate Mentions(lines: seq<string>, pkg: string) {
    exists i :: 0 <= i < |lines| && ParseLine(lines[i]).Some? && ParseLine(lines[i]).value.pkg == pkg
  }

  /** The map of both files: every package either mentions, with its two last versions. */
  ghost predicate IsComparison(before: seq<string>, after: seq<string>, versions: Versions) {
    && (forall p :: p in versions <==> Mentions(before, p) || Mentions(after, p))
    && (forall p :: p in versions ==> versions[p] == Pair(LastVersion(before, p), LastVersion(after, p)))
  }

  lemma MentionsSnoc(lines: seq<string>, line: string, pkg: string)
    ensures Mentions(lines + [line], pkg)
        <==> Mentions(lines, pkg) || (ParseLine(line).Some? && ParseLine(line).value.pkg == pkg)
    ensures LastVersion(lines + [line], pkg) ==
            if ParseLine(line).Some? && ParseLine(line).value.pkg == pkg then ParseLine(line).value.ver
                else LastVersion(lines, pkg)
  {
    var all := lines + [line];
    assert all[|lines|] == line && all[..|all| - 1] == lines;
    if i :| 0 <= i < |lines| && ParseLine(lines[i]).Some? && ParseLine(lines[i]).value.pkg == pkg {
      assert all[i] == lines[i];
    }
  }

  /** A package no line mentions has no version. */
  lemma {:induction false} UnmentionedHasNone(lines: seq<string>, pkg: string)
    requires !Mentions(lines, pkg)
    ensures LastVersion(lines, pkg) == ""
  {
    if lines == [] {
    } else {
      var n := |lines| - 1;
      assert lines == lines[..n] + [lines[n]];
      MentionsSnoc(lines[..n], lines[n], pkg);
      UnmentionedHasNone(lines[..n], pkg);
    }
  }

  function Line(pkg: string, ver: string): string { pkg + ("==" + ver) }

  lemma ParsedIsLine(line: string)
    requires ParseLine(line).Some?
    ensures line == Line(ParseLine(line).value.pkg, ParseLine(line).value.ver)
  {
    var n := IndexOfEquals(line);
    assert line == line[..n] + (line[n..n + 2] + line[n + 2..]);
  }

  /** `pkg==ver` is read as that package and version exactly when neither part adds another
      `==` to it. */
  lemma LineIsParsedExactly(pkg: string, ver: string)
    ensures ParseLine(Line(pkg, ver)) == Some(Frozen(pkg, ver)) <==> !Contains(pkg + "=", "==") && !Contains(ver, "==")
  {
    FirstEquals(pkg, ver);
    NoEquals(ver);
    var line := Line(pkg, ver);
    assert line[..|pkg|] == pkg && line[|pkg| + 2..] == ver;
  }

  lemma {:induction false} LastVersionHasLine(lines: seq<string>, pkg: string)
    requires LastVersion(lines, pkg) != ""
    ensures Line(pkg, LastVersion(lines, pkg)) in lines
  {
    var n := |lines| - 1;
    var f := ParseLine(lines[n]);
    if f.Some? && f.value.pkg == pkg {
      ParsedIsLine(lines[n]);
    } else {
      LastVersionHasLine(lines[..n], pkg);
    }
  }

  lemma ProviderNames(pkg: string)
    ensures IsProvider(pkg) <==> Contains(pkg, "apache-airflow-providers-")
  {}

  predicate OfProvider(c: Category) { c.ProviderUpdate? || c.AddedProvider? || c.RemovedProvider? }

  /** What is listed as removed is a line of the first file, and as added a line of the second,
      word for word; an update stands for one line of each. Providers stay among themselves,
      and the first list is for Airflow only. */
  lemma EntriesComeFromTheFiles(parse: string -> Parsed, before: seq<string>, after: seq<string>, versions: Versions,
      pkg: string)
    requires IsComparison(before, after, versions) && pkg in versions && ChangeOf(parse, pkg, versions[pkg]).Adds?
    ensures var c := ChangeOf(parse, pkg, versions[pkg]).category;
            && (OfProvider(c) <==> Contains(pkg, "apache-airflow-providers-"))
            && (c == AirflowUpdate ==> pkg == "apache-airflow")
    ensures var Adds(c, text) := ChangeOf(parse, pkg, versions[pkg]);
            if c == RemovedProvider || c == RemovedPackage then text in before && LastVersion(after, pkg) == ""
            else if c == AddedProvider || c == AddedPackage then text in after && LastVersion(before, pkg) == ""
            else exists v, w ::
                   text == pkg + " " + v + " >> " + w && v != w && Line(pkg, v) in before && Line(pkg, w) in after
  {
    hide ParseLine, LastVersion, Mentions, UpdateKind, IsProvider;
    ProviderNames(pkg);
    var v, w := versions[pkg].before, versions[pkg].after;
    if v != "" { LastVersionHasLine(before, pkg); assert pkg + "==" + v == Line(pkg, v); }
    if w != "" { LastVersionHasLine(after, pkg); assert pkg + "==" + w == Line(pkg, w); }
  }

  method ReadVersions(before: seq<string>, after: seq<string>) returns (versions: Versions)
    ensures IsComparison(before, after, versions)
  {
    hide ParseLine, Mentions, LastVersion;
    versions := map[];
    forall p ensures !Mentions([], p) && LastVersion([], p) == "" { NothingMentioned(p); }
    for i := 0 to |before|
      invariant IsComparison(before[..i], [], versions)
    {
      var line := ParseLine(before[i]);
      assert before[..i + 1] == before[..i] + [before[i]];
      forall p { MentionsSnoc(before[..i], before[i], p); }
      if line.Some? {
        versions := versions[line.value.pkg := Pair(line.value.ver, "")];
      }
    }
    assert before[..|before|] == before;
    for i := 0 to |after|
      invariant IsComparison(before, after[..i], versions)
    {
      var line := ParseLine(after[i]);
      assert after[..i + 1] == after[..i] + [after[i]];
      forall p { MentionsSnoc(after[..i], after[i], p); }
      if line.Some? {
        var pkg, ver := line.value.pkg, line.value.ver;
        if pkg in versions {
          versions := versions[pkg := versions[pkg].(after := ver)];
        } else {
          UnmentionedHasNone(before, pkg);
          versions := versions[pkg := Pair("", ver)];
        }
      }
    }
    assert after[..|after|] == after;
  }

  lemma NothingMentioned(pkg: string)
    ensures !Mentions([], pkg) && LastVersion([], pkg) == ""
  {}

  // ---------- the report ----------

  /** The thirteen lists after the packages of `order`, on top of what they held. */
  ghost predicate HasAdded(parse: string -> Parsed, versions: Versions, order: seq<string>, was: seq<seq<string>>,
                          now: seq<seq<string>>) {
    && |was| == |now| == |CATEGORIES|
    && (forall p :: p in order ==> p in versions)
    && forall i :: 0 <= i < |CATEGORIES| ==> now[i] == was[i] + Texts(parse, versions, order, CATEGORIES[i])
  }

  ghost function SomeOrder(versions: Versions): (order: seq<string>)
    ensures IsOrder(versions, order) && forall p :: p in order ==> p in versions
  {
    var order := SeqOf(versions.Keys);
    assert forall p :: p in order ==> p in multiset(order);
    order
  }

  ghost function SeqOf(s: set<string>): (q: seq<string>)
    ensures multiset(q) == multiset(s)
    decreases |s|
  {
    if s == {} then [] else
      var x :| x in s;
      assert s == (s - {x}) + {x};
      SeqOf(s - {x}) + [x]
  }

  /** The lists of a first report, as a function of the versions alone. */
  ghost function FirstReport(parse: string -> Parsed, versions: Versions): (lists: seq<seq<string>>)
    ensures |lists| == |CATEGORIES|
  {
    var order := SomeOrder(versions);
    seq(|CATEGORIES|, i requires 0 <= i < |CATEGORIES| =>
      Final(CATEGORIES[i], Texts(parse, versions, order, CATEGORIES[i])))
  }

  lemma AddOne(parse: string -> Parsed, versions: Versions, order: seq<string>, pkg: string, was: seq<seq<string>>,
               now: seq<seq<string>>, next: seq<seq<string>>)
    requires HasAdded(parse, versions, order, was, now) && pkg in versions
    requires next == match ChangeOf(parse, pkg, versions[pkg])
                     case Adds(d, text) => now[IndexOf(d) := now[IndexOf(d)] + [text]]
                     case _ => now
    ensures HasAdded(parse, versions, order + [pkg], was, next)
  {
    hide ChangeOf;
    assert (order + [pkg])[..|order|] == order;
    forall i | 0 <= i < |CATEGORIES|
      ensures next[i] == was[i] + Texts(parse, versions, order + [pkg], CATEGORIES[i])
    {
      EachCategoryOnce(i);
      assert Texts(parse, versions, order + [pkg], CATEGORIES[i]) ==
             Texts(parse, versions, order, CATEGORIES[i]) + TextOf(parse, versions, pkg, CATEGORIES[i]);
    }
  }

  /** The package-level lists, by their place in the report. */
  class Report {
    var lists: seq<seq<string>>

    predicate Valid()
      reads this
    {
      |lists| == |CATEGORIES|
    }

    constructor ()
      ensures Valid() && forall i :: 0 <= i < |CATEGORIES| ==> lists[i] == []
    {
      lists := seq(|CATEGORIES|, i => []);
    }

    method Append(c: Category, text: string)
      requires Valid()
      modifies this
      ensures Valid() && lists == old(lists)[IndexOf(c) := old(lists)[IndexOf(c)] + [text]]
    {
      lists := lists[IndexOf(c) := lists[IndexOf(c)] + [text]];
    }

    method Categorize(pkg: string, pkgUpdate: string, kind: Kind)
      requires Valid()
      modifies this
      ensures Valid()
      ensures var c := if IsProvider(pkg) then ProviderUpdate(kind)
                       else if pkg == "apache-airflow" then AirflowUpdate else PackageUpdate(kind);
              lists == old(lists)[IndexOf(c) := old(lists)[IndexOf(c)] + [pkgUpdate]]
    {
      if IsProvider(pkg) {
        Append(ProviderUpdate(kind), pkgUpdate);
      } else if pkg == "apache-airflow" {
        Append(AirflowUpdate, pkgUpdate);
      } else {
        Append(PackageUpdate(kind), pkgUpdate);
      }
    }

    /** What one package adds to the lists. */
    method Visit(parse: string -> Parsed, pkg: string, v: Pair) returns (aborts: bool)
      requires Valid()
      modifies this
      ensures Valid() && (aborts <==> ChangeOf(parse, pkg, v) == Aborts)
      ensures lists == match ChangeOf(parse, pkg, v)
                       case Adds(c, text) => old(lists)[IndexOf(c) := old(lists)[IndexOf(c)] + [text]]
                       case _ => old(lists)
    {
      hide IndexOf, IsProvider;
      aborts := false;
      if v.before != "" && v.after != "" && v.before != v.after {
        var kind := CheckVersionChange(parse(v.before), parse(v.after));
        if kind.None? { return true; }
        Categorize(pkg, pkg + " " + v.before + " >> " + v.after, kind.value);
      }
      if v.before != "" && v.after == "" {
        Append(if IsProvider(pkg) then RemovedProvider else RemovedPackage, pkg + "==" + v.before);
      }
      if v.before == "" && v.after != "" {
        Append(if IsProvider(pkg) then AddedProvider else AddedPackage, pkg + "==" + v.after);
      }
    }

    /** Each package once, in whatever order the map is visited; stopped by the first version
        whose error is not that it is invalid. */
    method IteratePkgMap(parse: string -> Parsed, versions: Versions) returns (ok: bool, ghost order: seq<string>)
      requires Valid()
      modifies this
      ensures Valid() && HasAdded(parse, versions, order, old(lists), lists)
      ensures ok <==> Parseable(parse, versions)
      ensures ok ==> IsOrder(versions, order)
    {
      ok := true;
      order := [];
      ghost var was := lists;
      var todo := versions.Keys;
      while todo != {}
        invariant Valid() && todo <= versions.Keys
        invariant HasAdded(parse, versions, order, was, lists)
        invariant multiset(order) + multiset(todo) == multiset(versions.Keys)
        invariant forall p :: p in versions && p !in todo ==> ChangeOf(parse, p, versions[p]) != Aborts
        decreases todo
      {
        hide ChangeOf, HasAdded;
        var pkg :| pkg in todo;
        ghost var now := lists;
        assert todo == (todo - {pkg}) + {pkg};
        todo := todo - {pkg};
        var aborts := Visit(parse, pkg, versions[pkg]);
        if aborts { return false, order; }
        AddOne(parse, versions, order, pkg, was, now, lists);
        order := order + [pkg];
      }
    }

    /** From empty lists the report depends on the two files alone; from others, each list
        gains the same entries. The airflow list is not sorted. */
    method CreateVersionTestFile(parse: string -> Parsed, before: seq<string>, after: seq<string>)
      returns (output: Option<string>, ghost versions: Versions)
      requires Valid()
      modifies this
      ensures Valid() && IsComparison(before, after, versions)
      ensures output.Some? <==> Parseable(parse, versions)
      ensures output.Some? && (forall i :: 0 <= i < |CATEGORIES| ==> old(lists)[i] == []) ==>
                lists == FirstReport(parse, versions) && output.value == Render(TITLES, FirstReport(parse, versions), 0)
      ensures output.Some? ==> forall i :: 0 <= i < |CATEGORIES| ==>
                multiset(lists[i]) == multiset(old(lists)[i]) + multiset(FirstReport(parse, versions)[i])
    {
      var read := ReadVersions(before, after);
      versions := read;
      var ok, order := IteratePkgMap(parse, read);
      if !ok { return None, read; }
      ghost var added := lists;
      var unsorted := lists;
      lists := seq(|CATEGORIES|, i requires 0 <= i < |CATEGORIES| => Final(CATEGORIES[i], unsorted[i]));
      FinalLists(parse, read, order, old(lists), added, lists);
      TitlesFit();
      var text := WriteLists(TITLES, lists);
      output := Some(text);
    }
  }

  lemma FinalLists(parse: string -> Parsed, versions: Versions, order: seq<string>, was: seq<seq<string>>,
                   added: seq<seq<string>>, sorted: seq<seq<string>>)
    requires HasAdded(parse, versions, order, was, added) && IsOrder(versions, order)
    requires |sorted| == |CATEGORIES| && forall i :: 0 <= i < |sorted| ==> sorted[i] == Final(CATEGORIES[i], added[i])
    ensures (forall i :: 0 <= i < |CATEGORIES| ==> was[i] == []) ==> sorted == FirstReport(parse, versions)
    ensures forall i :: 0 <= i < |CATEGORIES| ==>
        multiset(sorted[i]) == multiset(was[i]) + multiset(FirstReport(parse, versions)[i])
  {
    forall i | 0 <= i < |CATEGORIES|
      ensures was[i] == [] ==> sorted[i] == FirstReport(parse, versions)[i]
      ensures multiset(sorted[i]) == multiset(was[i]) + multiset(FirstReport(parse, versions)[i])
    {
      hide Final, Texts;
      FinalList(parse, versions, order, was[i], CATEGORIES[i]);
    }
  }

  lemma FinalList(parse: string -> Parsed, versions: Versions, order: seq<string>, was: seq<string>, c: Category)
    requires IsOrder(versions, order) && forall p :: p in order ==> p in versions
    ensures var first := Final(c, Texts(parse, versions, SomeOrder(versions), c));
            var list := Final(c, was + Texts(parse, versions, order, c));
            (was == [] ==> list == first) && multiset(list) == multiset(was) + multiset(first)
  {
    hide Texts, SortStrings;
    var other := SomeOrder(versions);
    SameEntriesInAnyOrder(parse, versions, order, other, c);
    SameListsInAnyOrder(parse, versions, order, other, c);
    assert was == [] ==> was + Texts(parse, versions, order, c) == Texts(parse, versions, order, c);
  }
}
