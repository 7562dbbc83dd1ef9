/** The `semver.IsValid` and `semver.Compare` that every version comparison in the sources
    rests on (golang.org/x/mod/semver): sections 9, 10 and 11 of Semantic Versioning 2.0.0
    with a leading `v`, plus the shorthands `vX` and `vX.Y`.

    `Compare` works on strings the way the library does. `Precedence` is the order of
    section 11 on numbers and identifier lists. `CompareIsPrecedence` connects them, and the
    order laws are proved of the second. */
module SemVer {
  import opened Strings

  // ---------- parsing ----------

  /** A parsed version; `prerelease` keeps its leading hyphen, or is empty. */
  datatype Parsed = Parsed(major: string, minor: string, patch: string, prerelease: string)

  /** A numeral without leading zeros at the start of `v`. */
  function ParseInt(v: string): (r: Option<Piece>)
    ensures r.Some? ==> Canonical(r.value.text) && v == r.value.text + r.value.rest
  {
    var piece :- Digits(v);
    if Canonical(piece.text) then Some(piece) else None
  }

  predicate IsIdentChar(c: char) {
    'A' <= c <= 'Z' || 'a' <= c <= 'z' || '0' <= c <= '9' || c == '-'
  }

  predicate IsNum(s: string) { AllDigits(s) }

  predicate IsBadNum(s: string) { AllDigits(s) && |s| > 1 && s[0] == '0' }

  /** Where the first `c` in `s` is, or `|s|`. */
  function IndexOf(s: string, c: char): (n: nat)
    ensures n <= |s| && c !in s[..n]
    ensures n < |s| ==> s[n] == c
  {
    if s == "" || s[0] == c then 0 else 1 + IndexOf(s[1..], c)
  }

  /** Dot-separated identifiers: non-empty, of identifier characters and, in a pre-release,
      numeric ones without leading zeros. */
  predicate ValidIdents(s: string, prerelease: bool)
    decreases |s|
  {
    var n := IndexOf(s, '.');
    && n > 0
    && (forall i :: 0 <= i < n ==> IsIdentChar(s[i]))
    && (prerelease ==> !IsBadNum(s[..n]))
    && (n < |s| ==> ValidIdents(s[n + 1..], prerelease))
  }

  /** What follows the patch number: `[-prerelease][+build]`, and nothing else. */
  function ParseSuffix(v: string): (r: Option<string>)
    ensures r.Some? && r.value != "" ==> r.value[0] == '-' && ValidIdents(r.value[1..], true)
  {
    var n := if HasPrefix(v, "-") then IndexOf(v, '+') else 0;
    var pre, build := v[..n], v[n..];
    if pre != "" && !ValidIdents(pre[1..], true) then None
    else if build != "" && !(build[0] == '+' && ValidIdents(build[1..], false)) then None
    else Some(pre)
  }

  predicate Wellformed(p: Parsed) {
    && Canonical(p.major) && Canonical(p.minor) && Canonical(p.patch)
    && (p.prerelease != "" ==> p.prerelease[0] == '-' && ValidIdents(p.prerelease[1..], true))
  }

  function Parse(v: string): (r: Option<Parsed>)
    ensures r.Some? ==> Wellformed(r.value)
  {
    var v0 :- After(v, "v");
    var Piece(major, v1) :- ParseInt(v0);
    if v1 == "" then Some(Parsed(major, "0", "0", "")) else
    var w1 :- After(v1, ".");
    var Piece(minor, v2) :- ParseInt(w1);
    if v2 == "" then Some(Parsed(major, minor, "0", "")) else
    var w2 :- After(v2, ".");
    var Piece(patch, v3) :- ParseInt(w2);
    var prerelease :- ParseSuffix(v3);
    Some(Parsed(major, minor, patch, prerelease))
  }

  /** A full triple parses exactly when its numerals have no leading zeros and its suffix is
      well formed. */
  lemma ParseTriple(major: string, minor: string, patch: string, suffix: string)
    requires major != "" && AllDigits(major) && minor != "" && AllDigits(minor) && patch != "" && AllDigits(patch)
    requires suffix == "" || !IsDigit(suffix[0])
    ensures Parse("v" + (major + ("." + (minor + ("." + (patch + suffix)))))) ==
            if Canonical(major) && Canonical(minor) && Canonical(patch) && ParseSuffix(suffix).Some?
            then Some(Parsed(major, minor, patch, ParseSuffix(suffix).value)) else None
  {
    hide Digits, After, DigitRun, Canonical, ParseSuffix;
    var s2 := minor + ("." + (patch + suffix));
    AfterOf("v", major + ("." + s2));
    DigitsOf(major, "." + s2);
    AfterOf(".", s2);
    DigitsOf(minor, "." + (patch + suffix));
    AfterOf(".", patch + suffix);
    DigitsOf(patch, suffix);
  }

  /** The shorthands `vX` and `vX.Y` are the versions filled up with zeros. */
  lemma ShorthandsAreZeroFilled(major: string, minor: string)
    requires major != "" && AllDigits(major) && minor != "" && AllDigits(minor)
    ensures Parse("v" + major) == Parse("v" + (major + ("." + ("0" + ("." + ("0" + ""))))))
    ensures Parse("v" + (major + ("." + minor))) == Parse("v" + (major + ("." + (minor + ("." + ("0" + ""))))))
  {
    hide Digits, After, DigitRun, Canonical, ParseSuffix;
    assert Canonical("0") && ParseSuffix("") == Some("") by { CanonicalZero(); }
    ParseTriple(major, "0", "0", "");
    ParseTriple(major, minor, "0", "");
    assert major + "" == major && minor + "" == minor;
    AfterOf("v", major);
    DigitsOf(major, "");
    AfterOf("v", major + ("." + minor));
    DigitsOf(major, "." + minor);
    AfterOf(".", minor);
    DigitsOf(minor, "");
  }

  lemma CanonicalZero()
    ensures Canonical("0") && ParseSuffix("") == Some("")
  {}

  /** Whether a suffix is well formed, part by part; the build metadata is dropped. */
  lemma SuffixParts(pre: string, build: string)
    requires (pre == "" || (pre[0] == '-' && '+' !in pre)) && (build == "" || build[0] == '+')
    ensures ParseSuffix(pre + build) ==
            if (pre == "" || ValidIdents(pre[1..], true)) && (build == "" || ValidIdents(build[1..], false))
                then Some(pre) else None
  {
    if pre == "" {
      assert pre + build == build;
    } else {
      IndexInSecond(pre, build, '+');
      assert (pre + build)[..|pre|] == pre && (pre + build)[|pre|..] == build;
    }
  }

  lemma {:induction false} IndexInSecond(a: string, b: string, c: char)
    requires c !in a && (b == "" || b[0] == c)
    ensures IndexOf(a + b, c) == |a|
  {
    if a == "" {
      assert a + b == b;
    } else {
      assert (a + b)[1..] == a[1..] + b;
      IndexInSecond(a[1..], b, c);
    }
  }

  /** Section 10: build metadata never counts in a comparison. */
  lemma BuildMetadataIsIgnored(major: string, minor: string, patch: string, pre: string, build: string)
    requires major != "" && AllDigits(major) && minor != "" && AllDigits(minor) && patch != "" && AllDigits(patch)
    requires (pre == "" || (pre[0] == '-' && '+' !in pre)) && build != "" && build[0] == '+'
        && ValidIdents(build[1..], false)
    ensures Parse("v" + (major + ("." + (minor + ("." + (patch + (pre + build))))))) ==
            Parse("v" + (major + ("." + (minor + ("." + (patch + pre))))))
  {
    hide Parse, ParseSuffix;
    SuffixParts(pre, build);
    SuffixParts(pre, "");
    assert pre + "" == pre;
    ParseTriple(major, minor, patch, pre + build);
    ParseTriple(major, minor, patch, pre);
  }

  predicate IsValid(v: string) { Parse(v).Some? }

  // ---------- comparison, as the library computes it ----------

  function Or(first: int, second: int): int {
    if first != 0 then first else second
  }

  /** Numerals compared by length, then bytes. */
  function CompareInt(x: string, y: string): int {
    if x == y then 0
    else if |x| < |y| then -1
    else if |x| > |y| then 1
    else CompareStrings(x, y)
  }

  function ComparePrerelease(x: string, y: string): int {
    if x == y then 0
    else if x == "" then 1
    else if y == "" then -1
    else CompareIdents(x, y)
  }

  /** The identifier loop: `x` and `y` each start with `-` or `.`, or are used up. */
  function CompareIdents(x: string, y: string): int
    decreases |x|
  {
    if x == "" then -1
    else if y == "" then 1
    else
      var nx, ny := IndexOf(x[1..], '.'), IndexOf(y[1..], '.');
      var dx, dy := x[1..][..nx], y[1..][..ny];
      if dx == dy then CompareIdents(x[1..][nx..], y[1..][ny..]) else CompareIdent(dx, dy)
  }

  function CompareIdent(dx: string, dy: string): int {
    if IsNum(dx) != IsNum(dy) then (if IsNum(dx) then -1 else 1)
    else if IsNum(dx) && |dx| != |dy| then (if |dx| < |dy| then -1 else 1)
    else CompareStrings(dx, dy)
  }

  function CompareParsed(p: Parsed, q: Parsed): int {
    Or(CompareInt(p.major, q.major),
    Or(CompareInt(p.minor, q.minor),
    Or(CompareInt(p.patch, q.patch),
       ComparePrerelease(p.prerelease, q.prerelease))))
  }

  function Compare(v: string, w: string): int {
    match (Parse(v), Parse(w))
    case (None, None) => 0
    case (None, Some(_)) => -1
    case (Some(_), None) => 1
    case (Some(p), Some(q)) => CompareParsed(p, q)
  }

  // ---------- section 11 of Semantic Versioning 2.0.0 ----------

  datatype Ident = Num(n: nat) | Alpha(s: string)

  /** `pre == []` is a release. */
  datatype Version = Version(major: nat, minor: nat, patch: nat, pre: seq<Ident>)

  function IdentOrder(a: Ident, b: Ident): int {
    match (a, b)
    case (Num(m), Num(n)) => CompareNat(m, n)
    case (Num(_), Alpha(_)) => -1
    case (Alpha(_), Num(_)) => 1
    case (Alpha(s), Alpha(t)) => CompareStrings(s, t)
  }

  /** Identifier by identifier; when one list runs out first it is the lower. */
  function IdentsOrder(a: seq<Ident>, b: seq<Ident>): int {
    if a == [] then (if b == [] then 0 else -1)
    else if b == [] then 1
    else Or(IdentOrder(a[0], b[0]), IdentsOrder(a[1..], b[1..]))
  }

  function PreOrder(a: seq<Ident>, b: seq<Ident>): int {
    if a == [] && b == [] then 0
    else if a == [] then 1
    else if b == [] then -1
    else IdentsOrder(a, b)
  }

  function Precedence(v: Version, w: Version): int {
    Or(CompareNat(v.major, w.major),
    Or(CompareNat(v.minor, w.minor),
    Or(CompareNat(v.patch, w.patch),
       PreOrder(v.pre, w.pre))))
  }

  // ---------- what a version string denotes ----------

  function IdentOf(s: string): Ident {
    if IsNum(s) then Num(Value(s)) else Alpha(s)
  }

  /** The identifiers of a pre-release string without its hyphen. */
  function IdentsOf(s: string): (ids: seq<Ident>)
    ensures ids != []
    decreases |s|
  {
    var n := IndexOf(s, '.');
    [IdentOf(s[..n])] + (if n < |s| then IdentsOf(s[n + 1..]) else [])
  }

  function Denotes(p: Parsed): Version
    requires Wellformed(p)
  {
    Version(Value(p.major), Value(p.minor), Value(p.patch),
            if p.prerelease == "" then [] else IdentsOf(p.prerelease[1..]))
  }

  function Key(v: string): Option<Version> {
    match Parse(v)
    case None => None
    case Some(p) => Some(Denotes(p))
  }

  /** Nothing is below an invalid version; two invalid ones are level. */
  function KeyOrder(v: Option<Version>, w: Option<Version>): int {
    match (v, w)
    case (None, None) => 0
    case (None, Some(_)) => -1
    case (Some(_), None) => 1
    case (Some(p), Some(q)) => Precedence(p, q)
  }

  lemma {:induction false} IndexOfAbsent(s: string, c: char)
    requires c !in s
    ensures IndexOf(s, c) == |s|
  {
    if s == "" {
    } else {
      IndexOfAbsent(s[1..], c);
    }
  }

  /** Section 9: what one identifier of a pre-release, or of build metadata, may be. */
  lemma OneIdent(d: string, prerelease: bool)
    requires '.' !in d
    ensures ValidIdents(d, prerelease) <==>
            && d != ""
            && (forall i :: 0 <= i < |d| ==>
                  'A' <= d[i] <= 'Z' || 'a' <= d[i] <= 'z' || '0' <= d[i] <= '9' || d[i] == '-')
            && (prerelease && AllDigits(d) && |d| > 1 ==> d[0] != '0')
    ensures IdentsOf(d) == [IdentOf(d)]
  {
    IndexOfAbsent(d, '.');
    assert d[..|d|] == d;
  }

  /** Identifiers are separated by dots. */
  lemma MoreIdents(d: string, rest: string, prerelease: bool)
    requires '.' !in d
    ensures ValidIdents(d + ("." + rest), prerelease) <==> ValidIdents(d, prerelease) && ValidIdents(rest, prerelease)
    ensures IdentsOf(d + ("." + rest)) == [IdentOf(d)] + IdentsOf(rest)
  {
    var s := d + ("." + rest);
    IndexInSecond(d, "." + rest, '.');
    IndexOfAbsent(d, '.');
    assert s[..|d|] == d && s[|d| + 1..] == rest && d[..|d|] == d;
  }

  /** Section 11.4: numerals by value, numerals below other identifiers, and those byte by
      byte. */
  lemma IdentOrderMeans(q: string, a: char, b: char, s: string, t: string, m: nat, n: nat, d: string)
    requires a < b && m < n && !AllDigits(d)
    ensures IdentOrder(IdentOf(Itoa(m)), IdentOf(Itoa(n))) == -1
    ensures IdentOrder(IdentOf(Itoa(m)), IdentOf(d)) == -1
    ensures !AllDigits(q + ([a] + s)) && !AllDigits(q + ([b] + t)) ==>
              IdentOrder(IdentOf(q + ([a] + s)), IdentOf(q + ([b] + t))) == -1
    ensures !AllDigits(q) ==> IdentOrder(IdentOf(q), IdentOf(q + ([a] + s))) == -1
  {
    ValueOfItoa(m);
    ValueOfItoa(n);
    FirstDifferenceDecides(q, a, b, s, t);
    if !AllDigits(q) {
      var i :| 0 <= i < |q| && !IsDigit(q[i]);
      assert (q + ([a] + s))[i] == q[i];
    }
  }

  /** Section 11.4 on lists: the first identifier that differs decides, and of two lists that
      agree as far as they go the shorter one is the lower. */
  lemma {:induction false} IdentsOrderMeans(front: seq<Ident>, x: Ident, y: Ident, xs: seq<Ident>, ys: seq<Ident>)
    ensures IdentOrder(x, y) != 0 ==> IdentsOrder(front + ([x] + xs), front + ([y] + ys)) == IdentOrder(x, y)
    ensures IdentsOrder(front, front + ([x] + xs)) == -1
  {
    if front == [] {
      assert front + ([x] + xs) == [x] + xs && front + ([y] + ys) == [y] + ys;
    } else {
      IdentOrderLaws(front[0], front[0]);
      IdentsOrderMeans(front[1..], x, y, xs, ys);
      assert (front + ([x] + xs))[1..] == front[1..] + ([x] + xs);
      assert (front + ([y] + ys))[1..] == front[1..] + ([y] + ys);
    }
  }

  // ---------- the string comparison is the precedence ----------

  lemma {:induction false} CompareIntIsNumeric(x: string, y: string)
    requires Canonical(x) && Canonical(y)
    ensures CompareInt(x, y) == CompareNat(Value(x), Value(y))
  {
    if |x| < |y| {
      LongerIsGreater(x, y);
    } else if |x| > |y| {
      LongerIsGreater(y, x);
    } else {
      SameLengthByteOrderIsNumeric(x, y);
    }
  }

  lemma LongerIsGreater(x: string, y: string)
    requires Canonical(x) && Canonical(y) && |x| < |y|
    ensures Value(x) < Value(y)
  {
    ValueBelow(x);
    ValueAtLeast(y);
    Pow10Monotone(|x|, |y| - 1);
  }

  lemma {:induction false} CompareIdentIsOrder(x: string, y: string)
    requires x != "" && y != "" && !IsBadNum(x) && !IsBadNum(y) && x != y
    ensures IdentOrder(IdentOf(x), IdentOf(y)) == CompareIdent(x, y)
    ensures IdentOrder(IdentOf(x), IdentOf(y)) != 0
  {
    CompareStringsSign(x, y);
    if IsNum(x) && IsNum(y) {
      CompareIntIsNumeric(x, y);
    }
  }

  /** The identifiers of what the comparison loop has left: empty, or a separator and more. */
  function IdentsAfter(x: string): seq<Ident> {
    if x == "" then [] else IdentsOf(x[1..])
  }

  predicate ValidAfter(x: string) { x == "" || (x[0] in "-." && ValidIdents(x[1..], true)) }

  /** One turn of the loop: the identifier after the separator, and the rest. */
  lemma NextIdent(x: string, d: string, rest: string)
    requires x != "" && ValidAfter(x)
    requires d == x[1..][..IndexOf(x[1..], '.')] && rest == x[1..][IndexOf(x[1..], '.')..]
    ensures x == [x[0]] + d + rest && |rest| < |x|
    ensures d != "" && !IsBadNum(d) && ValidAfter(rest) && (rest != "" ==> rest[0] == '.')
    ensures IdentsAfter(x) == [IdentOf(d)] + IdentsAfter(rest)
  {
    var s := x[1..];
    var n := IndexOf(s, '.');
    assert s == d + rest;
    assert n < |s| ==> rest[1..] == s[n + 1..];
  }

  lemma ListsFromHeads(a: seq<Ident>, b: seq<Ident>, h: Ident, t: seq<Ident>, k: Ident, u: seq<Ident>)
    requires a == [h] + t && b == [k] + u
    ensures IdentsOrder(a, b) == Or(IdentOrder(h, k), IdentsOrder(t, u))
    ensures a == b <==> h == k && t == u
  {
    assert a[1..] == t && b[1..] == u && a[0] == h && b[0] == k;
  }

  lemma {:induction false} CompareIdentsIsOrder(x: string, y: string)
    requires ValidAfter(x) && ValidAfter(y)
    ensures IdentsAfter(x) != IdentsAfter(y) ==> CompareIdents(x, y) == IdentsOrder(IdentsAfter(x), IdentsAfter(y))
    ensures IdentsAfter(x) == IdentsAfter(y) ==> |x| == |y| && (x != "" ==> x[1..] == y[1..])
    decreases |x|
  {
    if x != "" && y != "" {
      var nx, ny := IndexOf(x[1..], '.'), IndexOf(y[1..], '.');
      var dx, dy := x[1..][..nx], y[1..][..ny];
      var rx, ry := x[1..][nx..], y[1..][ny..];
      NextIdent(x, dx, rx);
      NextIdent(y, dy, ry);
      ListsFromHeads(IdentsAfter(x), IdentsAfter(y), IdentOf(dx), IdentsAfter(rx), IdentOf(dy), IdentsAfter(ry));
      IdentOrderLaws(IdentOf(dx), IdentOf(dy));
      if dx != dy {
        CompareIdentIsOrder(dx, dy);
      } else {
        CompareIdentsIsOrder(rx, ry);
        if IdentsAfter(x) == IdentsAfter(y) { SameRest(x, y, dx, rx, ry); }
      }
    }
  }

  lemma SameRest(x: string, y: string, d: string, rx: string, ry: string)
    requires x != "" && x == [x[0]] + d + rx && y != "" && y == [y[0]] + d + ry
    requires |rx| == |ry| && (rx != "" ==> rx[0] == ry[0] && rx[1..] == ry[1..])
    ensures |x| == |y| && x[1..] == y[1..]
  {
    if rx != "" { assert rx == [rx[0]] + rx[1..] && ry == [ry[0]] + ry[1..]; }
    assert rx == ry;
    assert x[1..] == d + rx && y[1..] == d + ry;
  }

  lemma ComparePrereleaseIsOrder(p: Parsed, q: Parsed)
    requires Wellformed(p) && Wellformed(q)
    ensures ComparePrerelease(p.prerelease, q.prerelease) == PreOrder(Denotes(p).pre, Denotes(q).pre)
  {
    hide ValidIdents, IdentsOf, IdentsOrder, CompareIdents;
    var x, y := p.prerelease, q.prerelease;
    if x == y {
      IdentsOrderLaws(Denotes(p).pre, Denotes(q).pre);
    } else if x != "" && y != "" {
      CompareIdentsIsOrder(x, y);
      assert x == "-" + x[1..] && y == "-" + y[1..];
    }
  }

  /** The library's string comparison is the precedence of section 11 on every pair of
      strings, with every invalid string level and below every valid one. */
  lemma CompareIsPrecedence(v: string, w: string)
    ensures Compare(v, w) == KeyOrder(Key(v), Key(w))
  {
    match (Parse(v), Parse(w))
    case (Some(p), Some(q)) =>
      CompareIntIsNumeric(p.major, q.major);
      CompareIntIsNumeric(p.minor, q.minor);
      CompareIntIsNumeric(p.patch, q.patch);
      ComparePrereleaseIsOrder(p, q);
    case _ =>
  }

  // ---------- order laws ----------

  lemma IdentOrderLaws(a: Ident, b: Ident)
    ensures IdentOrder(a, b) == -IdentOrder(b, a)
    ensures IdentOrder(a, b) == 0 <==> a == b
    ensures -1 <= IdentOrder(a, b) <= 1
  {
    if a.Alpha? && b.Alpha? { CompareStringsSign(a.s, b.s); }
  }

  lemma IdentOrderTransitive(a: Ident, b: Ident, c: Ident)
    requires IdentOrder(a, b) <= 0 && IdentOrder(b, c) <= 0
    ensures IdentOrder(a, c) <= 0
  {
    if a.Alpha? && b.Alpha? && c.Alpha? { CompareStringsTransitive(a.s, b.s, c.s); }
  }

  lemma {:induction false} IdentsOrderLaws(a: seq<Ident>, b: seq<Ident>)
    ensures IdentsOrder(a, b) == -IdentsOrder(b, a)
    ensures IdentsOrder(a, b) == 0 <==> a == b
    ensures -1 <= IdentsOrder(a, b) <= 1
  {
    if a != [] && b != [] {
      IdentOrderLaws(a[0], b[0]);
      IdentsOrderLaws(a[1..], b[1..]);
      assert a == [a[0]] + a[1..] && b == [b[0]] + b[1..];
    }
  }

  lemma {:induction false} IdentsOrderTransitive(a: seq<Ident>, b: seq<Ident>, c: seq<Ident>)
    requires IdentsOrder(a, b) <= 0 && IdentsOrder(b, c) <= 0
    ensures IdentsOrder(a, c) <= 0
  {
    if a != [] && b != [] && c != [] {
      IdentOrderLaws(a[0], b[0]);
      IdentOrderLaws(b[0], c[0]);
      IdentOrderLaws(a[0], c[0]);
      IdentOrderTransitive(a[0], b[0], c[0]);
      if a[0] == b[0] == c[0] { IdentsOrderTransitive(a[1..], b[1..], c[1..]); }
    }
  }

  lemma PrecedenceLaws(v: Version, w: Version)
    ensures Precedence(v, w) == -Precedence(w, v)
    ensures Precedence(v, w) == 0 <==> v == w
    ensures -1 <= Precedence(v, w) <= 1
  {
    IdentsOrderLaws(v.pre, w.pre);
  }

  lemma PreOrderTransitive(a: seq<Ident>, b: seq<Ident>, c: seq<Ident>)
    requires PreOrder(a, b) <= 0 && PreOrder(b, c) <= 0
    ensures PreOrder(a, c) <= 0
  {
    if a != [] && b != [] && c != [] { IdentsOrderTransitive(a, b, c); }
  }

  lemma PrecedenceTransitive(u: Version, v: Version, w: Version)
    requires Precedence(u, v) <= 0 && Precedence(v, w) <= 0
    ensures Precedence(u, w) <= 0
  {
    if (u.major, u.minor, u.patch) == (v.major, v.minor, v.patch) == (w.major, w.minor, w.patch) {
      PreOrderTransitive(u.pre, v.pre, w.pre);
    }
  }

  /** `semver.Compare` is a total preorder on all strings. */
  lemma CompareIsTotalPreorder(u: string, v: string, w: string)
    ensures Compare(u, u) == 0
    ensures Compare(u, v) == -Compare(v, u)
    ensures -1 <= Compare(u, v) <= 1
    ensures Compare(u, v) <= 0 && Compare(v, w) <= 0 ==> Compare(u, w) <= 0
  {
    CompareIsPrecedence(u, u);
    CompareIsPrecedence(u, v);
    CompareIsPrecedence(v, u);
    CompareIsPrecedence(v, w);
    CompareIsPrecedence(u, w);
    if Key(u).Some? { PrecedenceLaws(Key(u).value, Key(u).value); }
    if Key(u).Some? && Key(v).Some? {
      PrecedenceLaws(Key(u).value, Key(v).value);
      if Key(w).Some? && Compare(u, v) <= 0 && Compare(v, w) <= 0 {
        PrecedenceTransitive(Key(u).value, Key(v).value, Key(w).value);
      }
    }
  }
}
