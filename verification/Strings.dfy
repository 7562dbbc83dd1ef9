/** Strings as the Go sources use them: prefixes, suffixes, digit runs, decimal values and
    the byte-wise order of the `<` operator. */
module Strings {

  datatype Option<+T> = None | Some(value: T) {
    predicate IsFailure() { None? }

    function PropagateFailure<U>(): Option<U>
      requires None?
    {
      None
    }

    function Extract(): T
      requires Some?
    {
      value
    }
  }

  predicate IsDigit(c: char) { '0' <= c <= '9' }

  predicate AllDigits(s: string) { forall i :: 0 <= i < |s| ==> IsDigit(s[i]) }

  predicate HasPrefix(s: string, p: string) { p <= s }

  predicate HasSuffix(s: string, p: string) { |p| <= |s| && s[|s| - |p|..] == p }

  function TrimPrefix(s: string, p: string): string {
    if HasPrefix(s, p) then s[|p|..] else s
  }

  function TrimSuffix(s: string, p: string): string {
    if HasSuffix(s, p) then s[..|s| - |p|] else s
  }

  predicate Contains(s: string, part: string) { part <= s || (s != "" && Contains(s[1..], part)) }

  /** `part` is in `s` somewhere. */
  lemma {:induction false} ContainsMeans(s: string, part: string)
    ensures Contains(s, part) <==> exists a, b :: s == a + (part + b)
  {
    if part <= s {
      assert s == "" + (part + s[|part|..]);
    } else if s != "" {
      ContainsMeans(s[1..], part);
      if Contains(s[1..], part) {
        var a, b :| s[1..] == a + (part + b);
        assert s == ([s[0]] + a) + (part + b);
      }
      if a, b :| s == a + (part + b) {
        assert a == "" ==> s == part + b;
        assert s[1..] == a[1..] + (part + b);
      }
    }
  }

  /** Go's largest `int`. */
  const MAX_INT := 0x7fff_ffff_ffff_ffff

  lemma Associate<T>(x: seq<T>, y: seq<T>, z: seq<T>)
    ensures (x + y) + z == x + (y + z)
  {}

  lemma TrimPrefixOf(p: string, rest: string)
    ensures TrimPrefix(p + rest, p) == rest
    ensures forall s :: s == p + rest ==> HasPrefix(s, p)
  {
    assert (p + rest)[|p|..] == rest;
  }

  /** How many digits `s` starts with: the greedy match of `\d*`. */
  function DigitRun(s: string): (n: nat)
    ensures n <= |s| && AllDigits(s[..n])
    ensures n < |s| ==> !IsDigit(s[n])
  {
    if s == "" || !IsDigit(s[0]) then 0 else 1 + DigitRun(s[1..])
  }

  /** A run of digits followed by something else is found whole. */
  lemma {:induction false} DigitRunOf(d: string, rest: string)
    requires AllDigits(d)
    requires rest == "" || !IsDigit(rest[0])
    ensures DigitRun(d + rest) == |d|
  {
    if d == "" {
      assert d + rest == rest;
    } else {
      assert (d + rest)[1..] == d[1..] + rest;
      DigitRunOf(d[1..], rest);
    }
  }

  datatype Piece = Piece(text: string, rest: string)

  /** The match of `\d+` at the start of `v`, and what follows it. */
  function Digits(v: string): (r: Option<Piece>)
    ensures r.Some? ==> r.value.text != "" && AllDigits(r.value.text) && v == r.value.text + r.value.rest
    ensures r.Some? ==> (r.value.rest == "" || !IsDigit(r.value.rest[0]))
  {
    var n := DigitRun(v);
    if n == 0 then None else Some(Piece(v[..n], v[n..]))
  }

  lemma DigitsOf(d: string, rest: string)
    requires d != "" && AllDigits(d) && (rest == "" || !IsDigit(rest[0]))
    ensures Digits(d + rest) == Some(Piece(d, rest))
  {
    DigitRunOf(d, rest);
    assert (d + rest)[..|d|] == d && (d + rest)[|d|..] == rest;
  }

  /** What follows `p` at the start of `v`. */
  function After(v: string, p: string): (r: Option<string>)
    ensures r.Some? <==> HasPrefix(v, p)
    ensures r.Some? ==> v == p + r.value
  {
    if HasPrefix(v, p) then Some(v[|p|..]) else None
  }

  lemma AfterOf(p: string, rest: string)
    ensures After(p + rest, p) == Some(rest)
  {
    assert (p + rest)[|p|..] == rest;
  }

  // ---------- strings.TrimSpace ----------

  predicate IsSpace(c: char) {
    var n := c as int;
    9 <= n <= 13 || n in {0x20, 0x85, 0xA0, 0x1680, 0x2028, 0x2029, 0x202F, 0x205F, 0x3000} || 0x2000 <= n <= 0x200A
  }

  function TrimSpace(s: string): (t: string)
    ensures t != "" ==> !IsSpace(t[0]) && !IsSpace(t[|t| - 1])
    ensures s != "" && !IsSpace(s[0]) && !IsSpace(s[|s| - 1]) ==> t == s
    decreases |s|
  {
    if s == "" then ""
    else if IsSpace(s[0]) then TrimSpace(s[1..])
    else if IsSpace(s[|s| - 1]) then TrimSpace(s[..|s| - 1])
    else s
  }

  predicate AllSpaces(s: string) { forall i :: 0 <= i < |s| ==> IsSpace(s[i]) }

  lemma {:induction false} TrimFront(a: string, s: string)
    requires AllSpaces(a)
    ensures TrimSpace(a + s) == TrimSpace(s)
  {
    if a == "" {
      assert a + s == s;
    } else {
      assert (a + s)[1..] == a[1..] + s;
      TrimFront(a[1..], s);
    }
  }

  lemma {:induction false} TrimBack(text: string, b: string)
    requires AllSpaces(b) && text != "" && !IsSpace(text[0]) && !IsSpace(text[|text| - 1])
    ensures TrimSpace(text + b) == text
    decreases |b|
  {
    if b == "" {
      assert text + b == text;
    } else {
      hide IsSpace;
      var n := |b| - 1;
      TrimBack(text, b[..n]);
      assert (text + b)[0] == text[0] && (text + b)[|text + b| - 1] == b[n];
      assert (text + b)[..|text + b| - 1] == text + b[..n];
    }
  }

  /** Exactly the white space around a text is trimmed. */
  lemma TrimSpaceOf(a: string, text: string, b: string)
    requires AllSpaces(a) && AllSpaces(b) && text != "" && !IsSpace(text[0]) && !IsSpace(text[|text| - 1])
    ensures TrimSpace(a + (text + b)) == text && TrimSpace(a) == ""
  {
    TrimFront(a, "");
    assert a + "" == a;
    TrimFront(a, text + b);
    TrimBack(text, b);
  }

  /** The white space of ASCII: the blank, the tabs and the line breaks. */
  lemma WhiteSpace(c: char)
    requires (c as int) < 128
    ensures IsSpace(c) <==> c in " \t\n\r" || c as int == 11 || c as int == 12
  {}

  // ---------- decimal values ----------

  function Pow10(n: nat): (p: nat)
    ensures p >= 1
  {
    if n == 0 then 1 else 10 * Pow10(n - 1)
  }

  function Digit(c: char): (d: nat)
    requires IsDigit(c)
    ensures d <= 9
  {
    c as int - '0' as int
  }

  /** The number a digit string spells. */
  function Value(s: string): nat
    requires AllDigits(s)
  {
    if s == "" then 0 else Digit(s[0]) * Pow10(|s| - 1) + Value(s[1..])
  }

  /** A numeral without leading zeros. */
  predicate Canonical(s: string) {
    s != "" && AllDigits(s) && (s[0] == '0' ==> |s| == 1)
  }

  lemma {:induction false} ValueBelow(s: string)
    requires AllDigits(s)
    ensures Value(s) < Pow10(|s|)
  {
    if s == "" {
    } else {
      ValueBelow(s[1..]);
      LeadingDigitDecides(Digit(s[0]), 10, Pow10(|s| - 1), Value(s[1..]), 0);
    }
  }

  lemma ValueAtLeast(s: string)
    requires s != "" && AllDigits(s) && s[0] != '0'
    ensures Value(s) >= Pow10(|s| - 1)
  {
    var p := Pow10(|s| - 1);
    assert Digit(s[0]) * p >= 1 * p;
  }

  lemma {:induction false} Pow10Monotone(m: nat, n: nat)
    requires m <= n
    ensures Pow10(m) <= Pow10(n)
  {
    if m < n { Pow10Monotone(m, n - 1); }
  }

  // ---------- the order of Go's `<` on strings ----------

  /** -1, 0 or 1 as `x` is before, at or after `y` in byte order. */
  function CompareStrings(x: string, y: string): int {
    if x == y then 0
    else if x == "" then -1
    else if y == "" then 1
    else if x[0] != y[0] then (if x[0] < y[0] then -1 else 1)
    else CompareStrings(x[1..], y[1..])
  }

  lemma {:induction false} CompareStringsSign(x: string, y: string)
    ensures CompareStrings(x, y) == -CompareStrings(y, x)
    ensures CompareStrings(x, y) == 0 <==> x == y
    ensures -1 <= CompareStrings(x, y) <= 1
  {
    if x != "" && y != "" && x[0] == y[0] {
      CompareStringsSign(x[1..], y[1..]);
      assert x == [x[0]] + x[1..] && y == [y[0]] + y[1..];
    }
  }

  /** The first byte that differs decides, letters and digits alike; and a proper prefix is
      before what it starts. */
  lemma {:induction false} FirstDifferenceDecides(p: string, a: char, b: char, s: string, t: string)
    requires a < b
    ensures CompareStrings(p + ([a] + s), p + ([b] + t)) == -1
    ensures CompareStrings(p + ([b] + t), p + ([a] + s)) == 1
    ensures CompareStrings(p, p + ([a] + s)) == -1
    ensures CompareStrings(p + ([a] + s), p) == 1
  {
    if p == "" {
      assert p + ([a] + s) == [a] + s && p + ([b] + t) == [b] + t;
    } else {
      FirstDifferenceDecides(p[1..], a, b, s, t);
      assert (p + ([a] + s))[1..] == p[1..] + ([a] + s);
      assert (p + ([b] + t))[1..] == p[1..] + ([b] + t);
      assert (p + ([a] + s))[|p|] == a && (p + ([b] + t))[|p|] == b;
    }
  }

  lemma {:induction false} CompareStringsTransitive(x: string, y: string, z: string)
    requires CompareStrings(x, y) <= 0 && CompareStrings(y, z) <= 0
    ensures CompareStrings(x, z) <= 0
  {
    if x != "" && y != "" && z != "" && x != y && y != z && x[0] == y[0] && y[0] == z[0] {
      CompareStringsTransitive(x[1..], y[1..], z[1..]);
    }
  }

  lemma LeadingDigitDecides(dx: nat, dy: nat, p: nat, vx: nat, vy: nat)
    requires dx < dy && vx < p
    ensures dx * p + vx < dy * p + vy
  {
    var gap: nat := dy - dx - 1;
    calc {
      dy * p;
      (dx + 1 + gap) * p;
      dx * p + p + gap * p;
    }
    assert gap * p >= 0;
  }

  /** For digit strings of one length, byte order is numeric order. */
  lemma {:induction false} SameLengthByteOrderIsNumeric(x: string, y: string)
    requires AllDigits(x) && AllDigits(y) && |x| == |y|
    ensures CompareStrings(x, y) == CompareNat(Value(x), Value(y))
  {
    if x != "" && x != y {
      var p := Pow10(|x| - 1);
      ValueBelow(x[1..]);
      ValueBelow(y[1..]);
      if Digit(x[0]) < Digit(y[0]) {
        LeadingDigitDecides(Digit(x[0]), Digit(y[0]), p, Value(x[1..]), Value(y[1..]));
      } else if Digit(y[0]) < Digit(x[0]) {
        LeadingDigitDecides(Digit(y[0]), Digit(x[0]), p, Value(y[1..]), Value(x[1..]));
      } else {
        assert x[0] == y[0];
        SameLengthByteOrderIsNumeric(x[1..], y[1..]);
      }
    }
  }

  function CompareNat(x: nat, y: nat): int {
    if x < y then -1 else if x > y then 1 else 0
  }

  // ---------- strconv.Itoa ----------

  function DigitChar(d: nat): (c: char)
    requires d <= 9
    ensures IsDigit(c) && Digit(c) == d
  {
    ('0' as int + d) as char
  }

  function Itoa(n: nat): (s: string)
    ensures s != "" && AllDigits(s)
  {
    if n < 10 then [DigitChar(n)] else Itoa(n / 10) + [DigitChar(n % 10)]
  }

  lemma ScaleByTen(d: nat, p: nat)
    ensures d * (10 * p) == 10 * (d * p)
  {}

  lemma {:induction false} ValueSnoc(s: string, c: char)
    requires AllDigits(s) && IsDigit(c)
    ensures AllDigits(s + [c]) && Value(s + [c]) == 10 * Value(s) + Digit(c)
  {
    if s == "" {
      assert s + [c] == [c] && [c][1..] == "" && Pow10(0) == 1;
    } else {
      ValueSnoc(s[1..], c);
      assert (s + [c])[1..] == s[1..] + [c];
      ScaleByTen(Digit(s[0]), Pow10(|s| - 1));
    }
  }

  /** `strconv.Itoa` spells the numeral without leading zeros, and there is only one. */
  lemma {:induction false} ItoaIsCanonical(n: nat)
    ensures Canonical(Itoa(n))
    ensures Itoa(n)[0] == '0' <==> n == 0
  {
    if n < 10 {
      assert Itoa(n)[0] == DigitChar(n);
    } else {
      ItoaIsCanonical(n / 10);
      assert Itoa(n)[0] == Itoa(n / 10)[0];
    }
  }

  lemma {:induction false} ValueOfItoa(n: nat)
    ensures Value(Itoa(n)) == n
  {
    if n < 10 {
      assert Pow10(0) == 1 && Itoa(n)[1..] == "";
    } else {
      ValueOfItoa(n / 10);
      ValueSnoc(Itoa(n / 10), DigitChar(n % 10));
    }
  }
}
