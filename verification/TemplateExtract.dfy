/** Extracting a template tarball: every entry handed on lies at or beneath the destination, and
    the first bad one stops the loop. Paths are slash-separated and lexical. */
module TemplateExtract {
  import opened Strings

  // ---------- lexical paths ----------

  /** The elements between slashes, empty ones included. */
  function Elements(path: string): (es: seq<string>)
    ensures es != [] && forall e :: e in es ==> '/' !in e
  {
    if path == "" then [""] else Prepend(path[0], Elements(path[1..]))
  }

  /** One character before what the elements are of. */
  function Prepend(c: char, es: seq<string>): (r: seq<string>)
    requires es != [] && forall e :: e in es ==> '/' !in e
    ensures r != [] && forall e :: e in r ==> '/' !in e
  {
    if c == '/' then [""] + es else [[c] + es[0]] + es[1..]
  }

  /** Elements that stand for themselves. */
  predicate IsPlace(place: seq<string>) {
    forall e :: e in place ==> e != "" && e != "." && e != ".." && '/' !in e
  }

  /** `.` and empty elements stay, `..` goes up and stays at the root. */
  function Step(place: seq<string>, e: string): (r: seq<string>)
    requires IsPlace(place) && '/' !in e
    ensures IsPlace(r)
  {
    if e == "" || e == "." then place
    else if e == ".." then (if place == [] then [] else place[..|place| - 1])
    else place + [e]
  }

  predicate NoSlashes(es: seq<string>) { forall e :: e in es ==> '/' !in e }

  /** Where walking the elements leads from a place below the root. */
  function Walk(place: seq<string>, es: seq<string>): (r: seq<string>)
    requires IsPlace(place) && NoSlashes(es)
    ensures IsPlace(r)
    decreases |es|
  {
    if es == [] then place else Walk(Step(place, es[0]), es[1..])
  }

  /** The place a path names, seen from the root: what `filepath.Clean` makes of it. */
  function Clean(path: string): (place: seq<string>)
    ensures IsPlace(place)
  {
    Walk([], Elements(path))
  }

  predicate IsAbs(path: string) { HasPrefix(path, "/") }

  /** `filepath.Join` onto an absolute directory. */
  function Join(dest: string, relative: string): (place: seq<string>)
    ensures IsPlace(place)
  {
    if relative == "" then Clean(dest) else Clean(dest + ("/" + relative))
  }

  function CommonPrefix(a: seq<string>, b: seq<string>): (n: nat)
    ensures n <= |a| && n <= |b| && a[..n] == b[..n]
    ensures n < |a| && n < |b| ==> a[n] != b[n]
  {
    if a == [] || b == [] || a[0] != b[0] then 0
    else
      var n := 1 + CommonPrefix(a[1..], b[1..]);
      assert a[..n] == [a[0]] + a[1..][..n - 1] && b[..n] == [b[0]] + b[1..][..n - 1];
      n
  }

  function Ups(n: nat): seq<string> { seq(n, i => "..") }

  function JoinSlash(es: seq<string>): string {
    if es == [] then "" else if |es| == 1 then es[0] else es[0] + ("/" + JoinSlash(es[1..]))
  }

  /** `filepath.Rel` between two clean absolute paths: up from what is left of the base, then
      down. */
  function Rel(base: seq<string>, target: seq<string>): string {
    var n := CommonPrefix(base, target);
    var es := Ups(|base| - n) + target[n..];
    if es == [] then "." else JoinSlash(es)
  }

  /** The accepted place, or None for an absolute path or one that escapes. */
  function ContainedPath(dest: string, relativePath: string): Option<seq<string>> {
    if IsAbs(relativePath) then None
    else
      var target := Join(dest, relativePath);
      var rel := Rel(Clean(dest), target);
      if rel == ".." || HasPrefix(rel, "../") then None else Some(target)
  }

  // ---------- accepted exactly when contained ----------

  lemma {:induction false} ElementsConcat(a: string, b: string)
    ensures Elements(a + ("/" + b)) == Elements(a) + Elements(b)
  {
    var path := a + ("/" + b);
    if a == "" {
      assert path == "/" + b && path[1..] == b;
      assert Elements("") == [""];
    } else {
      assert path[1..] == a[1..] + ("/" + b) && path[0] == a[0];
      ElementsConcat(a[1..], b);
      PrependConcat(a[0], Elements(a[1..]), Elements(b));
    }
  }

  lemma PrependConcat(c: char, x: seq<string>, y: seq<string>)
    requires x != [] && y != [] && (forall e :: e in x ==> '/' !in e) && (forall e :: e in y ==> '/' !in e)
    ensures Prepend(c, x + y) == Prepend(c, x) + y
  {
    assert (x + y)[1..] == x[1..] + y;
  }

  lemma {:induction false} WalkConcat(place: seq<string>, a: seq<string>, b: seq<string>)
    requires IsPlace(place) && NoSlashes(a) && NoSlashes(b)
    ensures NoSlashes(a + b) && Walk(place, a + b) == Walk(Walk(place, a), b)
    decreases |a|
  {
    if a == [] {
      assert a + b == b;
    } else {
      assert (a + b)[0] == a[0] && (a + b)[1..] == a[1..] + b;
      WalkConcat(Step(place, a[0]), a[1..], b);
    }
  }

  /** Joining is walking on from the destination. */
  lemma JoinWalks(dest: string, relative: string)
    ensures Join(dest, relative) == Walk(Clean(dest), Elements(relative))
  {
    if relative == "" {
      assert [""][1..] == [];
    } else {
      ElementsConcat(dest, relative);
      WalkConcat([], Elements(dest), Elements(relative));
    }
  }

  lemma FirstElementDecides(es: seq<string>)
    requires es != [] && (forall e :: e in es ==> '/' !in e)
    ensures (JoinSlash(es) == ".." || HasPrefix(JoinSlash(es), "../")) <==> es[0] == ".."
  {
    if |es| > 1 {
      UpPrefix(es[0], JoinSlash(es[1..]));
    } else {
      assert es[0] in es;
      NoSlashNoPrefix(es[0]);
    }
  }

  lemma NoSlashNoPrefix(e: string)
    requires '/' !in e
    ensures !HasPrefix(e, "../")
  {
    assert "../"[2] == '/';
  }

  lemma UpPrefix(e: string, rest: string)
    requires '/' !in e
    ensures HasPrefix(e + ("/" + rest), "../") <==> e == ".."
    ensures e + ("/" + rest) != ".."
  {
    var s := e + ("/" + rest);
    assert s[|e|] == '/';
    assert forall i :: 0 <= i < |e| ==> s[i] == e[i] && e[i] != '/';
    assert HasPrefix(s, "../") <==> |s| >= 3 && s[0] == '.' && s[1] == '.' && s[2] == '/';
  }

  /** A relative path is accepted exactly when its cleaned join lies at or beneath the
      destination, and what is accepted is that place. Here it does not matter whether the
      path goes above the destination on its way. */
  lemma AcceptedExactlyWhenContained(dest: string, relativePath: string)
    requires IsAbs(dest)
    ensures ContainedPath(dest, relativePath) ==
            if !IsAbs(relativePath) && Clean(dest) <= Walk(Clean(dest), Elements(relativePath))
            then Some(Walk(Clean(dest), Elements(relativePath))) else None
  {
    hide Clean, Elements, Walk, Rel, Join, HasPrefix;
    JoinWalks(dest, relativePath);
    RelDecides(Clean(dest), Join(dest, relativePath));
  }

  /** The textual test on the relative path sees whether it has to go up. */
  lemma RelDecides(base: seq<string>, target: seq<string>)
    requires IsPlace(base) && IsPlace(target)
    ensures (Rel(base, target) == ".." || HasPrefix(Rel(base, target), "../")) <==> !(base <= target)
  {
    hide JoinSlash, HasPrefix;
    var n := CommonPrefix(base, target);
    var es := Ups(|base| - n) + target[n..];
    assert base <= target <==> n == |base|;
    assert forall e :: e in target[n..] ==> e in target;
    assert '/' !in "..";
    if es != [] {
      FirstElementDecides(es);
      assert n < |base| ==> es[0] == "..";
      assert n == |base| ==> es == target[n..] && es[0] in target;
    } else {
      DotIsNotUp();
    }
  }

  lemma DotIsNotUp()
    ensures "." != ".." && !HasPrefix(".", "../")
  {}

  // ---------- what lexical paths name ----------

  /** An ordinary element goes down, and `..` after it comes back; at the root `..` stays, and
      `.` and empty elements always do. */
  lemma StepMeans(place: seq<string>, e: string)
    requires IsPlace(place) && '/' !in e
    ensures e == "" || e == "." ==> Step(place, e) == place
    ensures IsPlace([e]) ==> Step(place, e) == place + [e] && Step(place + [e], "..") == place
    ensures Step([], "..") == []
  {
    if IsPlace([e]) {
      assert e in [e];
      assert (place + [e])[..|place|] == place;
    }
  }

  lemma {:induction false} ElementsOfOne(e: string)
    requires '/' !in e
    ensures Elements(e) == [e]
  {
    if e == "" {
    } else {
      ElementsOfOne(e[1..]);
      assert e == [e[0]] + e[1..];
    }
  }

  /** Splitting at slashes undoes joining with them. */
  lemma {:induction false} ElementsOfJoined(es: seq<string>)
    requires es != [] && NoSlashes(es)
    ensures Elements(JoinSlash(es)) == es
  {
    ElementsOfOne(es[0]);
    if |es| > 1 {
      ElementsOfJoined(es[1..]);
      ElementsConcat(es[0], JoinSlash(es[1..]));
      assert es == [es[0]] + es[1..];
    }
  }

  lemma {:induction false} WalkDown(place: seq<string>, rel: seq<string>)
    requires IsPlace(place) && IsPlace(rel)
    ensures Walk(place, rel) == place + rel
    decreases |rel|
  {
    if rel == [] {
    } else {
      assert rel[0] in rel && forall e :: e in rel[1..] ==> e in rel;
      assert IsPlace([rel[0]]);
      StepMeans(place, rel[0]);
      WalkDown(place + [rel[0]], rel[1..]);
      assert rel == [rel[0]] + rel[1..];
      Associate(place, [rel[0]], rel[1..]);
    }
  }

  lemma {:induction false} WalkUp(place: seq<string>, n: nat)
    requires IsPlace(place)
    ensures NoSlashes(Ups(n)) && Walk(place, Ups(n)) == place[..if n <= |place| then |place| - n else 0]
    decreases n
  {
    assert '/' !in "..";
    if n > 0 {
      var up := Step(place, "..");
      WalkUp(up, n - 1);
      assert Ups(n)[1..] == Ups(n - 1);
    }
  }

  /** The place an absolute path of ordinary elements names is those elements. */
  lemma CleanOfPlace(place: seq<string>)
    requires IsPlace(place) && place != []
    ensures IsAbs("/" + JoinSlash(place)) && Clean("/" + JoinSlash(place)) == place
  {
    ElementsOfJoined(place);
    ElementsConcat("", JoinSlash(place));
    assert "" + ("/" + JoinSlash(place)) == "/" + JoinSlash(place);
    WalkConcat([], [""], place);
    assert Walk([], [""]) == [] by { assert [""][1..] == []; }
    WalkDown([], place);
    assert [] + place == place;
  }

  /** A path that climbs `n` levels and goes down again is accepted exactly when it comes back to
      the destination; one that does not climb always is, and names the elements below it. */
  lemma ClimbingIsAcceptedExactly(dest: string, n: nat, rel: seq<string>)
    requires IsAbs(dest) && IsPlace(rel) && (n > 0 || rel != [])
    ensures var d := Clean(dest);
            var target := d[..if n <= |d| then |d| - n else 0] + rel;
            ContainedPath(dest, JoinSlash(Ups(n) + rel)) == if d <= target then Some(target) else None
    ensures rel != [] ==> ContainedPath(dest, JoinSlash(rel)) == Some(Clean(dest) + rel)
    ensures n > 0 && Clean(dest) != [] ==> ContainedPath(dest, JoinSlash(Ups(n) + [])) == None
  {
    hide ContainedPath, Clean, Elements, Walk, JoinSlash, IsAbs;
    ClimbingWalks(dest, n, rel);
    if rel != [] {
      ClimbingWalks(dest, 0, rel);
      assert Ups(0) + rel == rel;
      assert Clean(dest)[..|Clean(dest)|] == Clean(dest);
    }
    if n > 0 { ClimbingWalks(dest, n, []); }
  }

  lemma ClimbingWalks(dest: string, n: nat, rel: seq<string>)
    requires IsAbs(dest) && IsPlace(rel) && (n > 0 || rel != [])
    ensures var d := Clean(dest);
            var target := d[..if n <= |d| then |d| - n else 0] + rel;
            ContainedPath(dest, JoinSlash(Ups(n) + rel)) == if d <= target then Some(target) else None
  {
    hide ContainedPath, Clean, Elements, Walk;
    var es := Ups(n) + rel;
    var d := Clean(dest);
    WalkUp(d, n);
    WalkConcat(d, Ups(n), rel);
    WalkDown(Walk(d, Ups(n)), rel);
    ElementsOfJoined(es);
    if n > 0 { assert es[0] == ".."; } else { assert es[0] in rel; }
    NotAbsolute(es);
    AcceptedExactlyWhenContained(dest, JoinSlash(es));
  }

  lemma NotAbsolute(es: seq<string>)
    requires es != [] && NoSlashes(es) && es[0] != ""
    ensures !IsAbs(JoinSlash(es))
  {
    assert es[0][0] in es[0] && es[0] in es;
    assert JoinSlash(es)[0] == es[0][0];
  }

  // ---------- the tarball ----------

  datatype Kind = GlobalHeader | Symlink | HardLink | Directory | RegularFile | OtherKind

  datatype Header = Header(name: string, kind: Kind)

  datatype Error = Escapes | IsLink | Io | Unreadable

  /** The first path element of a header that has a slash. */
  function BaseOf(h: Header): string {
    if h.kind == GlobalHeader || |Elements(h.name)| == 1 then "" else Elements(h.name)[0]
  }

  /** The base directory once the first `n` headers are seen: that of the first one that
      gives one. */
  function BaseDir(headers: seq<Header>, n: nat): string
    requires n <= |headers|
  {
    if n == 0 then ""
    else if BaseDir(headers, n - 1) != "" then BaseDir(headers, n - 1)
    else BaseOf(headers[n - 1])
  }

  /** What is left of a name below the template directory; None outside it. */
  function RelativePath(h: Header, baseDir: string, templateDir: string): Option<string> {
    if h.kind == GlobalHeader then None
    else
      var templatePath := TrimPrefix(h.name, baseDir + "/");
      if !Contains(templatePath, templateDir + "/") then None else Some(TrimPrefix(templatePath, templateDir + "/"))
  }

  /** An entry below the template directory of the tarball's base directory is known by its path
      there. */
  lemma EntryOfTemplate(base: string, templateDir: string, rel: string, kind: Kind)
    requires '/' !in base && kind != GlobalHeader
    ensures var h := Header((base + "/") + ((templateDir + "/") + rel), kind);
            BaseOf(h) == base && RelativePath(h, base, templateDir) == Some(rel)
  {
    hide Elements, Contains, TrimPrefix;
    var inner := (templateDir + "/") + rel;
    ElementsConcat(base, inner);
    ElementsOfOne(base);
    Associate(base, "/", inner);
    TrimPrefixOf(base + "/", inner);
    TrimPrefixOf(templateDir + "/", rel);
    PrefixIsContained(templateDir + "/", rel);
  }

  lemma PrefixIsContained(p: string, rest: string)
    ensures Contains(p + rest, p)
  {
    assert p <= p + rest;
  }

  /** An entry whose name nowhere has the template directory is skipped. */
  lemma EntryOutsideTemplate(name: string, base: string, templateDir: string, kind: Kind)
    requires !Contains(name, templateDir + "/")
    ensures RelativePath(Header(name, kind), base, templateDir) == None
  {
    hide Contains;
    var dir, rest := templateDir + "/", TrimPrefix(name, base + "/");
    ContainsMeans(name, dir);
    ContainsMeans(rest, dir);
    if Contains(rest, dir) {
      var a, b :| rest == a + (dir + b);
      var front := name[..|name| - |rest|];
      assert name == front + rest;
      Associate(front, a, dir + b);
    }
  }

  /** What happens to entry `i`: skipped, refused, or handed on to a place. */
  datatype Fate = Skipped | Refused(error: Error) | Placed(place: seq<string>)

  function FateOf(headers: seq<Header>, i: nat, dest: string, templateDir: string): Fate
    requires i < |headers|
  {
    EntryFate(headers[i], BaseDir(headers, i + 1), dest, templateDir)
  }

  function EntryFate(h: Header, baseDir: string, dest: string, templateDir: string): Fate {
    match RelativePath(h, baseDir, templateDir)
    case None => Skipped
    case Some(relative) =>
      match ContainedPath(dest, relative)
      case None => Refused(Escapes)
      case Some(place) => if h.kind in {Symlink, HardLink} then Refused(IsLink) else Placed(place)
  }

  datatype Write = Write(place: seq<string>, kind: Kind)

  /** Only directories and regular files are created; other kinds are passed over. */
  function WritesOf(headers: seq<Header>, n: nat, dest: string, templateDir: string): seq<Write>
    requires n <= |headers|
  {
    if n == 0 then []
    else
      WritesOf(headers, n - 1, dest, templateDir) +
        (match FateOf(headers, n - 1, dest, templateDir)
         case Placed(place) => if Creates(headers[n - 1].kind) then [Write(place, headers[n - 1].kind)] else []
         case _ => [])
  }

  /** The kinds that are written. */
  predicate Creates(kind: Kind) { kind == Directory || kind == RegularFile }

  lemma NothingYet(headers: seq<Header>, dest: string, templateDir: string)
    ensures WritesOf(headers, 0, dest, templateDir) == [] && BaseDir(headers, 0) == "" && AllContained([], dest)
  {}

  lemma NextBase(headers: seq<Header>, n: nat, dest: string, templateDir: string)
    requires n < |headers|
    ensures BaseDir(headers, n + 1) == if BaseDir(headers, n) != "" then BaseDir(headers, n) else BaseOf(headers[n])
    ensures FateOf(headers, n, dest, templateDir) == EntryFate(headers[n], BaseDir(headers, n + 1), dest, templateDir)
  {}

  lemma NextWrites(headers: seq<Header>, n: nat, dest: string, templateDir: string, writes: seq<Write>)
    requires n < |headers| && IsAbs(dest) && writes == WritesOf(headers, n, dest, templateDir)
        && AllContained(writes, dest)
    ensures var fate := FateOf(headers, n, dest, templateDir);
            var more := if fate.Placed? && Creates(headers[n].kind) then [Write(fate.place, headers[n].kind)] else [];
            && WritesOf(headers, n + 1, dest, templateDir) == writes + more && AllContained(writes + more, dest)
            && (fate.Placed? ==> Clean(dest) <= fate.place)
            && (fate.Refused? ==> fate.error in {Escapes, IsLink})
  {
    match RelativePath(headers[n], BaseDir(headers, n + 1), templateDir)
    case Some(relative) => AcceptedExactlyWhenContained(dest, relative);
    case None =>
  }

  /** Every write lands at or beneath the destination, and makes a directory or a file. */
  predicate AllContained(writes: seq<Write>, dest: string) {
    forall w :: w in writes ==> Clean(dest) <= w.place && w.kind in {Directory, RegularFile}
  }

  /** One turn of the loop, up to the write: the base directory may be settled, and the entry
      is skipped, refused or handed on. */
  method HandleEntry(header: Header, baseDir: string, dest: string, templateDir: string)
    returns (newBase: string, fate: Fate)
    ensures newBase == if baseDir != "" then baseDir else BaseOf(header)
    ensures fate == EntryFate(header, newBase, dest, templateDir)
    ensures fate.Refused? ==> fate.error in {Escapes, IsLink}
  {
    newBase := baseDir;
    if header.kind == GlobalHeader { return newBase, Skipped; }
    if newBase == "" {
      var parts := Elements(header.name);
      if |parts| > 1 { newBase := parts[0]; }
    }
    var templatePath := TrimPrefix(header.name, newBase + "/");
    if !Contains(templatePath, templateDir + "/") { return newBase, Skipped; }
    var relativePath := TrimPrefix(templatePath, templateDir + "/");
    var target := ContainedPath(dest, relativePath);
    if target.None? { return newBase, Refused(Escapes); }
    if header.kind in {Symlink, HardLink} { return newBase, Refused(IsLink); }
    fate := Placed(target.value);
  }

  /** An entry after which the loop does not go on: one that is refused, or whose write fails. */
  predicate Stops(headers: seq<Header>, i: nat, dest: string, templateDir: string, failing: set<nat>)
    requires i < |headers|
  {
    var fate := FateOf(headers, i, dest, templateDir);
    fate.Refused? || (fate.Placed? && Creates(headers[i].kind) && i in failing)
  }

  /** The loop over the entries, `stop` entries of which were handled in full; `failing`: the
      entries whose write fails; `intact`: the tarball can be read to its end. Every write is
      one the entries before the stop ask for. The stop is the first entry that is refused or
      whose write fails, at a place at or beneath the destination, or else the end. */
  method ExtractTarGz(headers: seq<Header>, failing: set<nat>, intact: bool, dest: string, templateDir: string)
    returns (writes: seq<Write>, error: Option<Error>, stop: nat)
    requires IsAbs(dest)
    ensures stop <= |headers| && writes == WritesOf(headers, stop, dest, templateDir)
    ensures forall i :: 0 <= i < stop ==> !Stops(headers, i, dest, templateDir, failing)
    ensures stop < |headers| ==> Stops(headers, stop, dest, templateDir, failing)
    ensures stop == |headers| ==> error == if intact then None else Some(Unreadable)
    ensures stop < |headers| ==>
              match FateOf(headers, stop, dest, templateDir)
              case Refused(reason) => error == Some(reason) && reason in {Escapes, IsLink}
              case Placed(place) => error == Some(Io) && Clean(dest) <= place
              case Skipped => false
    ensures AllContained(writes, dest)
  {
    hide *;
    writes, error, stop := [], None, 0;
    var baseDir := "";
    NothingYet(headers, dest, templateDir);
    while stop < |headers|
      invariant stop <= |headers| && error.None?
      invariant baseDir == BaseDir(headers, stop)
      invariant writes == WritesOf(headers, stop, dest, templateDir)
      invariant forall i :: 0 <= i < stop ==> !Stops(headers, i, dest, templateDir, failing)
      invariant AllContained(writes, dest)
    {
      NextBase(headers, stop, dest, templateDir);
      NextWrites(headers, stop, dest, templateDir, writes);
      StopsMeans(headers, stop, dest, templateDir, failing);
      var fate: Fate;
      baseDir, fate := HandleEntry(headers[stop], baseDir, dest, templateDir);
      if fate.Refused? {
        error := Some(fate.error);
        return;
      }
      if fate.Placed? && (headers[stop].kind == Directory || headers[stop].kind == RegularFile) {
        if stop in failing {
          error := Some(Io);
          return;
        }
        writes := writes + [Write(fate.place, headers[stop].kind)];
      }
      stop := stop + 1;
    }
    if !intact { error := Some(Unreadable); }
  }

  lemma StopsMeans(headers: seq<Header>, i: nat, dest: string, templateDir: string, failing: set<nat>)
    requires i < |headers|
    ensures var fate := FateOf(headers, i, dest, templateDir);
            Stops(headers, i, dest, templateDir, failing) <==>
              fate.Refused? || (fate.Placed? && Creates(headers[i].kind) && i in failing)
    ensures Creates(headers[i].kind) <==> headers[i].kind in {Directory, RegularFile}
  {}
}
