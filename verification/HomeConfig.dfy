/** The one-time migration of the home config file: entries that only froze a shipped default
    are removed, and nothing else changes meaning. */
module HomeConfig {
  import opened Strings

  // ---------- settings trees ----------

  type Path = seq<string>

  /** A settings file: string leaves under string keys. */
  datatype Node = Leaf(text: string) | Tree(kids: map<string, Node>)

  function NodeAt(n: Node, path: Path): Option<Node>
    decreases |path|
  {
    if path == [] then Some(n)
    else if n.Tree? && path[0] in n.kids then NodeAt(n.kids[path[0]], path[1..])
    else None
  }

  function LeafAt(n: Node, path: Path): Option<string> {
    match NodeAt(n, path)
    case Some(Leaf(text)) => Some(text)
    case _ => None
  }

  /** No subtree, at any depth, is empty. */
  predicate Full(n: Node) {
    n.Tree? ==> forall k :: k in n.kids ==> n.kids[k] != Tree(map[]) && Full(n.kids[k])
  }

  /** Some leaf below `n`, or `n` itself. */
  lemma SomeLeaf(n: Node) returns (path: Path)
    requires Full(n) && n != Tree(map[])
    ensures LeafAt(n, path).Some?
  {
    if n.Leaf? {
      path := [];
    } else {
      var k :| k in n.kids;
      var rest := SomeLeaf(n.kids[k]);
      path := [k] + rest;
      assert path[1..] == rest;
    }
  }

  lemma StepDown(n: Node, k: string, rest: Path)
    requires n.Tree? && k in n.kids
    ensures NodeAt(n, [k] + rest) == NodeAt(n.kids[k], rest)
    ensures LeafAt(n, [k] + rest) == LeafAt(n.kids[k], rest)
  {
    assert ([k] + rest)[1..] == rest;
  }

  predicate SameLeaves(a: Node, b: Node, path: Path) { LeafAt(a, path) == LeafAt(b, path) }

  lemma NotBelow(a: Node, b: Node, k: string, p: Path)
    requires a.Tree? && LeafAt(b, [k] + p).Some? && SameLeaves(a, b, [k] + p)
    ensures k in a.kids
  {}

  /** Full trees with the same leaves are the same tree. */
  lemma {:induction false} LeavesDetermine(a: Node, b: Node)
    requires Full(a) && Full(b) && (a.Tree? <==> b.Tree?)
    requires forall path :: SameLeaves(a, b, path)
    ensures a == b
  {
    assert SameLeaves(a, b, []);
    if a.Tree? {
      forall k | k in a.kids || k in b.kids
        ensures k in a.kids && k in b.kids && a.kids[k] == b.kids[k]
      {
        if k in a.kids {
          var p := SomeLeaf(a.kids[k]);
          StepDown(a, k, p);
          assert SameLeaves(a, b, [k] + p);
        }
        if k in b.kids {
          var p := SomeLeaf(b.kids[k]);
          StepDown(b, k, p);
          assert SameLeaves(a, b, [k] + p);
          NotBelow(a, b, k, p);
        }
        forall path ensures SameLeaves(a.kids[k], b.kids[k], path) {
          StepDown(a, k, path);
          StepDown(b, k, path);
          assert SameLeaves(a, b, [k] + path);
        }
        assert SameLeaves(a.kids[k], b.kids[k], []);
        assert b.kids[k].Leaf? ==> LeafAt(b.kids[k], []).Some?;
        assert a.kids[k].Leaf? ==> LeafAt(a.kids[k], []).Some?;
        LeavesDetermine(a.kids[k], b.kids[k]);
      }
    }
  }

  // ---------- AllSettings ----------

  /** The settings without their empty subtrees: what is left is rebuilt from the leaves. */
  function Compact(n: Node): (c: Node)
    ensures Full(c) && (c.Tree? <==> n.Tree?)
  {
    match n
    case Leaf(_) => n
    case Tree(kids) => Tree(map k | k in kids && Compact(kids[k]) != Tree(map[]) :: Compact(kids[k]))
  }

  lemma {:induction false} CompactKeepsLeaves(n: Node, path: Path)
    ensures LeafAt(Compact(n), path) == LeafAt(n, path)
    decreases |path|
  {
    if path != [] && n.Tree? && path[0] in n.kids {
      CompactKeepsLeaves(n.kids[path[0]], path[1..]);
      if Compact(n.kids[path[0]]) == Tree(map[]) {
        assert LeafAt(Tree(map[]), path[1..]).None?;
      }
    }
  }

  // ---------- deleteNested ----------

  /** The settings without `path`, and without any parent this leaves empty. */
  function DeleteNested(settings: map<string, Node>, path: Path): map<string, Node>
    requires path != []
    decreases |path|
  {
    if |path| == 1 then settings - {path[0]}
    else if path[0] !in settings || settings[path[0]].Leaf? then settings
    else
      var child := DeleteNested(settings[path[0]].kids, path[1..]);
      if child == map[] then settings - {path[0]} else settings[path[0] := Tree(child)]
  }

  lemma {:induction false} DeleteNestedLeaves(settings: map<string, Node>, path: Path, q: Path)
    requires path != []
    ensures LeafAt(Tree(DeleteNested(settings, path)), q) == if path <= q then None else LeafAt(Tree(settings), q)
    decreases |path|
  {
    if q != [] && q[0] == path[0] && q[0] in settings {
      if |path| == 1 {
        assert path == [q[0]];
      } else if settings[path[0]].Tree? {
        DeleteNestedLeaves(settings[path[0]].kids, path[1..], q[1..]);
        assert path == [path[0]] + path[1..] && q == [q[0]] + q[1..];
        if DeleteNested(settings[path[0]].kids, path[1..]) == map[] {
          assert LeafAt(Tree(map[]), q[1..]).None?;
        }
      } else {
        assert path <= q ==> q[1..] != [] && NodeAt(settings[q[0]], q[1..]).None?;
        assert NodeAt(Tree(settings), q) == NodeAt(settings[q[0]], q[1..]);
      }
    }
  }

  lemma {:induction false} DeleteNestedStaysFull(settings: map<string, Node>, path: Path)
    requires path != [] && Full(Tree(settings))
    ensures Full(Tree(DeleteNested(settings, path)))
    decreases |path|
  {
    if |path| > 1 && path[0] in settings && settings[path[0]].Tree? {
      DeleteNestedStaysFull(settings[path[0]].kids, path[1..]);
    }
  }

  // ---------- what a setting means ----------

  /** A setting as text: a subtree reads as "". */
  function Text(n: Node): string { if n.Leaf? then n.text else "" }

  function GetHomeString(home: Node, path: Path, default: string): string {
    match NodeAt(home, path)
    case None => default
    case Some(n) => Text(n)
  }

  /** Project over home over default. */
  function GetString(project: Option<Node>, home: Node, path: Path, default: string): string {
    if project.Some? && NodeAt(project.value, path).Some? then Text(NodeAt(project.value, path).value)
    else GetHomeString(home, path, default)
  }

  // ---------- the migration ----------

  const VERSION_KEY := "config_version"
  const CURRENT_VERSION := "1"

  function VersionOf(home: Node): nat {
    match LeafAt(home, [VERSION_KEY])
    case Some(text) => if AllDigits(text) then Value(text) else 0
    case None => 0
  }

  /** `defaults`: every known setting. `superseded`: what some shipped as before. */
  datatype Known = Known(defaults: map<Path, string>, superseded: map<Path, set<string>>)

  predicate IsKnown(known: Known) {
    && (forall p :: p in known.defaults ==> p != [] && p[0] != VERSION_KEY)
    && (forall p :: p in known.superseded ==> "" !in known.superseded[p])
  }

  predicate PrefixFree(paths: set<Path>) { forall p, q :: p in paths && q in paths && p <= q ==> p == q }

  predicate IsSuperseded(known: Known, p: Path, text: string) { p in known.superseded && text in known.superseded[p] }

  /** A known setting whose value in the file is one it ships or shipped as its default. */
  predicate Dropped(home: Node, known: Known, p: Path) {
    && p in known.defaults && known.defaults[p] != "" && NodeAt(home, p).Some?
    && var current := Text(NodeAt(home, p).value);
       current == known.defaults[p] || IsSuperseded(known, p, current)
  }

  function MigratedLeaf(home: Node, known: Known, q: Path): Option<string> {
    if q != [] && q[0] == VERSION_KEY then (if q == [VERSION_KEY] then Some(CURRENT_VERSION) else None)
    else if Dropped(home, known, q) then None
    else LeafAt(home, q)
  }

  /** The migrated file, leaf by leaf. */
  ghost predicate IsMigrated(home: Node, known: Known, after: Node) {
    after.Tree? && Full(after) && forall q :: LeafAt(after, q) == MigratedLeaf(home, known, q)
  }

  /** There is one migrated file, whatever order the settings were visited in. */
  lemma MigratedIsUnique(home: Node, known: Known, a: Node, b: Node)
    requires IsMigrated(home, known, a) && IsMigrated(home, known, b)
    ensures a == b
  {
    forall q ensures SameLeaves(a, b, q) {
      assert LeafAt(a, q) == MigratedLeaf(home, known, q) == LeafAt(b, q);
    }
    LeavesDetermine(a, b);
  }

  /** A dropped setting is a leaf. */
  lemma DroppedIsLeaf(home: Node, known: Known, p: Path)
    requires IsKnown(known) && Dropped(home, known, p)
    ensures LeafAt(home, p).Some?
  {}

  lemma NothingBelowLeaf(n: Node, p: Path, q: Path)
    requires LeafAt(n, p).Some? && p <= q && p != q
    ensures NodeAt(n, q).None?
    decreases |p|
  {
    if p == [] {
      assert n.Leaf?;
    } else {
      NothingBelowLeaf(n.kids[p[0]], p[1..], q[1..]);
      assert p == [p[0]] + p[1..] && q == [q[0]] + q[1..];
    }
  }

  // ---------- the migration keeps meaning ----------

  /** A subtree without leaves, such as `tag: {}`. */
  ghost predicate Leafless(n: Node) { forall p :: LeafAt(n, p).None? }

  lemma {:induction false} LeafBelow(n: Node, p: Path, rest: Path)
    requires NodeAt(n, p).Some?
    ensures LeafAt(n, p + rest) == LeafAt(NodeAt(n, p).value, rest)
    decreases |p|
  {
    if p == [] {
      assert p + rest == rest;
    } else {
      LeafBelow(n.kids[p[0]], p[1..], rest);
      assert (p + rest)[1..] == p[1..] + rest;
    }
  }

  lemma {:induction false} SetAbove(n: Node, p: Path, rest: Path)
    requires LeafAt(n, p + rest).Some?
    ensures NodeAt(n, p).Some?
    decreases |p|
  {
    if p == [] {
    } else {
      assert (p + rest)[1..] == p[1..] + rest;
      SetAbove(n.kids[p[0]], p[1..], rest);
    }
  }

  lemma FullBelow(n: Node, p: Path)
    requires Full(n) && p != [] && NodeAt(n, p).Some?
    ensures Full(NodeAt(n, p).value) && NodeAt(n, p).value != Tree(map[])
    decreases |p|
  {
    if |p| > 1 { FullBelow(n.kids[p[0]], p[1..]); }
    if |p| == 1 { assert NodeAt(n.kids[p[0]], p[1..]) == Some(n.kids[p[0]]); }
  }

  /** A path in the migrated file is set exactly when some leaf at or below it is left. */
  lemma SetAfterMigration(home: Node, known: Known, after: Node, p: Path)
    requires IsMigrated(home, known, after) && p != []
    ensures NodeAt(after, p).Some? <==> exists rest :: MigratedLeaf(home, known, p + rest).Some?
  {
    if NodeAt(after, p).Some? {
      FullBelow(after, p);
      var rest := SomeLeaf(NodeAt(after, p).value);
      LeafBelow(after, p, rest);
      assert MigratedLeaf(home, known, p + rest).Some?;
    }
    if rest :| MigratedLeaf(home, known, p + rest).Some? {
      assert LeafAt(after, p + rest).Some?;
      SetAbove(after, p, rest);
    }
  }

  lemma TextAfterMigration(home: Node, known: Known, after: Node, p: Path)
    requires IsMigrated(home, known, after) && p != [] && NodeAt(after, p).Some?
    ensures Text(NodeAt(after, p).value) == if MigratedLeaf(home, known, p).Some?
        then MigratedLeaf(home, known, p).value else ""
  {
    assert LeafAt(after, p) == MigratedLeaf(home, known, p);
  }

  /** A leaf reads as its text, a subtree as "", and what is not set as the default. */
  lemma HomeStringMeans(home: Node, p: Path, default: string)
    ensures NodeAt(home, p).None? ==> GetHomeString(home, p, default) == default
    ensures forall text :: LeafAt(home, p) == Some(text) ==> GetHomeString(home, p, default) == text
    ensures NodeAt(home, p).Some? && NodeAt(home, p).value.Tree? ==> GetHomeString(home, p, default) == ""
  {}

  /** What a known setting is to mean after the migration: what it means in the home file, a
      superseded default counting as the current one. */
  function Meant(home: Node, known: Known, p: Path): string
    requires p in known.defaults
  {
    var default := known.defaults[p];
    var was := GetHomeString(home, p, default);
    if default != "" && NodeAt(home, p).Some? && IsSuperseded(known, p, was) then default else was
  }

  /** The file sets it to a subtree without leaves, and it has a default other than "". */
  ghost predicate IsLost(home: Node, known: Known, p: Path)
    requires p in known.defaults
  {
    known.defaults[p] != "" && NodeAt(home, p).Some? && Leafless(NodeAt(home, p).value)
  }

  /** Every known setting means after the migration what it meant before, a superseded
      default counting as the current one - exactly unless the file sets it to a subtree
      without leaves, which is not carried over, and it has a default other than "". */
  lemma MigrationKeepsMeaning(home: Node, known: Known, after: Node, p: Path)
    requires IsKnown(known) && PrefixFree(known.defaults.Keys) && p in known.defaults
    requires IsMigrated(home, known, after)
    ensures GetHomeString(after, p, known.defaults[p]) == Meant(home, known, p) <==> !IsLost(home, known, p)
  {
    hide IsMigrated, Full, Compact;
    SetAfterMigration(home, known, after, p);
    if NodeAt(after, p).Some? { TextAfterMigration(home, known, after, p); }
    assert p + [] == p;
    match NodeAt(home, p) {
      case None =>
        forall rest ensures MigratedLeaf(home, known, p + rest).None? {
          if LeafAt(home, p + rest).Some? { SetAbove(home, p, rest); }
        }
      case Some(Leaf(text)) =>
        assert LeafAt(home, p) == Some(text);
        assert LeafAt(Leaf(text), []) == Some(text);
        forall rest ensures MigratedLeaf(home, known, p + rest).Some? ==> !Dropped(home, known, p) {
          if rest != [] { NothingBelowLeaf(home, p, p + rest); }
        }
        assert !Dropped(home, known, p) ==> MigratedLeaf(home, known, p + []).Some?;
      case Some(n) =>
        forall rest ensures MigratedLeaf(home, known, p + rest) == LeafAt(n, rest) {
          LeafBelow(home, p, rest);
        }
        assert Leafless(n) <==> !exists rest :: MigratedLeaf(home, known, p + rest).Some?;
    }
  }

  predicate SetByProject(project: Option<Node>, p: Path) { project.Some? && NodeAt(project.value, p).Some? }

  /** What a project sees is its own setting, which the migration never changes, or else the
      home file's: the project sees what it is to see exactly when it sets the value itself or
      the home file does not lose it. */
  lemma ProjectMeaningIsKept(project: Option<Node>, home: Node, known: Known, after: Node, p: Path)
    requires IsKnown(known) && PrefixFree(known.defaults.Keys) && p in known.defaults
    requires IsMigrated(home, known, after)
    ensures GetString(project, after, p, known.defaults[p]) ==
            (if SetByProject(project, p) then Text(NodeAt(project.value, p).value) else Meant(home, known, p))
            <==> SetByProject(project, p) || !IsLost(home, known, p)
  {
    MigrationKeepsMeaning(home, known, after, p);
  }
}
