/** The migration as it runs: a settings map that is cut down in place, one known setting after
    another in any order, and the home store that is rewritten from it. */
module ConfigMigration {
  import opened Strings
  import opened HomeConfig

  // ---------- a settings map, updated in place ----------

  datatype Value = Str(text: string) | Sub(node: SettingsMap)

  /** A map of settings with maps below it, none of which is shared. */
  class SettingsMap {
    var kids: map<string, Value>
    ghost var Contents: map<string, Node>
    ghost var Repr: set<object>

    ghost predicate Holds(k: string)
      requires this in Repr && k in kids && k in Contents
      reads this, Repr
      decreases Repr, 0
    {
      match kids[k]
      case Str(text) => Contents[k] == Leaf(text)
      case Sub(node) =>
        && node in Repr && node.Repr <= Repr && this !in node.Repr && node.Valid()
        && Contents[k] == Tree(node.Contents)
    }

    ghost predicate Valid()
      reads this, Repr
      decreases Repr, 1
    {
      && this in Repr && kids.Keys == Contents.Keys
      && (forall k :: k in kids ==> Holds(k))
      && forall j, k :: j in kids && k in kids && j != k && kids[j].Sub? && kids[k].Sub? ==>
          kids[j].node.Repr !! kids[k].node.Repr
    }

    constructor ()
      ensures Valid() && fresh(Repr) && Contents == map[]
    {
      kids, Contents, Repr := map[], map[], {this};
    }

    /** Removes a path, and every parent this leaves empty, from the maps themselves. */
    method DeletePath(path: Path)
      requires Valid() && path != []
      modifies Repr
      ensures Valid() && Repr == old(Repr)
      ensures Contents == DeleteNested(old(Contents), path)
      decreases |path|
    {
      hide *;
      DeleteStep(Contents, path);
      Shape(path[0]);
      if |path| == 1 {
        kids, Contents := kids - {path[0]}, Contents - {path[0]};
        KeyDropped(path[0]);
        return;
      }
      if path[0] !in kids || !kids[path[0]].Sub? { return; }
      var key, child := path[0], kids[path[0]].node;
      child.DeletePath(path[1..]);
      Contents := Contents[key := Tree(child.Contents)];
      ChildChanged(key);
      label below: child.Shape(key);
      if child.kids == map[] {
        assert child.Contents.Keys == {};
        kids, Contents := kids - {key}, Contents - {key};
        KeyDropped@below(key);
      }
    }

    method SetText(key: string, text: string)
      requires Valid()
      modifies this
      ensures Valid() && Repr == old(Repr) && Contents == old(Contents)[key := Leaf(text)]
    {
      hide *;
      Shape(key);
      kids, Contents := kids[key := Str(text)], Contents[key := Leaf(text)];
      KeySet(key);
    }

    /** Puts a map that is not used elsewhere below a key. */
    method SetMap(key: string, node: SettingsMap)
      requires Valid() && node.Valid() && Repr !! node.Repr
      modifies this
      ensures Valid() && Repr == old(Repr) + node.Repr && Contents == old(Contents)[key := Tree(node.Contents)]
    {
      hide *;
      Shape(key);
      node.Shape(key);
      kids, Contents, Repr := kids[key := Sub(node)], Contents[key := Tree(node.Contents)], Repr + node.Repr;
      node.Untouched();
      KeySet(key);
    }

    twostate lemma KeySet(key: string)
      requires old(Valid()) && key in kids && key in Contents && this in Repr && Holds(key) && old(Repr) <= Repr
      requires kids == old(kids)[key := kids[key]] && Contents == old(Contents)[key := Contents[key]]
      requires kids[key].Sub? ==> kids[key].node.Repr !! old(Repr)
      requires forall o :: o in old(Repr) && o != this ==> unchanged(o)
      ensures Valid()
    {
      assert kids.Keys == Contents.Keys;
      forall k | k in kids && k != key ensures Holds(k) {
        assert old(Holds(k));
        if kids[k].Sub? { kids[k].node.Untouched(); }
      }
    }

    /** The tree that is written out. */
    method Saved() returns (n: Node)
      requires Valid()
      ensures n == Tree(Contents)
      decreases Repr
    {
      var saved: map<string, Node> := map[];
      var todo := kids.Keys;
      while todo != {}
        invariant todo <= kids.Keys
        invariant saved == map k | k in Contents && k !in todo :: Contents[k]
        decreases todo
      {
        var k :| k in todo;
        todo := todo - {k};
        assert Holds(k);
        match kids[k] {
          case Str(text) => saved := saved[k := Leaf(text)];
          case Sub(node) =>
            var sub := node.Saved();
            saved := saved[k := sub];
        }
      }
      n := Tree(saved);
    }

    lemma Shape(key: string)
      requires Valid()
      ensures this in Repr && kids.Keys == Contents.Keys
      ensures key in kids ==> (kids[key].Sub? <==> Contents[key].Tree?)
      ensures key in kids && kids[key].Sub? ==>
                var node := kids[key].node;
                && node.Valid() && node in node.Repr && node.Repr <= Repr && this !in node.Repr
                && Contents[key] == Tree(node.Contents)
    {
      if key in kids { assert Holds(key); }
    }

    twostate lemma KeyDropped(key: string)
      requires old(Valid()) && kids == old(kids) - {key} && Contents == old(Contents) - {key} && Repr == old(Repr)
      requires forall o :: o in old(Repr) && o != this ==> unchanged(o)
      ensures Valid()
    {
      forall k | k in kids ensures Holds(k) {
        assert old(Holds(k));
        if kids[k].Sub? { kids[k].node.Untouched(); }
      }
    }

    /** A change inside one child leaves the map valid, and the other children as they were. */
    twostate lemma ChildChanged(key: string)
      requires old(Valid()) && key in kids && kids[key].Sub? && kids == old(kids) && Repr == old(Repr)
      requires kids[key].node.Valid() && kids[key].node.Repr == old(kids[key].node.Repr)
      requires Contents == old(Contents)[key := Tree(kids[key].node.Contents)]
      requires forall o :: o in old(Repr) && o != this && o !in old(kids[key].node.Repr) ==> unchanged(o)
      ensures Valid()
    {
      forall k | k in kids ensures Holds(k) {
        assert old(Holds(k));
        if k != key && kids[k].Sub? { kids[k].node.Untouched(); }
      }
    }

    twostate lemma Untouched()
      requires old(Valid()) && forall o :: o in old(Repr) ==> unchanged(o)
      ensures Valid() && Contents == old(Contents) && Repr == old(Repr)
    {}
  }

  /** What is left of the entries of `keys` when empty subtrees go. */
  ghost function Kept(kids: map<string, Node>, keys: set<string>): map<string, Node> {
    map k | k in kids && k in keys && Compact(kids[k]) != Tree(map[]) :: Compact(kids[k])
  }

  lemma NextKept(kids: map<string, Node>, keys: set<string>, k: string)
    requires k in kids && k !in keys
    ensures Kept(kids, keys + {k}) == if Compact(kids[k]) == Tree(map[]) then Kept(kids, keys)
                                      else Kept(kids, keys)[k := Compact(kids[k])]
  {}

  lemma DeleteStep(settings: map<string, Node>, path: Path)
    requires path != []
    ensures DeleteNested(settings, path) ==
            if |path| == 1 then settings - {path[0]}
            else if path[0] !in settings || settings[path[0]].Leaf? then settings
            else
              var child := DeleteNested(settings[path[0]].kids, path[1..]);
              if child == map[] then settings - {path[0]} else settings[path[0] := Tree(child)]
  {}

  // ---------- the loop over the known settings ----------

  /** The settings once every dropped one outside `todo` is gone. */
  ghost predicate Remaining(settings: map<string, Node>, home: Node, known: Known, todo: set<Path>) {
    && Full(Tree(settings))
    && forall q :: LeafAt(Tree(settings), q) == if q !in todo && Dropped(home, known, q) then None else LeafAt(home, q)
  }

  lemma NothingRemovedYet(home: Node, known: Known)
    requires home.Tree?
    ensures Remaining(Compact(home).kids, home, known, known.defaults.Keys)
  {
    forall q ensures LeafAt(Compact(home), q) == LeafAt(home, q) { CompactKeepsLeaves(home, q); }
  }

  lemma VisitKeepsRemaining(before: map<string, Node>, home: Node, known: Known, todo: set<Path>, p: Path)
    requires IsKnown(known) && p in todo && todo <= known.defaults.Keys && Remaining(before, home, known, todo)
    ensures Remaining(if Dropped(home, known, p) then DeleteNested(before, p) else before, home, known, todo - {p})
  {
    if Dropped(home, known, p) {
      DeleteNestedStaysFull(before, p);
      DroppedIsLeaf(home, known, p);
      forall q
        ensures LeafAt(Tree(DeleteNested(before, p)), q) ==
                if q !in todo - {p} && Dropped(home, known, q) then None else LeafAt(home, q)
      {
        DeleteNestedLeaves(before, p, q);
        if p <= q && p != q { NothingBelowLeaf(home, p, q); }
      }
    }
  }

  /** The settings rebuilt from their leaves, in maps of their own. */
  method AllSettings(n: Node) returns (m: SettingsMap)
    requires n.Tree?
    ensures m.Valid() && fresh(m.Repr) && m.Contents == Compact(n).kids
    decreases n, 0
  {
    m := new SettingsMap();
    var todo := n.kids.Keys;
    while todo != {}
      invariant todo <= n.kids.Keys
      invariant m.Valid() && fresh(m.Repr)
      invariant m.Contents == Kept(n.kids, n.kids.Keys - todo)
      decreases todo
    {
      hide *;
      var k :| k in todo;
      NextKept(n.kids, n.kids.Keys - todo, k);
      assert n.kids.Keys - (todo - {k}) == n.kids.Keys - todo + {k};
      todo := todo - {k};
      AddSettings(m, k, n.kids[k]);
    }
  }

  method AddSettings(m: SettingsMap, k: string, n: Node)
    requires m.Valid()
    modifies m
    ensures m.Valid() && fresh(m.Repr - old(m.Repr))
    ensures m.Contents == if Compact(n) == Tree(map[]) then old(m.Contents) else old(m.Contents)[k := Compact(n)]
    decreases n, 1
  {
    hide *;
    CompactOfLeaf(n);
    if n.Leaf? {
      m.SetText(k, n.text);
    } else {
      var sub := AllSettings(n);
      sub.Shape(k);
      if sub.kids != map[] { m.SetMap(k, sub); }
    }
  }

  lemma CompactOfLeaf(n: Node)
    ensures n.Leaf? ==> Compact(n) == n
  {}

  /** The loop over the known settings, in any order. */
  method RemoveFrozenDefaults(home: Node, known: Known) returns (settings: SettingsMap)
    requires home.Tree? && IsKnown(known)
    ensures settings.Valid() && fresh(settings.Repr)
    ensures Remaining(settings.Contents, home, known, {})
  {
    hide *;
    settings := AllSettings(home);
    NothingRemovedYet(home, known);
    var todo := known.defaults.Keys;
    while todo != {}
      invariant todo <= known.defaults.Keys
      invariant settings.Valid() && fresh(settings.Repr)
      invariant Remaining(settings.Contents, home, known, todo)
      decreases todo
    {
      var p :| p in todo;
      VisitKeepsRemaining(settings.Contents, home, known, todo, p);
      todo := todo - {p};
      WhenDropped(home, known, p);
      if known.defaults[p] != "" && NodeAt(home, p).Some? {
        var current := Text(NodeAt(home, p).value);
        if current == known.defaults[p] || IsSuperseded(known, p, current) {
          settings.DeletePath(p);
        }
      }
    }
  }

  lemma WhenDropped(home: Node, known: Known, p: Path)
    requires IsKnown(known) && p in known.defaults
    ensures p != []
    ensures Dropped(home, known, p) <==>
            && known.defaults[p] != "" && NodeAt(home, p).Some?
            && (Text(NodeAt(home, p).value) == known.defaults[p]
                || IsSuperseded(known, p, Text(NodeAt(home, p).value)))
  {}

  lemma StampedIsMigrated(settings: map<string, Node>, home: Node, known: Known)
    requires Remaining(settings, home, known, {})
    ensures IsMigrated(home, known, Tree(settings[VERSION_KEY := Leaf(CURRENT_VERSION)]))
  {
    forall q ensures LeafAt(Tree(settings[VERSION_KEY := Leaf(CURRENT_VERSION)]), q) == MigratedLeaf(home, known, q) {
      StampLeaves(settings, q);
    }
    var stamped := settings[VERSION_KEY := Leaf(CURRENT_VERSION)];
    forall k | k in stamped ensures stamped[k] != Tree(map[]) && Full(stamped[k]) {
      assert k != VERSION_KEY ==> k in settings;
    }
  }

  /** Whether the migrated file can be written, and then read again. */
  datatype Calls = Calls(writable: bool, readable: bool)

  /** `home` is what was read from the file; `file` is what is on disk. */
  class Store {
    var home: Node
    var file: Node

    constructor (file: Node)
      ensures this.file == file && home == file
    {
      this.file, home := file, file;
    }

    /** `backed`: there is a config file; `writable`, `readable`: how the write and the re-read
        go. A file without a version, or stamped 0, is migrated; one stamped 1 or more is left
        alone. */
    method MigrateHomeConfig(known: Known, backed: bool, writable: bool, readable: bool)
      requires home.Tree? && IsKnown(known)
      modifies this
      ensures !backed || VersionOf(old(home)) >= 1 || !writable ==> home == old(home) && file == old(file)
      ensures backed && VersionOf(old(home)) < 1 && writable ==>
                && IsMigrated(old(home), known, file) && VersionOf(file) == 1
                && home == if readable then file else old(home)
      ensures var stamp := LeafAt(old(home), ["config_version"]);
              backed && writable && (stamp.None? || !AllDigits(stamp.value)) ==>
                IsMigrated(old(home), known, file) && LeafAt(file, ["config_version"]) == Some("1")
      ensures forall n: nat :: LeafAt(old(home), ["config_version"]) == Some(Itoa(n)) ==>
                if n >= 1 then home == old(home) && file == old(file)
                else backed && writable ==> IsMigrated(old(home), known, file)
    {
      forall n: nat | LeafAt(home, ["config_version"]) == Some(Itoa(n)) ensures VersionOf(home) == n {
        ValueOfItoa(n);
      }
      hide Remaining, IsMigrated;
      if !backed || VersionOf(home) >= 1 { return; }
      var settings := RemoveFrozenDefaults(home, known);
      StampedIsMigrated(settings.Contents, home, known);
      settings.SetText(VERSION_KEY, CURRENT_VERSION);
      MigratedVersion(Tree(settings.Contents), home, known);
      var stamped := settings.Saved();
      if !writable { return; }
      file := stamped;
      if readable { home := file; }
    }

    /** A second run, however its own calls go: a file that is stamped as read is left alone, and
        a file the first run wrote stays what it is even if it could not be read again. */
    method MigrateTwice(known: Known, backed: bool, first: Calls, second: Calls)
      returns (ghost homeOnce: Node, ghost fileOnce: Node)
      requires home.Tree? && IsKnown(known)
      modifies this
      ensures VersionOf(homeOnce) >= 1 ==> home == homeOnce && file == fileOnce
      ensures backed && VersionOf(old(home)) < 1 && first.writable ==>
                && IsMigrated(old(home), known, fileOnce) && file == fileOnce
                && (first.readable ==> homeOnce == fileOnce && home == homeOnce)
      ensures !backed || VersionOf(old(home)) >= 1 ==> home == old(home) && file == old(file)
    {
      MigrateHomeConfig(known, backed, first.writable, first.readable);
      homeOnce, fileOnce := home, file;
      ghost var stamped := backed && VersionOf(old(home)) < 1 && first.writable;
      assert stamped ==> fileOnce.Tree?;
      MigrateHomeConfig(known, backed, second.writable, second.readable);
      if stamped && VersionOf(homeOnce) < 1 && second.writable {
        MigratedIsUnique(old(home), known, fileOnce, file);
      }
    }
  }

  lemma StampLeaves(settings: map<string, Node>, q: Path)
    ensures LeafAt(Tree(settings[VERSION_KEY := Leaf(CURRENT_VERSION)]), q) ==
            if q != [] && q[0] == VERSION_KEY then (if q == [VERSION_KEY] then Some(CURRENT_VERSION) else None)
            else LeafAt(Tree(settings), q)
  {
    if q != [] && q[0] == VERSION_KEY {
      assert q == [VERSION_KEY] + q[1..];
      var stamped := settings[VERSION_KEY := Leaf(CURRENT_VERSION)];
      assert NodeAt(Tree(stamped), q) == NodeAt(stamped[VERSION_KEY], q[1..]);
      assert q[1..] != [] ==> NodeAt(Leaf(CURRENT_VERSION), q[1..]).None?;
      assert q[1..] == [] ==> NodeAt(Leaf(CURRENT_VERSION), q[1..]) == Some(Leaf(CURRENT_VERSION));
    }
  }

  lemma MigratedVersion(after: Node, home: Node, known: Known)
    requires IsMigrated(home, known, after)
    ensures VersionOf(after) == 1 && LeafAt(after, ["config_version"]) == Some("1")
  {
    assert LeafAt(after, [VERSION_KEY]) == Some("1");
    assert "1"[1..] == "" && Digit('1') == 1 && Pow10(0) == 1;
  }
}
