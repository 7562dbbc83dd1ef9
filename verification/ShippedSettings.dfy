/** The settings the CLI ships, with their defaults: the table the migration runs with. */
module ShippedSettings {
  import opened Strings
  import opened HomeConfig

  /** A table of one-key settings, of sections of two-key ones, and of three-key ones under
      one prefix. */
  function Table(top: map<string, string>, sections: map<string, map<string, string>>, root: string, branch: string,
                 deep: map<string, string>): map<Path, string>
  {
    Top(top) + Under(sections) + Deep(root, branch, deep)
  }

  function Top(top: map<string, string>): map<Path, string> { map k | k in top :: [k] := top[k] }

  function Under(sections: map<string, map<string, string>>): map<Path, string> {
    map s, k | s in sections && k in sections[s] :: [s, k] := sections[s][k]
  }

  function Deep(root: string, branch: string, deep: map<string, string>): map<Path, string> {
    map k | k in deep :: [root, branch, k] := deep[k]
  }

  lemma TableShape(top: map<string, string>, sections: map<string, map<string, string>>, root: string, branch: string,
                   deep: map<string, string>, p: Path)
    requires p in Table(top, sections, root, branch, deep)
    ensures 1 <= |p| <= 3
    ensures if |p| == 1 then p[0] in top else if |p| == 2 then p[0] in sections else p[0] == root
  {
    if p in Top(top) {} else if p in Under(sections) {} else { assert p in Deep(root, branch, deep); }
  }

  /** With no first key shared between depths, no setting is a prefix of another. */
  lemma TableIsPrefixFree(top: map<string, string>, sections: map<string, map<string, string>>, root: string,
                          branch: string, deep: map<string, string>)
    requires forall k :: k in top ==> k !in sections && k != root
    requires root !in sections && VERSION_KEY !in top && VERSION_KEY !in sections && VERSION_KEY != root
    ensures PrefixFree(Table(top, sections, root, branch, deep).Keys)
    ensures forall p :: p in Table(top, sections, root, branch, deep) ==> p != [] && p[0] != VERSION_KEY
  {
    hide Table;
    var t := Table(top, sections, root, branch, deep);
    forall p | p in t ensures p != [] && p[0] != VERSION_KEY { TableShape(top, sections, root, branch, deep, p); }
    forall p, q | p in t && q in t && p <= q ensures p == q {
      TableShape(top, sections, root, branch, deep, p);
      TableShape(top, sections, root, branch, deep, q);
      assert p[0] == q[0];
      if |p| == |q| { assert p == q[..|p|] == q; }
    }
  }

  function TopLevel(): map<string, string> {
    map[
      "context" := "", "contexts" := "", "show_warnings" := "true", "verbosity" := "warning",
      "duplicate_volumes" := "true", "skip_parse" := "false", "interactive" := "false", "page_size" := "20",
      "upgrade_message" := "true",
      "disable_astro_run" := "false", "auto_select" := "false", "sha_as_tag" := "false"
    ]
  }

  /** Two-key settings, by their first key. */
  function Sections(): map<string, map<string, string>> {
    map[
      "container" := map["binary" := ""],
      "local" := map["core" := "http://localhost:8888", "registry" := "localhost:5555", "houston" := "",
                     "platform" := "cloud"],
      "postgres" := map["user" := "postgres", "password" := "postgres", "host" := "postgres", "port" := "5432",
                        "repository" := "docker.io/postgres", "tag" := "15"],
      "project" := map["deployment" := "", "name" := "", "workspace" := ""],
      "webserver" := map["port" := "8080"],
      "api-server" := map["port" := "8080"],
      "airflow" := map["expose_port" := "false"],
      "houston" := map["dial_timeout" := "10", "skip_verify_tls" := "false"],
      "machine" := map["cpu" := "2", "memory" := "4096"],
      "ruff" := map["image" := "ghcr.io/astral-sh/ruff:latest"],
      "remote" := map["client_registry" := "", "base_image_registry" := "images.astronomer.cloud"],
      "deploy" := map["git_metadata" := "true"],
      "dev" := map["mode" := "docker", "build_secrets" := ""],
      "telemetry" := map["enabled" := "true", "anonymous_id" := "", "notice_shown" := ""],
      "proxy" := map["port" := "6563"],
      "otto" := map["auto_update" := "true"],
      "cosmos_boost" := map["pre_deploy" := "false"]
    ]
  }

  function CloudApi(): map<string, string> {
    map["protocol" := "https", "port" := "443", "ws_protocol" := "wss", "token" := ""]
  }

  function Shipped(): Known {
    Known(Table(TopLevel(), Sections(), "cloud", "api", CloudApi()), map[["postgres", "tag"] := {"12.6"}])
  }

  /** Enough of a key to tell the top-level ones from the sections. */
  function Mark(k: string): (nat, char) { if k == "" then (0, ' ') else (|k|, k[0]) }

  lemma TopLevelMarks(k: string)
    requires k in TopLevel()
    ensures Mark(k) in {(7, 'c'), (8, 'c'), (13, 's'), (9, 'v'), (17, 'd'), (10, 's'), (11, 'i'), (9, 'p'),
                        (15, 'u'), (11, 'a')}
  {}

  lemma SectionMarks(k: string)
    requires k in Sections() || k == "cloud" || k == VERSION_KEY
    ensures Mark(k) in {(9, 'c'), (5, 'l'), (8, 'p'), (7, 'p'), (9, 'w'), (10, 'a'), (7, 'a'), (7, 'h'), (7, 'm'),
                        (4, 'r'), (6, 'r'), (6, 'd'), (3, 'd'), (9, 't'), (5, 'p'), (4, 'o'), (12, 'c'), (5, 'c'),
                        (14, 'c')}
    ensures k in Sections() ==> Mark(k) !in {(5, 'c'), (14, 'c')}
  {}

  /** Settings of different depths never share their first key. */
  lemma DepthsDiffer(k: string)
    ensures k in TopLevel() ==> k !in Sections() && k != "cloud" && k != VERSION_KEY
    ensures k == "cloud" || k == VERSION_KEY ==> k !in Sections()
  {
    hide TopLevel, Sections;
    if k in TopLevel() { TopLevelMarks(k); }
    if k in Sections() || k == "cloud" || k == VERSION_KEY { SectionMarks(k); }
  }

  /** The shipped table meets what the migration theorems ask of one. */
  lemma ShippedIsPrefixFree()
    ensures IsKnown(Shipped()) && PrefixFree(Shipped().defaults.Keys)
  {
    hide TopLevel, Sections, CloudApi, Table, Mark;
    forall k | k in TopLevel() ensures k !in Sections() && k != "cloud" { DepthsDiffer(k); }
    DepthsDiffer("cloud");
    DepthsDiffer(VERSION_KEY);
    TableIsPrefixFree(TopLevel(), Sections(), "cloud", "api", CloudApi());
  }

  lemma TableHoldsSections(top: map<string, string>, sections: map<string, map<string, string>>, root: string,
                           branch: string, deep: map<string, string>, s: string, k: string)
    requires s in sections && k in sections[s]
    ensures [s, k] in Table(top, sections, root, branch, deep)
    ensures Table(top, sections, root, branch, deep)[[s, k]] == sections[s][k]
  {
    assert [s, k] in Under(sections) && Under(sections)[[s, k]] == sections[s][k];
  }

  lemma PostgresTagIsShipped()
    ensures ["postgres", "tag"] in Shipped().defaults && Shipped().defaults[["postgres", "tag"]] == "15"
    ensures Shipped().superseded == map[["postgres", "tag"] := {"12.6"}]
  {
    hide TopLevel, CloudApi, Sections, Table;
    PostgresSection();
    TableHoldsSections(TopLevel(), Sections(), "cloud", "api", CloudApi(), "postgres", "tag");
  }

  lemma PostgresSection()
    ensures "postgres" in Sections() && "tag" in Sections()["postgres"] && Sections()["postgres"]["tag"] == "15"
  {}

  /** A file that carries the postgres tag of an older CLI, or today's, follows the default from
      its migration on, and any other tag is the user's. */
  lemma PostgresTagFollowsTheDefault(home: Node, after: Node, tag: string)
    requires IsMigrated(home, Shipped(), after) && LeafAt(home, ["postgres", "tag"]) == Some(tag)
    ensures LeafAt(after, ["postgres", "tag"]) == if tag == "12.6" || tag == "15" then None else Some(tag)
    ensures GetHomeString(after, ["postgres", "tag"], "15") == if tag == "12.6" then "15" else tag
  {
    var p := ["postgres", "tag"];
    hide Shipped, IsMigrated;
    PostgresTagIsShipped();
    ShippedIsPrefixFree();
    assert Dropped(home, Shipped(), p) <==> tag == "12.6" || tag == "15";
    VersionIsNotPostgres();
    LeafOfMigrated(home, Shipped(), after, p);
    MigrationKeepsMeaning(home, Shipped(), after, p);
    LeafIsNotLost(home, Shipped(), p, tag);
  }

  lemma VersionIsNotPostgres()
    ensures VERSION_KEY != "postgres"
  {
    assert |VERSION_KEY| == 14;
  }

  lemma LeafOfMigrated(home: Node, known: Known, after: Node, q: Path)
    requires IsMigrated(home, known, after)
    ensures LeafAt(after, q) == MigratedLeaf(home, known, q)
  {}

  lemma LeafIsNotLost(home: Node, known: Known, p: Path, text: string)
    requires p in known.defaults && LeafAt(home, p) == Some(text)
    ensures !IsLost(home, known, p) && GetHomeString(home, p, known.defaults[p]) == text
  {
    assert LeafAt(NodeAt(home, p).value, []) == Some(text);
  }
}
