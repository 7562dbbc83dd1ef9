/** The standalone handler over whole runs: starts, commands, stops and kills, each by this
    handler or by a new one, and the secret every environment they build signs with. */
module Standalone {
  import opened Strings
  import opened StandaloneEnv
  import opened SigningSecret

  // ---------- a project and its handler, as values ----------

  /** `file`: the kept secret. `instance`: the secret of the Airflow that is running, if one
      is. `session`: the secret the handler has settled on, or "". */
  datatype World = World(file: Option<string>, instance: Option<string>, session: string)

  /** How far a start gets. */
  datatype Reach = StopsEarly | StopsAfterSecret | StopsAfterEnv | Runs

  datatype Op = NewHandler
              | Command
              | StartBackground(random: string, kept: bool, reach: Reach)
              | ForegroundSecret(random: string, kept: bool)
              | Stop(stopped: bool)
              | Kill(stopped: bool, removed: bool)

  /** The secret an environment built now signs with. */
  function EnvSecret(w: World, legacy: string): string {
    if w.session != "" then w.session else if Kept(w.file) != "" then Kept(w.file) else legacy
  }

  /** `kept`: the new secret could be written. */
  function Persist(w: World, random: string, kept: bool): World {
    if Kept(w.file) != "" then w.(session := Kept(w.file))
    else w.(session := random, file := if kept then Some(random) else w.file)
  }

  function Apply(w: World, op: Op, legacy: string): World {
    match op
    case NewHandler => w.(session := "")
    case Command => w.(session := EnvSecret(w, legacy))
    case StartBackground(random, kept, reach) =>
      if reach == StopsEarly || w.instance.Some? then w
      else
        var p := Persist(w, random, kept);
        if reach == StopsAfterSecret then p
        else
          var q := p.(session := EnvSecret(p, legacy));
          if reach == StopsAfterEnv then q else q.(instance := Some(q.session))
    case ForegroundSecret(random, kept) => Persist(w, random, kept)
    case Stop(stopped) => if stopped then w.(instance := None) else w
    case Kill(stopped, removed) =>
      if !stopped then w else w.(instance := None, file := if removed then None else w.file)
  }

  // ---------- one secret per instance ----------

  /** What is kept, or else the secret of an older CLI, is the running instance's secret; and
      the handler has settled on no other. */
  predicate Consistent(w: World, legacy: string) {
    w.instance.Some? ==>
      && w.instance.value == (if Kept(w.file) != "" then Kept(w.file) else legacy)
      && (w.session == "" || w.session == w.instance.value)
  }

  /** What is kept and what the handler settled on matter only through what is signed with: an
      environment built now, by this handler or by a new one, signs as the instance does. */
  lemma ConsistentMeans(w: World, legacy: string)
    ensures Consistent(w, legacy) <==>
            SignsAsInstance(w, legacy) && SignsAsInstance(Apply(w, NewHandler, legacy), legacy)
  {}

  predicate SignsAsInstance(w: World, legacy: string) {
    w.instance.Some? ==> EnvSecret(w, legacy) == w.instance.value
  }

  /** Generated secrets are secrets. */
  predicate IsOp(op: Op) {
    match op
    case StartBackground(random, _, _) => IsSecret(random)
    case ForegroundSecret(random, _) => IsSecret(random)
    case _ => true
  }

  /** The guard on one step. A background start that gets to run an instance keeps its secret;
      a foreground start keeps a new one only when no instance is up. Neither matters when a
      secret is kept already, or the new one happens to be the older CLI's. */
  predicate Sound(w: World, op: Op, legacy: string) {
    match op
    case StartBackground(random, kept, reach) =>
      kept || reach != Runs || w.instance.Some? || Kept(w.file) != "" || random == legacy
    case ForegroundSecret(random, _) => w.instance.None? || Kept(w.file) != "" || random == legacy
    case _ => true
  }

  function After(w: World, ops: seq<Op>, legacy: string): World
    decreases |ops|
  {
    if ops == [] then w else After(Apply(w, ops[0], legacy), ops[1..], legacy)
  }

  predicate SoundRun(w: World, ops: seq<Op>, legacy: string)
    decreases |ops|
  {
    ops == [] || (Sound(w, ops[0], legacy) && SoundRun(Apply(w, ops[0], legacy), ops[1..], legacy))
  }

  /** The guard is exact for one step. */
  lemma StepIsSoundExactly(w: World, op: Op, legacy: string)
    requires Consistent(w, legacy) && IsOp(op)
    ensures Consistent(Apply(w, op, legacy), legacy) <==> Sound(w, op, legacy)
  {}

  lemma {:induction false} RunKeepsConsistent(w: World, ops: seq<Op>, legacy: string)
    requires Consistent(w, legacy) && (forall op :: op in ops ==> IsOp(op)) && SoundRun(w, ops, legacy)
    ensures Consistent(After(w, ops, legacy), legacy)
    decreases |ops|
  {
    if ops == [] {
    } else {
      assert ops[0] in ops && forall op :: op in ops[1..] ==> op in ops;
      StepIsSoundExactly(w, ops[0], legacy);
      RunKeepsConsistent(Apply(w, ops[0], legacy), ops[1..], legacy);
    }
  }

  /** At every point of the run, environments built by this handler or by a new one sign as the
      instance does. */
  ghost predicate SignsThroughout(w: World, ops: seq<Op>, legacy: string) {
    forall n: nat :: n <= |ops| ==> SignsAt(w, ops, n, legacy)
  }

  predicate SignsAt(w: World, ops: seq<Op>, n: nat, legacy: string)
    requires n <= |ops|
  {
    var v := After(w, ops[..n], legacy);
    SignsAsInstance(v, legacy) && SignsAsInstance(Apply(v, NewHandler, legacy), legacy)
  }

  lemma AfterFirst(w: World, ops: seq<Op>, n: nat, legacy: string)
    requires 0 < n <= |ops|
    ensures After(w, ops[..n], legacy) == After(Apply(w, ops[0], legacy), ops[1..][..n - 1], legacy)
  {
    assert ops[..n][1..] == ops[1..][..n - 1];
  }

  /** Over any run of starts in the background or the foreground, commands, stops and kills, on
      one handler or on as many as there are commands, every environment built while an
      instance is up signs with that instance's secret, at every point of the run, exactly when
      every step meets its guard. The run may begin with nothing up, or with an instance of an
      older CLI up and no secret kept. */
  lemma {:induction false} SignsThroughoutExactly(w: World, ops: seq<Op>, legacy: string)
    requires Consistent(w, legacy) && forall op :: op in ops ==> IsOp(op)
    ensures SignsThroughout(w, ops, legacy) <==> SoundRun(w, ops, legacy)
    decreases |ops|
  {
    ConsistentMeans(w, legacy);
    assert SignsAt(w, ops, 0, legacy);
    if ops == [] {
    } else {
      hide SignsAt, Apply, Consistent, Sound;
      var next, rest := Apply(w, ops[0], legacy), ops[1..];
      assert ops[0] in ops && forall op :: op in rest ==> op in ops;
      StepIsSoundExactly(w, ops[0], legacy);
      FirstStepSigns(w, ops, legacy);
      forall n: nat | 0 < n <= |ops| ensures SignsAt(w, ops, n, legacy) == SignsAt(next, rest, n - 1, legacy) {
        SignsOneOn(w, ops, n, legacy);
      }
      if Consistent(next, legacy) {
        SignsThroughoutExactly(next, rest, legacy);
        OneOn(w, ops, legacy);
      } else {
        assert !SignsAt(w, ops, 1, legacy);
      }
    }
  }

  lemma SignsOneOn(w: World, ops: seq<Op>, n: nat, legacy: string)
    requires 0 < n <= |ops|
    ensures SignsAt(w, ops, n, legacy) == SignsAt(Apply(w, ops[0], legacy), ops[1..], n - 1, legacy)
  {
    AfterFirst(w, ops, n, legacy);
  }

  lemma FirstStepSigns(w: World, ops: seq<Op>, legacy: string)
    requires ops != []
    ensures SignsAt(w, ops, 1, legacy) <==> Consistent(Apply(w, ops[0], legacy), legacy)
  {
    SignsOneOn(w, ops, 1, legacy);
    assert ops[1..][..0] == [];
    ConsistentMeans(Apply(w, ops[0], legacy), legacy);
  }

  lemma OneOn(w: World, ops: seq<Op>, legacy: string)
    requires ops != [] && SignsAt(w, ops, 0, legacy)
    requires forall n: nat :: 0 < n <= |ops| ==>
               SignsAt(w, ops, n, legacy) == SignsAt(Apply(w, ops[0], legacy), ops[1..], n - 1, legacy)
    ensures SignsThroughout(w, ops, legacy) <==> SignsThroughout(Apply(w, ops[0], legacy), ops[1..], legacy)
  {
    hide SignsAt, Apply;
    var next, rest := Apply(w, ops[0], legacy), ops[1..];
    if SignsThroughout(w, ops, legacy) {
      forall m: nat | m <= |rest| ensures SignsAt(next, rest, m, legacy) {
        assert SignsAt(w, ops, m + 1, legacy) == SignsAt(next, rest, m + 1 - 1, legacy);
      }
    }
    if SignsThroughout(next, rest, legacy) {
      forall n: nat | n <= |ops| ensures SignsAt(w, ops, n, legacy) {
        if n > 0 { assert SignsAt(next, rest, n - 1, legacy); }
      }
    }
  }

  /** From nothing up, or an older CLI's instance and no kept secret, a run that meets the guard
      ends with environments that sign as the instance does. */
  lemma EnvironmentsSignAsTheInstance(w: World, ops: seq<Op>, legacy: string)
    requires w.session == "" && (w.instance.None? || (w.instance == Some(legacy) && Kept(w.file) == ""))
    requires (forall op :: op in ops ==> IsOp(op)) && SoundRun(w, ops, legacy)
    ensures var v := After(w, ops, legacy);
            v.instance.Some? ==> EnvSecret(v, legacy) == v.instance.value
  {
    RunKeepsConsistent(w, ops, legacy);
  }

  /** A foreground start looks for no running instance before it keeps a secret. From a
      consistent state it leaves one exactly when no instance is up, a secret is kept
      already, or the new secret happens to be the older CLI's. */
  lemma ForegroundIsSafeExactly(w: World, random: string, kept: bool, legacy: string)
    requires Consistent(w, legacy) && IsSecret(random)
    ensures Consistent(Apply(w, ForegroundSecret(random, kept), legacy), legacy)
            <==> w.instance.None? || Kept(w.file) != "" || random == legacy
  {}

  /** When a start cannot keep its secret, the next handler signs with it exactly when that
      secret happens to be the older CLI's. */
  lemma UnkeptSecretIsLostExactly(w: World, random: string, legacy: string)
    requires w.instance.None? && Kept(w.file) == "" && IsSecret(random)
    ensures var v := After(w, [StartBackground(random, false, Runs), NewHandler], legacy);
            v.instance == Some(random) && (EnvSecret(v, legacy) == v.instance.value <==> random == legacy)
  {
    var start := StartBackground(random, false, Runs);
    assert [start, NewHandler][1..] == [NewHandler];
    assert [NewHandler][1..] == [];
    assert After(Apply(w, start, legacy), [NewHandler], legacy) == Apply(Apply(w, start, legacy), NewHandler, legacy);
  }

  // ---------- `Persist` is what the protocol comes to for one start ----------

  /** A start with no other at work, on a file that held `initial`, whose reads work. */
  predicate Lone(c: Config, initial: Option<string>, s: State, p: Pid) {
    && IsConfig(c) && p in c.secrets && s.starts.Keys == {p}
    && var t := s.starts[p];
    && var own := Some(c.secrets[p]);
    && if t.pc == FirstRead then s.file == initial
       else if t.pc == Crashed then true
       else if t.pc == SigningSecret.Done && Kept(initial) != "" then s.file == initial && t.held == Kept(initial)
       else
         && Kept(initial) == "" && t.held == c.secrets[p]
         && (t.pc in {Link, CheckExisting, ReplaceEmpty, RenameNoLinks} ==> t.temp == own)
         && (if t.pc in {ReadKept, RemoveTemp, SigningSecret.Done}
             then s.file == own || (c.faults && s.file == initial) else s.file == initial)
  }

  /** No read fails. */
  predicate ReadsWork(c: Config, s: State, run: seq<Action>)
    requires CanRun(c, s, run)
    decreases |run|
  {
    run == [] ||
    (&& (run[0].outcome == Fails ==> s.starts[run[0].pid].pc !in {FirstRead, CheckExisting, ReadKept})
     && ReadsWork(c, Act(c, s, run[0]), run[1..]))
  }

  lemma {:induction false} RunKeepsLone(c: Config, initial: Option<string>, s: State, run: seq<Action>, p: Pid)
    requires Lone(c, initial, s, p) && CanRun(c, s, run) && ReadsWork(c, s, run)
    ensures Lone(c, initial, Run(c, s, run), p)
    decreases |run|
  {
    if run == [] {
    } else {
      StepKeepsLone(c, initial, s, run[0], p);
      RunKeepsLone(c, initial, Act(c, s, run[0]), run[1..], p);
    }
  }

  lemma StepKeepsLone(c: Config, initial: Option<string>, s: State, a: Action, p: Pid)
    requires Lone(c, initial, s, p) && Enabled(c, s, a)
    requires a.outcome == Fails ==> s.starts[a.pid].pc !in {FirstRead, CheckExisting, ReadKept}
    ensures Lone(c, initial, Act(c, s, a), p)
  {}

  lemma {:induction false} WithoutFaultsReadsWork(c: Config, s: State, run: seq<Action>)
    requires !c.faults && CanRun(c, s, run)
    ensures ReadsWork(c, s, run)
    decreases |run|
  {
    if run == [] {
    } else {
      WithoutFaultsReadsWork(c, Act(c, s, run[0]), run[1..]);
    }
  }

  /** Whichever calls of a lone start fail, as long as its reads work, when it finishes the file
      and the handler are as `Persist` says, the secret being kept if it reached the file. */
  lemma LoneStartPersistsOrNot(c: Config, s: State, run: seq<Action>, p: Pid, instance: Option<string>)
    requires IsConfig(c) && IsInit(c, s) && c.secrets.Keys == {p}
    requires CanRun(c, s, run) && ReadsWork(c, s, run)
    requires p in Run(c, s, run).starts && Run(c, s, run).starts[p].pc == SigningSecret.Done
    ensures var t := Run(c, s, run);
            World(t.file, instance, t.starts[p].held) ==
            Persist(World(s.file, instance, ""), c.secrets[p], t.file == Some(c.secrets[p]))
  {
    RunKeepsLone(c, s.file, s, run, p);
  }

  /** When none fails, with hard links or without, the secret reaches the file. */
  lemma LoneStartPersists(c: Config, s: State, run: seq<Action>, p: Pid, instance: Option<string>)
    requires IsConfig(c) && IsInit(c, s) && c.secrets.Keys == {p} && !c.faults
    requires CanRun(c, s, run) && p in Run(c, s, run).starts && Run(c, s, run).starts[p].pc == SigningSecret.Done
    ensures World(Run(c, s, run).file, instance, Run(c, s, run).starts[p].held) ==
            Persist(World(s.file, instance, ""), c.secrets[p], true)
  {
    WithoutFaultsReadsWork(c, s, run);
    RunKeepsLone(c, s.file, s, run, p);
  }

  // ---------- the handler ----------

  /** A project on disk, with the Airflow that runs from it. */
  class Project {
    var secretFile: Option<string>
    var instance: Option<string>
    const legacySecret: string

    constructor (legacySecret: string)
      ensures secretFile == None && instance == None && this.legacySecret == legacySecret
    {
      this.legacySecret := legacySecret;
      secretFile, instance := None, None;
    }
  }

  class Handler {
    const project: Project
    const airflowHome: string
    const port: string
    const airflowMajorVersion: string
    var signingSecret: string

    constructor (project: Project, airflowHome: string, port: string, airflowMajorVersion: string)
      ensures this.project == project && this.airflowHome == airflowHome && this.port == port
      ensures this.airflowMajorVersion == airflowMajorVersion
      ensures Now() == World(project.secretFile, project.instance, "")
    {
      this.project, this.airflowHome, this.port := project, airflowHome, port;
      this.airflowMajorVersion := airflowMajorVersion;
      signingSecret := "";
    }

    function Now(): World
      reads this, project
    {
      World(project.secretFile, project.instance, signingSecret)
    }

    method SigningSecretForEnv() returns (secret: string)
      modifies this`signingSecret
      ensures secret == EnvSecret(old(Now()), project.legacySecret)
      ensures Now() == Apply(old(Now()), Op.Command, project.legacySecret)
    {
      if signingSecret == "" {
        signingSecret := Kept(project.secretFile);
      }
      if signingSecret == "" {
        signingSecret := project.legacySecret;
      }
      secret := signingSecret;
    }

    /** With no other start at work; `random` is the generated secret and `kept` whether it
        can be written. */
    method PersistSigningSecret(random: string, kept: bool)
      requires IsSecret(random)
      modifies this`signingSecret, project`secretFile
      ensures Now() == Persist(old(Now()), random, kept)
      ensures kept ==> signingSecret == Kept(project.secretFile)
    {
      var secret := Kept(project.secretFile);
      if secret != "" {
        signingSecret := secret;
        return;
      }
      signingSecret := random;
      if kept {
        project.secretFile := Some(random);
      }
      var now := Kept(project.secretFile);
      if now != "" {
        signingSecret := now;
      }
    }

    /** Every key comes from the highest layer that has it, and the signing keys hold the
        secret of this handler. */
    method BuildEnv(host: Host, envFile: Option<seq<string>>) returns (env: seq<string>)
      modifies this`signingSecret
      ensures Now() == Apply(old(Now()), Op.Command, project.legacySecret)
      ensures SignsWith(env, airflowMajorVersion, signingSecret)
      ensures var lines := if envFile.Some? then envFile.value else [];
              var critical := Settings(airflowHome, airflowMajorVersion, port, signingSecret, host);
              exists dotenv: map<string, string> ::
                && IsDotEnv(lines, dotenv)
                && IsMerged(env, host.environ, dotenv + critical + NoProxy(dotenv + critical, host))
                && forall key :: '=' !in key ==>
                     EntriesFor(env, key) ==
                         Layered(critical + NoProxy(dotenv + critical, host), lines, host.environ, key)
      ensures var lines := if envFile.Some? then envFile.value else [];
              !ProxyIsSet(lines, host) ==>
                EntriesFor(env, "NO_PROXY") == ["NO_PROXY=*"] && EntriesFor(env, "no_proxy") == ["no_proxy=*"]
    {
      var dotenv: map<string, string> := map[];
      var lines := if envFile.Some? then envFile.value else [];
      dotenv := LoadDotEnv(lines);
      var secret := SigningSecretForEnv();
      var critical := Settings(airflowHome, airflowMajorVersion, port, secret, host);
      var overrides := dotenv + critical;
      overrides := overrides + NoProxy(overrides, host);
      env := Merge(host.environ, overrides);
      LayersOf(env, dotenv, lines, airflowHome, airflowMajorVersion, port, secret, host);
      WorkaroundOf(env, dotenv, lines, airflowHome, airflowMajorVersion, port, secret, host);
    }

    /** A command run while an instance is up signs with that instance's secret. */
    method Command(host: Host, envFile: Option<seq<string>>) returns (env: seq<string>)
      modifies this`signingSecret
      ensures Now() == Apply(old(Now()), Op.Command, project.legacySecret)
      ensures Consistent(old(Now()), project.legacySecret) ==>
                && Consistent(Now(), project.legacySecret)
                && (project.instance.Some? ==> SignsWith(env, airflowMajorVersion, project.instance.value))
    {
      env := BuildEnv(host, envFile);
    }

    method StartBackground(random: string, kept: bool, reach: Reach, host: Host, envFile: Option<seq<string>>)
      requires IsSecret(random)
      modifies this`signingSecret, project
      ensures Now() == Apply(old(Now()), Op.StartBackground(random, kept, reach), project.legacySecret)
      ensures kept && Consistent(old(Now()), project.legacySecret) ==> Consistent(Now(), project.legacySecret)
    {
      hide SignsWith, EntriesFor, Layered, Settings, NoProxy, IsMerged, IsDotEnv, ProxyIsSet;
      if reach == StopsEarly { return; }
      if project.instance.Some? { return; }
      PersistSigningSecret(random, kept);
      if reach == StopsAfterSecret { return; }
      var env := BuildEnv(host, envFile);
      if reach == StopsAfterEnv { return; }
      project.instance := Some(signingSecret);
    }

    method Stop(stopped: bool) returns (ok: bool)
      modifies project`instance
      ensures ok == stopped
      ensures Now() == Apply(old(Now()), Op.Stop(stopped), project.legacySecret)
    {
      if stopped { project.instance := None; }
      ok := stopped;
    }

    /** A stop that fails leaves the instance, its secret and everything else alone. */
    method Kill(stopped: bool, removed: bool) returns (ok: bool)
      modifies project
      ensures ok == stopped
      ensures Now() == Apply(old(Now()), Op.Kill(stopped, removed), project.legacySecret)
    {
      ok := Stop(stopped);
      if !ok { return; }
      if removed { project.secretFile := None; }
    }
  }

  lemma WorkaroundOf(env: seq<string>, dotenv: map<string, string>, lines: seq<string>, home: string, major: string,
                     port: string, secret: string, host: Host)
    requires IsDotEnv(lines, dotenv) && Plain(dotenv)
    requires var critical := Settings(home, major, port, secret, host);
             IsMerged(env, host.environ, dotenv + critical + NoProxy(dotenv + critical, host))
    ensures !ProxyIsSet(lines, host) ==>
              EntriesFor(env, "NO_PROXY") == ["NO_PROXY=*"] && EntriesFor(env, "no_proxy") == ["no_proxy=*"]
  {
    hide Settings, NoProxy, EntriesFor, IsMerged, IsDotEnv, ProxyIsSet, LastValue, Plain;
    var critical := Settings(home, major, port, secret, host);
    SettingsArePlain(home, major, port, secret, host);
    SettingsAreNoProxies(home, major, port, secret, host);
    NoProxyExactly(env, dotenv, lines, critical, host, "NO_PROXY");
    NoProxyExactly(env, dotenv, lines, critical, host, "no_proxy");
    assert "NO_PROXY" + "=*" == "NO_PROXY=*" && "no_proxy" + "=*" == "no_proxy=*";
  }

  lemma LayersOf(env: seq<string>, dotenv: map<string, string>, lines: seq<string>, home: string, major: string,
                 port: string, secret: string, host: Host)
    requires IsDotEnv(lines, dotenv) && Plain(dotenv)
    requires var critical := Settings(home, major, port, secret, host);
             IsMerged(env, host.environ, dotenv + critical + NoProxy(dotenv + critical, host))
    ensures var critical := Settings(home, major, port, secret, host);
            forall key :: '=' !in key ==>
              EntriesFor(env, key) == Layered(critical + NoProxy(dotenv + critical, host), lines, host.environ, key)
    ensures SignsWith(env, major, secret)
  {
    hide Settings, NoProxy, EntriesFor, SigningKeys, IsMerged, IsDotEnv, Layered;
    var critical := Settings(home, major, port, secret, host);
    var noProxy := NoProxy(dotenv + critical, host);
    var top := critical + noProxy;
    SettingsArePlain(home, major, port, secret, host);
    NoProxyIsPlain(dotenv + critical, host);
    assert dotenv + critical + noProxy == dotenv + top;
    forall key | '=' !in key
      ensures EntriesFor(env, key) == Layered(top, lines, host.environ, key)
    {
      LayerOfKey(env, host.environ, dotenv, top, lines, key);
    }
    forall key | key in SigningKeys(major) ensures EntriesFor(env, key) == [Join(key, secret)] {
      SigningKeysAreSet(home, major, port, secret, host, key);
      assert top[key] == secret;
      LayerOfKey(env, host.environ, dotenv, top, lines, key);
      TopLayer(top, lines, host.environ, key);
    }
  }
}
