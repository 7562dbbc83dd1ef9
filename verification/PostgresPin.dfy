/** Which postgres a project is started with: an existing data directory keeps the major version
    that wrote it, over any run of starts, interrupted starts, tag changes, stops and kills. */
module PostgresPin {
  import opened Strings

  /** The leading number of a postgres tag or of a PG_VERSION file. */
  function MajorVersion(v: string): (r: Option<nat>)
    ensures r.Some? ==> 0 < r.value <= MAX_INT
  {
    var t := TrimSpace(v);
    var head := t[..DigitRun(t)];
    if head == "" || Value(head) == 0 || Value(head) > MAX_INT then None else Some(Value(head))
  }

  /** A text that starts with this number, after white space. */
  ghost predicate StartsWithNumber(v: string, n: nat) {
    exists digits, rest :: IsNumeral(digits, rest) && TrimSpace(v) == digits + rest && Value(digits) == n
  }

  /** A run of digits that is not part of a longer one. */
  predicate IsNumeral(digits: string, rest: string) {
    digits != "" && AllDigits(digits) && (rest == "" || !IsDigit(rest[0]))
  }

  /** The major version is the positive number in range that the trimmed text starts with, and
      there is none exactly when the text starts with no such number. */
  lemma MajorVersionMeans(v: string)
    ensures forall n :: MajorVersion(v) == Some(n) <==> 0 < n <= MAX_INT && StartsWithNumber(v, n)
    ensures MajorVersion(v).None? <==> forall n: nat :: StartsWithNumber(v, n) ==> n == 0 || n > MAX_INT
  {
    hide TrimSpace;
    var t := TrimSpace(v);
    var k := DigitRun(t);
    assert t == t[..k] + t[k..];
    assert k > 0 ==> IsNumeral(t[..k], t[k..]);
    assert k > 0 ==> StartsWithNumber(v, Value(t[..k]));
    forall n | StartsWithNumber(v, n) ensures k > 0 && n == Value(t[..k]) {
      var digits, rest :| IsNumeral(digits, rest) && t == digits + rest && Value(digits) == n;
      DigitRunOf(digits, rest);
      assert t[..|digits|] == digits;
    }
  }

  lemma {:induction false} TrimKeepsFront(d: string, rest: string) returns (k: nat)
    requires d != "" && !IsSpace(d[0]) && !IsSpace(d[|d| - 1])
    ensures k <= |rest| && TrimSpace(d + rest) == d + rest[..k]
    decreases |rest|
  {
    hide IsSpace;
    if rest == "" {
      k := 0;
      assert d + rest == d && d + rest[..0] == d;
    } else if IsSpace(rest[|rest| - 1]) {
      var n := |rest| - 1;
      k := TrimKeepsFront(d, rest[..n]);
      assert (d + rest)[..|d + rest| - 1] == d + rest[..n];
      assert rest[..n][..k] == rest[..k];
    } else {
      k := |rest|;
      assert rest[..k] == rest;
    }
  }

  /** What follows the number in a tag such as `12.6` or `15-alpine`, or in a file. */
  predicate IsTagSuffix(suffix: string) { suffix == "" || !IsDigit(suffix[0]) }

  predicate IsMajor(n: nat) { 0 < n <= 9223372036854775807 }

  /** Every tag that starts with a version, and the PG_VERSION file, are read as that version;
      so is the tag a project is pinned to. */
  lemma MajorVersionOfTag(n: nat, suffix: string)
    requires IsMajor(n) && IsTagSuffix(suffix)
    ensures MajorVersion(Itoa(n) + suffix) == Some(n)
    ensures MajorVersion(Itoa(n)) == Some(n)
  {
    var d := Itoa(n);
    DigitIsNotSpace(d[0]);
    DigitIsNotSpace(d[|d| - 1]);
    ValueOfItoa(n);
    var k := TrimKeepsFront(d, suffix);
    DigitRunOf(d, suffix[..k]);
    assert (d + suffix[..k])[..|d|] == d;
    DigitRunOf(d, "");
    assert d + "" == d && d[..|d|] == d;
  }

  lemma DigitIsNotSpace(c: char)
    requires IsDigit(c)
    ensures !IsSpace(c)
  {}

  // ---------- states and steps ----------

  /** The project's data volume: `Blank` has no PG_VERSION yet. */
  datatype Volume = NoVolume | Blank | Written(major: nat)

  /** A start or a kill at work. `tag` is the configured major version, which a start reads
      once; `image` is what it has settled on. */
  datatype Cli = Idle | Begun(tag: nat) | Cleared(tag: nat) | Probing(tag: nat, probe: nat)
               | Read(image: nat, probe: nat) | Resolved(image: nat) | Swept

  /** `probes`: the containers that hold the volume. `server`: the major version of the
      postgres that is up. `broken`: some postgres was brought up on a data directory that
      another major version wrote. */
  datatype State = State(volume: Volume, probes: set<nat>, server: Option<nat>, tag: nat, cli: Cli, broken: bool)

  /** `left`: the probes whose removal failed, or all of them if they could not be listed.
      `GiveUp` is a probe that cannot be made, `ReadFails` a version that cannot be read,
      `LeaveProbe` a probe that cannot be removed; none of them stops the start. `Sweep` and
      `Down` are the two halves of a kill. */
  datatype Action = SetTag(tag: nat) | Begin | ClearProbes(left: set<nat>) | CreateProbe(id: nat) | GiveUp
                  | ReadVersion | ReadFails | RemoveProbe | LeaveProbe | Up | Interrupt
                  | ServerInit | Stop | Sweep(left: set<nat>) | Down

  predicate Enabled(s: State, a: Action) {
    match a
    case SetTag(t) => t > 0
    case Begin => s.cli.Idle?
    case ClearProbes(left) => s.cli.Begun? && left <= s.probes
    case CreateProbe(id) => s.cli.Cleared? && id !in s.probes
    case GiveUp => s.cli.Begun? || s.cli.Cleared?
    case ReadVersion => s.cli.Probing?
    case ReadFails => s.cli.Probing?
    case RemoveProbe => s.cli.Read?
    case LeaveProbe => s.cli.Read?
    case Up => s.cli.Resolved?
    case Interrupt => !s.cli.Idle?
    case ServerInit => s.volume.Blank? && s.server.Some?
    case Stop => s.cli.Idle?
    case Sweep(left) => s.cli.Idle? && left <= s.probes
    case Down => s.cli.Swept?
  }

  /** The image a start chooses once it has read the data directory. */
  function Choose(volume: Volume, tag: nat): nat {
    if volume.Written? then volume.major else tag
  }

  /** Compose keeps a volume that a container still holds. */
  function Act(s: State, a: Action): State
    requires Enabled(s, a)
  {
    match a
    case SetTag(t) => s.(tag := t)
    case Begin => s.(cli := if s.volume.NoVolume? then Resolved(s.tag) else Begun(s.tag))
    case ClearProbes(left) => s.(probes := left, cli := Cleared(s.cli.tag))
    case CreateProbe(id) => s.(probes := s.probes + {id}, cli := Probing(s.cli.tag, id))
    case GiveUp => s.(cli := Resolved(s.cli.tag))
    case ReadVersion => s.(cli := Read(Choose(s.volume, s.cli.tag), s.cli.probe))
    case ReadFails => s.(cli := Read(s.cli.tag, s.cli.probe))
    case RemoveProbe => s.(probes := s.probes - {s.cli.probe}, cli := Resolved(s.cli.image))
    case LeaveProbe => s.(cli := Resolved(s.cli.image))
    case Up => s.(volume := if s.volume.NoVolume? then Blank else s.volume, server := Some(s.cli.image), cli := Idle,
                  broken := s.broken || (s.volume.Written? && s.volume.major != s.cli.image))
    case Interrupt => s.(cli := Idle)
    case ServerInit => s.(volume := Written(s.server.value))
    case Stop => s.(server := None)
    case Sweep(left) => s.(probes := left, cli := Swept)
    case Down => s.(server := None, volume := if s.probes == {} then NoVolume else s.volume, cli := Idle)
  }

  predicate CanRun(s: State, run: seq<Action>)
    decreases |run|
  {
    run == [] || (Enabled(s, run[0]) && CanRun(Act(s, run[0]), run[1..]))
  }

  function Run(s: State, run: seq<Action>): State
    requires CanRun(s, run)
    decreases |run|
  {
    if run == [] then s else Run(Act(s, run[0]), run[1..])
  }

  /** Which steps may change what: a stop, a tag change or an interruption leaves the volume and
      the probes alone, and only a start, a stop and a shutdown change what is up. */
  lemma StepsChangeOnly(s: State, a: Action)
    requires Enabled(s, a)
    ensures Act(s, a).probes != s.probes ==> a.ClearProbes? || a.CreateProbe? || a.RemoveProbe? || a.Sweep?
    ensures Act(s, a).volume != s.volume ==> a == Up || a == ServerInit || a == Down
    ensures Act(s, a).server != s.server ==> a == Up || a == Stop || a == Down
    ensures Act(s, a).tag != s.tag ==> a.SetTag?
    ensures Act(s, a).cli != s.cli ==> a != ServerInit && a != Stop && !a.SetTag?
    ensures a == Stop || a == Down ==> Act(s, a).server == None
  {}

  // ---------- the pin holds ----------

  /** Nothing that is on the data directory, or is just being written to it, is of another
      version than the image. */
  predicate Fits(s: State, image: nat) {
    && (s.volume.Written? ==> s.volume.major == image)
    && (s.volume.Blank? && s.server.Some? ==> s.server.value == image)
  }

  /** The guard on the step that settles the image: a version that is read must not be just
      being initialised by another postgres, and one that is not read must not matter. */
  predicate Quiet(s: State, a: Action)
    requires Enabled(s, a)
  {
    match a
    case ReadVersion => s.volume.Blank? && s.server.Some? ==> s.server.value == s.cli.tag
    case ReadFails => Fits(s, s.cli.tag)
    case GiveUp => Fits(s, s.cli.tag)
    case _ => true
  }

  predicate QuietRun(s: State, run: seq<Action>)
    requires CanRun(s, run)
    decreases |run|
  {
    run == [] || (Quiet(s, run[0]) && QuietRun(Act(s, run[0]), run[1..]))
  }

  /** The postgres that is up fits the data directory, and so does the one a start has chosen,
      whatever the one that is up still writes. */
  predicate Pinned(s: State) {
    && !s.broken
    && (s.server.Some? ==> s.volume == Blank || s.volume == Written(s.server.value))
    && (s.cli.Begun? || s.cli.Cleared? || s.cli.Probing? ==> !s.volume.NoVolume?)
    && (s.cli.Read? || s.cli.Resolved? ==> Fits(s, s.cli.image))
  }

  lemma StepKeepsPinned(s: State, a: Action)
    requires Pinned(s) && Enabled(s, a) && Quiet(s, a)
    ensures Pinned(Act(s, a))
  {}

  /** Over any quiet run, docker calls that fail included, postgres is never brought up on a
      data directory that another major version wrote, and the one that is up always fits its
      directory. */
  lemma {:induction false} NeverBroughtUpOnAnother(s: State, run: seq<Action>)
    requires Pinned(s) && CanRun(s, run) && QuietRun(s, run)
    ensures Pinned(Run(s, run))
    decreases |run|
  {
    if run == [] {
    } else {
      StepKeepsPinned(s, run[0]);
      NeverBroughtUpOnAnother(Act(s, run[0]), run[1..]);
    }
  }

  /** A written data directory keeps its major version, however often the tag changes, until
      the second half of a kill. */
  lemma {:induction false} OnlyKillChangesMajor(s: State, run: seq<Action>)
    requires CanRun(s, run) && s.volume.Written? && Down !in run
    ensures Run(s, run).volume == s.volume
    decreases |run|
  {
    if run == [] {
    } else {
      assert run[0] in run && forall a :: a in run[1..] ==> a in run;
      OnlyKillChangesMajor(Act(s, run[0]), run[1..]);
    }
  }

  // ---------- the guard is exact ----------

  lemma NothingToRun(s: State)
    ensures CanRun(s, []) && Run(s, []) == s && QuietRun(s, [])
  {}

  lemma RunCons(s: State, a: Action, rest: seq<Action>)
    requires Enabled(s, a) && CanRun(Act(s, a), rest)
    ensures CanRun(s, [a] + rest) && Run(s, [a] + rest) == Run(Act(s, a), rest)
    ensures QuietRun(s, [a] + rest) <==> Quiet(s, a) && QuietRun(Act(s, a), rest)
  {
    assert ([a] + rest)[1..] == rest;
  }

  lemma {:induction false} RunThen(s: State, first: seq<Action>, second: seq<Action>)
    requires CanRun(s, first) && CanRun(Run(s, first), second)
    ensures CanRun(s, first + second) && Run(s, first + second) == Run(Run(s, first), second)
    ensures QuietRun(s, first + second) <==> QuietRun(s, first) && QuietRun(Run(s, first), second)
    decreases |first|
  {
    if first == [] {
      assert first + second == second;
    } else {
      hide Enabled, Act, Quiet;
      RunThen(Act(s, first[0]), first[1..], second);
      assert (first + second)[0] == first[0] && (first + second)[1..] == first[1..] + second;
    }
  }

  /** From a settled image that does not fit, the start goes on to bring it up. */
  lemma MisfitComesUp(t: State) returns (run: seq<Action>)
    requires t.cli.Read? || t.cli.Resolved?
    requires !Fits(t, t.cli.image)
    ensures CanRun(t, run) && QuietRun(t, run) && Run(t, run).broken
    decreases t.volume.Blank?, t.cli.Read?
  {
    hide Run, CanRun, QuietRun;
    if t.volume.Blank? {
      var t1 := Act(t, ServerInit);
      var rest := MisfitComesUp(t1);
      RunCons(t, ServerInit, rest);
      run := [ServerInit] + rest;
    } else if t.cli.Read? {
      var rest := MisfitComesUp(Act(t, LeaveProbe));
      RunCons(t, LeaveProbe, rest);
      run := [LeaveProbe] + rest;
    } else {
      NothingToRun(Act(t, Up));
      RunCons(t, Up, []);
      run := [Up] + [];
    }
  }

  /** Nothing quiet that can still happen breaks the project. */
  ghost predicate StaysWhole(t: State) {
    forall run :: CanRun(t, run) && QuietRun(t, run) ==> !Run(t, run).broken
  }

  lemma UnquietMisfits(s: State, a: Action)
    requires Pinned(s) && Enabled(s, a) && !Quiet(s, a)
    ensures var t := Act(s, a); (t.cli.Read? || t.cli.Resolved?) && !Fits(t, t.cli.image)
  {}

  /** The guard is exact: after any step, whatever quiet steps follow, the project stays whole
      exactly when the step was quiet. */
  lemma QuietIsExact(s: State, a: Action)
    requires Pinned(s) && Enabled(s, a)
    ensures StaysWhole(Act(s, a)) <==> Quiet(s, a)
  {
    hide Act, Run, CanRun, QuietRun, Enabled, Quiet, Pinned, Fits;
    var t := Act(s, a);
    if Quiet(s, a) {
      StepKeepsPinned(s, a);
      forall run | CanRun(t, run) && QuietRun(t, run) ensures !Run(t, run).broken {
        NeverBroughtUpOnAnother(t, run);
        PinnedIsWhole(Run(t, run));
      }
    } else {
      UnquietMisfits(s, a);
      var run := MisfitComesUp(t);
    }
  }

  lemma PinnedIsWhole(s: State)
    requires Pinned(s)
    ensures !s.broken
  {}

  /** A new project with a configured version. */
  function Fresh(tag: nat): State { State(NoVolume, {}, None, tag, Idle, false) }

  /** The steps of a new project up to a version about to be read: a first start on 12, then a
      second one on 15. */
  function TwoStarts(initialised: bool): seq<Action> {
    [Begin] + ([Up] + ((if initialised then [ServerInit] else []) +
      ([SetTag(15)] + ([Begin] + ([ClearProbes({})] + ([CreateProbe(0)] + []))))))
  }

  lemma TwoStartsProbe(initialised: bool)
    ensures CanRun(Fresh(12), TwoStarts(initialised)) && QuietRun(Fresh(12), TwoStarts(initialised))
    ensures Run(Fresh(12), TwoStarts(initialised)) ==
            State(if initialised then Written(12) else Blank, {0}, Some(12), 15, Probing(15, 0), false)
  {
    hide Run, CanRun, QuietRun;
    var s2 := State(Blank, {}, Some(12), 12, Idle, false);
    var s3 := if initialised then Act(s2, ServerInit) else s2;
    var s4 := Act(s3, SetTag(15));
    var s5 := Act(s4, Begin);
    var s6 := Act(s5, ClearProbes({}));
    NothingToRun(Act(s6, CreateProbe(0)));
    RunCons(s6, CreateProbe(0), []);
    RunCons(s5, ClearProbes({}), [CreateProbe(0)] + []);
    RunCons(s4, Begin, [ClearProbes({})] + ([CreateProbe(0)] + []));
    var rest := [SetTag(15)] + ([Begin] + ([ClearProbes({})] + ([CreateProbe(0)] + [])));
    RunCons(s3, SetTag(15), [Begin] + ([ClearProbes({})] + ([CreateProbe(0)] + [])));
    if initialised { RunCons(s2, ServerInit, rest); } else { assert [] + rest == rest; }
    var tail := (if initialised then [ServerInit] else []) + rest;
    RunCons(Act(Fresh(12), Begin), Up, tail);
    RunCons(Fresh(12), Begin, [Up] + tail);
  }

  /** Both failures of the guard are reachable from a new project by a quiet run, and lead to a
      postgres 15 on a directory of 12: a version read while 12 initialises the directory, and
      one that could not be read. */
  lemma UnquietIsReachable(initialised: bool) returns (run: seq<Action>)
    ensures CanRun(Fresh(12), TwoStarts(initialised)) && QuietRun(Fresh(12), TwoStarts(initialised))
    ensures var a := if initialised then ReadFails else ReadVersion;
            var t := Run(Fresh(12), TwoStarts(initialised));
            Enabled(t, a) && !Quiet(t, a)
    ensures CanRun(Fresh(12), run) && Run(Fresh(12), run).broken
  {
    TwoStartsProbe(initialised);
    hide Run, CanRun, QuietRun, TwoStarts;
    var a := if initialised then ReadFails else ReadVersion;
    var t := Run(Fresh(12), TwoStarts(initialised));
    var rest := MisfitComesUp(Act(t, a));
    RunCons(t, a, rest);
    RunThen(Fresh(12), TwoStarts(initialised), [a] + rest);
    run := TwoStarts(initialised) + ([a] + rest);
  }

  // ---------- the handler ----------

  datatype Settings = Settings(duplicateVolumes: bool, repository: string, tag: string)

  const DEFAULT_REPOSITORY := "docker.io/postgres"

  /** The settings of a project with volumes, the official image and a tag such as `15-alpine`. */
  function OfficialTag(n: nat, suffix: string): Settings {
    Settings(true, "docker.io/postgres", Itoa(n) + suffix)
  }

  /** The version is checked: volumes on, the official image, and a tag that names a major
      version. */
  predicate Checks(settings: Settings) {
    settings.duplicateVolumes && settings.repository == DEFAULT_REPOSITORY && MajorVersion(settings.tag).Some?
  }

  /** How the docker calls of a version check go: an image for the probe is found, the stale
      probes are listed, all but the stuck ones are removed, the probe is made, its copy of
      PG_VERSION can be read, the probe is removed. */
  datatype Calls = Calls(image: bool, listed: bool, stuck: set<nat>, created: bool, read: bool, removed: bool)

  /** All calls of a version check work. */
  const ALL_WORK := Calls(true, true, {}, true, true, true)

  /** The probes that a sweep leaves. */
  function Survivors(probes: set<nat>, listed: bool, stuck: set<nat>): set<nat> {
    if listed then probes * stuck else probes
  }

  /** What a check finds on the volume, 0 for nothing or a failure. */
  function Found(volume: Volume, calls: Calls): nat {
    if calls.image && calls.created && calls.read && volume.Written? then volume.major else 0
  }

  /** The probes a check leaves, if `id` is the one it makes. */
  function ProbesAfter(probes: set<nat>, calls: Calls, id: nat): set<nat> {
    if !calls.image then probes
    else Survivors(probes, calls.listed, calls.stuck) + (if calls.created && !calls.removed then {id} else {})
  }

  /** The probes a check leaves; the one it makes is a new one. */
  predicate Leaves(before: set<nat>, after: set<nat>, calls: Calls, id: nat) {
    && after == ProbesAfter(before, calls, id)
    && (calls.image && calls.created ==> id !in Survivors(before, calls.listed, calls.stuck))
  }

  lemma {:induction false} SomeUnused(ids: set<nat>) returns (id: nat)
    ensures forall i :: i in ids ==> i < id
    decreases |ids|
  {
    if ids == {} {
      id := 0;
    } else {
      var i :| i in ids;
      var rest := SomeUnused(ids - {i});
      id := if i < rest then rest else i + 1;
      forall j | j in ids ensures j < id {
        if j != i { assert j in ids - {i}; }
      }
    }
  }

  predicate ValidVolume(volume: Volume) { volume.Written? ==> 0 < volume.major <= MAX_INT }

  /** Docker as one project sees it. */
  class Docker {
    var volume: Volume
    var probes: set<nat>
    var server: Option<nat>

    constructor ()
      ensures volume == NoVolume && probes == {} && server == None
    {
      volume, probes, server := NoVolume, {}, None;
    }

    /** Each listed probe is tried, whether or not the removal of another fails. */
    method RemoveStaleProbes(listed: bool, stuck: set<nat>)
      modifies this`probes
      ensures probes == Survivors(old(probes), listed, stuck)
    {
      if !listed { return; }
      var existing := probes;
      while existing != {}
        invariant existing <= old(probes)
        invariant probes == existing + (old(probes) - existing) * stuck
        decreases existing
      {
        var id :| id in existing;
        existing := existing - {id};
        if id !in stuck { probes := probes - {id}; }
      }
    }

    /** 0 for a directory without PG_VERSION and for a call that fails. When all calls work no
        probe is left. */
    method ReadVolumePGVersion(calls: Calls) returns (major: nat, ghost id: nat)
      modifies this`probes
      ensures major == Found(volume, calls)
      ensures Leaves(old(probes), probes, calls, id)
      ensures calls == ALL_WORK ==> probes == {} && (volume.Written? ==> major == volume.major)
    {
      if !calls.image { return 0, 0; }
      RemoveStaleProbes(calls.listed, calls.stuck);
      if !calls.created { return 0, 0; }
      ghost var unused := SomeUnused(probes);
      assert unused !in probes;
      var probe: nat :| probe !in probes;
      probes := probes + {probe};
      major := if calls.read && volume.Written? then volume.major else 0;
      if calls.removed { probes := probes - {probe}; }
      id := probe;
    }

    /** "" to follow the configured tag; else the tag of the version that wrote the data
        directory. None when the volume cannot be looked up. Only a checked start with a volume
        touches the probes. */
    method ResolvePostgresTag(settings: Settings, lookup: bool, calls: Calls)
      returns (tag: Option<string>, ghost id: nat)
      requires ValidVolume(volume)
      modifies this`probes
      ensures tag.None? <==> Checks(settings) && !lookup
      ensures forall n: nat, suffix: string ::
                && settings == OfficialTag(n, suffix) && IsMajor(n) && IsTagSuffix(suffix)
                && lookup && volume.Written? && calls.image && calls.created && calls.read ==>
                  tag == Some(if volume.major == n then "" else Itoa(volume.major))
      ensures tag.Some? ==>
                var disk := Found(volume, calls);
                if Checks(settings) && disk != 0 && MajorVersion(settings.tag) != Some(disk)
                then tag.value == Itoa(disk) else tag.value == ""
      ensures if Checks(settings) && lookup && !volume.NoVolume?
              then Leaves(old(probes), probes, calls, id)
              else probes == old(probes)
    {
      id := 0;
      forall n: nat, suffix: string | settings == OfficialTag(n, suffix) && IsMajor(n) && IsTagSuffix(suffix)
        ensures Checks(settings) && MajorVersion(settings.tag) == Some(n)
      {
        MajorVersionOfTag(n, suffix);
      }
      if !settings.duplicateVolumes { return Some(""), 0; }
      if settings.repository != DEFAULT_REPOSITORY { return Some(""), 0; }
      var configured := MajorVersion(settings.tag);
      if configured.None? { return Some(""), 0; }
      if !lookup { return None, 0; }
      if volume.NoVolume? { return Some(""), 0; }
      var disk: nat;
      disk, id := ReadVolumePGVersion(calls);
      if disk == 0 || disk == configured.value { return Some(""), id; }
      return Some(Itoa(disk)), id;
    }

    /** A whole start. With the version checked and read, the image is the version that wrote
        the directory; else the configured one, whatever the directory holds. Without volumes
        none is made, and a failed lookup starts nothing. */
    method Start(settings: Settings, lookup: bool, calls: Calls) returns (ok: bool, ghost id: nat)
      requires ValidVolume(volume)
      modifies this
      ensures ok <==> !Checks(settings) || lookup
      ensures !ok ==> volume == old(volume) && probes == old(probes) && server == old(server)
      ensures ok && Checks(settings) ==> server == Some(Started(old(volume), MajorVersion(settings.tag).value, calls))
      ensures forall n: nat, suffix: string ::
                && settings == OfficialTag(n, suffix) && IsMajor(n) && IsTagSuffix(suffix) && lookup ==>
                  if old(volume).Written? && calls.image && calls.created && calls.read
                  then server == Some(old(volume).major) else server == Some(n)
      ensures ok && !Checks(settings) ==> server == MajorVersion(settings.tag)
      ensures ok ==> volume == if settings.duplicateVolumes && old(volume).NoVolume? then Blank else old(volume)
      ensures ok ==> if Checks(settings) && !old(volume).NoVolume?
              then Leaves(old(probes), probes, calls, id)
              else probes == old(probes)
    {
      forall n: nat, suffix: string | settings == OfficialTag(n, suffix) && IsMajor(n) && IsTagSuffix(suffix)
        ensures Checks(settings) && MajorVersion(settings.tag) == Some(n)
      {
        MajorVersionOfTag(n, suffix);
      }
      var override: Option<string>;
      override, id := ResolvePostgresTag(settings, lookup, calls);
      if override.None? { return false, id; }
      var tag := if override.value != "" then override.value else settings.tag;
      if override.value != "" {
        MajorVersionOfTag(volume.major, "");
      }
      if settings.duplicateVolumes && volume.NoVolume? { volume := Blank; }
      server := MajorVersion(tag);
      ok := true;
    }

    /** Probes go first, since compose keeps a volume that a container still holds. `down`: the
        project could be shut down. */
    method Kill(listed: bool, stuck: set<nat>, down: bool) returns (ok: bool)
      modifies this
      ensures ok == down
      ensures probes == Survivors(old(probes), listed, stuck)
      ensures server == if down then None else old(server)
      ensures volume == if down && probes == {} then NoVolume else old(volume)
    {
      RemoveStaleProbes(listed, stuck);
      if !down { return false; }
      server := None;
      if probes == {} { volume := NoVolume; }
      ok := true;
    }
  }

  /** The version a checked start brings up. */
  function Started(volume: Volume, tag: nat, calls: Calls): nat {
    if Found(volume, calls) != 0 then Found(volume, calls) else tag
  }

  // ---------- the steps do what the handler does ----------

  /** The steps of a start that nothing interrupts, once it has looked the volume up. */
  function StartSteps(s: State, calls: Calls, id: nat): seq<Action> {
    if s.volume.NoVolume? then [Begin] + ([Up] + [])
    else if !calls.image then [Begin] + ([GiveUp] + ([Up] + []))
    else [Begin] + ([ClearProbes(Survivors(s.probes, calls.listed, calls.stuck))] + ProbeSteps(calls, id))
  }

  function ProbeSteps(calls: Calls, id: nat): seq<Action> {
    if !calls.created then [GiveUp] + ([Up] + [])
    else [CreateProbe(id)] + ([if calls.read then ReadVersion else ReadFails]
         + ([if calls.removed then RemoveProbe else LeaveProbe] + ([Up] + [])))
  }

  lemma UpIsLast(s: State)
    requires s.cli.Resolved?
    ensures CanRun(s, [Up] + []) && Run(s, [Up] + []) == Act(s, Up) && QuietRun(s, [Up] + [])
  {
    NothingToRun(Act(s, Up));
    RunCons(s, Up, []);
  }

  /** How the probing half of a start ends. */
  lemma ProbeStepsRun(s: State, calls: Calls, id: nat)
    requires s.cli.Cleared? && !s.volume.NoVolume? && ValidVolume(s.volume) && id !in s.probes && calls.image
    ensures CanRun(s, ProbeSteps(calls, id))
    ensures var image := Started(s.volume, s.cli.tag, calls);
            Run(s, ProbeSteps(calls, id)) ==
            State(s.volume, s.probes + (if calls.created && !calls.removed then {id} else {}), Some(image), s.tag, Idle,
                  s.broken || (s.volume.Written? && s.volume.major != image))
    ensures QuietRun(s, ProbeSteps(calls, id)) <==> Fits(s, Started(s.volume, s.cli.tag, calls))
  {
    hide Run, CanRun, QuietRun;
    if !calls.created {
      UpIsLast(Act(s, GiveUp));
      RunCons(s, GiveUp, [Up] + []);
    } else {
      var read := if calls.read then ReadVersion else ReadFails;
      var remove := if calls.removed then RemoveProbe else LeaveProbe;
      var s1 := Act(s, CreateProbe(id));
      var s2 := Act(s1, read);
      UpIsLast(Act(s2, remove));
      RunCons(s2, remove, [Up] + []);
      RunCons(s1, read, [remove] + ([Up] + []));
      RunCons(s, CreateProbe(id), [read] + ([remove] + ([Up] + [])));
      assert s.probes + {id} - {id} == s.probes;
    }
  }

  /** Whichever docker calls fail, the steps of a start do to the project what `Docker.Start`
      does, and the project breaks exactly when a version it holds is not the one brought up. */
  lemma StepsAreStart(s: State, calls: Calls, id: nat)
    requires s.cli.Idle? && ValidVolume(s.volume) && id !in Survivors(s.probes, calls.listed, calls.stuck)
    ensures CanRun(s, StartSteps(s, calls, id))
    ensures var t := Run(s, StartSteps(s, calls, id));
            && t.server == Some(Started(s.volume, s.tag, calls)) && t.cli.Idle? && t.tag == s.tag
            && t.volume == (if s.volume.NoVolume? then Blank else s.volume)
            && t.probes == (if s.volume.NoVolume? then s.probes else ProbesAfter(s.probes, calls, id))
            && t.broken == (s.broken || (s.volume.Written? && s.volume.major != Started(s.volume, s.tag, calls)))
  {
    hide Run, CanRun, QuietRun, ProbeSteps, Survivors;
    var s1 := Act(s, Begin);
    if s.volume.NoVolume? {
      UpIsLast(s1);
      RunCons(s, Begin, [Up] + []);
    } else if !calls.image {
      UpIsLast(Act(s1, GiveUp));
      RunCons(s1, GiveUp, [Up] + []);
      RunCons(s, Begin, [GiveUp] + ([Up] + []));
    } else {
      var left := Survivors(s.probes, calls.listed, calls.stuck);
      assert left <= s.probes by { SurvivorsAreProbes(s.probes, calls.listed, calls.stuck); }
      var s2 := Act(s1, ClearProbes(left));
      ProbeStepsRun(s2, calls, id);
      RunCons(s1, ClearProbes(left), ProbeSteps(calls, id));
      RunCons(s, Begin, [ClearProbes(left)] + ProbeSteps(calls, id));
    }
  }

  lemma SurvivorsAreProbes(probes: set<nat>, listed: bool, stuck: set<nat>)
    ensures Survivors(probes, listed, stuck) <= probes
  {}

  // ---------- kills ----------

  function KillSteps(left: set<nat>): seq<Action> { [Sweep(left)] + ([Down] + []) }

  /** The two halves of a kill do what `Docker.Kill` does, from any state in which none is at
      work; when the first one is all that happens, the server and the volume are left. */
  lemma StepsAreKill(s: State, listed: bool, stuck: set<nat>)
    requires s.cli.Idle?
    ensures var left := Survivors(s.probes, listed, stuck);
            && CanRun(s, KillSteps(left)) && QuietRun(s, KillSteps(left))
            && Run(s, KillSteps(left)) ==
               s.(probes := left, server := None, volume := if left == {} then NoVolume else s.volume)
    ensures var left := Survivors(s.probes, listed, stuck);
            var half := [Sweep(left)] + ([Interrupt] + []);
            CanRun(s, half) && Run(s, half) == s.(probes := left)
  {
    hide Run, CanRun, QuietRun, Survivors;
    SurvivorsAreProbes(s.probes, listed, stuck);
    var left := Survivors(s.probes, listed, stuck);
    var s1 := Act(s, Sweep(left));
    NothingToRun(Act(s1, Down));
    RunCons(s1, Down, []);
    RunCons(s, Sweep(left), [Down] + []);
    NothingToRun(Act(s1, Interrupt));
    RunCons(s1, Interrupt, []);
    RunCons(s, Sweep(left), [Interrupt] + []);
  }

  /** Whatever version is configured after the kill, the next start brings that one up. */
  ghost predicate FollowsTheTag(k: State)
    requires k.cli.Idle? && ValidVolume(k.volume)
  {
    forall tag: nat :: tag > 0 ==>
      CanStart(k.(tag := tag)) && Run(k.(tag := tag), StartSteps(k.(tag := tag), ALL_WORK, 0)).server == Some(tag)
  }

  predicate CanStart(s: State) { CanRun(s, StartSteps(s, ALL_WORK, 0)) }

  /** A kill frees the volume, so that the next start follows whatever version is configured,
      exactly when no probe survives its sweep, or there was no written directory to pin. One
      probe that survives keeps the project pinned to its old version for good. */
  lemma KillFreesTheVolumeExactly(s: State, left: set<nat>)
    requires s.cli.Idle? && ValidVolume(s.volume) && left <= s.probes
    ensures CanRun(s, KillSteps(left))
    ensures Run(s, KillSteps(left)).volume == NoVolume <==> left == {} || s.volume.NoVolume?
    ensures var k := Run(s, KillSteps(left));
            k.cli.Idle? && ValidVolume(k.volume) && (FollowsTheTag(k) <==> left == {} || !s.volume.Written?)
  {
    hide Run, CanRun, QuietRun, StartSteps, KillSteps;
    StepsAreKill(s, true, left);
    assert Survivors(s.probes, true, left) == left;
    var k := Run(s, KillSteps(left));
    forall tag: nat | tag > 0
      ensures CanStart(k.(tag := tag))
      ensures Run(k.(tag := tag), StartSteps(k.(tag := tag), ALL_WORK, 0)).server ==
              Some(if k.volume.Written? then k.volume.major else tag)
    {
      StepsAreStart(k.(tag := tag), ALL_WORK, 0);
    }
    if k.volume.Written? {
      var other := k.volume.major + 1;
      assert Run(k.(tag := other), StartSteps(k.(tag := other), ALL_WORK, 0)).server != Some(other);
    }
  }

  /** A probe that an interrupted start left can survive a kill: from a new project, through
      quiet steps, to a killed project that still holds the directory of 12. */
  lemma StaleProbeKeepsTheVolume() returns (run: seq<Action>)
    ensures CanRun(Fresh(12), run) && QuietRun(Fresh(12), run)
    ensures Run(Fresh(12), run) == State(Written(12), {0}, None, 15, Idle, false)
  {
    TwoStartsProbe(true);
    hide Run, CanRun, QuietRun, TwoStarts, KillSteps;
    var t := Run(Fresh(12), TwoStarts(true));
    var t1 := Act(t, Interrupt);
    StepsAreKill(t1, false, {});
    RunCons(t, Interrupt, KillSteps({0}));
    RunThen(Fresh(12), TwoStarts(true), [Interrupt] + KillSteps({0}));
    run := TwoStarts(true) + ([Interrupt] + KillSteps({0}));
  }
}
