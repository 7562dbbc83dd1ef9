/** The signing-secret protocol of standalone mode: any number of starts keep one secret by
    way of a temporary file, a hard link and a rename, and any of them may crash at any step.

    One `Act` is one system call of one start, so a run interleaves the starts in every
    possible way. */
module SigningSecret {
  import opened Strings

  /** A generated secret: not empty, and unchanged by trimming. */
  predicate IsSecret(s: string) { s != "" && TrimSpace(s) == s }

  /** What `readSigningSecret` makes of a file that can be read. */
  function Kept(file: Option<string>): string {
    if file.None? then "" else TrimSpace(file.value)
  }

  /** White space around a secret in the file does not count, and a file of white space keeps
      none. */
  lemma KeptIsTrimmed(a: string, secret: string, b: string)
    requires AllSpaces(a) && AllSpaces(b) && IsSecret(secret)
    ensures Kept(Some(a + (secret + b))) == secret && Kept(Some(a)) == "" && Kept(None) == ""
  {
    assert !IsSpace(TrimSpace(secret)[0]) && !IsSpace(TrimSpace(secret)[|secret| - 1]);
    TrimSpaceOf(a, secret, b);
  }

  // ---------- states and steps ----------

  type Pid = nat

  /** `hardLinks`: the file system has them. `faults`: a system call may fail. */
  datatype Config = Config(secrets: map<Pid, string>, hardLinks: bool, faults: bool)

  datatype Pc = FirstRead | MakeDir | CreateTemp | WriteTemp | Link | CheckExisting
              | ReplaceEmpty | RenameNoLinks | ReadKept | RemoveTemp | Done | Crashed

  /** `held` is the handler's signing secret; `temp` is its temporary file, if it exists. */
  datatype Start = Start(pc: Pc, held: string, temp: Option<string>)

  datatype State = State(file: Option<string>, starts: map<Pid, Start>)

  /** How the call goes. `Partial` is a write that fails after some characters; `Exists` is a
      link refused because the path exists. */
  datatype Outcome = Works | Fails | Partial(written: nat) | Exists | Crash

  datatype Action = Action(pid: Pid, outcome: Outcome)

  predicate IsConfig(c: Config) {
    forall p :: p in c.secrets ==> IsSecret(c.secrets[p])
  }

  predicate IsInit(c: Config, s: State) {
    && s.starts.Keys == c.secrets.Keys
    && forall p :: p in s.starts ==> s.starts[p] == Start(FirstRead, "", None)
  }

  predicate Enabled(c: Config, s: State, a: Action) {
    && a.pid in s.starts && a.pid in c.secrets
    && var pc := s.starts[a.pid].pc;
    && pc != Done && pc != Crashed
    && match a.outcome
       case Works => pc == Link ==> c.hardLinks && s.file.None?
       case Fails => c.faults || (pc == Link && !c.hardLinks)
       case Partial(n) => c.faults && pc == WriteTemp && n <= |c.secrets[a.pid]|
       case Exists => pc == Link && s.file.Some?
       case Crash => true
  }

  /** The start after its call; the file changes only in `Act`. */
  function Advance(c: Config, s: State, a: Action): Start
    requires Enabled(c, s, a)
  {
    var t := s.starts[a.pid];
    var secret := c.secrets[a.pid];
    var read := if a.outcome == Fails then "" else Kept(s.file);
    if a.outcome == Crash then t.(pc := Crashed)
    else match t.pc
      case FirstRead => if read != "" then t.(pc := Done, held := read) else t.(pc := MakeDir, held := secret)
      case MakeDir => t.(pc := if a.outcome == Works then CreateTemp else Done)
      case CreateTemp => if a.outcome == Works then t.(pc := WriteTemp, temp := Some("")) else t.(pc := Done)
      case WriteTemp =>
        (match a.outcome
         case Works => t.(pc := Link, temp := Some(secret))
         case Partial(n) => t.(pc := ReadKept, temp := Some(secret[..n]))
         case _ => t.(pc := ReadKept))
      case Link =>
        t.(pc := if a.outcome == Works then ReadKept else if a.outcome == Exists then CheckExisting else RenameNoLinks)
      case CheckExisting => t.(pc := if read == "" then ReplaceEmpty else ReadKept)
      case ReplaceEmpty => if a.outcome == Works then t.(pc := ReadKept, temp := None) else t.(pc := ReadKept)
      case RenameNoLinks => if a.outcome == Works then t.(pc := ReadKept, temp := None) else t.(pc := ReadKept)
      case ReadKept => t.(pc := RemoveTemp, held := if read != "" then read else t.held)
      case RemoveTemp => t.(pc := Done, temp := if a.outcome == Works then None else t.temp)
      case Done => t
      case Crashed => t
  }

  /** A link, or a rename over whatever is there, puts the temporary file's content in place. */
  predicate Publishes(s: State, a: Action)
    requires a.pid in s.starts
  {
    a.outcome == Works && s.starts[a.pid].pc in {Link, ReplaceEmpty, RenameNoLinks}
  }

  function Act(c: Config, s: State, a: Action): State
    requires Enabled(c, s, a)
  {
    State(if Publishes(s, a) then s.starts[a.pid].temp else s.file,
          s.starts[a.pid := Advance(c, s, a)])
  }

  predicate CanRun(c: Config, s: State, run: seq<Action>)
    decreases |run|
  {
    run == [] || (Enabled(c, s, run[0]) && CanRun(c, Act(c, s, run[0]), run[1..]))
  }

  function Run(c: Config, s: State, run: seq<Action>): State
    requires CanRun(c, s, run)
    decreases |run|
  {
    if run == [] then s else Run(c, Act(c, s, run[0]), run[1..])
  }

  // ---------- wholeness: always ----------

  /** The file is what it was at first, or the whole secret of one start. */
  predicate Whole(c: Config, initial: Option<string>, file: Option<string>) {
    file == initial || exists p :: p in c.secrets && file == Some(c.secrets[p])
  }

  /** A start about to publish has written its whole secret. */
  predicate ReadyToPublish(c: Config, s: State) {
    forall p :: p in s.starts && p in c.secrets && s.starts[p].pc in {Link, CheckExisting, ReplaceEmpty, RenameNoLinks}
      ==> s.starts[p].temp == Some(c.secrets[p])
  }

  lemma {:induction false} RunIsWhole(c: Config, initial: Option<string>, s: State, run: seq<Action>)
    requires CanRun(c, s, run) && ReadyToPublish(c, s) && Whole(c, initial, s.file)
    ensures Whole(c, initial, Run(c, s, run).file)
    decreases |run|
  {
    if run == [] {
    } else {
      RunIsWhole(c, initial, Act(c, s, run[0]), run[1..]);
    }
  }

  /** Whatever the interleaving, the crashes, the faults and the file system, the secret file
      is only ever what it was before, or one start's whole secret: never partial. */
  lemma SecretIsWhole(c: Config, s: State, run: seq<Action>)
    requires IsConfig(c) && IsInit(c, s) && CanRun(c, s, run)
    ensures Whole(c, s.file, Run(c, s, run).file)
  {
    RunIsWhole(c, s.file, s, run);
  }

  // ---------- agreement ----------

  /** Every start that finished holds the secret the file keeps. */
  predicate Agrees(s: State) {
    forall p :: p in s.starts && s.starts[p].pc == Done ==> s.file.Some? && s.starts[p].held == Kept(s.file)
  }

  /** The guard: nothing fails, and the file keeps a secret already, or is absent on a file
      system with hard links. */
  predicate Safe(c: Config, file: Option<string>) {
    !c.faults && (if file.Some? then Kept(file) != "" else c.hardLinks)
  }

  /** What is known of one start while the guard holds: where it stands says whether the file
      is there, and once it has read the file it holds what the file keeps. Without hard links
      no start gets past its first read. */
  predicate Safely(c: Config, file: Option<string>, p: Pid, t: Start)
    requires p in c.secrets
  {
    && t.pc !in {ReplaceEmpty, RenameNoLinks}
    && (t.pc in {Link, CheckExisting} ==> t.temp == Some(c.secrets[p]))
    && (t.pc in {MakeDir, CreateTemp, WriteTemp, Link, CheckExisting} ==> c.hardLinks)
    && (t.pc in {CheckExisting, ReadKept, RemoveTemp, Done} ==> file.Some?)
    && (t.pc in {RemoveTemp, Done} ==> t.held == Kept(file))
  }

  predicate AgreementInv(c: Config, s: State) {
    && IsConfig(c) && s.starts.Keys <= c.secrets.Keys && Safe(c, s.file)
    && forall p :: p in s.starts ==> Safely(c, s.file, p, s.starts[p])
  }

  /** The start that makes the call stays safe, and publishes only its whole secret, only
      where there is nothing yet. */
  lemma ActorStaysSafe(c: Config, s: State, a: Action)
    requires AgreementInv(c, s) && Enabled(c, s, a)
    ensures Safe(c, Act(c, s, a).file) && Safely(c, Act(c, s, a).file, a.pid, Advance(c, s, a))
    ensures s.file.Some? ==> Act(c, s, a).file == s.file
  {
    assert Safely(c, s.file, a.pid, s.starts[a.pid]);
  }

  lemma OthersStaySafe(c: Config, file: Option<string>, after: Option<string>, p: Pid, t: Start)
    requires p in c.secrets && Safely(c, file, p, t) && (file.Some? ==> after == file)
    ensures Safely(c, after, p, t)
  {}

  lemma StepKeepsAgreement(c: Config, s: State, a: Action)
    requires AgreementInv(c, s) && Enabled(c, s, a)
    ensures AgreementInv(c, Act(c, s, a))
    ensures s.file.Some? ==> Act(c, s, a).file == s.file
  {
    hide Safely, Safe, Advance, Publishes;
    ActorStaysSafe(c, s, a);
    forall p | p in s.starts && p != a.pid ensures Safely(c, Act(c, s, a).file, p, s.starts[p]) {
      OthersStaySafe(c, s.file, Act(c, s, a).file, p, s.starts[p]);
    }
  }

  lemma {:induction false} RunKeepsAgreement(c: Config, s: State, run: seq<Action>)
    requires AgreementInv(c, s) && CanRun(c, s, run)
    ensures AgreementInv(c, Run(c, s, run))
    ensures s.file.Some? ==> Run(c, s, run).file == s.file
    decreases |run|
  {
    if run == [] {
    } else {
      StepKeepsAgreement(c, s, run[0]);
      RunKeepsAgreement(c, Act(c, s, run[0]), run[1..]);
    }
  }

  /** Under the guard, in every run every finished start holds exactly what the file keeps,
      and once the file is there it never changes again. */
  lemma StartsAgree(c: Config, s: State, run: seq<Action>, more: seq<Action>)
    requires IsConfig(c) && IsInit(c, s) && Safe(c, s.file)
    requires CanRun(c, s, run) && CanRun(c, Run(c, s, run), more)
    ensures Agrees(Run(c, s, run))
    ensures Run(c, s, run).file.Some? ==> Run(c, Run(c, s, run), more).file == Run(c, s, run).file
  {
    RunKeepsAgreement(c, s, run);
    RunKeepsAgreement(c, Run(c, s, run), more);
  }

  // ---------- without the guard ----------

  lemma {:induction false} RunThen(c: Config, s: State, first: seq<Action>, second: seq<Action>)
    requires CanRun(c, s, first) && CanRun(c, Run(c, s, first), second)
    ensures CanRun(c, s, first + second) && Run(c, s, first + second) == Run(c, Run(c, s, first), second)
    decreases |first|
  {
    if first == [] {
      assert first + second == second;
    } else {
      hide Enabled, Act;
      RunThen(c, Act(c, s, first[0]), first[1..], second);
      assert (first + second)[0] == first[0] && (first + second)[1..] == first[1..] + second;
    }
  }

  lemma OneStep(c: Config, s: State, a: Action)
    requires Enabled(c, s, a)
    ensures CanRun(c, s, [a]) && Run(c, s, [a]) == Act(c, s, a)
  {
    assert [a][1..] == [];
    assert CanRun(c, Act(c, s, a), []);
  }

  predicate Poised(c: Config, s: State, p: Pid) {
    && p in s.starts && p in c.secrets
    && s.starts[p].pc in {ReplaceEmpty, RenameNoLinks} && s.starts[p].temp == Some(c.secrets[p])
  }

  /** Where a start is after `i` calls on its way to a rename that overwrites. */
  predicate OnTheWay(c: Config, s: State, p: Pid, i: nat) {
    && i <= 6 && p in s.starts && p in c.secrets
    && s.starts[p].pc == [FirstRead, MakeDir, CreateTemp, WriteTemp, Link,
                          if s.file.Some? then CheckExisting else RenameNoLinks, ReplaceEmpty][i]
    && (i >= 4 ==> s.starts[p].temp == Some(c.secrets[p]))
  }

  predicate OthersUntouched(s: State, t: State, p: Pid) {
    t.file == s.file && t.starts.Keys == s.starts.Keys && forall q :: q in s.starts && q != p ==>
        t.starts[q] == s.starts[q]
  }

  lemma StepOnTheWay(c: Config, s: State, p: Pid, i: nat) returns (a: Action)
    requires OnTheWay(c, s, p, i) && Kept(s.file) == "" && (s.file.None? ==> !c.hardLinks)
    requires i < if s.file.Some? then 6 else 5
    ensures Enabled(c, s, a)
    ensures OnTheWay(c, Act(c, s, a), p, i + 1) && OthersUntouched(s, Act(c, s, a), p)
  {
    a := Action(p, if i != 4 then Works else if s.file.Some? then Exists else Fails);
  }

  lemma {:induction false} ReachRename(c: Config, s: State, p: Pid, i: nat) returns (run: seq<Action>)
    requires OnTheWay(c, s, p, i) && Kept(s.file) == "" && (s.file.None? ==> !c.hardLinks)
    requires i <= if s.file.Some? then 6 else 5
    ensures CanRun(c, s, run)
    ensures Poised(c, Run(c, s, run), p) && OthersUntouched(s, Run(c, s, run), p)
    decreases 6 - i
  {
    if i == if s.file.Some? then 6 else 5 {
      run := [];
    } else {
      hide Run, CanRun, Act;
      var a := StepOnTheWay(c, s, p, i);
      OneStep(c, s, a);
      var rest := ReachRename(c, Act(c, s, a), p, i + 1);
      RunThen(c, s, [a], rest);
      run := [a] + rest;
    }
  }

  /** A start poised to overwrite publishes its secret and finishes. */
  lemma FinishRename(c: Config, s: State, p: Pid) returns (run: seq<Action>)
    requires IsConfig(c) && Poised(c, s, p)
    ensures CanRun(c, s, run)
    ensures var t := Run(c, s, run);
            && t.starts.Keys == s.starts.Keys && t.file == Some(c.secrets[p])
            && t.starts[p].pc == Done && t.starts[p].held == c.secrets[p]
            && forall q :: q in s.starts && q != p ==> t.starts[q] == s.starts[q]
  {
    hide Run, CanRun;
    var a := Action(p, Works);
    var s1 := Act(c, s, a);
    var s2 := Act(c, s1, a);
    OneStep(c, s, a);
    OneStep(c, s1, a);
    RunThen(c, s, [a], [a]);
    OneStep(c, s2, a);
    RunThen(c, s, [a] + [a], [a]);
    run := [a] + [a] + [a];
  }

  lemma DifferentSecretDisagrees(c: Config, s: State, p: Pid, q: Pid)
    requires IsConfig(c) && p in c.secrets && q in c.secrets && c.secrets[p] != c.secrets[q]
    requires p in s.starts && s.starts[p].pc == Done && s.starts[p].held == c.secrets[p] && s.file == Some(c.secrets[q])
    ensures !Agrees(s)
  {}

  /** Two starts poised to overwrite: the first finishes, then the second replaces the
      secret the first one holds. */
  lemma SecondRenameDisagrees(c: Config, s: State, p: Pid, q: Pid) returns (run: seq<Action>)
    requires IsConfig(c) && p != q && Poised(c, s, p) && Poised(c, s, q) && c.secrets[p] != c.secrets[q]
    ensures CanRun(c, s, run) && !Agrees(Run(c, s, run))
  {
    hide Run, CanRun, Agrees;
    var first := FinishRename(c, s, p);
    var t := Run(c, s, first);
    var a := Action(q, Works);
    OneStep(c, t, a);
    RunThen(c, s, first, [a]);
    DifferentSecretDisagrees(c, Act(c, t, a), p, q);
    run := first + [a];
  }

  /** With faults a start may find no secret and keep none, and still finish with one. */
  lemma FaultDisagrees(c: Config, s: State, p: Pid) returns (run: seq<Action>)
    requires IsConfig(c) && c.faults && p in s.starts && p in c.secrets && s.starts[p] == Start(FirstRead, "", None)
    requires s.file.None? || c.secrets[p] != Kept(s.file)
    ensures CanRun(c, s, run) && !Agrees(Run(c, s, run))
  {
    var a := Action(p, Fails);
    OneStep(c, s, a);
    var s1 := Act(c, s, a);
    OneStep(c, s1, a);
    RunThen(c, s, [a], [a]);
    run := [a] + [a];
    assert Act(c, s1, a).starts[p].pc == Done && Act(c, s1, a).starts[p].held == c.secrets[p];
  }

  lemma NothingMoreToRun(c: Config, s: State)
    ensures CanRun(c, s, [])
  {}

  lemma OverwriteDisagrees(c: Config, s: State, p: Pid, q: Pid) returns (run: seq<Action>)
    requires IsConfig(c) && IsInit(c, s) && !c.faults && !Safe(c, s.file)
    requires p in c.secrets && q in c.secrets && c.secrets[p] != c.secrets[q]
    ensures CanRun(c, s, run) && !Agrees(Run(c, s, run))
  {
    hide Run, CanRun, Act, Agrees;
    var run1 := ReachRename(c, s, p, 0);
    var s1 := Run(c, s, run1);
    var run2 := ReachRename(c, s1, q, 0);
    var s2 := Run(c, s1, run2);
    var run3 := SecondRenameDisagrees(c, s2, p, q);
    RunThen(c, s, run1, run2);
    RunThen(c, s, run1 + run2, run3);
    run := run1 + run2 + run3;
  }

  /** Two starts with different secrets agree in every run exactly under the guard. From an
      empty file, or without hard links, or with faults, some run ends with a finished start
      that holds another secret than the file. */
  lemma AgreementExactly(c: Config, s: State, p: Pid, q: Pid)
    requires IsConfig(c) && IsInit(c, s)
    requires p in c.secrets && q in c.secrets && c.secrets[p] != c.secrets[q]
    ensures (forall run :: CanRun(c, s, run) ==> Agrees(Run(c, s, run))) <==> Safe(c, s.file)
  {
    hide Run, CanRun, Act, Agrees;
    if Safe(c, s.file) {
      forall run | CanRun(c, s, run) ensures Agrees(Run(c, s, run)) {
        NothingMoreToRun(c, Run(c, s, run));
        StartsAgree(c, s, run, []);
      }
    } else if c.faults {
      var run := FaultDisagrees(c, s, if c.secrets[p] != Kept(s.file) then p else q);
    } else {
      var run := OverwriteDisagrees(c, s, p, q);
    }
  }

  // ---------- whatever fails ----------

  /** The file keeps this secret at some point of the run. */
  predicate KeptDuring(c: Config, s: State, run: seq<Action>, secret: string)
    requires CanRun(c, s, run)
    decreases |run|
  {
    || (secret != "" && Kept(s.file) == secret)
    || (run != [] && KeptDuring(c, Act(c, s, run[0]), run[1..], secret))
  }

  /** A start past its first read holds its own secret, or one that was seen in the file. */
  ghost predicate HoldsKnown(c: Config, s: State, p: Pid, seen: set<string>) {
    p in s.starts && p in c.secrets && s.starts[p].pc != FirstRead ==>
      s.starts[p].held == c.secrets[p] || s.starts[p].held in seen || s.starts[p].pc == Crashed
  }

  lemma {:induction false} RunHoldsKnown(c: Config, s: State, run: seq<Action>, p: Pid, seen: set<string>)
    requires CanRun(c, s, run) && HoldsKnown(c, s, p, seen) && p in s.starts && p in c.secrets
    ensures var t := Run(c, s, run).starts;
            p in t && (t[p].pc == Done ==>
              t[p].held == c.secrets[p] || t[p].held in seen || KeptDuring(c, s, run, t[p].held))
    decreases |run|
  {
    if run == [] {
    } else {
      var next := Act(c, s, run[0]);
      var more := if Kept(s.file) == "" then seen else seen + {Kept(s.file)};
      StepHoldsKnown(c, s, run[0], p, seen, more);
      hide Act, Advance, Enabled;
      assert p in next.starts by { ActKeepsStarts(c, s, run[0]); }
      RunHoldsKnown(c, next, run[1..], p, more);
    }
  }

  lemma ActKeepsStarts(c: Config, s: State, a: Action)
    requires Enabled(c, s, a)
    ensures Act(c, s, a).starts.Keys == s.starts.Keys
  {}

  lemma StepHoldsKnown(c: Config, s: State, a: Action, p: Pid, seen: set<string>, more: set<string>)
    requires Enabled(c, s, a) && HoldsKnown(c, s, p, seen)
    requires seen <= more && (Kept(s.file) != "" ==> Kept(s.file) in more)
    ensures HoldsKnown(c, Act(c, s, a), p, more)
  {}

  /** Whatever fails or crashes, and however the starts interleave, a start that finishes holds
      a secret: its own, or one that the file kept at some point of the run. */
  lemma FinishedHoldsASecret(c: Config, s: State, run: seq<Action>, p: Pid)
    requires IsConfig(c) && IsInit(c, s) && CanRun(c, s, run)
    requires p in Run(c, s, run).starts && p in s.starts && Run(c, s, run).starts[p].pc == Done
    ensures var held := Run(c, s, run).starts[p].held;
            held != "" && (held == c.secrets[p] || KeptDuring(c, s, run, held))
  {
    RunHoldsKnown(c, s, run, p, {});
    var held := Run(c, s, run).starts[p].held;
    if KeptDuring(c, s, run, held) { KeptIsNotEmpty(c, s, run, held); }
  }

  lemma {:induction false} KeptIsNotEmpty(c: Config, s: State, run: seq<Action>, secret: string)
    requires CanRun(c, s, run) && KeptDuring(c, s, run, secret)
    ensures secret != ""
    decreases |run|
  {
    if run == [] {
    } else if !(secret != "" && Kept(s.file) == secret) {
      KeptIsNotEmpty(c, Act(c, s, run[0]), run[1..], secret);
    }
  }

  /** What the last look into the file shows a start, once it has tried to keep its secret. */
  function LastRead(c: Config, s: State, run: seq<Action>, p: Pid): Option<string>
    requires CanRun(c, s, run)
    decreases |run|
  {
    if run == [] then None
    else
      var later := LastRead(c, Act(c, s, run[0]), run[1..], p);
      if later.Some? || run[0].pid != p || s.starts[p].pc != ReadKept then later
      else Some(if run[0].outcome == Works then Kept(s.file) else "")
  }

  predicate HasTemp(pc: Pc) { pc in {WriteTemp, Link, CheckExisting, ReplaceEmpty, RenameNoLinks, ReadKept} }

  /** A start that got as far as its temporary file looks into the secret file again before it
      finishes, whatever failed, and adopts what it finds there. */
  lemma {:induction false} AdoptsTheLastRead(c: Config, s: State, run: seq<Action>, p: Pid)
    requires CanRun(c, s, run) && p in s.starts && HasTemp(s.starts[p].pc)
    ensures var t := Run(c, s, run).starts;
            p in t && (t[p].pc in {RemoveTemp, Done} ==>
              var read := LastRead(c, s, run, p);
              read.Some? && t[p].held == if read.value != "" then read.value else s.starts[p].held)
    decreases |run|
  {
    if run == [] {
    } else {
      var next := Act(c, s, run[0]);
      if HasTemp(next.starts[p].pc) {
        AdoptsTheLastRead(c, next, run[1..], p);
      } else {
        KeepsWhatItRead(c, next, run[1..], p);
      }
    }
  }

  lemma {:induction false} KeepsWhatItRead(c: Config, s: State, run: seq<Action>, p: Pid)
    requires CanRun(c, s, run) && p in s.starts && s.starts[p].pc in {RemoveTemp, Done, Crashed}
    ensures LastRead(c, s, run, p).None?
    ensures var t := Run(c, s, run).starts;
            && p in t && t[p].held == s.starts[p].held
            && (s.starts[p].pc == Crashed ==> t[p].pc == Crashed)
    decreases |run|
  {
    if run == [] {
    } else {
      KeepsWhatItRead(c, Act(c, s, run[0]), run[1..], p);
    }
  }

  /** A start could not remove its temporary file. */
  predicate RemovalFails(c: Config, s: State, run: seq<Action>, p: Pid)
    requires CanRun(c, s, run)
    decreases |run|
  {
    run != [] &&
    (|| (run[0] == Action(p, Fails) && s.starts[p].pc == RemoveTemp)
     || RemovalFails(c, Act(c, s, run[0]), run[1..], p))
  }

  predicate TempInUse(s: State, p: Pid) {
    p in s.starts && s.starts[p].pc in {FirstRead, MakeDir, CreateTemp, Done} ==> s.starts[p].temp == None
  }

  /** A start that finishes leaves no temporary file, unless it was removing it that failed. */
  lemma {:induction false} NoTempIsLeft(c: Config, s: State, run: seq<Action>, p: Pid)
    requires CanRun(c, s, run) && p in s.starts && TempInUse(s, p)
    ensures var t := Run(c, s, run).starts;
            p in t && (t[p].pc == Done && t[p].temp.Some? ==> RemovalFails(c, s, run, p))
    decreases |run|
  {
    if run == [] {
    } else {
      var a := run[0];
      ActKeepsStarts(c, s, a);
      if a == Action(p, Fails) && s.starts[p].pc == RemoveTemp {
        RunKeepsStarts(c, Act(c, s, a), run[1..]);
      } else {
        StepUsesTemp(c, s, a, p);
        NoTempIsLeft(c, Act(c, s, a), run[1..], p);
      }
    }
  }

  lemma StepUsesTemp(c: Config, s: State, a: Action, p: Pid)
    requires Enabled(c, s, a) && TempInUse(s, p)
    requires !(a == Action(p, Fails) && s.starts[a.pid].pc == RemoveTemp)
    ensures TempInUse(Act(c, s, a), p)
  {}

  lemma {:induction false} RunKeepsStarts(c: Config, s: State, run: seq<Action>)
    requires CanRun(c, s, run)
    ensures Run(c, s, run).starts.Keys == s.starts.Keys
    decreases |run|
  {
    if run == [] {
    } else {
      ActKeepsStarts(c, s, run[0]);
      RunKeepsStarts(c, Act(c, s, run[0]), run[1..]);
    }
  }

  // ---------- progress ----------

  /** How many more calls a start makes at most. */
  function CallsLeft(pc: Pc): nat {
    match pc
    case FirstRead => 9
    case MakeDir => 8
    case CreateTemp => 7
    case WriteTemp => 6
    case Link => 5
    case CheckExisting => 4
    case ReplaceEmpty => 3
    case RenameNoLinks => 3
    case ReadKept => 2
    case RemoveTemp => 1
    case Done => 0
    case Crashed => 0
  }

  function CallsOf(run: seq<Action>, p: Pid): nat {
    if run == [] then 0 else (if run[0].pid == p then 1 else 0) + CallsOf(run[1..], p)
  }

  /** No start waits for another: it makes at most nine calls in any run, whatever the
      others do, and after nine it is finished or has crashed. */
  lemma {:induction false} StartIsWaitFree(c: Config, s: State, run: seq<Action>, p: Pid)
    requires p in s.starts && CanRun(c, s, run)
    ensures p in Run(c, s, run).starts
    ensures CallsOf(run, p) + CallsLeft(Run(c, s, run).starts[p].pc) <= CallsLeft(s.starts[p].pc)
    ensures CallsLeft(Run(c, s, run).starts[p].pc) == 0 <==> Run(c, s, run).starts[p].pc in {Done, Crashed}
    decreases |run|
  {
    if run == [] {
    } else {
      StartIsWaitFree(c, Act(c, s, run[0]), run[1..], p);
    }
  }
}
