/**
 * The stage order of `run_backup`, with the forget step of
 * `clean_old_backups` and the prune step of `prune_repository` that it calls,
 * and the fail-on-error rule of `run_pre_backup_script`.
 *
 * A run is described by its plan: the steps it takes when nothing fails.
 * Each step carries what was settled when it was reached, such as whether a
 * variable is set, whether the configuration loaded, or the command line of a
 * restic call. `FailFast` walks a plan against the oracle of command outcomes
 * and the outcome of each dump, and it stops at the first step that does not
 * succeed. `RunBackup` is the procedure itself. Its contract is that it takes
 * exactly the steps `FailFast` takes on the plan and ends the same way.
 */
module Pipeline {
  import opened Wrappers
  import opened EnvResolver
  import opened Outcomes
  import opened BackupConfig
  import opened Retention
  import opened BackupCommand
  import opened PruneTimeout

  const BackupRootVariable := "BACKUP_ROOT"
  const HostVariable := "BACKUP_HOSTNAME"

  /** One step of a run. */
  datatype Step =
    | RequireEnv(name: string, present: bool)  // `get_env(name)` with no default
    | ResticInit                               // `init_restic_repo()`, whose result is ignored
    | ResticUnlock                             // `restic unlock`, run with `check=True`
    | ConfigLoaded(loaded: bool)               // `load_config()` gave a configuration (not `None`)
    | PreBackupScript(entry: ScriptEntry)      // `run_pre_backup_script(entry)`
    | DumpSource(source: Source)               // the source's `*_with_config` dump call
    | ResticBackup(argv: seq<string>)          // the `restic backup` command
    | NoRetention                              // `clean_old_backups` found no bucket and returned `None`
    | ResticForget(argv: seq<string>)          // the `restic forget` command
    | PruneTimeoutRead(timeout: Timeout)       // `get_prune_timeout()`
    | ResticPrune(argv: seq<string>)           // the `restic prune` command

  /** The steps that issue an external command and so take the next outcome of the oracle. */
  predicate IssuesCommand(step: Step)
  {
    match step
    case ResticInit => true
    case ResticUnlock => true
    case PreBackupScript(entry) => entry.ScriptEntry? && entry.script.Some?
    case ResticBackup(_) => true
    case ResticForget(_) => true
    case ResticPrune(_) => true
    case _ => false
  }

  function Commands(step: Step): nat
  {
    if IssuesCommand(step) then 1 else 0
  }

  /**
   * `run_pre_backup_script`, given whether the script's shell command succeeds:
   * an entry that is not a mapping or has no `script` fails without running
   * anything; `fail-on-error` defaults to true, and a failing script whose
   * `fail-on-error` is false still counts as passed.
   */
  function PreBackupScriptPasses(entry: ScriptEntry, commandOk: bool): (passes: bool)
    ensures entry.NotAMapping? ==> !passes
    ensures entry.ScriptEntry? && entry.script.None? ==> !passes
    ensures entry.ScriptEntry? && entry.script.Some? && entry.failOnError != Some(false) ==> (passes <==> commandOk)
    ensures entry.ScriptEntry? && entry.script.Some? && entry.failOnError == Some(false) ==> passes
    ensures passes ==> commandOk || entry.failOnError == Some(false)
  {
    if entry.NotAMapping? then false
    else if entry.script.None? then false
    else
      var failOnError := entry.failOnError.GetOr(true);
      commandOk || !failOnError
  }

  /** How one step ends, given whether its command (if any) succeeds and how each dump ends. */
  function Verdict(step: Step, commandOk: bool, dumps: Source -> Outcome): Outcome
  {
    match step
    case RequireEnv(_, present) => if present then Succeeded else Aborted
    case ResticInit => Succeeded
    case ResticUnlock => if commandOk then Succeeded else Aborted
    case ConfigLoaded(loaded) => if loaded then Succeeded else Failed
    case PreBackupScript(entry) => if PreBackupScriptPasses(entry, commandOk) then Succeeded else Failed
    case DumpSource(source) => dumps(source)
    case ResticBackup(_) => if commandOk then Succeeded else Failed
    case NoRetention => Failed
    case ResticForget(_) => if commandOk then Succeeded else Failed
    case PruneTimeoutRead(timeout) => if timeout.Fatal? || timeout.Overflow? then Aborted else Succeeded
    case ResticPrune(_) => if commandOk then Succeeded else Failed
  }

  /** The steps that end the run whatever the oracle says. */
  predicate AlwaysStops(step: Step)
  {
    || step == NoRetention
    || (step.RequireEnv? && !step.present)
    || (step.ConfigLoaded? && !step.loaded)
    || (step.PruneTimeoutRead? && (step.timeout.Fatal? || step.timeout.Overflow?))
    || (step.PreBackupScript? && (step.entry.NotAMapping? || step.entry.script.None?))
  }

  /** How many commands a sequence of steps issues. */
  function Issued(steps: seq<Step>): nat
  {
    if |steps| == 0 then 0 else Issued(steps[..|steps| - 1]) + Commands(steps[|steps| - 1])
  }

  /** Every step of `steps` succeeds when the first of them takes oracle index `next`. */
  predicate Passes(steps: seq<Step>, outcomes: seq<bool>, dumps: Source -> Outcome, next: nat)
  {
    |steps| == 0 ||
    (&& Passes(steps[..|steps| - 1], outcomes, dumps, next)
     && Verdict(steps[|steps| - 1], Succeeds(outcomes, next + Issued(steps[..|steps| - 1])), dumps) == Succeeded)
  }

  /**
   * Walks `plan` from oracle index `next` and stops at the first step that does
   * not succeed: how the walk ends and the steps it took.
   */
  function FailFast(plan: seq<Step>, outcomes: seq<bool>, dumps: Source -> Outcome, next: nat): (Outcome, seq<Step>)
    decreases |plan|
  {
    if |plan| == 0 then (Succeeded, [])
    else
      var verdict := Verdict(plan[0], Succeeds(outcomes, next), dumps);
      if verdict != Succeeded then (verdict, [plan[0]])
      else
        var r := FailFast(plan[1..], outcomes, dumps, next + Commands(plan[0]));
        (r.0, [plan[0]] + r.1)
  }

  // ---------------------------------------------------------------------------
  // The plan of `run_backup`
  // ---------------------------------------------------------------------------

  /** One script step per entry of `pre-backup-scripts`, in list order. */
  function ScriptSteps(entries: seq<ScriptEntry>): seq<Step>
  {
    if |entries| == 0 then [] else [PreBackupScript(entries[0])] + ScriptSteps(entries[1..])
  }

  /** One dump step per source of `order` that the configuration has, in that order. */
  function DumpSteps(order: seq<Source>, sources: map<Source, Section>): seq<Step>
  {
    if |order| == 0 then []
    else (if order[0] in sources then [DumpSource(order[0])] else []) + DumpSteps(order[1..], sources)
  }

  /** `clean_old_backups(config)`: no retention bucket stops here, otherwise unlock and forget. */
  function CleanupSteps(forget: Option<seq<string>>): seq<Step>
  {
    match forget
    case None => [NoRetention]
    case Some(argv) => [ResticUnlock, ResticForget(argv)]
  }

  /**
   * `prune_repository()`, called with no configuration: it loads the
   * configuration again (`reloaded`) and initialises the repository before
   * looking at what it loaded.
   */
  function PruneSteps(loaded: bool, timeout: Timeout): seq<Step>
  {
    [ResticInit, ConfigLoaded(loaded)] + PruneTail(loaded, timeout)
  }

  /** What `prune_repository` does once the configuration is loaded: read the timeout, unlock, prune. */
  function PruneTail(loaded: bool, timeout: Timeout): seq<Step>
  {
    if !loaded then []
    else
      [PruneTimeoutRead(timeout)] +
      if timeout.Fatal? || timeout.Overflow? then [] else PruneRun(timeout)
  }

  /** Unlock, then prune under the timeout. */
  function PruneRun(timeout: Timeout): seq<Step>
    requires timeout.NoTimeout? || timeout.Limit?
  {
    [ResticUnlock, ResticPrune(PruneCommand(timeout))]
  }

  /** The steps from `restic backup` to the end of the run. */
  function BackupSteps(env: Env, backupRoot: string, config: Config, host: string,
                       reloaded: Option<Config>, prune: bool): seq<Step>
  {
    [ResticBackup(BackupArgv(Options(config, host, backupRoot)))] +
    (CleanupSteps(ForgetCommand(config.keep, env)) + if prune then PruneSteps(reloaded.Some?, TimeoutOf(env)) else [])
  }

  /** The steps from the host-name lookup to the end of the run. */
  function HostSteps(env: Env, backupRoot: string, config: Config, reloaded: Option<Config>, prune: bool): seq<Step>
  {
    [RequireEnv(HostVariable, HostVariable in env)] +
    if HostVariable !in env then []
    else BackupSteps(env, backupRoot, config, Resolve(env[HostVariable], env, MaxResolveDepth), reloaded, prune)
  }

  /** The steps that follow a successful load of the configuration. */
  function ConfigSteps(env: Env, backupRoot: string, config: Config, reloaded: Option<Config>, prune: bool): seq<Step>
  {
    ScriptSteps(config.preBackupScripts.GetOr([])) +
    (DumpSteps(SourceOrder, config.sources) + HostSteps(env, backupRoot, config, reloaded, prune))
  }

  /** The steps that follow the lookup of the backup root. */
  function RootSteps(env: Env, backupRoot: string, loaded: Option<Config>, reloaded: Option<Config>, prune: bool): seq<Step>
  {
    [ResticInit, ResticUnlock, ConfigLoaded(loaded.Some?)] +
    if loaded.None? then [] else ConfigSteps(env, backupRoot, loaded.value, reloaded, prune)
  }

  /**
   * The plan of `run_backup(prune)`: `loaded` is what `load_config` returns at
   * the start of the run and `reloaded` what it returns when `prune_repository`
   * loads it again.
   */
  function RunPlan(env: Env, loaded: Option<Config>, reloaded: Option<Config>, prune: bool): seq<Step>
  {
    [RequireEnv(BackupRootVariable, BackupRootVariable in env)] +
    if BackupRootVariable !in env then []
    else RootSteps(env, Resolve(env[BackupRootVariable], env, MaxResolveDepth), loaded, reloaded, prune)
  }

  // ---------------------------------------------------------------------------
  // Walking a plan
  // ---------------------------------------------------------------------------

  lemma Regroup(a: seq<Step>, b: seq<Step>, c: seq<Step>)
    ensures (a + b) + c == a + (b + c)
  {
    forall i | 0 <= i < |a| + |b| + |c|
      ensures ((a + b) + c)[i] == (a + (b + c))[i]
    {
    }
  }

  /** A walk that has passed every step so far and passes one more. */
  lemma Advance(done: seq<Step>, step: Step, outcomes: seq<bool>, dumps: Source -> Outcome)
    requires FailFast(done, outcomes, dumps, 0) == (Succeeded, done)
    requires Verdict(step, Succeeds(outcomes, Issued(done)), dumps) == Succeeded
    ensures FailFast(done + [step], outcomes, dumps, 0) == (Succeeded, done + [step])
    ensures Issued(done + [step]) == Issued(done) + Commands(step)
  {
    FailFastAppend(done, [step], outcomes, dumps, 0);
    assert [step][1..] == [];
    var second := FailFast([step], outcomes, dumps, Issued(done));
    assert second == (Succeeded, [step] + []);
    assert [step] + [] == [step];
    assert FailFast(done + [step], outcomes, dumps, 0) == (second.0, done + second.1);
    assert (done + [step])[..|done|] == done;
  }

  /** A walk that has passed every step so far and stops at the next one. */
  lemma Halt(done: seq<Step>, step: Step, rest: seq<Step>, outcomes: seq<bool>, dumps: Source -> Outcome)
    requires FailFast(done, outcomes, dumps, 0) == (Succeeded, done)
    requires Verdict(step, Succeeds(outcomes, Issued(done)), dumps) != Succeeded
    ensures FailFast(done + ([step] + rest), outcomes, dumps, 0)
         == (Verdict(step, Succeeds(outcomes, Issued(done)), dumps), done + [step])
  {
    FailFastAppend(done, [step] + rest, outcomes, dumps, 0);
    assert ([step] + rest)[0] == step;
  }

  /** One step of a walk. */
  lemma FailFastCons(step: Step, rest: seq<Step>, outcomes: seq<bool>, dumps: Source -> Outcome, next: nat)
    ensures FailFast([step] + rest, outcomes, dumps, next) ==
      var verdict := Verdict(step, Succeeds(outcomes, next), dumps);
      if verdict != Succeeded then (verdict, [step])
      else
        var r := FailFast(rest, outcomes, dumps, next + Commands(step));
        (r.0, [step] + r.1)
  {
    assert ([step] + rest)[0] == step;
    assert ([step] + rest)[1..] == rest;
  }

  lemma {:induction false} IssuedAppend(a: seq<Step>, b: seq<Step>)
    ensures Issued(a + b) == Issued(a) + Issued(b)
    decreases |b|
  {
    if |b| == 0 {
      assert a + b == a;
    } else {
      var init := b[..|b| - 1];
      assert (a + b)[..|a + b| - 1] == a + init;
      IssuedAppend(a, init);
    }
  }

  lemma {:induction false} IssuedCons(step: Step, steps: seq<Step>)
    ensures Issued([step] + steps) == Commands(step) + Issued(steps)
    decreases |steps|
  {
    if |steps| > 0 {
      var init := steps[..|steps| - 1];
      assert ([step] + steps)[..|steps|] == [step] + init;
      IssuedCons(step, init);
    } else {
      assert [step] + steps == [step];
      assert [step][..0] == [];
    }
  }

  /**
   * Walking two plans one after the other: if the first stops, that is the
   * walk; otherwise the second is walked from where the first left the oracle.
   */
  lemma {:induction false} FailFastAppend(a: seq<Step>, b: seq<Step>, outcomes: seq<bool>, dumps: Source -> Outcome, next: nat)
    ensures FailFast(a + b, outcomes, dumps, next) ==
      var first := FailFast(a, outcomes, dumps, next);
      if first.0 != Succeeded then first
      else
        var second := FailFast(b, outcomes, dumps, next + Issued(a));
        (second.0, a + second.1)
    decreases |a|
  {
    if |a| == 0 {
      assert a + b == b;
      assert FailFast(a, outcomes, dumps, next) == (Succeeded, []);
      assert Issued(a) == 0;
      var second := FailFast(b, outcomes, dumps, next);
      assert a + second.1 == second.1;
      assert FailFast(a + b, outcomes, dumps, next) == (second.0, second.1);
    } else {
      var step, rest := a[0], a[1..];
      assert a == [step] + rest;
      assert a + b == [step] + (rest + b);
      FailFastCons(step, rest + b, outcomes, dumps, next);
      FailFastCons(step, rest, outcomes, dumps, next);
      if Verdict(step, Succeeds(outcomes, next), dumps) == Succeeded {
        var m := next + Commands(step);
        FailFastAppend(rest, b, outcomes, dumps, m);
        IssuedCons(step, rest);
        if FailFast(rest, outcomes, dumps, m).0 == Succeeded {
          var second := FailFast(b, outcomes, dumps, m + Issued(rest));
          Regroup([step], rest, second.1);
        }
      }
    }
  }

  lemma {:induction false} PassesCons(step: Step, steps: seq<Step>, outcomes: seq<bool>, dumps: Source -> Outcome, next: nat)
    ensures Passes([step] + steps, outcomes, dumps, next) <==>
      && Verdict(step, Succeeds(outcomes, next), dumps) == Succeeded
      && Passes(steps, outcomes, dumps, next + Commands(step))
    decreases |steps|
  {
    if |steps| == 0 {
      assert [step] + steps == [step];
      assert [step][..0] == [];
    } else {
      var init := steps[..|steps| - 1];
      assert ([step] + steps)[..|steps|] == [step] + init;
      PassesCons(step, init, outcomes, dumps, next);
      IssuedCons(step, init);
    }
  }

  /** The steps a walk takes are a prefix of its plan, all of it when the walk succeeds. */
  lemma {:induction false} FailFastPrefix(plan: seq<Step>, outcomes: seq<bool>, dumps: Source -> Outcome, next: nat)
    ensures var r := FailFast(plan, outcomes, dumps, next);
      && r.1 <= plan
      && (r.0 == Succeeded ==> r.1 == plan)
      && (r.0 != Succeeded ==> |r.1| > 0)
    decreases |plan|
  {
    if |plan| > 0 && Verdict(plan[0], Succeeds(outcomes, next), dumps) == Succeeded {
      FailFastPrefix(plan[1..], outcomes, dumps, next + Commands(plan[0]));
      assert plan == [plan[0]] + plan[1..];
    }
  }

  /** A walk succeeds exactly when every step of its plan passes. */
  lemma {:induction false} FailFastSucceeds(plan: seq<Step>, outcomes: seq<bool>, dumps: Source -> Outcome, next: nat)
    ensures FailFast(plan, outcomes, dumps, next).0 == Succeeded <==> Passes(plan, outcomes, dumps, next)
    decreases |plan|
  {
    if |plan| > 0 {
      var step := plan[0];
      assert plan == [step] + plan[1..];
      PassesCons(step, plan[1..], outcomes, dumps, next);
      if Verdict(step, Succeeds(outcomes, next), dumps) == Succeeded {
        FailFastSucceeds(plan[1..], outcomes, dumps, next + Commands(step));
      }
    }
  }

  /** A walk that does not succeed passed every step before its last one and ends the way that one does. */
  lemma FailFastStops(plan: seq<Step>, outcomes: seq<bool>, dumps: Source -> Outcome, next: nat)
    requires FailFast(plan, outcomes, dumps, next).0 != Succeeded
    ensures var r := FailFast(plan, outcomes, dumps, next);
      && |r.1| > 0
      && Passes(r.1[..|r.1| - 1], outcomes, dumps, next)
      && r.0 == Verdict(r.1[|r.1| - 1], Succeeds(outcomes, next + Issued(r.1[..|r.1| - 1])), dumps)
  {
    var taken, last := StopPoint(plan, outcomes, dumps, next);
    var steps := FailFast(plan, outcomes, dumps, next).1;
    assert steps[..|steps| - 1] == taken;
    assert steps[|steps| - 1] == last;
  }

  /** `FailFastStops` with the steps a stopped walk took split into those it passed and the last one. */
  lemma {:induction false} StopPoint(plan: seq<Step>, outcomes: seq<bool>, dumps: Source -> Outcome, next: nat)
    returns (taken: seq<Step>, last: Step)
    requires FailFast(plan, outcomes, dumps, next).0 != Succeeded
    ensures FailFast(plan, outcomes, dumps, next).1 == taken + [last]
    ensures Passes(taken, outcomes, dumps, next)
    ensures FailFast(plan, outcomes, dumps, next).0 == Verdict(last, Succeeds(outcomes, next + Issued(taken)), dumps)
    decreases |plan|
  {
    var step, rest := plan[0], plan[1..];
    assert plan == [step] + rest;
    FailFastCons(step, rest, outcomes, dumps, next);
    if Verdict(step, Succeeds(outcomes, next), dumps) != Succeeded {
      taken, last := [], step;
      assert [] + [step] == [step];
    } else {
      var t, l := StopPoint(rest, outcomes, dumps, next + Commands(step));
      taken, last := [step] + t, l;
      Regroup([step], t, [l]);
      PassesCons(step, t, outcomes, dumps, next);
      IssuedCons(step, t);
    }
  }

  /** A walk passes no step that stops every run. */
  lemma {:induction false} PassesAvoidsStops(steps: seq<Step>, outcomes: seq<bool>, dumps: Source -> Outcome, next: nat)
    requires Passes(steps, outcomes, dumps, next)
    ensures forall k :: 0 <= k < |steps| ==> !AlwaysStops(steps[k])
    decreases |steps|
  {
    if |steps| > 0 {
      var init := steps[..|steps| - 1];
      PassesAvoidsStops(init, outcomes, dumps, next);
      forall k | 0 <= k < |steps|
        ensures !AlwaysStops(steps[k])
      {
        if k < |init| {
          assert steps[k] == init[k];
        }
      }
    }
  }

  /** A step that stops every run can only be the last step a walk takes. */
  lemma StopIsLast(plan: seq<Step>, outcomes: seq<bool>, dumps: Source -> Outcome, k: nat)
    requires k < |FailFast(plan, outcomes, dumps, 0).1|
    requires AlwaysStops(FailFast(plan, outcomes, dumps, 0).1[k])
    ensures var r := FailFast(plan, outcomes, dumps, 0);
      r.0 != Succeeded && k == |r.1| - 1
  {
    var r := FailFast(plan, outcomes, dumps, 0);
    FailFastPrefix(plan, outcomes, dumps, 0);
    FailFastSucceeds(plan, outcomes, dumps, 0);
    if r.0 == Succeeded {
      PassesAvoidsStops(plan, outcomes, dumps, 0);
    } else if k < |r.1| - 1 {
      FailFastStops(plan, outcomes, dumps, 0);
      PassesAvoidsStops(r.1[..|r.1| - 1], outcomes, dumps, 0);
    }
  }

  // ---------------------------------------------------------------------------
  // `run_backup`
  // ---------------------------------------------------------------------------

  /**
   * Two stages walked after steps that all passed: if the first stage stops,
   * the walk ends there; otherwise the second stage starts where the first
   * left the oracle.
   */
  lemma SequenceStops(done: seq<Step>, a: seq<Step>, b: seq<Step>, outcomes: seq<bool>, dumps: Source -> Outcome)
    requires FailFast(done, outcomes, dumps, 0) == (Succeeded, done)
    requires FailFast(a, outcomes, dumps, Issued(done)).0 != Succeeded
    ensures var ra := FailFast(a, outcomes, dumps, Issued(done));
      FailFast(done + (a + b), outcomes, dumps, 0) == (ra.0, done + ra.1)
  {
    FailFastAppend(done, a + b, outcomes, dumps, 0);
    FailFastAppend(a, b, outcomes, dumps, Issued(done));
  }

  lemma SequenceGoes(done: seq<Step>, a: seq<Step>, b: seq<Step>, outcomes: seq<bool>, dumps: Source -> Outcome)
    requires FailFast(done, outcomes, dumps, 0) == (Succeeded, done)
    requires FailFast(a, outcomes, dumps, Issued(done)).0 == Succeeded
    ensures FailFast(a, outcomes, dumps, Issued(done)).1 == a
    ensures var rb := FailFast(b, outcomes, dumps, Issued(done) + Issued(a));
      FailFast(done + (a + b), outcomes, dumps, 0) == (rb.0, (done + a) + rb.1)
  {
    FailFastAppend(done, a + b, outcomes, dumps, 0);
    FailFastAppend(a, b, outcomes, dumps, Issued(done));
    FailFastPrefix(a, outcomes, dumps, Issued(done));
    Regroup(done, a, FailFast(b, outcomes, dumps, Issued(done) + Issued(a)).1);
  }

  /**
   * Two stages walked one after the other: if the first stops, the walk of
   * both is the walk of the first; otherwise the second starts from the steps
   * the first took.
   */
  lemma Then(done: seq<Step>, a: seq<Step>, b: seq<Step>, outcomes: seq<bool>, dumps: Source -> Outcome)
    ensures FailFast(done + a, outcomes, dumps, 0).0 != Succeeded ==>
      FailFast(done + (a + b), outcomes, dumps, 0) == FailFast(done + a, outcomes, dumps, 0)
    ensures done + (a + b) == (done + a) + b
  {
    Regroup(done, a, b);
    FailFastAppend(done + a, b, outcomes, dumps, 0);
  }

  /**
   * `run_backup(prune)`. `loaded` and `reloaded` are what `load_config`
   * returns, `outcomes` the outcomes of the external commands in the order
   * they are issued and `dumps` how each source's dump ends. It returns how the
   * run ends and the steps it took.
   */
  method RunBackup(env: Env, loaded: Option<Config>, reloaded: Option<Config>, prune: bool,
                   outcomes: seq<bool>, dumps: Source -> Outcome)
    returns (result: Outcome, trace: seq<Step>)
    ensures (result, trace) == FailFast(RunPlan(env, loaded, reloaded, prune), outcomes, dumps, 0)
  {
    var rootLookup := GetEnv(env, BackupRootVariable, Required);
    if rootLookup.Exit? {
      RootMissing(env, loaded, reloaded, prune, outcomes, dumps);
      return Aborted, [RequireEnv(BackupRootVariable, false)];
    }
    var backupRoot := rootLookup.value.value;
    PlanStart(env, loaded, reloaded, prune);
    result, trace := RunFromRoot(env, backupRoot, loaded, reloaded, prune, outcomes, dumps);
  }

  /** Without the backup root variable the run aborts before anything else. */
  lemma RootMissing(env: Env, loaded: Option<Config>, reloaded: Option<Config>, prune: bool,
                    outcomes: seq<bool>, dumps: Source -> Outcome)
    requires BackupRootVariable !in env
    ensures FailFast(RunPlan(env, loaded, reloaded, prune), outcomes, dumps, 0)
      == (Aborted, [RequireEnv(BackupRootVariable, false)])
  {
    var step := RequireEnv(BackupRootVariable, false);
    Halt([], step, [], outcomes, dumps);
    assert RunPlan(env, loaded, reloaded, prune) == [] + ([step] + []);
  }

  /** `run_backup` once the backup root is known: `init`, whose result is ignored, `unlock`, then the configuration. */
  method RunFromRoot(env: Env, backupRoot: string, loaded: Option<Config>, reloaded: Option<Config>, prune: bool,
                     outcomes: seq<bool>, dumps: Source -> Outcome)
    returns (result: Outcome, trace: seq<Step>)
    ensures var configured := if loaded.None? then [] else ConfigSteps(env, backupRoot, loaded.value, reloaded, prune);
      (result, trace) == FailFast([RequireEnv(BackupRootVariable, true), ResticInit, ResticUnlock]
                                  + [ConfigLoaded(loaded.Some?)] + configured, outcomes, dumps, 0)
  {
    ghost var configured := if loaded.None? then [] else ConfigSteps(env, backupRoot, loaded.value, reloaded, prune);
    StartWalk(loaded.Some?, configured, outcomes, dumps);
    var started := [RequireEnv(BackupRootVariable, true), ResticInit, ResticUnlock];
    if !Succeeds(outcomes, 1) {
      return Aborted, started;
    }
    trace := started + [ConfigLoaded(loaded.Some?)];
    if loaded.None? {
      assert trace + configured == trace;
      return Failed, trace;
    }
    result, trace := RunConfigured(env, backupRoot, loaded.value, reloaded, prune, outcomes, dumps, trace, 2);
  }

  /** The plan of `run_backup` once the backup root is known: `init`, `unlock`, the configuration, and what it configures. */
  lemma PlanStart(env: Env, loaded: Option<Config>, reloaded: Option<Config>, prune: bool)
    requires BackupRootVariable in env
    ensures RunPlan(env, loaded, reloaded, prune)
      == [RequireEnv(BackupRootVariable, true), ResticInit, ResticUnlock] + [ConfigLoaded(loaded.Some?)]
         + (if loaded.None? then [] else
              ConfigSteps(env, Resolve(env[BackupRootVariable], env, MaxResolveDepth), loaded.value, reloaded, prune))
  {
    var backupRoot := Resolve(env[BackupRootVariable], env, MaxResolveDepth);
    var configured := if loaded.None? then [] else ConfigSteps(env, backupRoot, loaded.value, reloaded, prune);
    assert RootSteps(env, backupRoot, loaded, reloaded, prune) == [ResticInit, ResticUnlock, ConfigLoaded(loaded.Some?)] + configured;
    Regroup([RequireEnv(BackupRootVariable, true)], [ResticInit, ResticUnlock, ConfigLoaded(loaded.Some?)], configured);
    assert [RequireEnv(BackupRootVariable, true)] + [ResticInit, ResticUnlock, ConfigLoaded(loaded.Some?)]
      == [RequireEnv(BackupRootVariable, true), ResticInit, ResticUnlock] + [ConfigLoaded(loaded.Some?)];
  }

  /**
   * The walk of `run_backup` up to the loaded configuration: `init` goes on
   * whatever it returns, a failed `unlock` aborts, a missing configuration fails.
   */
  lemma StartWalk(found: bool, configured: seq<Step>, outcomes: seq<bool>, dumps: Source -> Outcome)
    requires !found ==> configured == []
    ensures var started := [RequireEnv(BackupRootVariable, true), ResticInit, ResticUnlock];
      var plan := started + [ConfigLoaded(found)] + configured;
      && (!Succeeds(outcomes, 1) ==> FailFast(plan, outcomes, dumps, 0) == (Aborted, started))
      && (Succeeds(outcomes, 1) && !found ==> FailFast(plan, outcomes, dumps, 0) == (Failed, plan))
      && (Succeeds(outcomes, 1) && found ==>
            && FailFast(started + [ConfigLoaded(found)], outcomes, dumps, 0) == (Succeeded, started + [ConfigLoaded(found)])
            && Issued(started + [ConfigLoaded(found)]) == 2)
  {
    var t0 := [RequireEnv(BackupRootVariable, true)];
    Advance([], RequireEnv(BackupRootVariable, true), outcomes, dumps);
    assert [] + [RequireEnv(BackupRootVariable, true)] == t0;
    Advance(t0, ResticInit, outcomes, dumps);
    var t1 := t0 + [ResticInit];
    var started := [RequireEnv(BackupRootVariable, true), ResticInit, ResticUnlock];
    assert t1 + [ResticUnlock] == started;
    var tail := [ConfigLoaded(found)] + configured;
    assert started + [ConfigLoaded(found)] + configured == t1 + ([ResticUnlock] + tail);
    if !Succeeds(outcomes, 1) {
      Halt(t1, ResticUnlock, tail, outcomes, dumps);
      return;
    }
    Advance(t1, ResticUnlock, outcomes, dumps);
    if !found {
      Halt(started, ConfigLoaded(found), [], outcomes, dumps);
      assert started + ([ConfigLoaded(found)] + []) == started + [ConfigLoaded(found)] + configured;
      assert started + [ConfigLoaded(found)] + configured == started + [ConfigLoaded(found)];
      return;
    }
    Advance(started, ConfigLoaded(found), outcomes, dumps);
  }

  /** `run_backup` once the configuration is loaded: scripts, dumps, backup, forget and prune. */
  method RunConfigured(env: Env, backupRoot: string, config: Config, reloaded: Option<Config>, prune: bool,
                       outcomes: seq<bool>, dumps: Source -> Outcome, done: seq<Step>, next: nat)
    returns (result: Outcome, trace: seq<Step>)
    requires FailFast(done, outcomes, dumps, 0) == (Succeeded, done)
    requires next == Issued(done)
    ensures (result, trace) == FailFast(done + ConfigSteps(env, backupRoot, config, reloaded, prune), outcomes, dumps, 0)
  {
    var scripts := config.preBackupScripts.GetOr([]);
    ghost var dumpSteps := DumpSteps(SourceOrder, config.sources);
    ghost var hostSteps := HostSteps(env, backupRoot, config, reloaded, prune);
    var n;
    result, trace, n := RunPreBackupScripts(scripts, outcomes, dumps, done, next);
    Then(done, ScriptSteps(scripts), dumpSteps + hostSteps, outcomes, dumps);
    if result != Succeeded {
      return;
    }

    ghost var before := trace;
    result, trace, n := RunDumps(config.sources, outcomes, dumps, trace, n);
    Then(before, dumpSteps, hostSteps, outcomes, dumps);
    if result != Succeeded {
      return;
    }

    result, trace := RunFromHost(env, backupRoot, config, reloaded, prune, outcomes, dumps, trace, n);
  }

  /** `run_backup` from the host-name lookup on: backup, forget and prune. */
  method RunFromHost(env: Env, backupRoot: string, config: Config, reloaded: Option<Config>, prune: bool,
                     outcomes: seq<bool>, dumps: Source -> Outcome, done: seq<Step>, next: nat)
    returns (result: Outcome, trace: seq<Step>)
    requires FailFast(done, outcomes, dumps, 0) == (Succeeded, done)
    requires next == Issued(done)
    ensures (result, trace) == FailFast(done + HostSteps(env, backupRoot, config, reloaded, prune), outcomes, dumps, 0)
  {
    ghost var plan := done + HostSteps(env, backupRoot, config, reloaded, prune);
    trace := done;
    var hostLookup := GetEnv(env, HostVariable, Required);
    var step := RequireEnv(HostVariable, !hostLookup.Exit?);
    if hostLookup.Exit? {
      Halt(trace, step, [], outcomes, dumps);
      assert plan == trace + ([step] + []);
      return Aborted, trace + [step];
    }
    var host := hostLookup.value.value;
    var backupCommand := BuildBackupCommand(config, host, backupRoot);
    var backup := ResticBackup(backupCommand);
    ghost var rest := CleanupSteps(ForgetCommand(config.keep, env))
      + if prune then PruneSteps(reloaded.Some?, TimeoutOf(env)) else [];
    assert HostSteps(env, backupRoot, config, reloaded, prune) == [step] + ([backup] + rest);
    PastBackup(done, step, backup, rest, outcomes, dumps);
    if !Succeeds(outcomes, next) {
      return Failed, done + [step, backup];
    }
    result, trace := CleanAndPrune(env, config, reloaded, prune, outcomes, dumps, done + [step, backup], next + 1);
  }

  /** Past the host-name lookup, `restic backup` either fails the run or lets it go on to the cleanup. */
  lemma PastBackup(done: seq<Step>, lookup: Step, backup: Step, rest: seq<Step>,
                   outcomes: seq<bool>, dumps: Source -> Outcome)
    requires FailFast(done, outcomes, dumps, 0) == (Succeeded, done)
    requires lookup == RequireEnv(HostVariable, true) && backup.ResticBackup?
    ensures var plan := done + ([lookup] + ([backup] + rest));
      var taken := done + [lookup, backup];
      && (!Succeeds(outcomes, Issued(done)) ==> FailFast(plan, outcomes, dumps, 0) == (Failed, taken))
      && (Succeeds(outcomes, Issued(done)) ==>
            && FailFast(taken, outcomes, dumps, 0) == (Succeeded, taken)
            && Issued(taken) == Issued(done) + 1
            && plan == taken + rest)
  {
    var plan := done + ([lookup] + ([backup] + rest));
    Advance(done, lookup, outcomes, dumps);
    Regroup(done, [lookup], [backup] + rest);
    var passed := done + [lookup];
    assert passed + [backup] == done + [lookup, backup];
    if !Succeeds(outcomes, Issued(done)) {
      Halt(passed, backup, rest, outcomes, dumps);
    } else {
      Advance(passed, backup, outcomes, dumps);
      Regroup(passed, [backup], rest);
    }
  }

  /** The end of `run_backup`: `clean_old_backups(config)`, then `prune_repository()` when asked to prune. */
  method CleanAndPrune(env: Env, config: Config, reloaded: Option<Config>, prune: bool,
                       outcomes: seq<bool>, dumps: Source -> Outcome, done: seq<Step>, next: nat)
    returns (result: Outcome, trace: seq<Step>)
    requires FailFast(done, outcomes, dumps, 0) == (Succeeded, done)
    requires next == Issued(done)
    ensures var afterCleanup := if prune then PruneSteps(reloaded.Some?, TimeoutOf(env)) else [];
      (result, trace) == FailFast(done + (CleanupSteps(ForgetCommand(config.keep, env)) + afterCleanup), outcomes, dumps, 0)
  {
    ghost var cleanup := CleanupSteps(ForgetCommand(config.keep, env));
    ghost var afterCleanup := if prune then PruneSteps(reloaded.Some?, TimeoutOf(env)) else [];
    var taken;
    result, taken := CleanOldBackups(config.keep, env, outcomes, dumps, next);
    if result != Succeeded {
      SequenceStops(done, cleanup, afterCleanup, outcomes, dumps);
      return result, done + taken;
    }
    SequenceGoes(done, cleanup, afterCleanup, outcomes, dumps);
    if !prune {
      assert (done + taken) + [] == done + taken;
      return result, done + taken;
    }
    var tail;
    result, tail := PruneRepository(env, reloaded, outcomes, dumps, next + Issued(taken));
    trace := (done + taken) + tail;
  }

  /** The `pre-backup-scripts` loop of `run_backup`: the first script that does not pass stops the run. */
  method RunPreBackupScripts(scripts: seq<ScriptEntry>, outcomes: seq<bool>, dumps: Source -> Outcome,
                             done: seq<Step>, next: nat)
    returns (result: Outcome, trace: seq<Step>, after: nat)
    requires FailFast(done, outcomes, dumps, 0) == (Succeeded, done)
    requires next == Issued(done)
    ensures (result, trace) == FailFast(done + ScriptSteps(scripts), outcomes, dumps, 0)
    ensures result == Succeeded ==> after == Issued(trace)
    ensures result == Succeeded ==> trace == done + ScriptSteps(scripts)
  {
    trace, after := done, next;
    for i := 0 to |scripts|
      invariant FailFast(trace, outcomes, dumps, 0) == (Succeeded, trace)
      invariant after == Issued(trace)
      invariant trace + ScriptSteps(scripts[i..]) == done + ScriptSteps(scripts)
    {
      var entry := scripts[i];
      assert scripts[i..][1..] == scripts[i + 1..];
      var step := PreBackupScript(entry);
      ghost var tail := ScriptSteps(scripts[i + 1..]);
      if !PreBackupScriptPasses(entry, Succeeds(outcomes, after)) {
        Halt(trace, step, tail, outcomes, dumps);
        return Failed, trace + [step], after;
      }
      Advance(trace, step, outcomes, dumps);
      Regroup(trace, [step], tail);
      trace := trace + [step];
      if entry.ScriptEntry? && entry.script.Some? {
        after := after + 1;
      }
    }
    assert scripts[|scripts|..] == [];
    assert trace == done + ScriptSteps(scripts);
    result := Succeeded;
  }

  /**
   * The dump stages of `run_backup`: each configured source, in the order
   * elasticdump, mysqldump, pgdump, mongodump; the first dump that does not
   * succeed stops the run.
   */
  method RunDumps(sources: map<Source, Section>, outcomes: seq<bool>, dumps: Source -> Outcome,
                  done: seq<Step>, next: nat)
    returns (result: Outcome, trace: seq<Step>, after: nat)
    requires FailFast(done, outcomes, dumps, 0) == (Succeeded, done)
    requires next == Issued(done)
    ensures (result, trace) == FailFast(done + DumpSteps(SourceOrder, sources), outcomes, dumps, 0)
    ensures result == Succeeded ==> after == Issued(trace)
    ensures result == Succeeded ==> trace == done + DumpSteps(SourceOrder, sources)
  {
    trace, after := done, next;
    for i := 0 to |SourceOrder|
      invariant FailFast(trace, outcomes, dumps, 0) == (Succeeded, trace)
      invariant after == Issued(trace)
      invariant trace + DumpSteps(SourceOrder[i..], sources) == done + DumpSteps(SourceOrder, sources)
    {
      var source := SourceOrder[i];
      NextDump(trace, i, sources, outcomes, dumps);
      if source in sources {
        var step := DumpSource(source);
        var outcome := dumps(source);
        if outcome != Succeeded {
          return outcome, trace + [step], after;
        }
        trace := trace + [step];
      }
    }
    assert SourceOrder[|SourceOrder|..] == [];
    assert trace == done + DumpSteps(SourceOrder, sources);
    result := Succeeded;
  }

  /** One turn of the dump loop: a source the configuration lacks is skipped, a dump that does not succeed ends the run. */
  lemma NextDump(done: seq<Step>, i: nat, sources: map<Source, Section>, outcomes: seq<bool>, dumps: Source -> Outcome)
    requires i < |SourceOrder|
    requires FailFast(done, outcomes, dumps, 0) == (Succeeded, done)
    ensures var source, tail := SourceOrder[i], DumpSteps(SourceOrder[i + 1..], sources);
      var step := DumpSource(source);
      && (source !in sources ==> DumpSteps(SourceOrder[i..], sources) == tail)
      && (source in sources && dumps(source) != Succeeded ==>
            FailFast(done + DumpSteps(SourceOrder[i..], sources), outcomes, dumps, 0) == (dumps(source), done + [step]))
      && (source in sources && dumps(source) == Succeeded ==>
            && FailFast(done + [step], outcomes, dumps, 0) == (Succeeded, done + [step])
            && Issued(done + [step]) == Issued(done)
            && done + DumpSteps(SourceOrder[i..], sources) == (done + [step]) + tail)
  {
    var source, tail := SourceOrder[i], DumpSteps(SourceOrder[i + 1..], sources);
    var step := DumpSource(source);
    assert SourceOrder[i..][1..] == SourceOrder[i + 1..];
    if source in sources {
      assert DumpSteps(SourceOrder[i..], sources) == [step] + tail;
      if dumps(source) != Succeeded {
        Halt(done, step, tail, outcomes, dumps);
      } else {
        Advance(done, step, outcomes, dumps);
        Regroup(done, [step], tail);
      }
    }
  }

  /**
   * `clean_old_backups(config)`, its commands taking the oracle from index
   * `next`: no retention bucket returns `None`, which `run_backup` treats as a
   * failure; otherwise unlock and forget. It returns how it ends and the steps
   * it took.
   */
  method CleanOldBackups(keep: Option<map<string, string>>, env: Env, outcomes: seq<bool>, dumps: Source -> Outcome, next: nat)
    returns (result: Outcome, taken: seq<Step>)
    ensures (result, taken) == FailFast(CleanupSteps(ForgetCommand(keep, env)), outcomes, dumps, next)
  {
    var cleanupCommand := BuildForgetCommand(keep, env);
    if cleanupCommand.None? {
      FailFastCons(NoRetention, [], outcomes, dumps, next);
      assert CleanupSteps(cleanupCommand) == [NoRetention] + [];
      return Failed, [NoRetention];
    }
    var unlock, forget := ResticUnlock, ResticForget(cleanupCommand.value);
    assert CleanupSteps(cleanupCommand) == [unlock] + [forget];
    FailFastCons(unlock, [forget], outcomes, dumps, next);
    if !Succeeds(outcomes, next) {
      return Aborted, [unlock];
    }
    FailFastCons(forget, [], outcomes, dumps, next + 1);
    assert [forget] + [] == [forget];
    if !Succeeds(outcomes, next + 1) {
      return Failed, [unlock] + [forget];
    }
    return Succeeded, [unlock] + ([forget] + []);
  }

  /**
   * `prune_repository()` as `run_backup` calls it, its commands taking the
   * oracle from index `next`: load the configuration again, initialise, read
   * the timeout, unlock and prune. It returns how it ends and the steps it took.
   */
  method PruneRepository(env: Env, reloaded: Option<Config>, outcomes: seq<bool>, dumps: Source -> Outcome, next: nat)
    returns (result: Outcome, taken: seq<Step>)
    ensures (result, taken) == FailFast(PruneSteps(reloaded.Some?, TimeoutOf(env)), outcomes, dumps, next)
  {
    var init, loaded := ResticInit, ConfigLoaded(reloaded.Some?);
    ghost var tail := PruneTail(reloaded.Some?, TimeoutOf(env));
    assert PruneSteps(reloaded.Some?, TimeoutOf(env)) == [init] + ([loaded] + tail);
    FailFastCons(init, [loaded] + tail, outcomes, dumps, next);
    FailFastCons(loaded, tail, outcomes, dumps, next + 1);
    ghost var walk := FailFast(PruneSteps(reloaded.Some?, TimeoutOf(env)), outcomes, dumps, next);
    ghost var afterInit := FailFast([loaded] + tail, outcomes, dumps, next + 1);
    assert walk == (afterInit.0, [init] + afterInit.1);
    if reloaded.None? {
      assert tail == [];
      assert afterInit == (Failed, [loaded]);
      return Failed, [init] + [loaded];
    }
    ghost var afterLoad := FailFast(tail, outcomes, dumps, next + 1);
    assert afterInit == (afterLoad.0, [loaded] + afterLoad.1);
    var timeout := GetPruneTimeout(env);
    var read := PruneTimeoutRead(timeout);
    if timeout.Fatal? || timeout.Overflow? {
      FailFastCons(read, [], outcomes, dumps, next + 1);
      assert tail == [read] + [];
      assert afterLoad == (Aborted, [read]);
      return Aborted, [init] + ([loaded] + [read]);
    }
    assert tail == [read] + PruneRun(timeout);
    FailFastCons(read, PruneRun(timeout), outcomes, dumps, next + 1);
    var rest;
    result, rest := UnlockAndPrune(timeout, outcomes, dumps, next + 1);
    assert afterLoad == (result, [read] + rest);
    return result, [init] + ([loaded] + ([read] + rest));
  }

  /** The last two steps of `prune_repository`: unlock, then prune under the timeout. */
  method UnlockAndPrune(timeout: Timeout, outcomes: seq<bool>, dumps: Source -> Outcome, next: nat)
    returns (result: Outcome, taken: seq<Step>)
    requires timeout.NoTimeout? || timeout.Limit?
    ensures (result, taken) == FailFast(PruneRun(timeout), outcomes, dumps, next)
  {
    var pruneCommand := PruneCommand(timeout);
    var unlock, prune := ResticUnlock, ResticPrune(pruneCommand);
    assert PruneRun(timeout) == [unlock] + [prune];
    FailFastCons(unlock, [prune], outcomes, dumps, next);
    if !Succeeds(outcomes, next) {
      return Aborted, [unlock];
    }
    FailFastCons(prune, [], outcomes, dumps, next + 1);
    assert [prune] + [] == [prune];
    if !Succeeds(outcomes, next + 1) {
      return Failed, [unlock] + [prune];
    }
    return Succeeded, [unlock] + ([prune] + []);
  }
}
