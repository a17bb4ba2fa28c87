/**
 * What the plan of `run_backup` implies about every run: which steps can be
 * taken, in which order, and how the run then ends.
 */
module PipelineProperties {
  import opened Wrappers
  import opened EnvResolver
  import opened Outcomes
  import opened BackupConfig
  import opened Retention
  import opened BackupCommand
  import opened PruneTimeout
  import opened Pipeline

  // ---------------------------------------------------------------------------
  // The pieces of a plan
  // ---------------------------------------------------------------------------

  /** The script steps are the entries of `pre-backup-scripts`, one each, in list order. */
  lemma {:induction false} ScriptStepsOfEntries(entries: seq<ScriptEntry>)
    ensures |ScriptSteps(entries)| == |entries|
    ensures forall k :: 0 <= k < |entries| ==> ScriptSteps(entries)[k] == PreBackupScript(entries[k])
    ensures forall x :: x in ScriptSteps(entries) ==> x.PreBackupScript?
  {
    if |entries| > 0 {
      ScriptStepsOfEntries(entries[1..]);
      var steps := ScriptSteps(entries);
      forall k | 0 <= k < |entries|
        ensures steps[k] == PreBackupScript(entries[k])
      {
        if k > 0 {
          assert steps[k] == ScriptSteps(entries[1..])[k - 1];
        }
      }
    }
  }

  /** The dump steps are exactly the sources of `order` that the configuration has. */
  lemma {:induction false} DumpStepsOfSources(order: seq<Source>, sources: map<Source, Section>)
    ensures forall x :: x in DumpSteps(order, sources) ==> x.DumpSource? && x.source in sources && x.source in order
    ensures forall s :: s in order && s in sources ==> DumpSource(s) in DumpSteps(order, sources)
  {
    if |order| > 0 {
      DumpStepsOfSources(order[1..], sources);
      forall s | s in order && s in sources
        ensures DumpSource(s) in DumpSteps(order, sources)
      {
        if s != order[0] {
          assert s in order[1..];
        }
      }
    }
  }

  /** A source's place in `SourceOrder`. */
  function Rank(s: Source): (r: nat)
    ensures r < |SourceOrder| && SourceOrder[r] == s
  {
    match s
    case Elasticdump => 0
    case Mysqldump => 1
    case Pgdump => 2
    case Mongodump => 3
  }

  /** Every step is a dump step, and the ranks of their sources increase along the sequence. */
  predicate RankedDumps(steps: seq<Step>, rank: Source -> nat)
  {
    && (forall i :: 0 <= i < |steps| ==> steps[i].DumpSource?)
    && (forall i, j :: 0 <= i < j < |steps| ==> rank(steps[i].source) < rank(steps[j].source))
  }

  /** A dump step ranked below every step of a ranked sequence extends it at the front. */
  lemma RankedCons(step: Step, steps: seq<Step>, rank: Source -> nat)
    requires step.DumpSource? && RankedDumps(steps, rank)
    requires forall k :: 0 <= k < |steps| ==> rank(step.source) < rank(steps[k].source)
    ensures RankedDumps([step] + steps, rank)
  {
    var all := [step] + steps;
    forall i, j | 0 <= i < j < |all|
      ensures rank(all[i].source) < rank(all[j].source)
    {
      assert all[j] == steps[j - 1];
      if i > 0 {
        assert all[i] == steps[i - 1];
      }
    }
  }

  lemma {:induction false} DumpStepsRanked(order: seq<Source>, sources: map<Source, Section>, rank: Source -> nat)
    requires forall i, j :: 0 <= i < j < |order| ==> rank(order[i]) < rank(order[j])
    ensures RankedDumps(DumpSteps(order, sources), rank)
  {
    if |order| > 0 {
      var tail := DumpSteps(order[1..], sources);
      DumpStepsRanked(order[1..], sources, rank);
      if order[0] in sources {
        DumpStepsOfSources(order[1..], sources);
        forall k | 0 <= k < |tail|
          ensures rank(order[0]) < rank(tail[k].source)
        {
          assert tail[k] in tail;
          var m :| 0 <= m < |order[1..]| && order[1..][m] == tail[k].source;
          assert order[1..][m] == order[m + 1];
        }
        RankedCons(DumpSource(order[0]), tail, rank);
      } else {
        assert DumpSteps(order, sources) == [] + tail;
      }
    }
  }

  /**
   * The configured sources are dumped in the order elasticdump, mysqldump,
   * pgdump, mongodump, each one once.
   */
  lemma DumpStepsFollowSourceOrder(sources: map<Source, Section>)
    ensures var steps := DumpSteps(SourceOrder, sources);
      && (forall s :: DumpSource(s) in steps <==> s in sources)
      && RankedDumps(steps, Rank)
  {
    DumpStepsOfSources(SourceOrder, sources);
    DumpStepsRanked(SourceOrder, sources, Rank);
    forall s | s in sources
      ensures s in SourceOrder
    {
      assert SourceOrder[Rank(s)] == s;
    }
  }

  // ---------------------------------------------------------------------------
  // Walks and the steps that stop them
  // ---------------------------------------------------------------------------

  /** The steps of a walk are steps of any plan its walk is a prefix of. */
  lemma PrefixMembers(taken: seq<Step>, plan: seq<Step>)
    requires taken <= plan
    ensures forall x :: x in taken ==> x in plan
  {
    assert plan == taken + plan[|taken|..];
  }

  /** A walk only takes steps of its plan. */
  lemma TakenFromPlan(plan: seq<Step>, outcomes: seq<bool>, dumps: Source -> Outcome, x: Step)
    requires x in FailFast(plan, outcomes, dumps, 0).1
    ensures x in plan
  {
    FailFastPrefix(plan, outcomes, dumps, 0);
    var r := FailFast(plan, outcomes, dumps, 0);
    var k :| 0 <= k < |r.1| && r.1[k] == x;
    assert plan[k] == x;
  }

  /** A plan holding a step that stops every run never succeeds. */
  lemma NeverPasses(plan: seq<Step>, outcomes: seq<bool>, dumps: Source -> Outcome, x: Step)
    requires x in plan && AlwaysStops(x)
    ensures FailFast(plan, outcomes, dumps, 0).0 != Succeeded
  {
    FailFastPrefix(plan, outcomes, dumps, 0);
    FailFastSucceeds(plan, outcomes, dumps, 0);
    if FailFast(plan, outcomes, dumps, 0).0 == Succeeded {
      PassesAvoidsStops(plan, outcomes, dumps, 0);
    }
  }

  /**
   * A walk that reaches a step that stops every run ends there: whatever comes
   * after it in the plan is never taken.
   */
  lemma StopsWithin(prefix: seq<Step>, stop: Step, rest: seq<Step>, outcomes: seq<bool>, dumps: Source -> Outcome)
    requires AlwaysStops(stop)
    ensures var r := FailFast(prefix + ([stop] + rest), outcomes, dumps, 0);
      && r.0 != Succeeded
      && r.1 <= prefix + [stop]
      && forall x :: x in r.1 ==> x in prefix || x == stop
  {
    var plan := prefix + ([stop] + rest);
    var r := FailFast(plan, outcomes, dumps, 0);
    var j := |prefix|;
    assert plan[j] == stop;
    FailFastPrefix(plan, outcomes, dumps, 0);
    if r.0 == Succeeded || |r.1| > j + 1 {
      StopIsLast(plan, outcomes, dumps, j);
    }
    assert (prefix + [stop]) == plan[..j + 1];
    PrefixMembers(r.1, prefix + [stop]);
  }

  /** A walk whose last step is of a kind the tail of the plan lacks never reached that tail. */
  lemma Confined(a: seq<Step>, b: seq<Step>, outcomes: seq<bool>, dumps: Source -> Outcome, kind: Step -> bool)
    requires forall x :: x in b ==> !kind(x)
    requires var r := FailFast(a + b, outcomes, dumps, 0); |r.1| > 0 && kind(r.1[|r.1| - 1])
    ensures FailFast(a + b, outcomes, dumps, 0).1 <= a
    ensures forall x :: x in FailFast(a + b, outcomes, dumps, 0).1 ==> x in a
  {
    var r := FailFast(a + b, outcomes, dumps, 0);
    FailFastPrefix(a + b, outcomes, dumps, 0);
    PrefixMembers(r.1, a);
  }

  /**
   * A walk over `a + b` whose last step is of a kind `b` lacks stopped inside
   * `a`: it does not succeed, ends the way that step ends, and takes no step
   * of a kind `a` lacks.
   */
  lemma StoppedInside(a: seq<Step>, b: seq<Step>, outcomes: seq<bool>, dumps: Source -> Outcome,
                      kind: Step -> bool, later: Step -> bool)
    requires |b| > 0
    requires forall x :: x in b ==> !kind(x)
    requires forall x :: x in a ==> !later(x)
    requires var r := FailFast(a + b, outcomes, dumps, 0); |r.1| > 0 && kind(r.1[|r.1| - 1])
    ensures var r := FailFast(a + b, outcomes, dumps, 0);
      && r.0 != Succeeded
      && r.1[|r.1| - 1] in a
      && r.0 == Verdict(r.1[|r.1| - 1], Succeeds(outcomes, Issued(r.1[..|r.1| - 1])), dumps)
      && forall x :: x in r.1 ==> !later(x)
  {
    Confined(a, b, outcomes, dumps, kind);
    FailFastPrefix(a + b, outcomes, dumps, 0);
    FailFastStops(a + b, outcomes, dumps, 0);
  }

  /** A walk never takes a kind of step its plan lacks. */
  lemma NoneTaken(plan: seq<Step>, outcomes: seq<bool>, dumps: Source -> Outcome, kind: Step -> bool)
    requires forall x :: x in plan ==> !kind(x)
    ensures forall x :: x in FailFast(plan, outcomes, dumps, 0).1 ==> !kind(x)
  {
    FailFastPrefix(plan, outcomes, dumps, 0);
    PrefixMembers(FailFast(plan, outcomes, dumps, 0).1, plan);
  }

  /** A walk that takes a step that stops every run ends with it, the way that step ends. */
  lemma EndsAt(plan: seq<Step>, outcomes: seq<bool>, dumps: Source -> Outcome, x: Step)
    requires x in FailFast(plan, outcomes, dumps, 0).1 && AlwaysStops(x)
    ensures var r := FailFast(plan, outcomes, dumps, 0);
      && r.0 != Succeeded
      && r.1[|r.1| - 1] == x
      && r.0 == Verdict(x, Succeeds(outcomes, Issued(r.1[..|r.1| - 1])), dumps)
  {
    var r := FailFast(plan, outcomes, dumps, 0);
    var k :| 0 <= k < |r.1| && r.1[k] == x;
    StopIsLast(plan, outcomes, dumps, k);
    var taken, last := StopPoint(plan, outcomes, dumps, 0);
    assert r.1[..|r.1| - 1] == taken;
    assert last == x;
  }

  /** Walks whose oracles agree from index `next` on are the same walk. */
  lemma {:induction false} SameOracleFrom(plan: seq<Step>, outcomes1: seq<bool>, outcomes2: seq<bool>,
                                          dumps: Source -> Outcome, next: nat)
    requires forall i :: i >= next ==> Succeeds(outcomes1, i) == Succeeds(outcomes2, i)
    ensures FailFast(plan, outcomes1, dumps, next) == FailFast(plan, outcomes2, dumps, next)
    decreases |plan|
  {
    if |plan| > 0 {
      SameOracleFrom(plan[1..], outcomes1, outcomes2, dumps, next + Commands(plan[0]));
    }
  }

  // ---------------------------------------------------------------------------
  // Runs of `run_backup`
  // ---------------------------------------------------------------------------

  /** The first steps of a run that found the backup root: init, unlock, load the configuration. */
  function Head(loaded: bool): seq<Step>
  {
    [RequireEnv(BackupRootVariable, true), ResticInit, ResticUnlock, ConfigLoaded(loaded)]
  }

  /** The plan of a run that loaded its configuration: the head, then what follows the load. */
  lemma PlanOfConfig(env: Env, config: Config, reloaded: Option<Config>, prune: bool)
    requires BackupRootVariable in env
    ensures RunPlan(env, Some(config), reloaded, prune)
      == Head(true) + ConfigSteps(env, Resolve(env[BackupRootVariable], env, MaxResolveDepth), config, reloaded, prune)
  {
    PlanStart(env, Some(config), reloaded, prune);
    assert [RequireEnv(BackupRootVariable, true), ResticInit, ResticUnlock] + [ConfigLoaded(true)] == Head(true);
  }

  /** The plan of a run that loaded its configuration, cut after the scripts and after the dumps. */
  lemma ConfiguredPlan(env: Env, config: Config, reloaded: Option<Config>, prune: bool)
    requires BackupRootVariable in env
    ensures var backupRoot := Resolve(env[BackupRootVariable], env, MaxResolveDepth);
      var scripts := ScriptSteps(config.preBackupScripts.GetOr([]));
      var dumpSteps := DumpSteps(SourceOrder, config.sources);
      var hostSteps := HostSteps(env, backupRoot, config, reloaded, prune);
      && RunPlan(env, Some(config), reloaded, prune) == (Head(true) + scripts) + (dumpSteps + hostSteps)
      && RunPlan(env, Some(config), reloaded, prune) == ((Head(true) + scripts) + dumpSteps) + hostSteps
  {
    var backupRoot := Resolve(env[BackupRootVariable], env, MaxResolveDepth);
    var scripts := ScriptSteps(config.preBackupScripts.GetOr([]));
    var dumpSteps := DumpSteps(SourceOrder, config.sources);
    var hostSteps := HostSteps(env, backupRoot, config, reloaded, prune);
    PlanOfConfig(env, config, reloaded, prune);
    assert ConfigSteps(env, backupRoot, config, reloaded, prune) == scripts + (dumpSteps + hostSteps);
    Regroup(Head(true), scripts, dumpSteps + hostSteps);
    Regroup(Head(true) + scripts, dumpSteps, hostSteps);
  }

  /**
   * `init_restic_repo`'s result is ignored: two runs whose oracles differ only
   * in the outcome of that first command take the same steps and end the same way.
   */
  lemma InitResultIgnored(env: Env, loaded: Option<Config>, reloaded: Option<Config>, prune: bool,
                          outcomes1: seq<bool>, outcomes2: seq<bool>, dumps: Source -> Outcome)
    requires forall i :: i >= 1 ==> Succeeds(outcomes1, i) == Succeeds(outcomes2, i)
    ensures FailFast(RunPlan(env, loaded, reloaded, prune), outcomes1, dumps, 0)
         == FailFast(RunPlan(env, loaded, reloaded, prune), outcomes2, dumps, 0)
  {
    var plan := RunPlan(env, loaded, reloaded, prune);
    var found := BackupRootVariable in env;
    var first := RequireEnv(BackupRootVariable, found);
    var after := if !found then [] else RootSteps(env, Resolve(env[BackupRootVariable], env, MaxResolveDepth), loaded, reloaded, prune);
    assert plan == [first] + after;
    FailFastCons(first, after, outcomes1, dumps, 0);
    FailFastCons(first, after, outcomes2, dumps, 0);
    if found {
      assert after == [ResticInit] + after[1..];
      FailFastCons(ResticInit, after[1..], outcomes1, dumps, 0);
      FailFastCons(ResticInit, after[1..], outcomes2, dumps, 0);
      SameOracleFrom(after[1..], outcomes1, outcomes2, dumps, 1);
    }
  }

  /**
   * Without `BACKUP_ROOT` the run aborts at once. With it but without a
   * configuration, it initialises and unlocks the repository and then fails
   * (or aborts, if the unlock fails): no script, dump or restic backup runs.
   */
  lemma ConfigMissingStops(env: Env, reloaded: Option<Config>, prune: bool, outcomes: seq<bool>, dumps: Source -> Outcome)
    ensures var r := FailFast(RunPlan(env, None, reloaded, prune), outcomes, dumps, 0);
      && (BackupRootVariable !in env ==> r == (Aborted, [RequireEnv(BackupRootVariable, false)]))
      && (BackupRootVariable in env && Succeeds(outcomes, 1) ==> r == (Failed, Head(false)))
      && (BackupRootVariable in env && !Succeeds(outcomes, 1) ==> r == (Aborted, [RequireEnv(BackupRootVariable, true), ResticInit, ResticUnlock]))
  {
    var plan := RunPlan(env, None, reloaded, prune);
    if BackupRootVariable !in env {
      assert plan == [RequireEnv(BackupRootVariable, false)] + [];
      FailFastCons(RequireEnv(BackupRootVariable, false), [], outcomes, dumps, 0);
    } else {
      assert plan == Head(false);
      var tail := [ConfigLoaded(false)];
      FailFastCons(ConfigLoaded(false), [], outcomes, dumps, 2);
      FailFastCons(ResticUnlock, tail, outcomes, dumps, 1);
      FailFastCons(ResticInit, [ResticUnlock] + tail, outcomes, dumps, 0);
      assert plan == [RequireEnv(BackupRootVariable, true)] + ([ResticInit] + ([ResticUnlock] + tail));
      FailFastCons(RequireEnv(BackupRootVariable, true), [ResticInit] + ([ResticUnlock] + tail), outcomes, dumps, 0);
      assert [RequireEnv(BackupRootVariable, true)] + ([ResticInit] + [ResticUnlock]) == [RequireEnv(BackupRootVariable, true), ResticInit, ResticUnlock];
    }
  }

  predicate IsScript(step: Step) { step.PreBackupScript? }

  predicate IsDump(step: Step) { step.DumpSource? }

  /** The dumps and the steps that come after them. */
  predicate NotBeforeDumps(step: Step)
  {
    step.DumpSource? || AfterDumps(step)
  }

  /** The steps that come after the dumps. */
  predicate AfterDumps(step: Step)
  {
    step.ResticBackup? || step.ResticForget? || step.ResticPrune? || step.NoRetention?
  }

  /**
   * A plan of `run_backup` cut in three: what comes before the scripts, the
   * scripts and dumps, and what comes after the dumps. A run that did not find
   * the backup root or load its configuration has only the first part.
   */
  lemma PlanParts(env: Env, loaded: Option<Config>, reloaded: Option<Config>, prune: bool)
    returns (head: seq<Step>, scripts: seq<Step>, dumpSteps: seq<Step>, tail: seq<Step>)
    ensures RunPlan(env, loaded, reloaded, prune) == ((head + scripts) + dumpSteps) + tail
    ensures RunPlan(env, loaded, reloaded, prune) == (head + scripts) + (dumpSteps + tail)
    ensures forall x :: x in head ==> x.RequireEnv? || x.ResticInit? || x.ResticUnlock? || x.ConfigLoaded?
    ensures forall x :: x in scripts ==> IsScript(x)
    ensures forall x :: x in dumpSteps ==> IsDump(x) && loaded.Some? && x.source in loaded.value.sources
    ensures forall x :: x in tail ==> !IsScript(x) && !IsDump(x)
    ensures |tail| > 0 || (scripts == [] && dumpSteps == [])
    ensures scripts != [] || dumpSteps != [] ==> BackupRootVariable in env && loaded.Some?
  {
    if BackupRootVariable in env && loaded.Some? {
      var config := loaded.value;
      var backupRoot := Resolve(env[BackupRootVariable], env, MaxResolveDepth);
      head := Head(true);
      scripts := ScriptSteps(config.preBackupScripts.GetOr([]));
      dumpSteps := DumpSteps(SourceOrder, config.sources);
      tail := HostSteps(env, backupRoot, config, reloaded, prune);
      ConfiguredPlan(env, config, reloaded, prune);
      ScriptStepsOfEntries(config.preBackupScripts.GetOr([]));
      DumpStepsOfSources(SourceOrder, config.sources);
      var _, _ := HostPlan(env, backupRoot, config, reloaded, prune);
    } else {
      head, scripts, dumpSteps, tail := RunPlan(env, loaded, reloaded, prune), [], [], [];
    }
  }

  /**
   * A run that stops at a pre-backup script fails (it does not abort), and it
   * ran no dump, no restic backup, forget or prune: scripts run only after the
   * configuration loaded, and a failing one ends the run.
   */
  lemma ScriptFailureSkipsLater(env: Env, loaded: Option<Config>, reloaded: Option<Config>, prune: bool,
                                outcomes: seq<bool>, dumps: Source -> Outcome)
    requires var r := FailFast(RunPlan(env, loaded, reloaded, prune), outcomes, dumps, 0);
      |r.1| > 0 && r.1[|r.1| - 1].PreBackupScript?
    ensures var r := FailFast(RunPlan(env, loaded, reloaded, prune), outcomes, dumps, 0);
      && r.0 == Failed
      && BackupRootVariable in env && loaded.Some?
      && forall x :: x in r.1 ==> !NotBeforeDumps(x)
  {
    var head, scripts, dumpSteps, tail := PlanParts(env, loaded, reloaded, prune);
    ScriptStop(head + scripts, dumpSteps + tail, scripts == [] && dumpSteps == [], outcomes, dumps);
  }

  /** `ScriptFailureSkipsLater` over the parts of any plan: scripts, then dumps and what follows. */
  lemma ScriptStop(a: seq<Step>, b: seq<Step>, bare: bool, outcomes: seq<bool>, dumps: Source -> Outcome)
    requires forall x :: x in a ==> !NotBeforeDumps(x)
    requires forall x :: x in b ==> !IsScript(x)
    requires bare ==> forall x :: x in a ==> !IsScript(x)
    requires |b| > 0 || bare
    requires var r := FailFast(a + b, outcomes, dumps, 0); |r.1| > 0 && IsScript(r.1[|r.1| - 1])
    ensures var r := FailFast(a + b, outcomes, dumps, 0);
      && r.0 == Failed && !bare
      && forall x :: x in r.1 ==> !NotBeforeDumps(x)
  {
    var r := FailFast(a + b, outcomes, dumps, 0);
    TakenFromPlan(a + b, outcomes, dumps, r.1[|r.1| - 1]);
    if |b| > 0 {
      StoppedInside(a, b, outcomes, dumps, IsScript, NotBeforeDumps);
    }
  }

  /**
   * A run that stops at a dump ends the way that dump ends, which is not a
   * success, and it ran no restic backup, forget or prune: the dumps run after
   * the scripts, for configured sources only.
   */
  lemma DumpFailureSkipsRest(env: Env, loaded: Option<Config>, reloaded: Option<Config>, prune: bool,
                             outcomes: seq<bool>, dumps: Source -> Outcome)
    requires var r := FailFast(RunPlan(env, loaded, reloaded, prune), outcomes, dumps, 0);
      |r.1| > 0 && r.1[|r.1| - 1].DumpSource?
    ensures var r := FailFast(RunPlan(env, loaded, reloaded, prune), outcomes, dumps, 0);
      var source := r.1[|r.1| - 1].source;
      && BackupRootVariable in env && loaded.Some?
      && source in loaded.value.sources
      && r.0 == dumps(source) && r.0 != Succeeded
      && forall x :: x in r.1 ==> !AfterDumps(x)
  {
    var head, scripts, dumpSteps, tail := PlanParts(env, loaded, reloaded, prune);
    DumpStop(head + scripts, dumpSteps, tail, outcomes, dumps);
  }

  /** `DumpFailureSkipsRest` over the parts of any plan: the dumps, then what follows them. */
  lemma DumpStop(a: seq<Step>, dumpSteps: seq<Step>, tail: seq<Step>, outcomes: seq<bool>, dumps: Source -> Outcome)
    requires forall x :: x in a ==> !NotBeforeDumps(x)
    requires forall x :: x in dumpSteps ==> IsDump(x)
    requires forall x :: x in tail ==> !IsDump(x)
    requires |tail| > 0 || dumpSteps == []
    requires var r := FailFast((a + dumpSteps) + tail, outcomes, dumps, 0); |r.1| > 0 && IsDump(r.1[|r.1| - 1])
    ensures var r := FailFast((a + dumpSteps) + tail, outcomes, dumps, 0);
      var last := r.1[|r.1| - 1];
      && last in dumpSteps
      && r.0 == dumps(last.source) && r.0 != Succeeded
      && forall x :: x in r.1 ==> !AfterDumps(x)
  {
    var r := FailFast((a + dumpSteps) + tail, outcomes, dumps, 0);
    TakenFromPlan((a + dumpSteps) + tail, outcomes, dumps, r.1[|r.1| - 1]);
    if |tail| > 0 {
      StoppedInside(a + dumpSteps, tail, outcomes, dumps, IsDump, AfterDumps);
    }
  }



  /** The timeouts under which `prune_repository` goes on to prune. */
  predicate Runnable(timeout: Timeout)
  {
    timeout.NoTimeout? || timeout.Limit?
  }

  /** The restic forget and prune steps of a plan carry the commands their settings give. */
  predicate CommandsFrom(steps: seq<Step>, forget: Option<seq<string>>, prune: bool, reloaded: bool, timeout: Timeout)
  {
    && (forall x :: x in steps && x.ResticForget? ==> forget == Some(x.argv))
    && (forall x :: x in steps && x.ResticPrune? ==>
          prune && reloaded && Runnable(timeout) && x.argv == PruneCommand(timeout))
  }

  /** The prune steps of `prune_repository`, by what it loaded and the timeout it read. */
  lemma PrunePlan(loaded: bool, timeout: Timeout)
    ensures var steps := PruneSteps(loaded, timeout);
      && (!loaded ==> ConfigLoaded(false) in steps)
      && (loaded && !Runnable(timeout) ==> PruneTimeoutRead(timeout) in steps)
      && (loaded && Runnable(timeout) ==> steps[|steps| - 1] == ResticPrune(PruneCommand(timeout)))
      && CommandsFrom(steps, None, true, loaded, timeout)
      && forall x :: x in steps ==> !IsScript(x) && !IsDump(x) && !x.NoRetention?
  {
  }

  /** The steps from `restic backup` on, by the forget command and the steps `prune_repository` adds. */
  lemma CleanupPlan(backup: seq<Step>, forget: Option<seq<string>>, pruneSteps: seq<Step>,
                    prune: bool, reloaded: bool, timeout: Timeout)
    returns (before: seq<Step>, after: seq<Step>)
    requires forall x :: x in backup ==> !x.ResticForget? && !x.ResticPrune? && !IsScript(x) && !IsDump(x)
    requires forall x :: x in pruneSteps ==> !x.ResticForget? && !IsScript(x) && !IsDump(x)
    requires CommandsFrom(pruneSteps, None, prune, reloaded, timeout)
    ensures var steps := backup + (CleanupSteps(forget) + pruneSteps);
      && (forall x :: x in steps ==> !IsScript(x) && !IsDump(x))
      && (forget.None? ==> steps == before + ([NoRetention] + after))
      && (forget.None? ==> forall x :: x in before ==> !x.ResticForget? && !x.ResticPrune?)
      && (forget.Some? ==> steps == before + pruneSteps)
      && (forget.Some? && pruneSteps == [] ==> steps[|steps| - 1] == ResticForget(forget.value))
      && CommandsFrom(steps, forget, prune, reloaded, timeout)
  {
    var cleanup := CleanupSteps(forget);
    assert forall x :: x in cleanup ==> !IsScript(x) && !IsDump(x) && !x.ResticPrune? && (x.ResticForget? ==> forget == Some(x.argv));
    if forget.None? {
      before, after := backup, pruneSteps;
    } else {
      before := backup + cleanup;
      after := [];
      Regroup(backup, cleanup, pruneSteps);
      if pruneSteps == [] {
        assert before + pruneSteps == before;
      }
    }
  }

  /** The steps from the host-name lookup on, by the settings they depend on. */
  lemma HostPlan(env: Env, backupRoot: string, config: Config, reloaded: Option<Config>, prune: bool)
    returns (before: seq<Step>, after: seq<Step>)
    ensures HostVariable !in env ==> HostSteps(env, backupRoot, config, reloaded, prune) == [RequireEnv(HostVariable, false)]
    ensures HostVariable in env && ForgetCommand(config.keep, env).None? ==>
      && HostSteps(env, backupRoot, config, reloaded, prune) == before + ([NoRetention] + after)
      && forall x :: x in before ==> !x.ResticForget? && !x.ResticPrune?
    ensures HostVariable in env && ForgetCommand(config.keep, env).Some? && !prune ==>
      var steps := HostSteps(env, backupRoot, config, reloaded, prune);
      steps[|steps| - 1] == ResticForget(ForgetCommand(config.keep, env).value)
    ensures HostVariable in env && ForgetCommand(config.keep, env).Some? && prune ==>
      HostSteps(env, backupRoot, config, reloaded, prune) == before + PruneSteps(reloaded.Some?, TimeoutOf(env))
    ensures CommandsFrom(HostSteps(env, backupRoot, config, reloaded, prune), ForgetCommand(config.keep, env), prune, reloaded.Some?, TimeoutOf(env))
    ensures forall x :: x in HostSteps(env, backupRoot, config, reloaded, prune) ==> !IsScript(x) && !IsDump(x)
    ensures |HostSteps(env, backupRoot, config, reloaded, prune)| > 0
  {
    var backup := HostShape(env, backupRoot, config, reloaded, prune);
    if HostVariable in env {
      var timeout := TimeoutOf(env);
      PrunePlan(reloaded.Some?, timeout);
      var pruneSteps := if prune then PruneSteps(reloaded.Some?, timeout) else [];
      before, after := CleanupPlan(backup, ForgetCommand(config.keep, env), pruneSteps, prune, reloaded.Some?, timeout);
    } else {
      before, after := [], [];
    }
  }

  /** The host-name lookup and the backup come before the cleanup steps. */
  lemma HostShape(env: Env, backupRoot: string, config: Config, reloaded: Option<Config>, prune: bool)
    returns (backup: seq<Step>)
    ensures HostVariable !in env ==> HostSteps(env, backupRoot, config, reloaded, prune) == [RequireEnv(HostVariable, false)]
    ensures HostVariable in env ==>
      HostSteps(env, backupRoot, config, reloaded, prune)
        == backup + (CleanupSteps(ForgetCommand(config.keep, env)) + if prune then PruneSteps(reloaded.Some?, TimeoutOf(env)) else [])
    ensures forall x :: x in backup ==> !x.ResticForget? && !x.ResticPrune? && !IsScript(x) && !IsDump(x)
  {
    if HostVariable in env {
      var host := Resolve(env[HostVariable], env, MaxResolveDepth);
      backup := [RequireEnv(HostVariable, true), ResticBackup(BackupArgv(Options(config, host, backupRoot)))];
    } else {
      backup := [];
    }
  }

  /** A run that found the backup root, loaded its configuration and found the host name. */
  predicate Configured(env: Env, loaded: Option<Config>)
  {
    BackupRootVariable in env && loaded.Some? && HostVariable in env
  }

  /** The forget command a run's configuration and environment give, if any. */
  function ForgetOf(env: Env, loaded: Option<Config>): Option<seq<string>>
  {
    if loaded.Some? then ForgetCommand(loaded.value.keep, env) else None
  }

  /**
   * The plan of `run_backup` by the settings it depends on: where it stops
   * whatever the commands do, and how it ends when nothing stops it.
   */
  lemma WholePlan(env: Env, loaded: Option<Config>, reloaded: Option<Config>, prune: bool)
    returns (before: seq<Step>, after: seq<Step>, stop: Step)
    ensures !Configured(env, loaded) ==>
      && AlwaysStops(stop) && stop in RunPlan(env, loaded, reloaded, prune)
      && forall x :: x in RunPlan(env, loaded, reloaded, prune) ==> !x.ResticForget? && !x.ResticPrune?
    ensures Configured(env, loaded) && ForgetOf(env, loaded).None? ==>
      && RunPlan(env, loaded, reloaded, prune) == before + ([NoRetention] + after)
      && forall x :: x in before ==> !x.ResticForget? && !x.ResticPrune?
    ensures Configured(env, loaded) && ForgetOf(env, loaded).Some? && !prune ==>
      var plan := RunPlan(env, loaded, reloaded, prune);
      plan[|plan| - 1] == ResticForget(ForgetOf(env, loaded).value)
    ensures Configured(env, loaded) && ForgetOf(env, loaded).Some? && prune ==>
      RunPlan(env, loaded, reloaded, prune) == before + PruneSteps(reloaded.Some?, TimeoutOf(env))
    ensures CommandsFrom(RunPlan(env, loaded, reloaded, prune), ForgetOf(env, loaded), prune, reloaded.Some?, TimeoutOf(env))
  {
    if Configured(env, loaded) {
      before, after := ConfiguredWholePlan(env, loaded, reloaded, prune);
      stop := NoRetention;
    } else {
      stop := UnconfiguredPlan(env, loaded, reloaded, prune);
      before, after := [], [];
    }
  }

  /** Without the backup root, the configuration or the host name, the plan holds a step that stops it and no forget or prune. */
  lemma UnconfiguredPlan(env: Env, loaded: Option<Config>, reloaded: Option<Config>, prune: bool)
    returns (stop: Step)
    requires !Configured(env, loaded)
    ensures AlwaysStops(stop) && stop in RunPlan(env, loaded, reloaded, prune)
    ensures forall x :: x in RunPlan(env, loaded, reloaded, prune) ==> !x.ResticForget? && !x.ResticPrune?
  {
    var plan := RunPlan(env, loaded, reloaded, prune);
    if BackupRootVariable !in env {
      stop := RequireEnv(BackupRootVariable, false);
      assert plan == [stop];
    } else if loaded.None? {
      stop := ConfigLoaded(false);
      assert plan == Head(false);
    } else {
      var config := loaded.value;
      var backupRoot := Resolve(env[BackupRootVariable], env, MaxResolveDepth);
      var first := (Head(true) + ScriptSteps(config.preBackupScripts.GetOr([]))) + DumpSteps(SourceOrder, config.sources);
      ConfiguredPlan(env, config, reloaded, prune);
      BeforeHostKinds(config);
      var _ := HostShape(env, backupRoot, config, reloaded, prune);
      stop := RequireEnv(HostVariable, false);
      StopAppended(first, stop);
    }
  }

  /** A plan cut short by a step that is neither a forget nor a prune. */
  lemma StopAppended(first: seq<Step>, stop: Step)
    requires forall x :: x in first ==> !x.ResticForget? && !x.ResticPrune?
    requires stop.RequireEnv?
    ensures stop in first + [stop]
    ensures forall x :: x in first + [stop] ==> !x.ResticForget? && !x.ResticPrune?
  {
    assert (first + [stop])[|first|] == stop;
  }

  /** With the backup root, the configuration and the host name, the plan ends with the cleanup and prune steps. */
  lemma ConfiguredWholePlan(env: Env, loaded: Option<Config>, reloaded: Option<Config>, prune: bool)
    returns (before: seq<Step>, after: seq<Step>)
    requires Configured(env, loaded)
    ensures ForgetOf(env, loaded).None? ==>
      && RunPlan(env, loaded, reloaded, prune) == before + ([NoRetention] + after)
      && forall x :: x in before ==> !x.ResticForget? && !x.ResticPrune?
    ensures ForgetOf(env, loaded).Some? && !prune ==>
      var plan := RunPlan(env, loaded, reloaded, prune);
      plan[|plan| - 1] == ResticForget(ForgetOf(env, loaded).value)
    ensures ForgetOf(env, loaded).Some? && prune ==>
      RunPlan(env, loaded, reloaded, prune) == before + PruneSteps(reloaded.Some?, TimeoutOf(env))
    ensures CommandsFrom(RunPlan(env, loaded, reloaded, prune), ForgetOf(env, loaded), prune, reloaded.Some?, TimeoutOf(env))
  {
    var config := loaded.value;
    var backupRoot := Resolve(env[BackupRootVariable], env, MaxResolveDepth);
    var first := (Head(true) + ScriptSteps(config.preBackupScripts.GetOr([]))) + DumpSteps(SourceOrder, config.sources);
    ConfiguredPlan(env, config, reloaded, prune);
    BeforeHostKinds(config);
    var hostBefore, hostAfter := HostPlan(env, backupRoot, config, reloaded, prune);
    before, after := JoinHost(first, HostSteps(env, backupRoot, config, reloaded, prune), hostBefore, hostAfter,
                              ForgetOf(env, loaded), PruneSteps(reloaded.Some?, TimeoutOf(env)),
                              prune, reloaded.Some?, TimeoutOf(env));
  }

  /** No step before the host-name lookup is a restic forget or prune. */
  lemma BeforeHostKinds(config: Config)
    ensures var first := (Head(true) + ScriptSteps(config.preBackupScripts.GetOr([]))) + DumpSteps(SourceOrder, config.sources);
      forall x :: x in first ==> !x.ResticForget? && !x.ResticPrune?
  {
    ScriptStepsOfEntries(config.preBackupScripts.GetOr([]));
    DumpStepsOfSources(SourceOrder, config.sources);
  }

  /** The steps before the host-name lookup change nothing about how the plan ends. */
  lemma JoinHost(first: seq<Step>, hostSteps: seq<Step>, hostBefore: seq<Step>, hostAfter: seq<Step>,
                 forget: Option<seq<string>>, pruneSteps: seq<Step>, prune: bool, reloaded: bool, timeout: Timeout)
    returns (before: seq<Step>, after: seq<Step>)
    requires forall x :: x in first ==> !x.ResticForget? && !x.ResticPrune?
    requires forget.None? ==>
      && hostSteps == hostBefore + ([NoRetention] + hostAfter)
      && forall x :: x in hostBefore ==> !x.ResticForget? && !x.ResticPrune?
    requires forget.Some? && !prune ==> |hostSteps| > 0 && hostSteps[|hostSteps| - 1] == ResticForget(forget.value)
    requires forget.Some? && prune ==> hostSteps == hostBefore + pruneSteps
    requires CommandsFrom(hostSteps, forget, prune, reloaded, timeout)
    ensures var plan := first + hostSteps;
      && (forget.None? ==>
            && plan == before + ([NoRetention] + after)
            && forall x :: x in before ==> !x.ResticForget? && !x.ResticPrune?)
      && (forget.Some? && !prune ==> plan[|plan| - 1] == ResticForget(forget.value))
      && (forget.Some? && prune ==> plan == before + pruneSteps)
      && CommandsFrom(plan, forget, prune, reloaded, timeout)
  {
    before, after := first + hostBefore, hostAfter;
    if forget.None? {
      Regroup(first, hostBefore, [NoRetention] + after);
    } else if prune {
      Regroup(first, hostBefore, pruneSteps);
    } else {
      assert (first + hostSteps)[|first + hostSteps| - 1] == hostSteps[|hostSteps| - 1];
    }
  }

  /**
   * A run succeeds only when it took every step of its plan: both variables
   * were set, the configuration loaded and a retention bucket was found. It
   * then ends with `restic forget`, or, when asked to prune, with `restic prune`
   * under the timeout read from a set `RESTIC_PRUNE_TIMEOUT`.
   */
  lemma SuccessfulRun(env: Env, loaded: Option<Config>, reloaded: Option<Config>, prune: bool,
                      outcomes: seq<bool>, dumps: Source -> Outcome)
    requires FailFast(RunPlan(env, loaded, reloaded, prune), outcomes, dumps, 0).0 == Succeeded
    ensures var r := FailFast(RunPlan(env, loaded, reloaded, prune), outcomes, dumps, 0);
      && r.1 == RunPlan(env, loaded, reloaded, prune)
      && Configured(env, loaded) && ForgetOf(env, loaded).Some?
      && (!prune ==> r.1[|r.1| - 1] == ResticForget(ForgetOf(env, loaded).value))
      && (prune ==> && reloaded.Some? && TimeoutVariable in env && Runnable(TimeoutOf(env))
                    && r.1[|r.1| - 1] == ResticPrune(PruneCommand(TimeoutOf(env))))
  {
    var plan := RunPlan(env, loaded, reloaded, prune);
    var before, after, stop := WholePlan(env, loaded, reloaded, prune);
    FailFastPrefix(plan, outcomes, dumps, 0);
    if !Configured(env, loaded) {
      NeverPasses(plan, outcomes, dumps, stop);
    } else if ForgetOf(env, loaded).None? {
      NeverPasses(plan, outcomes, dumps, NoRetention);
    } else if prune {
      var timeout := TimeoutOf(env);
      PrunePlan(reloaded.Some?, timeout);
      if reloaded.None? {
        NeverPasses(plan, outcomes, dumps, ConfigLoaded(false));
      } else if !Runnable(timeout) {
        NeverPasses(plan, outcomes, dumps, PruneTimeoutRead(timeout));
      }
    }
  }

  /**
   * With `RESTIC_PRUNE_TIMEOUT` unset, a run asked to prune never succeeds and
   * never runs `restic prune`; once it reads the timeout it aborts there.
   */
  lemma UnsetPruneTimeoutAborts(env: Env, loaded: Option<Config>, reloaded: Option<Config>,
                                outcomes: seq<bool>, dumps: Source -> Outcome)
    requires TimeoutVariable !in env
    ensures var r := FailFast(RunPlan(env, loaded, reloaded, true), outcomes, dumps, 0);
      && r.0 != Succeeded
      && (forall x :: x in r.1 ==> !x.ResticPrune?)
      && (PruneTimeoutRead(Fatal) in r.1 ==> r.0 == Aborted && r.1[|r.1| - 1] == PruneTimeoutRead(Fatal))
  {
    var plan := RunPlan(env, loaded, reloaded, true);
    var r := FailFast(plan, outcomes, dumps, 0);
    assert TimeoutOf(env) == Fatal;
    if r.0 == Succeeded {
      SuccessfulRun(env, loaded, reloaded, true, outcomes, dumps);
    }
    var before, after, stop := WholePlan(env, loaded, reloaded, true);
    NoneTaken(plan, outcomes, dumps, IsPrune);
    if PruneTimeoutRead(Fatal) in r.1 {
      EndsAtFatalRead(plan, outcomes, dumps);
    }
  }

  /** A walk that reads a fatal prune timeout aborts there. */
  lemma EndsAtFatalRead(plan: seq<Step>, outcomes: seq<bool>, dumps: Source -> Outcome)
    requires PruneTimeoutRead(Fatal) in FailFast(plan, outcomes, dumps, 0).1
    ensures var r := FailFast(plan, outcomes, dumps, 0);
      r.0 == Aborted && r.1[|r.1| - 1] == PruneTimeoutRead(Fatal)
  {
    EndsAt(plan, outcomes, dumps, PruneTimeoutRead(Fatal));
  }

  predicate IsPrune(step: Step) { step.ResticPrune? }

  /**
   * Without a retention bucket in the configuration or the environment the run
   * never succeeds and runs neither `restic forget` nor `restic prune`; when it
   * gets as far as looking for the buckets, it fails there.
   */
  lemma NoRetentionFailsWithoutPrune(env: Env, config: Config, reloaded: Option<Config>, prune: bool,
                                     outcomes: seq<bool>, dumps: Source -> Outcome)
    requires ForgetCommand(config.keep, env).None?
    ensures var r := FailFast(RunPlan(env, Some(config), reloaded, prune), outcomes, dumps, 0);
      && r.0 != Succeeded
      && (forall x :: x in r.1 ==> !x.ResticForget? && !x.ResticPrune?)
      && (NoRetention in r.1 ==> r.0 == Failed)
  {
    var plan := RunPlan(env, Some(config), reloaded, prune);
    var r := FailFast(plan, outcomes, dumps, 0);
    var before, after, stop := WholePlan(env, Some(config), reloaded, prune);
    if !Configured(env, Some(config)) {
      NeverPasses(plan, outcomes, dumps, stop);
      NoneTaken(plan, outcomes, dumps, IsForgetOrPrune);
    } else {
      StopsWithin(before, NoRetention, after, outcomes, dumps);
    }
    if NoRetention in r.1 {
      EndsAt(plan, outcomes, dumps, NoRetention);
    }
  }

  predicate IsForgetOrPrune(step: Step) { step.ResticForget? || step.ResticPrune? }

  /**
   * `restic forget` runs only with the command the retention settings give,
   * and `restic prune` only when the run was asked to prune, after a bucket was
   * found, with the configuration reloaded and a timeout that parsed.
   */
  lemma ForgetAndPruneCommands(env: Env, loaded: Option<Config>, reloaded: Option<Config>, prune: bool,
                               outcomes: seq<bool>, dumps: Source -> Outcome)
    ensures var r := FailFast(RunPlan(env, loaded, reloaded, prune), outcomes, dumps, 0);
      && (forall x :: x in r.1 && x.ResticForget? ==> ForgetOf(env, loaded) == Some(x.argv))
      && (forall x :: x in r.1 && x.ResticPrune? ==>
            && prune && ForgetOf(env, loaded).Some? && reloaded.Some?
            && TimeoutVariable in env && Runnable(TimeoutOf(env))
            && x.argv == PruneCommand(TimeoutOf(env)))
  {
    var plan := RunPlan(env, loaded, reloaded, prune);
    var before, after, stop := WholePlan(env, loaded, reloaded, prune);
    CommandsTaken(plan, outcomes, dumps, ForgetOf(env, loaded), prune, reloaded.Some?, TimeoutOf(env));
    RunnableNeedsVariable(env);
    if !Configured(env, loaded) {
      NoneTaken(plan, outcomes, dumps, IsForgetOrPrune);
    } else if ForgetOf(env, loaded).None? {
      StopsWithin(before, NoRetention, after, outcomes, dumps);
    }
  }

  /** A walk takes its forget and prune commands from its plan. */
  lemma CommandsTaken(plan: seq<Step>, outcomes: seq<bool>, dumps: Source -> Outcome,
                      forget: Option<seq<string>>, prune: bool, reloaded: bool, timeout: Timeout)
    requires CommandsFrom(plan, forget, prune, reloaded, timeout)
    ensures CommandsFrom(FailFast(plan, outcomes, dumps, 0).1, forget, prune, reloaded, timeout)
  {
    FailFastPrefix(plan, outcomes, dumps, 0);
    PrefixMembers(FailFast(plan, outcomes, dumps, 0).1, plan);
  }

  /** `get_prune_timeout` gives a timeout prune can run under only when the variable is set. */
  lemma RunnableNeedsVariable(env: Env)
    ensures Runnable(TimeoutOf(env)) ==> TimeoutVariable in env
  {
  }
}
