/**
 * The `restic forget` command of `clean_old_backups`.
 *
 * The retention buckets are read either from the `keep` mapping of the
 * configuration or, when the configuration has no `keep`, from the `KEEP_*`
 * environment variables; never from both. Each bucket found adds
 * `--keep-<bucket> <value>`, always in the fixed bucket order. When no bucket is
 * found nothing is deleted and the function returns `None`.
 */
module Retention {
  import opened Wrappers
  import opened Text
  import opened EnvResolver

  /** The retention buckets, in the order their arguments are written. */
  const KeepTypes: seq<string> := ["last", "hourly", "daily", "weekly", "monthly", "yearly"]

  /** The environment variable of each bucket, at the bucket's index in `KeepTypes`. */
  const KeepEnvNames: seq<string> := ["KEEP_LAST", "KEEP_HOURLY", "KEEP_DAILY", "KEEP_WEEKLY", "KEEP_MONTHLY", "KEEP_YEARLY"]

  const ForgetBase: seq<string> := ["restic", "forget"]

  /** Each variable name is `KEEP_` and its bucket in upper case. */
  lemma KeepEnvNameIsUpperCase(i: nat)
    requires i < |KeepTypes|
    ensures i < |KeepEnvNames| && KeepEnvNames[i] == "KEEP_" + AsciiUpper(KeepTypes[i])
  {
    if i == 0 {
      EnvNameOf("last", "KEEP_LAST");
    } else if i == 1 {
      EnvNameOf("hourly", "KEEP_HOURLY");
    } else if i == 2 {
      EnvNameOf("daily", "KEEP_DAILY");
    } else if i == 3 {
      EnvNameOf("weekly", "KEEP_WEEKLY");
    } else if i == 4 {
      EnvNameOf("monthly", "KEEP_MONTHLY");
    } else {
      EnvNameOf("yearly", "KEEP_YEARLY");
    }
  }

  /** `name` is `KEEP_` followed by `bucket` in upper case, character by character. */
  lemma EnvNameOf(bucket: string, name: string)
    requires |name| == 5 + |bucket|
    requires forall k :: 0 <= k < 5 ==> name[k] == "KEEP_"[k]
    requires forall k :: 0 <= k < |bucket| ==> name[5 + k] == UpperChar(bucket[k])
    ensures name == "KEEP_" + AsciiUpper(bucket)
  {
    AsciiUpperOf(bucket, name[5..]);
  }

  /** The value each bucket has in the configuration's `keep`, if any. */
  function ConfigFound(keep: map<string, string>): (found: seq<Option<string>>)
    ensures |found| == |KeepTypes|
  {
    seq(|KeepTypes|, i requires 0 <= i < |KeepTypes| =>
      if KeepTypes[i] in keep then Some(keep[KeepTypes[i]]) else None)
  }

  /** The value each bucket's variable has in the environment, taken verbatim (no placeholder resolution). */
  function EnvFound(env: Env): (found: seq<Option<string>>)
    ensures |found| == |KeepTypes|
  {
    seq(|KeepTypes|, i requires 0 <= i < |KeepTypes| =>
      if KeepEnvNames[i] in env then Some(env[KeepEnvNames[i]]) else None)
  }

  /** The bucket values `clean_old_backups` uses: the configuration's when it has `keep`, else the environment's. */
  function RetentionFound(keep: Option<map<string, string>>, env: Env): (found: seq<Option<string>>)
    ensures |found| == |KeepTypes|
  {
    if keep.Some? then ConfigFound(keep.value) else EnvFound(env)
  }

  /** The `--keep-<bucket> <value>` pairs for the buckets that have a value. */
  function KeepArgs(found: seq<Option<string>>, types: seq<string>): seq<string>
    requires |found| == |types|
  {
    if |types| == 0 then []
    else
      var n := |types| - 1;
      KeepArgs(found[..n], types[..n]) + (if found[n].Some? then ["--keep-" + types[n], found[n].value] else [])
  }

  /** The full `restic forget` command, or `None` when no bucket is configured. */
  function ForgetCommand(keep: Option<map<string, string>>, env: Env): Option<seq<string>>
  {
    var args := KeepArgs(RetentionFound(keep, env), KeepTypes);
    if |args| == 0 then None else Some(ForgetBase + args)
  }

  /** One more bucket considered: its pair, if it has a value, goes after the earlier ones. */
  lemma KeepArgsStep(found: seq<Option<string>>, types: seq<string>, i: nat)
    requires |found| == |types| && i < |types|
    ensures KeepArgs(found[..i + 1], types[..i + 1]) == KeepArgs(found[..i], types[..i])
      + (if found[i].Some? then ["--keep-" + types[i], found[i].value] else [])
  {
    assert found[..i + 1][..i] == found[..i];
    assert types[..i + 1][..i] == types[..i];
  }

  /** The command building of `clean_old_backups`. */
  method BuildForgetCommand(keep: Option<map<string, string>>, env: Env) returns (cmd: Option<seq<string>>)
    ensures cmd == ForgetCommand(keep, env)
  {
    var cleanupCommand := ForgetBase;
    var keepIsValid := false;
    ghost var found := RetentionFound(keep, env);
    if keep.Some? {
      var values := keep.value;
      for i := 0 to |KeepTypes|
        invariant cleanupCommand == ForgetBase + KeepArgs(found[..i], KeepTypes[..i])
        invariant keepIsValid <==> |cleanupCommand| > |ForgetBase|
      {
        var keepType := KeepTypes[i];
        KeepArgsStep(found, KeepTypes, i);
        if keepType in values {
          keepIsValid := true;
          cleanupCommand := cleanupCommand + ["--keep-" + keepType, values[keepType]];
        }
      }
    } else {
      for i := 0 to |KeepTypes|
        invariant cleanupCommand == ForgetBase + KeepArgs(found[..i], KeepTypes[..i])
        invariant keepIsValid <==> |cleanupCommand| > |ForgetBase|
      {
        var keepType := KeepTypes[i];
        var keepEnv := KeepEnvNames[i];
        KeepArgsStep(found, KeepTypes, i);
        if keepEnv in env {
          keepIsValid := true;
          cleanupCommand := cleanupCommand + ["--keep-" + keepType, env[keepEnv]];
        }
      }
    }
    assert found[..|KeepTypes|] == found && KeepTypes[..|KeepTypes|] == KeepTypes;
    if !keepIsValid {
      return None;
    }
    return Some(cleanupCommand);
  }

  // ---------------------------------------------------------------------------
  // What the forget arguments say
  // ---------------------------------------------------------------------------

  /** How many buckets have a value. */
  function CountFound(found: seq<Option<string>>): nat
  {
    if |found| == 0 then 0
    else CountFound(found[..|found| - 1]) + (if found[|found| - 1].Some? then 1 else 0)
  }

  /** A bucket with a value comes after every bucket with a value before it. */
  lemma {:induction false} CountFoundGrows(found: seq<Option<string>>, i: nat, j: nat)
    requires i < j <= |found| && found[i].Some?
    ensures CountFound(found[..i]) < CountFound(found[..j])
    decreases j
  {
    var prefix := found[..j];
    assert prefix[..j - 1] == found[..j - 1];
    if i < j - 1 {
      CountFoundGrows(found, i, j - 1);
    } else {
      assert prefix[j - 1] == found[i];
    }
  }

  /**
   * Where each pair lands: a bucket with a value, preceded by `c` buckets with a
   * value, writes `--keep-<bucket>` at index `2c` and its value at `2c + 1`;
   * nothing else is written. So the pairs follow the bucket order, whatever
   * order the configuration lists them in.
   */
  lemma {:induction false} KeepArgsLayout(found: seq<Option<string>>, types: seq<string>)
    requires |found| == |types|
    ensures |KeepArgs(found, types)| == 2 * CountFound(found)
    ensures forall i :: 0 <= i < |types| && found[i].Some? ==>
      var c := CountFound(found[..i]);
      && 2 * c + 1 < |KeepArgs(found, types)|
      && KeepArgs(found, types)[2 * c] == "--keep-" + types[i]
      && KeepArgs(found, types)[2 * c + 1] == found[i].value
  {
    if |types| > 0 {
      var n := |types| - 1;
      var init := KeepArgs(found[..n], types[..n]);
      KeepArgsLayout(found[..n], types[..n]);
      var args := KeepArgs(found, types);
      forall i | 0 <= i < |types| && found[i].Some?
        ensures var c := CountFound(found[..i]);
          && 2 * c + 1 < |args|
          && args[2 * c] == "--keep-" + types[i]
          && args[2 * c + 1] == found[i].value
      {
        if i < n {
          assert found[..n][..i] == found[..i];
          assert found[..n][i] == found[i] && types[..n][i] == types[i];
          CountFoundGrows(found, i, n);
          assert args[2 * CountFound(found[..i])] == init[2 * CountFound(found[..i])];
          assert args[2 * CountFound(found[..i]) + 1] == init[2 * CountFound(found[..i]) + 1];
        } else {
          assert found[..i] == found[..n];
        }
      }
    }
  }

  /** No bucket with a value, no arguments: the forget command is `None` exactly then. */
  lemma NoBucketNoForget(keep: Option<map<string, string>>, env: Env)
    ensures ForgetCommand(keep, env).None? <==> forall i :: 0 <= i < |KeepTypes| ==> RetentionFound(keep, env)[i].None?
  {
    var found := RetentionFound(keep, env);
    KeepArgsLayout(found, KeepTypes);
    if exists i :: 0 <= i < |KeepTypes| && found[i].Some? {
      var i :| 0 <= i < |KeepTypes| && found[i].Some?;
      assert 2 * CountFound(found[..i]) + 1 < |KeepArgs(found, KeepTypes)|;
    } else {
      CountFoundNone(found);
    }
  }

  lemma {:induction false} CountFoundNone(found: seq<Option<string>>)
    requires forall i :: 0 <= i < |found| ==> found[i].None?
    ensures CountFound(found) == 0
  {
    if |found| > 0 {
      CountFoundNone(found[..|found| - 1]);
    }
  }

  /** A configuration with `keep` decides alone: the `KEEP_*` variables are then ignored. */
  lemma ConfigKeepIgnoresEnvironment(keep: map<string, string>, env1: Env, env2: Env)
    ensures ForgetCommand(Some(keep), env1) == ForgetCommand(Some(keep), env2)
  {
  }

  /** Which buckets have a value: the configured keys, or the variables `KEEP_<BUCKET>` that are set. */
  lemma RetentionFoundSource(keep: Option<map<string, string>>, env: Env, i: nat)
    requires i < |KeepTypes|
    ensures keep.Some? ==> (RetentionFound(keep, env)[i].Some? <==> KeepTypes[i] in keep.value)
    ensures keep.Some? && KeepTypes[i] in keep.value ==> RetentionFound(keep, env)[i].value == keep.value[KeepTypes[i]]
    ensures keep.None? ==> (RetentionFound(keep, env)[i].Some? <==> "KEEP_" + AsciiUpper(KeepTypes[i]) in env)
    ensures keep.None? && KeepEnvNames[i] in env ==> RetentionFound(keep, env)[i].value == env[KeepEnvNames[i]]
  {
    KeepEnvNameIsUpperCase(i);
  }

  /** `flag` is `--keep-` followed by `bucket`, character by character. */
  lemma KeepFlagOf(bucket: string, flag: string)
    requires |flag| == 7 + |bucket|
    requires forall k :: 0 <= k < 7 ==> flag[k] == "--keep-"[k]
    requires forall k :: 0 <= k < |bucket| ==> flag[7 + k] == bucket[k]
    ensures flag == "--keep-" + bucket
  {
  }

  /** Two lists of strings with the same entries at every index are the same list. */
  lemma SameStrings(a: seq<string>, b: seq<string>)
    requires |a| == |b|
    requires forall k :: 0 <= k < |a| ==> a[k] == b[k]
    ensures a == b
  {
  }

  /** The buckets `keep: {weekly: 4, daily: 7}` fills. */
  lemma ConfigExampleFound()
    ensures ConfigFound(map["weekly" := "4", "daily" := "7"]) == [None, None, Some("7"), Some("4"), None, None]
  {
    var keep := map["weekly" := "4", "daily" := "7"];
    var found := ConfigFound(keep);
    assert "last"[0] != "weekly"[0] && "last"[0] != "daily"[0];
    assert "hourly"[0] != "weekly"[0] && "hourly"[0] != "daily"[0];
    assert "monthly"[0] != "weekly"[0] && "monthly"[0] != "daily"[0];
    assert "yearly"[0] != "weekly"[0] && "yearly"[0] != "daily"[0];
    assert found[0].None? && found[1].None? && found[4].None? && found[5].None?;
    assert found[2] == Some("7") && found[3] == Some("4");
  }

  /** The arguments for the daily and weekly buckets, in bucket order. */
  lemma DailyWeeklyArgs()
    ensures KeepArgs([None, None, Some("7"), Some("4"), None, None], KeepTypes)
      == ["--keep-daily", "7", "--keep-weekly", "4"]
  {
    var found: seq<Option<string>> := [None, None, Some("7"), Some("4"), None, None];
    KeepArgsStep(found, KeepTypes, 0);
    KeepArgsStep(found, KeepTypes, 1);
    KeepArgsStep(found, KeepTypes, 2);
    KeepArgsStep(found, KeepTypes, 3);
    KeepArgsStep(found, KeepTypes, 4);
    KeepArgsStep(found, KeepTypes, 5);
    KeepFlagOf("daily", "--keep-daily");
    KeepFlagOf("weekly", "--keep-weekly");
    assert found[..6] == found && KeepTypes[..6] == KeepTypes;
    var args := KeepArgs(found, KeepTypes);
    assert args == [] + [] + ["--keep-daily", "7"] + ["--keep-weekly", "4"] + [] + [];
  }

  /** `keep: {weekly: 4, daily: 7}` gives the daily pair first. */
  lemma ConfigExample(env: Env)
    ensures ForgetCommand(Some(map["weekly" := "4", "daily" := "7"]), env)
      == Some(["restic", "forget", "--keep-daily", "7", "--keep-weekly", "4"])
  {
    ConfigExampleFound();
    DailyWeeklyArgs();
    SameStrings(ForgetBase + ["--keep-daily", "7", "--keep-weekly", "4"],
                ["restic", "forget", "--keep-daily", "7", "--keep-weekly", "4"]);
  }

  /** The buckets `KEEP_LAST=3` fills. */
  lemma EnvironmentExampleFound()
    ensures EnvFound(map["KEEP_LAST" := "3"]) == [Some("3"), None, None, None, None, None]
  {
    var found := EnvFound(map["KEEP_LAST" := "3"]);
    assert KeepEnvNames[0] == "KEEP_LAST";
    assert forall i :: 1 <= i < 6 ==> KeepEnvNames[i][5] != "KEEP_LAST"[5];
    assert found[0] == Some("3");
    assert found[1].None? && found[2].None? && found[3].None? && found[4].None? && found[5].None?;
  }

  /** The arguments for the last bucket alone. */
  lemma LastArgs()
    ensures KeepArgs([Some("3"), None, None, None, None, None], KeepTypes) == ["--keep-last", "3"]
  {
    var found: seq<Option<string>> := [Some("3"), None, None, None, None, None];
    KeepArgsStep(found, KeepTypes, 0);
    KeepArgsStep(found, KeepTypes, 1);
    KeepArgsStep(found, KeepTypes, 2);
    KeepArgsStep(found, KeepTypes, 3);
    KeepArgsStep(found, KeepTypes, 4);
    KeepArgsStep(found, KeepTypes, 5);
    KeepFlagOf("last", "--keep-last");
    assert found[..6] == found && KeepTypes[..6] == KeepTypes;
    assert KeepArgs(found, KeepTypes) == [] + ["--keep-last", "3"] + [] + [] + [] + [];
  }

  /** Without `keep`, `KEEP_LAST=3` gives `--keep-last 3`. */
  lemma EnvironmentExample()
    ensures ForgetCommand(None, map["KEEP_LAST" := "3"]) == Some(["restic", "forget", "--keep-last", "3"])
  {
    EnvironmentExampleFound();
    LastArgs();
    SameStrings(ForgetBase + ["--keep-last", "3"], ["restic", "forget", "--keep-last", "3"]);
  }

  /** An empty `keep` deletes nothing even when `KEEP_*` variables are set. */
  lemma EmptyKeepExample()
    ensures ForgetCommand(Some(map[]), map["KEEP_LAST" := "3"]).None?
  {
    var found := ConfigFound(map[]);
    forall i | 0 <= i < |KeepTypes| ensures found[i].None? {
    }
    NoBucketNoForget(Some(map[]), map["KEEP_LAST" := "3"]);
  }
}
