/**
 * The `restic backup` command `run_backup` builds from the configuration.
 *
 * The command is built by appending to a list; `BackupArgv` says what the
 * finished list holds in terms of `BackupOptions`, and `ParseBackupArgv` reads
 * the options back from a command line, which shows that the command carries
 * every option unambiguously.
 */
module BackupCommand {
  import opened Wrappers
  import opened Text
  import opened BackupConfig

  /** Everything before the host name: low CPU and I/O priority, then `restic backup --host`. */
  const HostPrefix: seq<string> := ["nice", "-n19", "ionice", "-c3", "restic", "backup", "--host"]

  const NoCachePrefix: string := "--no-cache="

  /** What the backup command asks restic for. */
  datatype BackupOptions = BackupOptions(
    host: string,
    excludeCaches: bool,      // `--exclude-caches` is passed
    ignoreInode: bool,        // `--ignore-inode` is passed
    cacheDir: Option<string>, // `--cache-dir <dir>`
    noCache: Option<string>,  // `--no-cache=<value>`
    filesFrom: seq<string>,   // one `--files-from <file>` each, in order
    excludes: seq<string>,    // one `--exclude <pattern>` each, in order
    root: Option<string>)     // the directory to back up, last

  /**
   * The options `run_backup` derives: both toggles are on unless the key is
   * present and truthy, a scalar `include-from` or `exclude` counts as a
   * one-element list, and the backup root is passed only without `include-from`.
   */
  function Options(config: Config, host: string, backupRoot: string): BackupOptions
  {
    BackupOptions(
      host,
      !IsSet(config.excludeCaches),
      !IsSet(config.ignoreInode),
      config.cacheDir,
      config.noCache,
      if config.includeFrom.Some? then Listed(config.includeFrom.value) else [],
      if config.exclude.Some? then Listed(config.exclude.value) else [],
      if config.includeFrom.None? then Some(backupRoot) else None)
  }

  /** `flag v` for each value, in order. */
  function FlagPairs(flag: string, values: seq<string>): (args: seq<string>)
    ensures |args| == 2 * |values|
  {
    if |values| == 0 then []
    else FlagPairs(flag, values[..|values| - 1]) + [flag, values[|values| - 1]]
  }

  function SwitchArg(on: bool, flag: string): seq<string>
  {
    if on then [flag] else []
  }

  function CacheDirArgs(cacheDir: Option<string>): seq<string>
  {
    if cacheDir.Some? then ["--cache-dir", cacheDir.value] else []
  }

  function NoCacheArgs(noCache: Option<string>): seq<string>
  {
    if noCache.Some? then [NoCachePrefix + noCache.value] else []
  }

  /** The single-word and `--cache-dir` options, in the order they are appended. */
  function Switches(o: BackupOptions): seq<string>
  {
    SwitchArg(o.excludeCaches, "--exclude-caches") + SwitchArg(o.ignoreInode, "--ignore-inode")
    + CacheDirArgs(o.cacheDir) + NoCacheArgs(o.noCache)
  }

  /** The command line for a set of options. */
  function BackupArgv(o: BackupOptions): seq<string>
  {
    HostPrefix + [o.host] + Switches(o)
    + FlagPairs("--files-from", o.filesFrom)
    + FlagPairs("--exclude", o.excludes)
    + (if o.root.Some? then [o.root.value] else [])
  }

  /** Appending `flag v` for each value, one pair at a time. */
  method AppendPairs(cmd: seq<string>, flag: string, values: seq<string>) returns (r: seq<string>)
    ensures r == cmd + FlagPairs(flag, values)
  {
    r := cmd;
    for i := 0 to |values|
      invariant r == cmd + FlagPairs(flag, values[..i])
    {
      assert values[..i + 1][..i] == values[..i];
      r := r + [flag, values[i]];
    }
    assert values[..|values|] == values;
  }

  /** The command building of `run_backup`, given the host name and the backup root. */
  method BuildBackupCommand(config: Config, host: string, backupRoot: string) returns (cmd: seq<string>)
    ensures cmd == BackupArgv(Options(config, host, backupRoot))
  {
    ghost var o := Options(config, host, backupRoot);
    ArgvPieces(o);
    cmd := HostPrefix + [host];
    ghost var built := cmd;
    if !(config.excludeCaches.Some? && config.excludeCaches.value) {
      cmd := cmd + ["--exclude-caches"];
    }
    assert cmd == built + SwitchArg(o.excludeCaches, "--exclude-caches");
    built := cmd;
    if !(config.ignoreInode.Some? && config.ignoreInode.value) {
      cmd := cmd + ["--ignore-inode"];
    }
    assert cmd == built + SwitchArg(o.ignoreInode, "--ignore-inode");
    built := cmd;
    if config.cacheDir.Some? {
      cmd := cmd + ["--cache-dir", config.cacheDir.value];
    }
    assert cmd == built + CacheDirArgs(o.cacheDir);
    built := cmd;
    if config.noCache.Some? {
      cmd := cmd + [NoCachePrefix + config.noCache.value];
    }
    assert cmd == built + NoCacheArgs(o.noCache);
    built := cmd;
    if config.includeFrom.Some? {
      cmd := AppendPairs(cmd, "--files-from", Listed(config.includeFrom.value));
    }
    assert cmd == built + FlagPairs("--files-from", o.filesFrom);
    built := cmd;
    if config.exclude.Some? {
      cmd := AppendPairs(cmd, "--exclude", Listed(config.exclude.value));
    }
    assert cmd == built + FlagPairs("--exclude", o.excludes);
    if config.includeFrom.None? {
      cmd := cmd + [backupRoot];
    }
  }

  /** The command line as the pieces `run_backup` appends one after another. */
  lemma ArgvPieces(o: BackupOptions)
    ensures BackupArgv(o) == HostPrefix + [o.host]
      + SwitchArg(o.excludeCaches, "--exclude-caches") + SwitchArg(o.ignoreInode, "--ignore-inode")
      + CacheDirArgs(o.cacheDir) + NoCacheArgs(o.noCache)
      + FlagPairs("--files-from", o.filesFrom) + FlagPairs("--exclude", o.excludes)
      + (if o.root.Some? then [o.root.value] else [])
  {
    var head := HostPrefix + [o.host];
    var s1 := SwitchArg(o.excludeCaches, "--exclude-caches");
    var s2 := SwitchArg(o.ignoreInode, "--ignore-inode");
    var s3 := CacheDirArgs(o.cacheDir);
    var s4 := NoCacheArgs(o.noCache);
    ConcatAssociative(head + s1 + s2, s3, s4);
    ConcatAssociative(head + s1, s2, s3 + s4);
    ConcatAssociative(head, s1, s2 + (s3 + s4));
    assert s1 + (s2 + (s3 + s4)) == Switches(o);
  }

  // ---------------------------------------------------------------------------
  // Reading the options back
  // ---------------------------------------------------------------------------

  /** The values of the leading `flag v` pairs, and what follows them. */
  function ParsePairs(args: seq<string>, flag: string): (r: (seq<string>, seq<string>))
    ensures |r.1| <= |args|
  {
    if |args| >= 2 && args[0] == flag then
      var rest := ParsePairs(args[2..], flag);
      ([args[1]] + rest.0, rest.1)
    else ([], args)
  }

  /** An optional single flag at the front. */
  function ParseSwitch(args: seq<string>, flag: string): (bool, seq<string>)
  {
    if |args| > 0 && args[0] == flag then (true, args[1..]) else (false, args)
  }

  /** An optional `--cache-dir <dir>` at the front. */
  function ParseCacheDir(args: seq<string>): (Option<string>, seq<string>)
  {
    if |args| >= 2 && args[0] == "--cache-dir" then (Some(args[1]), args[2..]) else (None, args)
  }

  /** An optional `--no-cache=<value>` at the front. */
  function ParseNoCache(args: seq<string>): (Option<string>, seq<string>)
  {
    if |args| > 0 && StartsWith(args[0], NoCachePrefix) then (Some(args[0][|NoCachePrefix|..]), args[1..]) else (None, args)
  }

  /** The options a `restic backup` command line of this shape carries, or `None` if it has another shape. */
  function ParseBackupArgv(argv: seq<string>): Option<BackupOptions>
  {
    if |argv| < 8 || argv[..7] != HostPrefix then None
    else
      var host := argv[7];
      var (excludeCaches, r1) := ParseSwitch(argv[8..], "--exclude-caches");
      var (ignoreInode, r2) := ParseSwitch(r1, "--ignore-inode");
      var (cacheDir, r3) := ParseCacheDir(r2);
      var (noCache, r4) := ParseNoCache(r3);
      var (filesFrom, r5) := ParsePairs(r4, "--files-from");
      var (excludes, r6) := ParsePairs(r5, "--exclude");
      if |r6| > 1 then None
      else Some(BackupOptions(host, excludeCaches, ignoreInode, cacheDir, noCache, filesFrom, excludes,
                              if |r6| == 1 then Some(r6[0]) else None))
  }

  /** `FlagPairs` read from the front. */
  lemma {:induction false} FlagPairsCons(flag: string, values: seq<string>)
    requires |values| > 0
    ensures FlagPairs(flag, values) == [flag, values[0]] + FlagPairs(flag, values[1..])
  {
    var n := |values| - 1;
    if n > 0 {
      FlagPairsCons(flag, values[..n]);
      assert values[..n][1..] == values[1..][..n - 1];
      assert values[..n][0] == values[0];
    } else {
      assert values[1..] == [];
    }
  }

  /** Reading the pairs back gives the values, when what follows is not another pair of the same flag. */
  lemma {:induction false} ParsePairsOfFlagPairs(flag: string, values: seq<string>, rest: seq<string>)
    requires !(|rest| >= 2 && rest[0] == flag)
    ensures ParsePairs(FlagPairs(flag, values) + rest, flag) == (values, rest)
  {
    if |values| > 0 {
      FlagPairsCons(flag, values);
      ParsePairsOfFlagPairs(flag, values[1..], rest);
      var args := FlagPairs(flag, values) + rest;
      assert args[2..] == FlagPairs(flag, values[1..]) + rest;
      assert [values[0]] + values[1..] == values;
    } else {
      assert FlagPairs(flag, values) + rest == rest;
    }
  }

  /** What may follow the `--no-cache` option: a pair flag, a path, or nothing. */
  predicate PlainStart(rest: seq<string>)
  {
    |rest| == 0 || rest[0] == "--files-from" || rest[0] == "--exclude" || !StartsWith(rest[0], "--")
  }

  /** No option flag of the command starts with `--no-cache=`. */
  lemma NoFlagIsNoCache()
    ensures !StartsWith("--files-from", NoCachePrefix) && !StartsWith("--exclude", NoCachePrefix)
    ensures !StartsWith("--cache-dir", NoCachePrefix) && !StartsWith("--ignore-inode", NoCachePrefix)
    ensures !StartsWith("--exclude-caches", NoCachePrefix)
  {
    assert "--files-from"[2] != NoCachePrefix[2];
    assert "--exclude"[2] != NoCachePrefix[2];
    assert "--cache-dir"[2] != NoCachePrefix[2];
    assert "--ignore-inode"[2] != NoCachePrefix[2];
    assert "--exclude-caches"[2] != NoCachePrefix[2];
  }

  lemma ReadNoCache(noCache: Option<string>, rest: seq<string>)
    requires PlainStart(rest)
    ensures ParseNoCache(NoCacheArgs(noCache) + rest) == (noCache, rest)
  {
    NoFlagIsNoCache();
    var args := NoCacheArgs(noCache) + rest;
    if noCache.Some? {
      assert args[0] == NoCachePrefix + noCache.value;
      assert args[0][|NoCachePrefix|..] == noCache.value;
      assert args[1..] == rest;
    } else {
      assert args == rest;
    }
  }

  lemma ReadCacheDir(cacheDir: Option<string>, rest: seq<string>)
    requires |rest| > 0 ==> rest[0] != "--cache-dir"
    ensures ParseCacheDir(CacheDirArgs(cacheDir) + rest) == (cacheDir, rest)
  {
    var args := CacheDirArgs(cacheDir) + rest;
    if cacheDir.Some? {
      assert args[2..] == rest;
    } else {
      assert args == rest;
    }
  }

  lemma ReadSwitch(on: bool, flag: string, rest: seq<string>)
    requires |rest| > 0 ==> rest[0] != flag
    ensures ParseSwitch(SwitchArg(on, flag) + rest, flag) == (on, rest)
  {
    var args := SwitchArg(on, flag) + rest;
    if on {
      assert args[1..] == rest;
    } else {
      assert args == rest;
    }
  }

  /** The options before the pairs are read back, given that a pair flag, a path or nothing follows them. */
  lemma ReadSwitches(o: BackupOptions, rest: seq<string>)
    requires PlainStart(rest)
    ensures var r3 := NoCacheArgs(o.noCache) + rest;
      var r2 := CacheDirArgs(o.cacheDir) + r3;
      var r1 := SwitchArg(o.ignoreInode, "--ignore-inode") + r2;
      var r0 := SwitchArg(o.excludeCaches, "--exclude-caches") + r1;
      && ParseSwitch(r0, "--exclude-caches") == (o.excludeCaches, r1)
      && ParseSwitch(r1, "--ignore-inode") == (o.ignoreInode, r2)
      && ParseCacheDir(r2) == (o.cacheDir, r3)
      && ParseNoCache(r3) == (o.noCache, rest)
  {
    NoFlagIsNoCache();
    var r3 := NoCacheArgs(o.noCache) + rest;
    var r2 := CacheDirArgs(o.cacheDir) + r3;
    var r1 := SwitchArg(o.ignoreInode, "--ignore-inode") + r2;
    ReadNoCache(o.noCache, rest);
    assert |rest| > 0 && !StartsWith(rest[0], "--") ==> rest[0] != "--cache-dir" && rest[0] != "--ignore-inode" && rest[0] != "--exclude-caches";
    assert |r3| > 0 ==> r3[0] != "--cache-dir";
    ReadCacheDir(o.cacheDir, r3);
    assert |r2| > 0 ==> r2[0] != "--ignore-inode";
    ReadSwitch(o.ignoreInode, "--ignore-inode", r2);
    assert |r1| > 0 ==> r1[0] != "--exclude-caches";
    ReadSwitch(o.excludeCaches, "--exclude-caches", r1);
  }

  /**
   * The command line carries the options unambiguously: reading it back gives
   * the options it was built from, as long as the backup root is a path rather
   * than something that looks like a flag.
   */
  lemma ParseBackupArgvOfBackupArgv(o: BackupOptions)
    requires o.root.Some? ==> !StartsWith(o.root.value, "--")
    ensures ParseBackupArgv(BackupArgv(o)) == Some(o)
  {
    var tail := if o.root.Some? then [o.root.value] else [];
    var r5 := FlagPairs("--exclude", o.excludes) + tail;
    var r4 := FlagPairs("--files-from", o.filesFrom) + r5;
    ParsePairsOfFlagPairs("--exclude", o.excludes, tail);
    if |o.excludes| > 0 {
      FlagPairsCons("--exclude", o.excludes);
    } else {
      assert r5 == tail;
    }
    ParsePairsOfFlagPairs("--files-from", o.filesFrom, r5);
    if |o.filesFrom| > 0 {
      FlagPairsCons("--files-from", o.filesFrom);
      assert r4[0] == "--files-from";
    } else {
      assert r4 == r5;
    }
    assert PlainStart(r4);
    ReadSwitches(o, r4);
    var r3 := NoCacheArgs(o.noCache) + r4;
    var r2 := CacheDirArgs(o.cacheDir) + r3;
    var r1 := SwitchArg(o.ignoreInode, "--ignore-inode") + r2;
    var r0 := SwitchArg(o.excludeCaches, "--exclude-caches") + r1;
    BackupArgvLayout(o);
  }

  /** The command line, cut where the parser reads it. */
  lemma BackupArgvLayout(o: BackupOptions)
    ensures var argv := BackupArgv(o);
      var tail := if o.root.Some? then [o.root.value] else [];
      && |argv| >= 8 && argv[..7] == HostPrefix && argv[7] == o.host
      && argv[8..] == SwitchArg(o.excludeCaches, "--exclude-caches") + (SwitchArg(o.ignoreInode, "--ignore-inode")
           + (CacheDirArgs(o.cacheDir) + (NoCacheArgs(o.noCache)
           + (FlagPairs("--files-from", o.filesFrom) + (FlagPairs("--exclude", o.excludes) + tail)))))
  {
    var tail := if o.root.Some? then [o.root.value] else [];
    var f1 := FlagPairs("--files-from", o.filesFrom);
    var f2 := FlagPairs("--exclude", o.excludes);
    var r5 := f2 + tail;
    var r4 := f1 + r5;
    var s1 := SwitchArg(o.excludeCaches, "--exclude-caches");
    var s2 := SwitchArg(o.ignoreInode, "--ignore-inode");
    var s3 := CacheDirArgs(o.cacheDir);
    var s4 := NoCacheArgs(o.noCache);
    var r3 := s4 + r4;
    var r2 := s3 + r3;
    var r1 := s2 + r2;
    var r0 := s1 + r1;
    ConcatAssociative(s1 + s2 + s3, s4, r4);
    ConcatAssociative(s1 + s2, s3, r3);
    ConcatAssociative(s1, s2, r2);
    assert Switches(o) + r4 == r0;
    var head := HostPrefix + [o.host];
    ConcatAssociative(head + Switches(o), f1, r5);
    ConcatAssociative(head + Switches(o) + f1, f2, tail);
    ConcatAssociative(head, Switches(o), r4);
    assert BackupArgv(o) == head + r0;
  }

  /**
   * What the backup command asks for, read back from the command itself:
   * `--exclude-caches` and `--ignore-inode` unless the key is present and
   * truthy, every `include-from` and `exclude` entry in order (a scalar counting
   * as one entry), and the backup root exactly when there is no `include-from`.
   */
  lemma BackupCommandSays(config: Config, host: string, backupRoot: string)
    requires !StartsWith(backupRoot, "--")
    ensures var parsed := ParseBackupArgv(BackupArgv(Options(config, host, backupRoot)));
      && parsed.Some?
      && parsed.value.host == host
      && (parsed.value.excludeCaches <==> config.excludeCaches != Some(true))
      && (parsed.value.ignoreInode <==> config.ignoreInode != Some(true))
      && parsed.value.cacheDir == config.cacheDir
      && parsed.value.noCache == config.noCache
      && (config.includeFrom.Some? ==> parsed.value.filesFrom == Listed(config.includeFrom.value))
      && (config.includeFrom.None? ==> parsed.value.filesFrom == [])
      && (config.exclude.Some? && config.exclude.value.Scalar? ==> parsed.value.excludes == [config.exclude.value.item])
      && (config.exclude.Some? && config.exclude.value.Items? ==> parsed.value.excludes == config.exclude.value.items)
      && (config.exclude.None? ==> parsed.value.excludes == [])
      && (parsed.value.root.Some? <==> config.includeFrom.None?)
      && (parsed.value.root.Some? ==> parsed.value.root.value == backupRoot)
  {
    ParseBackupArgvOfBackupArgv(Options(config, host, backupRoot));
  }
}
