# restic backup client, modelled in Dafny

This project models the decision logic of a small backup client built around
`restic`. The client is a long-running process. It chooses when to back up and
when to prune. A backup run first executes the configured pre-backup scripts,
then dumps the configured database sources, and finally runs `restic backup`,
`restic forget` and `restic prune`. Each of those steps stops the run when it
fails. The dump adapters for MySQL, PostgreSQL, SQL Server and Elasticsearch
each read a listing from their server (as written, the PostgreSQL listing call raises instead; see below), select names with include and exclude
patterns, and issue one or more dump commands per selected name, stopping at
the first command that fails.

Nothing external is run. Every external command takes its outcome from an
oracle, `outcomes: seq<bool>`, in the order the commands are issued: command
`i` succeeds unless `outcomes[i]` is `false`. How a run ends is an `Outcome`:
`Succeeded` (the function returns `True`), `Failed` (`False` or `None`) or
`Aborted` (an exception or `quit`).

Modules, one per component:

- `Wrappers`, `Text` — `Option`; Python's `str.split`, `str.strip`, `str.upper`, `str(n)`, `int(s)`, `os.path.join`.
- `EnvResolver` — `$(KEY)` placeholder resolution and `get_env`.
- `Scheduler` — `get_next_schedule` and the choice in `schedule_backup`.
- `PruneTimeout` — `get_prune_timeout` and the prune command it prefixes.
- `Retention` — the `restic forget` arguments of `clean_old_backups`.
- `BackupConfig`, `BackupCommand` — the configuration and the `restic backup` argument vector of `run_backup`.
- `Outcomes`, `Pipeline`, `PipelineProperties` — the fail-fast stage order of `run_backup`, `clean_old_backups` and `prune_repository`, and what it implies about every run.
- `Selection`, `DumpLoop` — the include/exclude selection and the per-name dump loop the adapters share.
- `MysqlDump`, `PgDump`, `MssqlDump`, `ElasticDump` — the four adapters.

The central idea of the pipeline model is the plan: `RunPlan` lists every step
a run takes when nothing fails, and `FailFast` walks a plan against the oracle,
stopping at the first step that does not succeed. `RunBackup` is written as the
procedure itself, with the same branches as the source, and is proved to take
exactly the steps `FailFast` takes on the plan. The adapters follow the same
idea: `DumpLoop.Plan` lists the commands for the selected names, and
`DumpLoop.DumpEach` is proved to be a fail-fast run of that plan.

These quirks of the source are modelled as written:

- The result of `restic init` is ignored.
- When no retention bucket is found, `clean_old_backups` returns `None`. The run then fails and prune is skipped.
- An unset `RESTIC_PRUNE_TIMEOUT` ends the process.
- Giving both include and exclude patterns is only logged, and both filters apply.
- An empty listing in the MySQL and SQL Server adapters returns `False`. The dump loop then iterates over `False`, which raises, so the dump aborts rather than succeeding.

One defect is modelled both as written and as evidently intended (see "## Findings"): the PostgreSQL listing call passes `check=True` to `subprocess.check_output`, which refuses it, so as written every PostgreSQL dump aborts before `psql` runs.

## Model

| member | source | states |
|---|---|---|
| Text.Split | mysqldump.py:27 | `str.split` on one separator: at least one part, and no part contains the separator |
| Text.JoinSplit | mysqldump.py:27 | splitting a listing into lines loses nothing: joining the lines back gives the output |
| Text.StripIsMaximalInfix | mysqldump.py:30 | `strip(chars)` gives a contiguous piece of the line, everything cut off on either side is in `chars`, and the piece neither starts nor ends with one of `chars` |
| Text.StripIdempotent | mysqldump.py:30 | stripping a stripped name changes nothing |
| Text.PathJoin | mysqldump.py:101 | `os.path.join(dir, name)` with a relative name starts with the directory and ends with the name |
| Text.NatToString | backup_client.py:371 | `str(n)` is a non-empty string of decimal digits |
| Text.DecimalValueOfNatToString | backup_client.py:341 | `int(str(n)) == n` |
| EnvResolver.PlaceholderAt | backup_client.py:29 | a match at the start of the text is a `$(KEY)` with a valid key |
| EnvResolver.FindAll | backup_client.py:29 | `re.findall` yields only valid keys |
| EnvResolver.FindAllComplete | backup_client.py:29 | `re.findall` misses no placeholder: every `$(KEY)` in the text is found |
| EnvResolver.FindAllOfPlaceholder | backup_client.py:29 | a text that is exactly one placeholder yields exactly its key |
| EnvResolver.PlaceholdersDoNotOverlap | backup_client.py:29 | two different placeholders never overlap |
| EnvResolver.SubstitutionRounds | backup_client.py:24-35 | at most the round limit of rounds substitute anything |
| EnvResolver.ResolvePlaceholders | backup_client.py:24-35 | the bounded rewrite loop computes `Resolve(template, env, 10)` |
| EnvResolver.SubstituteWithoutSetKey | backup_client.py:28-34 | a round in which no found key is set leaves the text unchanged |
| EnvResolver.EarlyStopLeavesNothingResolvable | backup_client.py:24-35 | when resolution stops before the last round, no found placeholder has a set key |
| EnvResolver.EarlyStopLeavesNoSetKey | backup_client.py:24-35 | when resolution stops before the last round, no `$(KEY)` with a set KEY remains anywhere in the text |
| EnvResolver.ReplaceKeepsOtherPlaceholder | backup_client.py:31 | `str.replace` of one placeholder leaves an occurrence of any other placeholder in the text |
| EnvResolver.SubstituteKeepsUnsetPlaceholder | backup_client.py:29-32 | one round keeps every placeholder whose key is not set |
| EnvResolver.UnsetPlaceholderKept | backup_client.py:24-35 | a placeholder whose key is not set survives every round, so it is left verbatim |
| EnvResolver.PlaceholderRound | backup_client.py:26-34 | a text that is one placeholder of a set key is resolvable, and one round replaces it with the key's value |
| EnvResolver.ChainedIndirectionResolves | backup_client.py:24-35 | `$(A)` with `A=$(B)` and `B=x` resolves to `x`, with two substituting rounds |
| EnvResolver.GetEnv | backup_client.py:38-44 | a set variable gives its resolved value; an unset one gives the default; without a default the process exits, and only then |
| Scheduler.Min | backup_client.py:62-69 | the least delay is one of the delays and no larger than any of them |
| Scheduler.MinIsLeast | backup_client.py:62-69 | a delay that no other delay undercuts is the minimum |
| Scheduler.NextSchedule | backup_client.py:62-69 | the next schedule is `now` plus the least cron delay, so with one cron exactly its delay; with no cron it is `now - 1` |
| Scheduler.NextRun | backup_client.py:382-407 | prune-only exactly when a prune schedule exists and is strictly earlier than the next backup (ties go to backup); a backup run prunes exactly when no prune schedule exists; the chosen time is the earlier one |
| PruneTimeout.MatchGroup | backup_client.py:332 | a group `(\d+?)<letter>` that takes part is a non-empty digit string followed by its letter |
| PruneTimeout.MatchGroups | backup_client.py:332 | one capture per unit, each either absent or a non-empty run of digits |
| PruneTimeout.MatchDuration | backup_client.py:332-333 | a match yields the four groups days, hours, minutes, seconds, each absent or a digit string |
| PruneTimeout.GroupMatches | backup_client.py:332 | digits followed by their unit's letter are captured, and matching goes on after the letter |
| PruneTimeout.GroupSkipped | backup_client.py:332 | digits followed by another unit's letter are not this unit's group |
| PruneTimeout.NoGroupOfUnusedLetter | backup_client.py:332 | groups written out never match the group of a letter they do not use |
| PruneTimeout.MatchGroupsOfWritten | backup_client.py:332 | matching groups of digits written out with their letters in unit order captures exactly those groups and leaves only the end |
| PruneTimeout.MatchGroupsOfFormat | backup_client.py:332 | matching a formatted duration captures exactly the numbers written and leaves only the end |
| PruneTimeout.ReadGroup | backup_client.py:332 | one optional group reads its digits and letter when it takes part and nothing otherwise, and the text is what it read followed by the rest |
| PruneTimeout.MatchGroupsReadsWritten | backup_client.py:332 | whatever the groups capture, the text read is exactly those groups written out with their letters, followed by what is left |
| PruneTimeout.MatchDurationExactly | backup_client.py:332-335 | a token is accepted with given groups exactly when the groups are non-empty digit runs and the token is them written out in unit order, optionally followed by one newline; any other token is rejected |
| PruneTimeout.FormatThenMatch | backup_client.py:332-342 | every token `(Nd)?(Nh)?(Nm)?(Ns)?` in that order, with or without a final newline, is accepted and captures the numbers written; the seconds are 86400·d + 3600·h + 60·m + s |
| PruneTimeout.OneDayExample | backup_client.py:332-342 | `1d` captures days `1` and totals 86400 seconds |
| PruneTimeout.ZeroSecondsExample | backup_client.py:332-344 | `0s` is accepted and totals zero seconds |
| PruneTimeout.BogusDoesNotMatch | backup_client.py:332-335 | a token outside the grammar does not match |
| PruneTimeout.OutOfOrderDoesNotMatch | backup_client.py:332-335 | units out of order (`1h1d`) do not match |
| PruneTimeout.GetPruneTimeout | backup_client.py:326-345 | computes `TimeoutOf(env)`: unset, or resolving to a token `MatchDurationExactly` rejects, is fatal; a zero total is no timeout, a total past the largest `timedelta` overflows, otherwise the total in seconds |
| PruneTimeout.TimeoutOfFormatted | backup_client.py:326-345 | a variable resolving to a well-formed token gives its total in seconds, no timeout when the total is zero, and an overflow past the largest `timedelta` |
| PruneTimeout.PruneCommandShape | backup_client.py:358-371 | the prune command always ends with `restic prune -o s3.list-objects-v1=true`; it starts with `timeout <seconds>.0` exactly when there is a limit |
| Retention.KeepEnvNameIsUpperCase | backup_client.py:305-306 | each bucket's variable is `KEEP_` and the bucket name in upper case |
| Retention.RetentionFoundSource | backup_client.py:293-309 | with `keep`, a bucket has a value exactly when `keep` has that key; without `keep`, exactly when its `KEEP_<BUCKET>` variable is set; the value is taken from there |
| Retention.KeepArgsStep | backup_client.py:296-299 | each bucket with a value appends its pair after the earlier buckets' pairs |
| Retention.BuildForgetCommand | backup_client.py:288-312 | the loop builds `ForgetCommand(keep, env)` |
| Retention.KeepArgsLayout | backup_client.py:293-309 | the arguments are exactly one `--keep-<bucket> <value>` pair per bucket with a value, placed by bucket order (last, hourly, daily, weekly, monthly, yearly), whatever the order of the configuration |
| Retention.NoBucketNoForget | backup_client.py:300-312 | there is no forget command exactly when no bucket has a value |
| Retention.ConfigKeepIgnoresEnvironment | backup_client.py:293-312 | with `keep` in the configuration the `KEEP_*` variables make no difference |
| Retention.ConfigExample | backup_client.py:293-299 | `keep: {weekly: 4, daily: 7}` gives `restic forget --keep-daily 7 --keep-weekly 4` |
| Retention.EnvironmentExample | backup_client.py:303-309 | without `keep`, `KEEP_LAST=3` gives `restic forget --keep-last 3` |
| Retention.EmptyKeepExample | backup_client.py:293-302 | an empty `keep` gives no forget command even when `KEEP_*` variables are set |
| BackupConfig.Listed | backup_client.py:238-251 | a scalar `include-from` or `exclude` becomes a one-element list; a list is kept |
| BackupCommand.FlagPairs | backup_client.py:242-245 | two arguments per value |
| BackupCommand.AppendPairs | backup_client.py:242-255 | the append loop adds `flag value` for each value, in order, after what was there |
| BackupCommand.BuildBackupCommand | backup_client.py:210-259 | the appends build `BackupArgv` of the options the configuration gives |
| BackupCommand.ArgvPieces | backup_client.py:210-259 | the command is the host prefix, the host, the two toggles, `--cache-dir`, `--no-cache=`, the `--files-from` pairs, the `--exclude` pairs and the root, in that order |
| BackupCommand.BackupArgvLayout | backup_client.py:210-216 | the command starts with `nice -n19 ionice -c3 restic backup --host <host>` |
| BackupCommand.ParsePairsOfFlagPairs | backup_client.py:242-255 | reading the `flag value` pairs back gives the values and what follows |
| BackupCommand.ParseBackupArgvOfBackupArgv | backup_client.py:210-259 | reading the command back gives the options it was built from, when the root does not look like a flag |
| BackupCommand.BackupCommandSays | backup_client.py:210-259 | the command has `--exclude-caches` and `--ignore-inode` unless the key is present and truthy, `--cache-dir` and `--no-cache` as configured, every `include-from` and `exclude` entry in order (a scalar counting as one), and the backup root last exactly when there is no `include-from` |
| Pipeline.PreBackupScriptPasses | backup_client.py:85-107 | a non-mapping or an entry without `script` fails; with `fail-on-error` absent or true the entry passes exactly when the script succeeds; with it false the entry always passes |
| Pipeline.FailFastPrefix | backup_client.py:125-276 | a run takes a prefix of its plan, all of it when it succeeds, and at least one step when it does not |
| Pipeline.FailFastSucceeds | backup_client.py:125-276 | a run succeeds exactly when every step of its plan passes |
| Pipeline.FailFastStops | backup_client.py:125-276 | a run that does not succeed passed every step before its last, and ends the way that last step ends |
| Pipeline.FailFastAppend | backup_client.py:125-276 | two stages in sequence: if the first stops, that is the run; otherwise the second stage starts where the first left the oracle |
| Pipeline.StopIsLast | backup_client.py:125-276 | a step that stops every run (unset variable, no configuration, no retention) can only be the last step taken, and the run then does not succeed |
| Pipeline.RunBackup | backup_client.py:125-276 | `run_backup` takes exactly the steps of a fail-fast walk of its plan and ends the same way |
| Pipeline.RootMissing | backup_client.py:125-126 | without `BACKUP_ROOT` the run aborts before anything else |
| Pipeline.PlanStart | backup_client.py:125-134 | once the root is known the plan is init, unlock, the configuration load, and what the configuration gives |
| Pipeline.StartWalk | backup_client.py:126-134 | init goes on whatever it returns; a failed unlock aborts; a missing configuration fails; otherwise two commands were issued and the run goes on |
| Pipeline.RunFromRoot | backup_client.py:126-134 | the run from the root lookup on follows the plan's walk |
| Pipeline.RunConfigured | backup_client.py:140-276 | the run after the configuration loaded follows the walk of scripts, dumps, backup, forget and prune |
| Pipeline.RunPreBackupScripts | backup_client.py:140-144 | the scripts run in list order and the first one that does not pass ends the run |
| Pipeline.RunDumps | backup_client.py:146-208 | the configured sources are dumped in the order elasticdump, mysqldump, pgdump, mongodump, and the first dump that does not succeed ends the run |
| Pipeline.NextDump | backup_client.py:146-208 | a source not in the configuration is skipped; a dump that does not succeed ends the run with its outcome |
| Pipeline.RunFromHost | backup_client.py:210-276 | the run from the host-name lookup on follows the walk of backup, forget and prune |
| Pipeline.PastBackup | backup_client.py:261-268 | a failing `restic backup` fails the run; a passing one goes on to the cleanup |
| Pipeline.CleanAndPrune | backup_client.py:270-276 | the end of the run is `clean_old_backups(config)`, then `prune_repository()` only when asked to prune |
| Pipeline.CleanOldBackups | backup_client.py:278-324 | no bucket gives `None`, which fails the run; otherwise unlock (aborting on failure) and forget (failing on failure) |
| Pipeline.PruneRepository | backup_client.py:347-379 | reload the configuration, init, read the timeout, unlock and prune under the timeout, following the walk of the prune steps |
| Pipeline.UnlockAndPrune | backup_client.py:364-379 | unlock, then prune; a failing prune fails |
| PipelineProperties.ScriptStepsOfEntries | backup_client.py:140-144 | one script step per entry of `pre-backup-scripts`, in list order |
| PipelineProperties.DumpStepsOfSources | backup_client.py:146-208 | the dump steps are exactly the configured sources |
| PipelineProperties.DumpStepsFollowSourceOrder | backup_client.py:146-208 | each configured source is dumped once, in the order elasticdump, mysqldump, pgdump, mongodump |
| PipelineProperties.TakenFromPlan | backup_client.py:125-276 | a run only takes steps of its plan |
| PipelineProperties.InitResultIgnored | backup_client.py:127 | two runs whose oracles differ only in the result of `restic init` take the same steps and end the same way |
| PipelineProperties.ConfigMissingStops | backup_client.py:125-134 | without `BACKUP_ROOT` the run aborts at once; without a configuration it inits, unlocks and fails (or aborts if unlock fails), with no script, dump or backup |
| PipelineProperties.PlanParts | backup_client.py:125-276 | a plan is a head, then the scripts, then the dumps (configured sources only), then the rest; scripts or dumps only when the root was found and the configuration loaded |
| PipelineProperties.ScriptFailureSkipsLater | backup_client.py:140-144 | a run that stops at a script fails, and ran no dump, backup, forget or prune |
| PipelineProperties.DumpFailureSkipsRest | backup_client.py:146-208 | a run that stops at a dump ends the way that dump ends, and ran no backup, forget or prune |
| PipelineProperties.PrunePlan | backup_client.py:347-379 | `prune_repository` stops at a missing configuration or an unusable timeout; otherwise it ends with the prune command the timeout gives |
| PipelineProperties.WholePlan | backup_client.py:125-276 | where the plan stops whatever the commands do, and, when configured, that it ends with forget, or with prune when asked to prune |
| PipelineProperties.SuccessfulRun | backup_client.py:125-276 | a successful run took every step of its plan: both variables were set, the configuration loaded, a retention bucket was found, and it ended with forget or, when pruning, with prune under a parsed timeout |
| PipelineProperties.UnsetPruneTimeoutAborts | backup_client.py:326-327 | with `RESTIC_PRUNE_TIMEOUT` unset a pruning run never succeeds and never prunes, and aborts when it reads the timeout |
| PipelineProperties.EndsAtFatalRead | backup_client.py:326-335 | a run that reads a fatal prune timeout aborts there |
| PipelineProperties.NoRetentionFailsWithoutPrune | backup_client.py:270-274 | without a retention bucket the run never succeeds, runs neither forget nor prune, and fails when it looks for the buckets |
| PipelineProperties.ForgetAndPruneCommands | backup_client.py:262-276 | forget runs only with the command the retention settings give; prune only when asked to prune, after a bucket was found, with the configuration reloaded and a usable timeout |
| PipelineProperties.RunnableNeedsVariable | backup_client.py:326-327 | a timeout prune can run under needs the variable to be set |
| Outcomes.FailFastRunUnique | mysqldump.py:86-120 | a fail-fast run is determined by its plan and the oracle |
| Selection.AnyMatch | mysqldump.py:66-69 | the flag-and-break loop finds a match exactly when some pattern matches at the start of the name |
| Selection.IsSelected | mysqldump.py:64-85 | a name is selected exactly when, with include patterns, one of them matches and, with exclude patterns, none of them matches |
| Selection.SelectNamesMembers | mysqldump.py:63-85 | a name is dumped exactly when it is listed and selected |
| Selection.SelectNamesAppend | mysqldump.py:63-85 | selection keeps listing order |
| Selection.SelectNamesWithoutPatterns | mysqldump.py:63-85 | without patterns every listed name is dumped |
| Selection.BothFiltersApply | mysqldump.py:57-85 | with both pattern lists nothing is rejected: the include filter and then the exclude filter apply |
| DumpLoop.CollectMembers | mysqldump.py:27-33 | a name is collected exactly when some kept line gives it |
| DumpLoop.CollectPrefix | mysqldump.py:27-33 | collecting keeps line order |
| DumpLoop.PlanOfSelection | mysqldump.py:63-120 | the dump plan is the commands of the selected names, in listing order |
| DumpLoop.ExpandMembers | mysqldump.py:86-116 | a command is planned exactly when it is one of some selected name's commands |
| DumpLoop.DumpEach | mysqldump.py:63-120 | the per-name loop is a fail-fast run of the plan: it issues a prefix of it, stops at the first failing command and returns false, or returns true having issued all of it |
| MysqlDump.ListDatabases | mysqldump.py:25-39 | the listing loop gives `None` for a failed `mysqlshow`, `False` for no names, otherwise the names in order |
| MysqlDump.DatabasesListed | mysqldump.py:25-33 | a name is listed exactly when some line after the first three starts with `"| "`, strips to it, and it is not `information_schema` or `performance_schema` |
| MysqlDump.DatabasesStripped | mysqldump.py:30 | no listed name starts or ends with `\|` or a space |
| MysqlDump.DatabaseCommands | mysqldump.py:86-116 | two commands per database: DROP/CREATE into `MYSQL_<db>_DROP_CREATE.sql.gz`, then data into `MYSQL_<db>_DATA.sql.gz`, in the target directory |
| MysqlDump.Dump | mysqldump.py:56-120 | a failed listing returns `False`, an empty one aborts, otherwise a fail-fast run of the plan that, with valid patterns, does not abort |
| MysqlDump.ConnectionOf | mysqldump.py:41-50 | a connection exists exactly when `host`, `username` and `password` are all configured |
| MysqlDump.ConnectionDefaults | mysqldump.py:48-51 | the settings come from the section, with the port defaulting to 3306 |
| MysqlDump.DumpWithConfig | mysqldump.py:41-54 | a missing required key aborts; otherwise the dump with the section's patterns (absent by default) |
| MysqlDump.DatabaseBlock | mysqldump.py:86-120 | each selected database's two files come as one block, after the earlier databases' blocks and before the later ones |
| MysqlDump.DumpedDatabases | mysqldump.py:63-116 | only listed, non-system, selected databases are dumped, each to its own file name |
| PgDump.ParseListing | pgdump.py:26-37 | a failed `psql` gives `None`, no names `False`, otherwise the names in order |
| PgDump.ListDatabases | pgdump.py:10-37 | the listing call raises exactly when `check_output` is given a keyword it refuses; otherwise a failed `psql` gives `None`, no names `False`, otherwise the names in order |
| PgDump.ListingKeywordsRefused | pgdump.py:14-21 | the call as written passes `check`, which `check_output` refuses; without it the call goes through |
| PgDump.DatabasesListed | pgdump.py:28-31 | a name is listed exactly when it is non-empty and some line strips to it |
| PgDump.DatabasesStripped | pgdump.py:29 | a listed name is non-empty and neither starts nor ends with whitespace |
| PgDump.DatabaseCommands | pgdump.py:84-96 | one command per database, writing `PGSQL_<db>.sql.gz` in the target directory |
| PgDump.Dump | pgdump.py:54-100 | a listing call that raises aborts before any dump; a failed or empty listing returns `False` before any dump; otherwise a fail-fast run of the plan that, with valid patterns, does not abort |
| PgDump.DumpAsWrittenAborts | pgdump.py:14-22 | with the listing call as written, `pg_dump` aborts and issues nothing, whatever `psql` and the dumps would do |
| PgDump.ListingDiscrepancy | pgdump.py:14-22 | for a listing that names a database, the call as written aborts with nothing issued while the call as meant, with valid patterns, does not abort |
| PgDump.ConnectionOf | pgdump.py:39-48 | a connection exists exactly when `host`, `username` and `password` are all configured |
| PgDump.ConnectionDefaults | pgdump.py:46-49 | the settings come from the section, with the port defaulting to 5432 |
| PgDump.DumpWithConfig | pgdump.py:39-52 | a missing required key aborts; otherwise the dump with the section's patterns (absent by default) and the listing call as written, so every call aborts with nothing issued |
| PgDump.DumpWithConfigAsMeant | pgdump.py:39-52 | with the listing call as meant: a missing key aborts, a failed or empty listing returns `False`, and a listing naming a database gives a fail-fast run of the plan that, with valid patterns, does not abort |
| PgDump.OneFilePerDatabase | pgdump.py:61-100 | the plan has exactly one file per selected database, the k-th command writing the k-th selected database |
| PgDump.ExpandOneEach | pgdump.py:61-100 | with one command per database, the plan is those commands in order |
| MssqlDump.ListDatabases | mssqldump.py:28-39 | a failed listing gives `None`, no names `False`, otherwise the names in order |
| MssqlDump.DatabasesListed | mssqldump.py:30-33 | a name is listed exactly when it is non-empty and some line after the first two, starting neither with a space nor with `(`, strips to it |
| MssqlDump.DatabaseCommands | mssqldump.py:74-90 | one backup per database, to `<target_dir>/<db>.bak` |
| MssqlDump.Dump | mssqldump.py:41-95 | a failed listing returns `False`, an empty one aborts, otherwise a fail-fast run of the plan that, with valid patterns, does not abort |
| MssqlDump.BackedUpDatabases | mssqldump.py:48-90 | only listed, selected databases are backed up, each to `<target_dir>/<db>.bak` |
| ElasticDump.Auth | elasticdump.py:11-15 | basic auth is used exactly when both username and password are given |
| ElasticDump.IndexCommands | elasticdump.py:71-79 | three dumps per index, alias, mapping and data, in that order |
| ElasticDump.Dump | elasticdump.py:35-83 | a failed listing returns `False` before any dump; otherwise, with a listing request that answers and valid patterns, a fail-fast run of the plan that does not abort |
| ElasticDump.SettingsOf | elasticdump.py:25-28 | settings exist exactly when `url` is configured |
| ElasticDump.SettingsDefaults | elasticdump.py:28-30 | the URL comes from the section; username and password are `None` when not configured |
| ElasticDump.DumpWithConfig | elasticdump.py:25-33 | a missing `url` aborts; otherwise the dump with the section's settings (absent ones `None`) |
| ElasticDump.CredentialsAllOrNothing | elasticdump.py:38-46 | every dump reads from the configured URL, with credentials exactly when the listing used them, which is when both username and password are given |
| ElasticDump.IndexBlock | elasticdump.py:48-79 | each selected index's three dumps come as one block into `<index>__<type>.json`, after the earlier indices' blocks and before the later ones |

## Left out

- External processes are not run. `restic`, `mysqlshow`, `mysqldump`, `psql`, `pg_dump`, `sqlcmd`, `elasticdump` and the pre-backup scripts take their outcomes from an oracle. A listing command's output is a parameter.
- The shell strings of the dump commands are not modelled: quoting, `nice`/`ionice`, the gzip pipe and the passwords passed in the environment. A dump command is modelled by what it dumps and the file it writes.
- Decoding command output from bytes is not modelled; output is a `string`.
- The regular-expression engine is not modelled. `matches(pattern, name)` stands for `re.compile(pattern).match(name)`.
- MysqlDump.Dump: an include or exclude pattern that is not a valid regular expression (e.g. `[`) makes `re.compile` raise `re.error` when the name loop reaches it, which aborts the dump; the model takes every pattern to be valid, so its "does not abort" holds only for valid patterns. The same holds for MysqlDump.DumpWithConfig.
- PgDump.Dump: an invalid include or exclude pattern raises `re.error` and aborts; not modelled, as for MysqlDump.Dump.
- PgDump.DumpWithConfigAsMeant: an invalid include or exclude pattern raises `re.error` and aborts; not modelled, as for MysqlDump.Dump.
- MssqlDump.Dump: an invalid include or exclude pattern raises `re.error` and aborts; not modelled, as for MysqlDump.Dump.
- ElasticDump.Dump: an invalid include or exclude pattern raises `re.error`, `requests.get` raises for a server that cannot be reached, and `response.json()` or `indexData['index']` raise for a body that is not a list of objects with an `index`; each aborts the dump and none is modelled, so "does not abort" holds only when the listing request answers and the patterns are valid. The same holds for ElasticDump.DumpWithConfig.
- The HTTP request of `es_list_indices` is not modelled. The server is a function from the request (URL and basic auth) to the index names, or `None` for a status other than 200.
- The URL rewriting and percent-quoting in `es_dump` are not modelled. The dump endpoint records the URL and the credentials it embeds.
- The clock, cron evaluation and the sleep loop of `schedule_backup` are left out. The delays and the clock readings are parameters.
- Scheduler.NextRun: models one pass of the `schedule_backup` loop up to the wait. It does not model the endless loop itself, nor the exception handler around the run.
- The filesystem is not modelled. Removing and recreating the dump directories and creating the backup root are left out, so an `os.mkdir` that raises is not a possible outcome.
- YAML loading is not modelled. `load_config` is given as its result: a configuration, or `None`.
- The configuration is typed: a `pre-backup-scripts` value that is not a list, an `include`/`exclude` section value that is a scalar string (which the adapters would iterate character by character), or a `keep` that is not a mapping are not modelled. Nor are non-string `cache-dir`, `include-from` or `exclude` values: the source joins `cache-dir` with `+`, which raises `TypeError` for a number, and puts `include-from` and `exclude` items into the argument vector unconverted, which `subprocess.run` refuses.
- Pipeline.RunBackup: each source's dump outcome is a parameter (`dumps`), standing for the result of that source's `*_with_config` call. The adapter modules model those calls separately.
- mongodump is represented only by its place in the source order; its adapter, and influxdump, are not part of this model.
- The SQL Server adapter has no `*_with_config` function and is not called by `run_backup`. It is modelled on its own.
- Logging, `argparse` (including the cron-expression parser), `gc`, SMTP and the `main` functions are left out.
- `clean_old_backups` called directly with no configuration (the `rotate` command) is not modelled; only its call from `run_backup` is. `prune_repository` is modelled as called with no configuration, which is how `run_backup` calls it.
- PruneTimeout.MatchGroup: only the ASCII digits `0-9` form a group. Python's `\d` in a `str` pattern also matches every other Unicode decimal digit (Arabic-Indic, full-width and so on), and `int()` reads them, so a token such as `١d` is a one-day timeout in the source but is rejected here. The Unicode digit table is not modelled.
- PruneTimeout.MatchGroups: inherits the ASCII-only digits of `MatchGroup`: a group written with non-ASCII decimal digits is not captured.
- PruneTimeout.MatchDuration: accepts only tokens whose digits are ASCII; tokens with other Unicode decimal digits, which the source accepts, are rejected.
- PruneTimeout.GetPruneTimeout: returns `Fatal` for a token with non-ASCII decimal digits, for which the source computes a timeout.
- The prune timeout is written as `str(total_seconds())`. That is the integer followed by `.0` for every total a `timedelta` can hold, and this is how it is modelled; floating point itself is not.

## Findings

| source | as written | input that shows it | evidently intended | confidence | as-written member | corrected member |
|---|---|---|---|---|---|---|
| pgdump.py:14-22 | `subprocess.check_output(..., shell=True, check=True)`; `check_output` sets `check` itself and refuses it (`ValueError` on Python 3.12, a repeated-keyword `TypeError` before), which the `except subprocess.CalledProcessError` does not catch | any section with `host`, `username` and `password`, whatever `psql` prints, e.g. one line `postgres` (`PgDump.ListingDiscrepancy`, `PgDump.DumpAsWrittenAborts`) | list the databases with `check_output` without `check=True`, so a failing `psql` returns `None` and a listing is read | high; not executed | PgDump.DumpWithConfig | PgDump.DumpWithConfigAsMeant |
