/**
 * The YAML configuration of a backup run, as far as the orchestrator reads it.
 *
 * Every key is optional. A key that holds a value YAML gives as a number or a
 * boolean is kept here in the form the orchestrator uses it: a boolean toggle
 * as its truthiness, and `no-cache`, the `keep` values and the adapters'
 * settings as the text `%s` or `str` gives them. `cache-dir`, `include-from`
 * and `exclude` are used unconverted, so they are kept as strings only.
 */
module BackupConfig {
  import opened Wrappers

  /** The dump sources the orchestrator knows, by their configuration key. */
  datatype Source = Elasticdump | Mysqldump | Pgdump | Mongodump

  /** The order in which `run_backup` runs the configured sources. */
  const SourceOrder: seq<Source> := [Elasticdump, Mysqldump, Pgdump, Mongodump]

  /** The configuration key of a source, which is also the name of its dump directory. */
  function SourceKey(s: Source): string
  {
    match s
    case Elasticdump => "elasticdump"
    case Mysqldump => "mysqldump"
    case Pgdump => "pgdump"
    case Mongodump => "mongodump"
  }

  /** A setting that is either one value or a list of values. */
  datatype Setting = Scalar(item: string) | Items(items: seq<string>)

  /** A scalar setting is wrapped into a one-element list. */
  function Listed(s: Setting): (items: seq<string>)
    ensures s.Scalar? ==> items == [s.item]
    ensures s.Items? ==> items == s.items
  {
    match s
    case Scalar(item) => [item]
    case Items(items) => items
  }

  /**
   * One entry of `pre-backup-scripts`: something that is not a mapping, or a
   * mapping with optional `script`, `fail-on-error` (as its truthiness) and
   * `description`.
   */
  datatype ScriptEntry =
    | NotAMapping
    | ScriptEntry(script: Option<string>, failOnError: Option<bool>, description: Option<string>)

  /** A source's own section, read by the dump adapters. */
  datatype Section = Section(fields: map<string, string>, includes: Option<seq<string>>, excludes: Option<seq<string>>)

  datatype Config = Config(
    preBackupScripts: Option<seq<ScriptEntry>>,
    sources: map<Source, Section>,
    keep: Option<map<string, string>>,
    excludeCaches: Option<bool>,
    ignoreInode: Option<bool>,
    cacheDir: Option<string>,
    noCache: Option<string>,
    includeFrom: Option<Setting>,
    exclude: Option<Setting>)

  /** A toggle counts as set when the key is present and its value is truthy (`'key' in config and bool(config[key])`). */
  predicate IsSet(toggle: Option<bool>)
  {
    toggle.Some? && toggle.value
  }
}
