/**
 * The Elasticsearch adapter: `es_list_indices`, `es_dump` and `es_dump_with_config`.
 *
 * The indices are listed over HTTP; each selected index is then dumped by
 * `elasticdump` three times, its aliases, its mapping and its data, each into
 * its own JSON file. Credentials, when both a username and a password are
 * given, go with the listing request and are written into the dump URL.
 */
module ElasticDump {
  import opened Wrappers
  import opened Text
  import opened Outcomes
  import opened Selection
  import opened BackupConfig
  import opened DumpLoop

  /** The credentials used: a username and a password, only when both are given. */
  function Auth(username: Option<string>, password: Option<string>): (auth: Option<(string, string)>)
    ensures auth.Some? <==> username.Some? && password.Some?
    ensures auth.Some? ==> auth.value == (username.value, password.value)
  {
    if username.Some? && password.Some? then Some((username.value, password.value)) else None
  }

  /** The listing request of `es_list_indices`: `GET <url>/_cat/indices?v&format=json`, with basic auth or none. */
  datatype ListRequest = ListRequest(url: string, auth: Option<(string, string)>)

  /**
   * The server's answer: `None` unless the status is 200, else the `index` of
   * each entry, in order. The request always gets an answer: a server that
   * cannot be reached, or a body that is not a list of objects with an
   * `index`, raises in `es_list_indices` and is not modelled.
   */
  type IndexServer = ListRequest -> Option<seq<string>>

  /** `es_list_indices`. */
  function ListIndices(url: string, username: Option<string>, password: Option<string>, server: IndexServer): Option<seq<string>>
  {
    server(ListRequest(url, Auth(username, password)))
  }

  /**
   * The URL the dumps read from: the configured URL, with `username:password@`
   * put in front of its network location when there are credentials.
   */
  datatype Endpoint = Endpoint(url: string, credentials: Option<(string, string)>)

  /** What `elasticdump` dumps of an index. */
  datatype DataType = Alias | Mapping | Data

  /** The order in which the three dumps of an index run. */
  const DataTypes: seq<DataType> := [Alias, Mapping, Data]

  function TypeName(t: DataType): string
  {
    match t
    case Alias => "alias"
    case Mapping => "mapping"
    case Data => "data"
  }

  /** One `elasticdump --input <url>/<index> --type <type> --output <file>` command. */
  datatype DumpCommand = DumpCommand(input: Endpoint, index: string, dataType: DataType, output: string)

  function DumpFileName(index: string, t: DataType): string
  {
    index + "__" + TypeName(t) + ".json"
  }

  /** The dump of one part of an index. */
  function TypeCommand(targetDir: string, endpoint: Endpoint, index: string, t: DataType): DumpCommand
  {
    DumpCommand(endpoint, index, t, PathJoin(targetDir, DumpFileName(index, t)))
  }

  /** The commands `es_dump` issues for one index, one per data type in the order of `DataTypes`. */
  function IndexCommands(targetDir: string, endpoint: Endpoint, index: string): (cmds: seq<DumpCommand>)
    ensures |cmds| == |DataTypes|
    ensures forall k :: 0 <= k < |DataTypes| ==> cmds[k] == TypeCommand(targetDir, endpoint, index, DataTypes[k])
  {
    [TypeCommand(targetDir, endpoint, index, Alias),
     TypeCommand(targetDir, endpoint, index, Mapping),
     TypeCommand(targetDir, endpoint, index, Data)]
  }

  function CommandsFor(targetDir: string, endpoint: Endpoint): string -> seq<DumpCommand>
  {
    index => IndexCommands(targetDir, endpoint, index)
  }

  /** `es_dump` reassigns `url` when there are credentials. */
  function DumpEndpoint(url: string, username: Option<string>, password: Option<string>): Endpoint
  {
    Endpoint(url, Auth(username, password))
  }

  /** How `es_dump` ends: the plan it follows and the verdict. */
  predicate DumpRun(targetDir: string, url: string, username: Option<string>, password: Option<string>,
                    includes: Option<seq<string>>, excludes: Option<seq<string>>, server: IndexServer, matches: Matcher,
                    outcomes: seq<bool>, result: Outcome, issued: seq<DumpCommand>)
  {
    var indices := ListIndices(url, username, password, server);
    && (indices.None? ==> result == Failed && issued == [])
    && (indices.Some? ==>
          && result != Aborted
          && FailFastRun(Plan(indices.value, includes, excludes, matches,
                              CommandsFor(targetDir, DumpEndpoint(url, username, password))),
                         outcomes, result == Succeeded, issued))
  }

  /**
   * `es_dump`. A failed listing returns `False` before any dump; an empty one
   * dumps nothing and succeeds. Giving both include and exclude patterns is only logged.
   */
  method Dump(targetDir: string, url: string, username: Option<string>, password: Option<string>,
              includes: Option<seq<string>>, excludes: Option<seq<string>>, server: IndexServer, matches: Matcher,
              outcomes: seq<bool>)
    returns (result: Outcome, issued: seq<DumpCommand>)
    ensures DumpRun(targetDir, url, username, password, includes, excludes, server, matches, outcomes, result, issued)
  {
    var indices := ListIndices(url, username, password, server);
    if indices.None? {
      return Failed, [];
    }
    var endpoint := Endpoint(url, None);
    if username.Some? && password.Some? {
      endpoint := Endpoint(url, Some((username.value, password.value)));
    }
    var ok;
    ok, issued := DumpEach(indices.value, includes, excludes, matches, CommandsFor(targetDir, endpoint), outcomes);
    result := if ok then Succeeded else Failed;
  }

  /** The section `es_dump_with_config` reads, or `None` when `url` is missing. */
  datatype Settings = Settings(url: string, username: Option<string>, password: Option<string>)

  function SettingsOf(section: Section): (s: Option<Settings>)
    ensures s.Some? <==> "url" in section.fields
  {
    var fields := section.fields;
    if "url" in fields then
      Some(Settings(fields["url"],
                    if "username" in fields then Some(fields["username"]) else None,
                    if "password" in fields then Some(fields["password"]) else None))
    else None
  }

  /** The URL comes from the section; a username or password that is not configured is `None`. */
  lemma SettingsDefaults(section: Section)
    requires SettingsOf(section).Some?
    ensures var s := SettingsOf(section).value;
      && s.url == section.fields["url"]
      && (s.username.Some? <==> "username" in section.fields)
      && (s.password.Some? <==> "password" in section.fields)
  {
  }

  /**
   * `es_dump_with_config`: a missing `url` is logged and then raises a
   * `KeyError`; username, password, include and exclude default to `None`.
   */
  method DumpWithConfig(targetDir: string, section: Section, server: IndexServer, matches: Matcher, outcomes: seq<bool>)
    returns (result: Outcome, issued: seq<DumpCommand>)
    ensures SettingsOf(section).None? ==> result == Aborted && issued == []
    ensures SettingsOf(section).Some? ==>
      var s := SettingsOf(section).value;
      DumpRun(targetDir, s.url, s.username, s.password, section.includes, section.excludes, server, matches, outcomes, result, issued)
  {
    var settings := SettingsOf(section);
    if settings.None? {
      return Aborted, [];
    }
    var s := settings.value;
    result, issued := Dump(targetDir, s.url, s.username, s.password, section.includes, section.excludes, server, matches, outcomes);
  }

  /**
   * Credentials are used all or nothing, and the same way for the listing and
   * the dumps: every dump reads from a URL with credentials exactly when the
   * listing request carried them, which is when both username and password are given.
   */
  lemma CredentialsAllOrNothing(targetDir: string, url: string, username: Option<string>, password: Option<string>,
                                names: seq<string>, includes: Option<seq<string>>, excludes: Option<seq<string>>,
                                matches: Matcher, c: DumpCommand)
    requires c in Plan(names, includes, excludes, matches, CommandsFor(targetDir, DumpEndpoint(url, username, password)))
    ensures c.input.url == url
    ensures c.input.credentials == ListRequest(url, Auth(username, password)).auth
    ensures c.input.credentials.Some? <==> username.Some? && password.Some?
  {
    var endpoint := DumpEndpoint(url, username, password);
    var commands := CommandsFor(targetDir, endpoint);
    var selected := SelectNames(names, includes, excludes, matches);
    PlanOfSelection(names, includes, excludes, matches, commands);
    ExpandMembers(selected, commands, c);
    var k :| 0 <= k < |selected| && c in commands(selected[k]);
    var j :| 0 <= j < |DataTypes| && commands(selected[k])[j] == c;
  }

  /**
   * Each selected index is dumped as one block of three commands, alias,
   * mapping and data, each into `<index>__<type>.json`, after the blocks of the
   * indices listed before it and before those listed after it.
   */
  lemma IndexBlock(targetDir: string, endpoint: Endpoint, names: seq<string>, includes: Option<seq<string>>,
                   excludes: Option<seq<string>>, matches: Matcher, k: nat)
    requires k < |SelectNames(names, includes, excludes, matches)|
    ensures var selected := SelectNames(names, includes, excludes, matches);
      var commands := CommandsFor(targetDir, endpoint);
      var index := selected[k];
      Plan(names, includes, excludes, matches, commands)
        == Expand(selected[..k], commands)
           + [TypeCommand(targetDir, endpoint, index, Alias),
              TypeCommand(targetDir, endpoint, index, Mapping),
              TypeCommand(targetDir, endpoint, index, Data)]
           + Expand(selected[k + 1..], commands)
  {
    var selected := SelectNames(names, includes, excludes, matches);
    var commands := CommandsFor(targetDir, endpoint);
    PlanOfSelection(names, includes, excludes, matches, commands);
    ExpandAt(selected, k, commands);
  }
}
