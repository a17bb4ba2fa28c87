/**
 * The PostgreSQL adapter: `pg_list_database`, `pg_dump` and `pg_dump_with_config`.
 *
 * `psql -l`, cut to its first column with the blanks removed, prints one
 * database name per line; the adapter keeps every line that is not blank and
 * dumps each selected database into one gzipped file.
 *
 * As written, `pg_list_database` passes `check=True` to
 * `subprocess.check_output`, which refuses that keyword, so the listing call
 * raises before `psql` runs and every dump aborts. The listing and the dump
 * are therefore parameterised by the keyword arguments of that call:
 * `ListingKeywords` as written, `IntendedKeywords` as evidently meant.
 */
module PgDump {
  import opened Wrappers
  import opened Text
  import opened Outcomes
  import opened Selection
  import opened BackupConfig
  import opened DumpLoop

  const DefaultPort: string := "5432"

  /** The database name a line gives: the line without surrounding whitespace. */
  function LineName(line: string): string
  {
    Strip(line, Whitespace)
  }

  /** A line names a database when something is left after stripping it. */
  predicate KeptLine(i: nat, line: string)
  {
    LineName(line) != ""
  }

  /** The databases a listing names, in listing order. */
  function Databases(output: string): seq<string>
  {
    var lines := Split(output, '\n');
    Collect(lines, |lines|, KeptLine, LineName)
  }

  /** The keyword arguments `pg_list_database` passes to `subprocess.check_output`. */
  const ListingKeywords: set<string> := {"env", "shell", "check"}

  /** The same call without `check=True`, which `check_output` implies anyway. */
  const IntendedKeywords: set<string> := {"env", "shell"}

  /**
   * `subprocess.check_output` sets `stdout` and `check` itself and refuses
   * them from its caller: Python 3.12 raises `ValueError`, earlier versions
   * hand `check` to `subprocess.run` a second time, which raises `TypeError`.
   * Either is raised before the command runs and is not a `CalledProcessError`.
   */
  predicate CheckOutputRefuses(keywords: set<string>)
  {
    "stdout" in keywords || "check" in keywords
  }

  /** What `pg_list_database` makes of the output of `psql`, or of `None` when `psql` fails. */
  method ParseListing(output: Option<string>) returns (r: Listing)
    ensures output.None? ==> r == NoListing
    ensures output.Some? && Databases(output.value) == [] ==> r == NoNames
    ensures output.Some? && Databases(output.value) != [] ==> r == Names(Databases(output.value))
  {
    if output.None? {
      return NoListing;
    }
    var lines := Split(output.value, '\n');
    var result := [];
    for i := 0 to |lines|
      invariant result == Collect(lines, i, KeptLine, LineName)
    {
      var v := lines[i];
      v := Strip(v, Whitespace);
      if v != "" {
        result := result + [v];
      }
    }
    if |result| == 0 {
      return NoNames;
    }
    return Names(result);
  }

  /**
   * `pg_list_database` with the given keyword arguments to `check_output`:
   * `None` when that call raises, otherwise the listing read from the output
   * of `psql`.
   */
  method ListDatabases(keywords: set<string>, output: Option<string>) returns (r: Option<Listing>)
    ensures r.None? <==> CheckOutputRefuses(keywords)
    ensures r.Some? && output.None? ==> r.value == NoListing
    ensures r.Some? && output.Some? && Databases(output.value) == [] ==> r.value == NoNames
    ensures r.Some? && output.Some? && Databases(output.value) != [] ==> r.value == Names(Databases(output.value))
  {
    if CheckOutputRefuses(keywords) {
      return None;
    }
    var listing := ParseListing(output);
    return Some(listing);
  }

  /** The call as written raises; without `check=True` it does not. */
  lemma ListingKeywordsRefused()
    ensures CheckOutputRefuses(ListingKeywords)
    ensures !CheckOutputRefuses(IntendedKeywords)
  {
    assert "check" in ListingKeywords;
    assert "check"[0] != "env"[0] && "check"[0] != "shell"[0];
    assert "stdout"[1] != "env"[1] && "stdout"[1] != "shell"[1];
  }

  /** Which names the listing gives: exactly its stripped non-blank lines, none of them empty. */
  lemma DatabasesListed(output: string, name: string)
    ensures var lines := Split(output, '\n');
      name in Databases(output) <==> name != "" && exists i :: 0 <= i < |lines| && LineName(lines[i]) == name
  {
    var lines := Split(output, '\n');
    CollectMembers(lines, |lines|, KeptLine, LineName, name);
  }

  /** A listed name neither starts nor ends with whitespace. */
  lemma DatabasesStripped(output: string, k: nat)
    requires k < |Databases(output)|
    ensures var name := Databases(output)[k];
      |name| > 0 && name[0] !in Whitespace && name[|name| - 1] !in Whitespace
  {
    var lines := Split(output, '\n');
    var name := Databases(output)[k];
    assert name in Databases(output);
    CollectMembers(lines, |lines|, KeptLine, LineName, name);
    var i :| 0 <= i < |lines| && KeptLine(i, lines[i]) && LineName(lines[i]) == name;
    StripIsMaximalInfix(lines[i], Whitespace);
  }

  /** What connects to the server: `--host`, `--port`, `--user`, and the password passed as `PGPASSWORD`. */
  datatype Connection = Connection(host: string, port: string, username: string, password: string)

  /** One `pg_dump | gzip` pipeline, by the database it dumps and the file it writes. */
  datatype DumpCommand = DumpCommand(connection: Connection, database: string, output: string)

  function DumpFileName(database: string): string
  {
    "PGSQL_" + database + ".sql.gz"
  }

  /** The one command `pg_dump` issues for a database. */
  function DatabaseCommands(targetDir: string, connection: Connection, database: string): (cmds: seq<DumpCommand>)
    ensures |cmds| == 1 && cmds[0].database == database && cmds[0].connection == connection
    ensures cmds[0].output == PathJoin(targetDir, DumpFileName(database))
  {
    [DumpCommand(connection, database, PathJoin(targetDir, DumpFileName(database)))]
  }

  function CommandsFor(targetDir: string, connection: Connection): string -> seq<DumpCommand>
  {
    database => DatabaseCommands(targetDir, connection, database)
  }

  /**
   * How `pg_dump` ends for a listing: a listing call that raises aborts
   * before any dump; otherwise the plan it follows and the verdict.
   */
  predicate DumpRun(keywords: set<string>, targetDir: string, connection: Connection, includes: Option<seq<string>>,
                    excludes: Option<seq<string>>, output: Option<string>, matches: Matcher, outcomes: seq<bool>,
                    result: Outcome, issued: seq<DumpCommand>)
  {
    && (CheckOutputRefuses(keywords) ==> result == Aborted && issued == [])
    && (!CheckOutputRefuses(keywords) && (output.None? || Databases(output.value) == []) ==> result == Failed && issued == [])
    && (!CheckOutputRefuses(keywords) && output.Some? && Databases(output.value) != [] ==>
          && result != Aborted
          && FailFastRun(Plan(Databases(output.value), includes, excludes, matches, CommandsFor(targetDir, connection)),
                         outcomes, result == Succeeded, issued))
  }

  /**
   * `pg_dump`, with `keywords` the keyword arguments its listing call passes
   * to `check_output`. A failed or empty listing returns `False` before any
   * dump. Giving both include and exclude patterns is only logged.
   */
  method Dump(keywords: set<string>, targetDir: string, connection: Connection, includes: Option<seq<string>>,
              excludes: Option<seq<string>>, output: Option<string>, matches: Matcher, outcomes: seq<bool>)
    returns (result: Outcome, issued: seq<DumpCommand>)
    ensures DumpRun(keywords, targetDir, connection, includes, excludes, output, matches, outcomes, result, issued)
  {
    var databases := ListDatabases(keywords, output);
    if databases.None? {
      return Aborted, [];
    }
    if !databases.value.Names? {
      return Failed, [];
    }
    var ok;
    ok, issued := DumpEach(databases.value.names, includes, excludes, matches, CommandsFor(targetDir, connection), outcomes);
    result := if ok then Succeeded else Failed;
  }

  /** As written, `pg_dump` aborts whatever `psql` would print and whatever the dumps would do. */
  lemma DumpAsWrittenAborts(targetDir: string, connection: Connection, includes: Option<seq<string>>,
                            excludes: Option<seq<string>>, output: Option<string>, matches: Matcher, outcomes: seq<bool>,
                            result: Outcome, issued: seq<DumpCommand>)
    requires DumpRun(ListingKeywords, targetDir, connection, includes, excludes, output, matches, outcomes, result, issued)
    ensures result == Aborted && issued == []
  {
    ListingKeywordsRefused();
  }

  /**
   * The discrepancy: for a listing that names a database, the dump as written
   * aborts without issuing anything, while the call as meant reads the names
   * and does not abort (for valid patterns, see `Selection.Matcher`).
   */
  lemma ListingDiscrepancy(targetDir: string, connection: Connection, includes: Option<seq<string>>,
                           excludes: Option<seq<string>>, output: string, matches: Matcher, outcomes: seq<bool>,
                           written: Outcome, writtenIssued: seq<DumpCommand>, meant: Outcome, meantIssued: seq<DumpCommand>)
    requires Databases(output) != []
    requires DumpRun(ListingKeywords, targetDir, connection, includes, excludes, Some(output), matches, outcomes, written, writtenIssued)
    requires DumpRun(IntendedKeywords, targetDir, connection, includes, excludes, Some(output), matches, outcomes, meant, meantIssued)
    ensures written == Aborted && writtenIssued == []
    ensures meant != Aborted
  {
    ListingKeywordsRefused();
  }

  /** The connection `pg_dump_with_config` reads from its section, or `None` when a required key is missing. */
  function ConnectionOf(section: Section): (c: Option<Connection>)
    ensures c.Some? <==> "host" in section.fields && "username" in section.fields && "password" in section.fields
  {
    var fields := section.fields;
    if "host" in fields && "username" in fields && "password" in fields then
      Some(Connection(fields["host"], if "port" in fields then fields["port"] else DefaultPort,
                      fields["username"], fields["password"]))
    else None
  }

  /** The settings come from the section, the port defaulting to 5432. */
  lemma ConnectionDefaults(section: Section)
    requires ConnectionOf(section).Some?
    ensures var c := ConnectionOf(section).value;
      && c.host == section.fields["host"]
      && c.username == section.fields["username"]
      && c.password == section.fields["password"]
      && ("port" in section.fields ==> c.port == section.fields["port"])
      && ("port" !in section.fields ==> c.port == "5432")
  {
  }

  /**
   * `pg_dump_with_config`: a missing `host`, `username` or `password` is logged
   * and then raises a `KeyError`; include and exclude default to `None`. As
   * written the listing call then raises too, so every call aborts.
   */
  method DumpWithConfig(targetDir: string, section: Section, output: Option<string>, matches: Matcher, outcomes: seq<bool>)
    returns (result: Outcome, issued: seq<DumpCommand>)
    ensures ConnectionOf(section).None? ==> result == Aborted && issued == []
    ensures ConnectionOf(section).Some? ==>
      DumpRun(ListingKeywords, targetDir, ConnectionOf(section).value, section.includes, section.excludes,
              output, matches, outcomes, result, issued)
    ensures result == Aborted && issued == []
  {
    var connection := ConnectionOf(section);
    if connection.None? {
      return Aborted, [];
    }
    result, issued := Dump(ListingKeywords, targetDir, connection.value, section.includes, section.excludes,
                           output, matches, outcomes);
    ListingKeywordsRefused();
  }

  /**
   * `pg_dump_with_config` with the listing call as meant: a missing key still
   * aborts, a failed or empty listing returns `False`, and a listing that
   * names a database gives a fail-fast run of the plan that does not abort
   * (for valid patterns, see `Selection.Matcher`).
   */
  method DumpWithConfigAsMeant(targetDir: string, section: Section, output: Option<string>, matches: Matcher, outcomes: seq<bool>)
    returns (result: Outcome, issued: seq<DumpCommand>)
    ensures ConnectionOf(section).None? ==> result == Aborted && issued == []
    ensures ConnectionOf(section).Some? && (output.None? || Databases(output.value) == []) ==>
      result == Failed && issued == []
    ensures ConnectionOf(section).Some? && output.Some? && Databases(output.value) != [] ==>
      && result != Aborted
      && FailFastRun(Plan(Databases(output.value), section.includes, section.excludes, matches,
                          CommandsFor(targetDir, ConnectionOf(section).value)),
                     outcomes, result == Succeeded, issued)
  {
    var connection := ConnectionOf(section);
    if connection.None? {
      return Aborted, [];
    }
    result, issued := Dump(IntendedKeywords, targetDir, connection.value, section.includes, section.excludes,
                           output, matches, outcomes);
    ListingKeywordsRefused();
  }

  /** The plan has one file per selected database, in listing order: the k-th command writes the k-th selected database. */
  lemma OneFilePerDatabase(targetDir: string, connection: Connection, names: seq<string>, includes: Option<seq<string>>,
                           excludes: Option<seq<string>>, matches: Matcher, k: nat)
    requires k < |SelectNames(names, includes, excludes, matches)|
    ensures var selected := SelectNames(names, includes, excludes, matches);
      var plan := Plan(names, includes, excludes, matches, CommandsFor(targetDir, connection));
      && |plan| == |selected|
      && plan[k] == DumpCommand(connection, selected[k], PathJoin(targetDir, "PGSQL_" + selected[k] + ".sql.gz"))
  {
    var selected := SelectNames(names, includes, excludes, matches);
    var commands := CommandsFor(targetDir, connection);
    PlanOfSelection(names, includes, excludes, matches, commands);
    ExpandOneEach(selected, targetDir, connection);
  }

  /** With one command per name, expanding is mapping. */
  lemma {:induction false} ExpandOneEach(names: seq<string>, targetDir: string, connection: Connection)
    ensures var e := Expand(names, CommandsFor(targetDir, connection));
      && |e| == |names|
      && forall k :: 0 <= k < |names| ==> e[k] == DatabaseCommands(targetDir, connection, names[k])[0]
  {
    if |names| > 0 {
      ExpandOneEach(names[..|names| - 1], targetDir, connection);
    }
  }
}
