/**
 * The SQL Server adapter: `mssql_list_database` and `mssql_dump`.
 *
 * `sqlcmd` prints the result of `SELECT name FROM sys.databases;` as a column
 * under a header and a rule, followed by a row count in parentheses; the
 * adapter keeps the names and backs each selected database up to a `.bak` file.
 */
module MssqlDump {
  import opened Wrappers
  import opened Text
  import opened Outcomes
  import opened Selection
  import opened DumpLoop

  /** The lines before the names: the column header and the rule under it. */
  const HeaderLines: nat := 2

  /** The database name a line gives: the line without surrounding whitespace. */
  function LineName(line: string): string
  {
    Strip(line, Whitespace)
  }

  /** Line `i` names a database: after the header, not indented, not the `(n rows affected)` line, not blank. */
  predicate KeptLine(i: nat, line: string)
  {
    i >= HeaderLines && !StartsWith(line, " ") && !StartsWith(line, "(") && LineName(line) != ""
  }

  /** The databases a `sqlcmd` output lists, in listing order. */
  function Databases(output: string): seq<string>
  {
    var lines := Split(output, '\n');
    Collect(lines, |lines|, KeptLine, LineName)
  }

  /** `mssql_list_database`, given the output of `sqlcmd`, or `None` when it failed. */
  method ListDatabases(output: Option<string>) returns (r: Listing)
    ensures output.None? ==> r == NoListing
    ensures output.Some? && Databases(output.value) == [] ==> r == NoNames
    ensures output.Some? && Databases(output.value) != [] ==> r == Names(Databases(output.value))
  {
    if output.None? {
      return NoListing;
    }
    var lines := Split(output.value, '\n');
    var result := [];
    for i := 0 to |lines|
      invariant result == Collect(lines, i, KeptLine, LineName)
    {
      var v := lines[i];
      if i < HeaderLines || StartsWith(v, " ") || StartsWith(v, "(") || Strip(v, Whitespace) == "" {
        continue;
      }
      result := result + [Strip(v, Whitespace)];
    }
    if |result| == 0 {
      return NoNames;
    }
    return Names(result);
  }

  /**
   * Which names the listing gives: exactly the stripped lines after the header
   * that start neither with a space nor with `(`, none of them empty.
   */
  lemma DatabasesListed(output: string, name: string)
    ensures var lines := Split(output, '\n');
      name in Databases(output) <==>
        && name != ""
        && exists i :: HeaderLines <= i < |lines| && !StartsWith(lines[i], " ") && !StartsWith(lines[i], "(")
                       && LineName(lines[i]) == name
  {
    var lines := Split(output, '\n');
    CollectMembers(lines, |lines|, KeptLine, LineName, name);
  }

  /** What connects to the server: `-S host,port`, `-U username`, and the password passed as `SQLCMDPASSWORD`. */
  datatype Connection = Connection(host: string, port: string, username: string, password: string)

  /** One `BACKUP DATABASE` run through `sqlcmd`, by the database and the file it writes. */
  datatype BackupCommand = BackupCommand(connection: Connection, database: string, target: string)

  /** The one command `mssql_dump` issues for a database. */
  function DatabaseCommands(targetDir: string, connection: Connection, database: string): (cmds: seq<BackupCommand>)
    ensures |cmds| == 1 && cmds[0].database == database && cmds[0].connection == connection
    ensures cmds[0].target == PathJoin(targetDir, database + ".bak")
  {
    [BackupCommand(connection, database, PathJoin(targetDir, database + ".bak"))]
  }

  function CommandsFor(targetDir: string, connection: Connection): string -> seq<BackupCommand>
  {
    database => DatabaseCommands(targetDir, connection, database)
  }

  /**
   * `mssql_dump`. A failed listing returns `False` before any backup; an empty
   * listing returns `False` too, which the loop then iterates and so raises.
   * Giving both include and exclude patterns is only logged.
   */
  method Dump(targetDir: string, connection: Connection, includes: Option<seq<string>>, excludes: Option<seq<string>>,
              output: Option<string>, matches: Matcher, outcomes: seq<bool>)
    returns (result: Outcome, issued: seq<BackupCommand>)
    ensures output.None? ==> result == Failed && issued == []
    ensures output.Some? && Databases(output.value) == [] ==> result == Aborted && issued == []
    ensures output.Some? && Databases(output.value) != [] ==>
      && result != Aborted
      && FailFastRun(Plan(Databases(output.value), includes, excludes, matches, CommandsFor(targetDir, connection)),
                     outcomes, result == Succeeded, issued)
  {
    var databases := ListDatabases(output);
    if databases.NoListing? {
      return Failed, [];
    }
    if databases.NoNames? {
      // `for database in False` raises a TypeError
      return Aborted, [];
    }
    var ok;
    ok, issued := DumpEach(databases.names, includes, excludes, matches, CommandsFor(targetDir, connection), outcomes);
    result := if ok then Succeeded else Failed;
  }

  /** A database is backed up only if it is listed and passes the selection, and always to `<target_dir>/<db>.bak`. */
  lemma BackedUpDatabases(targetDir: string, connection: Connection, output: string, includes: Option<seq<string>>,
                          excludes: Option<seq<string>>, matches: Matcher, c: BackupCommand)
    requires c in Plan(Databases(output), includes, excludes, matches, CommandsFor(targetDir, connection))
    ensures c.database in Databases(output) && Selected(c.database, includes, excludes, matches)
    ensures c.target == PathJoin(targetDir, c.database + ".bak")
  {
    var names := Databases(output);
    var commands := CommandsFor(targetDir, connection);
    var selected := SelectNames(names, includes, excludes, matches);
    PlanOfSelection(names, includes, excludes, matches, commands);
    ExpandMembers(selected, commands, c);
    var k :| 0 <= k < |selected| && c in commands(selected[k]);
    SelectNamesMembers(names, includes, excludes, matches, selected[k]);
  }
}
