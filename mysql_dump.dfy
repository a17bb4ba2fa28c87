/**
 * The MySQL adapter: `mysql_list_database`, `mysql_dump` and `mysql_dump_with_config`.
 *
 * `mysqlshow` prints a table of database names; the adapter keeps the table rows,
 * drops the two system schemas, and dumps each selected database into two
 * gzipped files, its DROP/CREATE statements first and its data second.
 */
module MysqlDump {
  import opened Wrappers
  import opened Text
  import opened Outcomes
  import opened Selection
  import opened BackupConfig
  import opened DumpLoop

  /** The schemas `mysqlshow` lists that are never dumped. */
  const SystemSchemas: seq<string> := ["information_schema", "performance_schema"]

  /** The lines before the table rows: the top border, the header and the border under it. */
  const HeaderLines: nat := 3

  const RowStart: string := "| "

  /** The characters stripped from both ends of a row. */
  const RowBorder: set<char> := {'|', ' '}

  const DefaultPort: string := "3306"

  /** The database name a table row gives. */
  function RowName(line: string): string
  {
    Strip(line, RowBorder)
  }

  /** Line `i` of the listing is a table row naming a database that is not a system schema. */
  predicate KeptRow(i: nat, line: string)
  {
    i >= HeaderLines && StartsWith(line, RowStart) && RowName(line) !in SystemSchemas
  }

  /** The databases a `mysqlshow` output lists, in listing order. */
  function Databases(output: string): seq<string>
  {
    var lines := Split(output, '\n');
    Collect(lines, |lines|, KeptRow, RowName)
  }

  /** `mysql_list_database`, given the output of `mysqlshow`, or `None` when it failed. */
  method ListDatabases(output: Option<string>) returns (r: Listing)
    ensures output.None? ==> r == NoListing
    ensures output.Some? && Databases(output.value) == [] ==> r == NoNames
    ensures output.Some? && Databases(output.value) != [] ==> r == Names(Databases(output.value))
  {
    if output.None? {
      return NoListing;
    }
    var lines := Split(output.value, '\n');
    var result := [];
    for i := 0 to |lines|
      invariant result == Collect(lines, i, KeptRow, RowName)
    {
      var v := lines[i];
      if i < HeaderLines || !StartsWith(v, RowStart) {
        continue;
      }
      v := Strip(v, RowBorder);
      if v == "information_schema" || v == "performance_schema" {
        continue;
      }
      result := result + [v];
    }
    if |result| == 0 {
      return NoNames;
    }
    return Names(result);
  }

  /**
   * Which names the listing gives: exactly the stripped table rows after the
   * header, without the system schemas.
   */
  lemma DatabasesListed(output: string, name: string)
    ensures var lines := Split(output, '\n');
      name in Databases(output) <==>
        && name !in SystemSchemas
        && exists i :: HeaderLines <= i < |lines| && StartsWith(lines[i], RowStart) && RowName(lines[i]) == name
  {
    var lines := Split(output, '\n');
    CollectMembers(lines, |lines|, KeptRow, RowName, name);
  }

  /** A listed name carries none of the table's border characters at either end. */
  lemma DatabasesStripped(output: string, k: nat)
    requires k < |Databases(output)|
    ensures var name := Databases(output)[k];
      |name| > 0 ==> name[0] !in RowBorder && name[|name| - 1] !in RowBorder
  {
    var lines := Split(output, '\n');
    var name := Databases(output)[k];
    assert name in Databases(output);
    CollectMembers(lines, |lines|, KeptRow, RowName, name);
    var i :| 0 <= i < |lines| && KeptRow(i, lines[i]) && RowName(lines[i]) == name;
    StripIsMaximalInfix(lines[i], RowBorder);
  }

  /** What connects to the server: `--host`, `--port`, `--user` and `--password`. */
  datatype Connection = Connection(host: string, port: string, username: string, password: string)

  /** The two dumps of a database: DROP/CREATE statements without data, then the data. */
  datatype Part = DropCreate | Data

  /** One `mysqldump | gzip` pipeline, by what it dumps and the file it writes. */
  datatype DumpCommand = DumpCommand(connection: Connection, part: Part, database: string, output: string)

  /** The file name of one part of a database's dump. */
  function DumpFileName(database: string, part: Part): string
  {
    match part
    case DropCreate => "MYSQL_" + database + "_DROP_CREATE.sql.gz"
    case Data => "MYSQL_" + database + "_DATA.sql.gz"
  }

  /** The commands `mysql_dump` issues for one database, in order. */
  function DatabaseCommands(targetDir: string, connection: Connection, database: string): (cmds: seq<DumpCommand>)
    ensures |cmds| == 2
    ensures cmds[0].part == DropCreate && cmds[1].part == Data
    ensures forall k :: 0 <= k < 2 ==>
      && cmds[k].database == database && cmds[k].connection == connection
      && cmds[k].output == PathJoin(targetDir, DumpFileName(database, cmds[k].part))
  {
    [DumpCommand(connection, DropCreate, database, PathJoin(targetDir, DumpFileName(database, DropCreate))),
     DumpCommand(connection, Data, database, PathJoin(targetDir, DumpFileName(database, Data)))]
  }

  function CommandsFor(targetDir: string, connection: Connection): string -> seq<DumpCommand>
  {
    database => DatabaseCommands(targetDir, connection, database)
  }

  /** How `mysql_dump` ends for a listing: the plan it follows and the verdict. */
  predicate DumpRun(targetDir: string, connection: Connection, includes: Option<seq<string>>, excludes: Option<seq<string>>,
                    output: Option<string>, matches: Matcher, outcomes: seq<bool>, result: Outcome, issued: seq<DumpCommand>)
  {
    && (output.None? ==> result == Failed && issued == [])
    && (output.Some? && Databases(output.value) == [] ==> result == Aborted && issued == [])
    && (output.Some? && Databases(output.value) != [] ==>
          && result != Aborted
          && FailFastRun(Plan(Databases(output.value), includes, excludes, matches, CommandsFor(targetDir, connection)),
                         outcomes, result == Succeeded, issued))
  }

  /**
   * `mysql_dump`. A failed listing returns `False` before any dump; an empty
   * listing returns `False` too, which the loop then iterates and so raises.
   * Giving both include and exclude patterns is only logged.
   */
  method Dump(targetDir: string, connection: Connection, includes: Option<seq<string>>, excludes: Option<seq<string>>,
              output: Option<string>, matches: Matcher, outcomes: seq<bool>)
    returns (result: Outcome, issued: seq<DumpCommand>)
    ensures DumpRun(targetDir, connection, includes, excludes, output, matches, outcomes, result, issued)
  {
    var databases := ListDatabases(output);
    if databases.NoListing? {
      return Failed, [];
    }
    if databases.NoNames? {
      // `for database in False` raises a TypeError
      return Aborted, [];
    }
    var ok;
    ok, issued := DumpEach(databases.names, includes, excludes, matches, CommandsFor(targetDir, connection), outcomes);
    result := if ok then Succeeded else Failed;
  }

  /** The connection `mysql_dump_with_config` reads from its section, or `None` when a required key is missing. */
  function ConnectionOf(section: Section): (c: Option<Connection>)
    ensures c.Some? <==> "host" in section.fields && "username" in section.fields && "password" in section.fields
  {
    var fields := section.fields;
    if "host" in fields && "username" in fields && "password" in fields then
      Some(Connection(fields["host"], if "port" in fields then fields["port"] else DefaultPort,
                      fields["username"], fields["password"]))
    else None
  }

  /** The settings come from the section, the port defaulting to 3306. */
  lemma ConnectionDefaults(section: Section)
    requires ConnectionOf(section).Some?
    ensures var c := ConnectionOf(section).value;
      && c.host == section.fields["host"]
      && c.username == section.fields["username"]
      && c.password == section.fields["password"]
      && ("port" in section.fields ==> c.port == section.fields["port"])
      && ("port" !in section.fields ==> c.port == "3306")
  {
  }

  /**
   * `mysql_dump_with_config`: a missing `host`, `username` or `password` is
   * logged and then raises a `KeyError`; include and exclude default to `None`.
   */
  method DumpWithConfig(targetDir: string, section: Section, output: Option<string>, matches: Matcher, outcomes: seq<bool>)
    returns (result: Outcome, issued: seq<DumpCommand>)
    ensures ConnectionOf(section).None? ==> result == Aborted && issued == []
    ensures ConnectionOf(section).Some? ==>
      DumpRun(targetDir, ConnectionOf(section).value, section.includes, section.excludes, output, matches, outcomes, result, issued)
  {
    var connection := ConnectionOf(section);
    if connection.None? {
      return Aborted, [];
    }
    result, issued := Dump(targetDir, connection.value, section.includes, section.excludes, output, matches, outcomes);
  }

  /**
   * Each selected database is dumped as one block of two commands, its
   * DROP/CREATE file then its data file, after the blocks of the databases
   * listed before it and before those listed after it.
   */
  lemma DatabaseBlock(targetDir: string, connection: Connection, names: seq<string>, includes: Option<seq<string>>,
                      excludes: Option<seq<string>>, matches: Matcher, k: nat)
    requires k < |SelectNames(names, includes, excludes, matches)|
    ensures var selected := SelectNames(names, includes, excludes, matches);
      var commands := CommandsFor(targetDir, connection);
      var db := selected[k];
      Plan(names, includes, excludes, matches, commands)
        == Expand(selected[..k], commands)
           + [DumpCommand(connection, DropCreate, db, PathJoin(targetDir, "MYSQL_" + db + "_DROP_CREATE.sql.gz")),
              DumpCommand(connection, Data, db, PathJoin(targetDir, "MYSQL_" + db + "_DATA.sql.gz"))]
           + Expand(selected[k + 1..], commands)
  {
    var selected := SelectNames(names, includes, excludes, matches);
    var commands := CommandsFor(targetDir, connection);
    PlanOfSelection(names, includes, excludes, matches, commands);
    ExpandAt(selected, k, commands);
  }

  /** A database is dumped at all only if it is listed, is not a system schema, and passes the selection. */
  lemma DumpedDatabases(targetDir: string, connection: Connection, output: string, includes: Option<seq<string>>,
                        excludes: Option<seq<string>>, matches: Matcher, c: DumpCommand)
    requires c in Plan(Databases(output), includes, excludes, matches, CommandsFor(targetDir, connection))
    ensures c.database in Databases(output) && c.database !in SystemSchemas
    ensures Selected(c.database, includes, excludes, matches)
    ensures c.output == PathJoin(targetDir, DumpFileName(c.database, c.part))
  {
    var names := Databases(output);
    var commands := CommandsFor(targetDir, connection);
    var selected := SelectNames(names, includes, excludes, matches);
    PlanOfSelection(names, includes, excludes, matches, commands);
    ExpandMembers(selected, commands, c);
    var k :| 0 <= k < |selected| && c in commands(selected[k]);
    SelectNamesMembers(names, includes, excludes, matches, selected[k]);
    DatabasesListed(output, c.database);
  }
}
