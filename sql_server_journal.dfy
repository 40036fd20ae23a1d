/** The SQL Server journal of DbUp (`DbUp.Journal.TableJournal`): a table,
    `dbo.SchemaVersions` unless configured otherwise, holding one row per
    executed script. Reading the journal never creates the table; recording a
    script creates it when it is missing and then appends one row.

    The SQL Server database the connection string points to is modelled by
    the class `Database`: its user tables with their rows, the schema-scoped
    object names in use, the command kinds it refuses (a lost connection, a
    missing permission) and the value `getutcdate()` gives. Every command the
    journal sends is appended to the ghost log `issued`, with its text. */
module SqlServerJournal {
  import opened Results
  import opened Ordering
  import opened Int32Text
  import opened Text

  /** The value of `getutcdate()` at insert time; the journal never looks at it. */
  datatype Timestamp = Timestamp(ticks: int)

  /** One journal row: `ScriptName` and `Applied` (the `Id` identity column is
      not modelled). */
  datatype Row = Row(scriptName: string, applied: Timestamp)

  /** A schema-scoped object name: a table, or a table's primary-key constraint. */
  datatype ObjectName = ObjectName(schema: string, name: string)

  datatype CommandKind = ExistenceQuery | CreateTable | InsertEntry | SelectEntries

  /** A command as the journal sends it: its kind, its text and its parameters. */
  datatype Command = Command(kind: CommandKind, text: string, parameters: seq<(string, string)>)

  /** The `SqlException` a command raises. */
  datatype DbError = CommandFailed(kind: CommandKind)

  /** The part of a database's state the journal can change. */
  datatype DbState = DbState(tables: map<ObjectName, seq<Row>>, objects: set<ObjectName>)

  /** Every table name is an object name in use. */
  ghost predicate Consistent(s: DbState) {
    s.tables.Keys <= s.objects
  }

  /** The rows of table `t`, or none when it does not exist. */
  function RowsOf(s: DbState, t: ObjectName): seq<Row> {
    if t in s.tables then s.tables[t] else []
  }

  /** The `ScriptName` column of `rows`, in row order. */
  function Names(rows: seq<Row>): (r: seq<string>)
    ensures |r| == |rows|
    ensures forall i :: 0 <= i < |rows| ==> r[i] == rows[i].scriptName
  {
    if rows == [] then [] else [rows[0].scriptName] + Names(rows[1..])
  }

  lemma NamesAppend(rows: seq<Row>, row: Row)
    ensures Names(rows + [row]) == Names(rows) + [row.scriptName]
  {
    assert forall i :: 0 <= i < |rows| + 1 ==> Names(rows + [row])[i] == (Names(rows) + [row.scriptName])[i];
  }

  // ---------------------------------------------------------------------
  // Command texts. Line breaks inside them are CR LF, as in the source file.

  function QualifiedName(schema: string, table: string): string {
    schema + "." + table
  }

  const ExistsQueryStart: string :=
    "select count(*)\r\nfrom sys.objects \r\ninner join sys.schemas on objects.schema_id = schemas.schema_id\r\n"
    + "where type='U' and "
  const TableFilter: string := "objects.name = '"
  const SchemaFilter: string := "' and schemas.name = '"

  /** The existence query: user tables named `table` in the schema named
      `schema`, compared separately (not as a qualified name). */
  function ExistsQueryText(table: string, schema: string): (r: string)
    ensures Contains(r, TableFilter + table + SchemaFilter + schema + "'")
  {
    ContainsSuffix(ExistsQueryStart, TableFilter + table + SchemaFilter + schema + "'");
    ExistsQueryStart + (TableFilter + table + SchemaFilter + schema + "'")
  }

  /** The constraint name the source writes into the table definition,
      whatever the table is called. */
  const FixedConstraintName: string := "PK_SchemaVersions_Id"

  /** A constraint name derived from the table, one per journal table. */
  function PrimaryKeyName(table: string): string {
    "PK_" + table + "_Id"
  }

  const CreateTableColumns: string := " (\r\n\t[Id] int identity(1,1) not null "
  const ConstraintKeyword: string := "constraint "
  const PrimaryKeyClause: string := " primary key nonclustered"
  const CreateTableTail: string :=
    " ,\r\n\t[ScriptName] nvarchar(255) not null,\r\n\t[Applied] datetime not null\r\n)"

  function CreateTableParts(schemaTableName: string, constraintName: string): seq<string> {
    ["create table ", schemaTableName, CreateTableColumns, ConstraintKeyword, constraintName, PrimaryKeyClause,
     CreateTableTail]
  }

  /** The table definition, its `[Id]` key constraint named `constraintName`. */
  function CreateTableText(schemaTableName: string, constraintName: string): (r: string)
    ensures Contains(r, "create table " + schemaTableName)
    ensures Contains(r, ConstraintKeyword + constraintName + PrimaryKeyClause)
  {
    ContainsTwoFragments(CreateTableParts(schemaTableName, constraintName), 0);
    ContainsThreeFragments(CreateTableParts(schemaTableName, constraintName), 3);
    Join(CreateTableParts(schemaTableName, constraintName))
  }

  /** The name of the insert's one parameter. */
  const ScriptNameParameter: string := "scriptName"
  const InsertColumns: string := " (ScriptName, Applied) values ("
  const AppliedNow: string := ", (getutcdate()))"

  /** The insert: into `schemaTableName`, the script name from the parameter
      `@scriptName`, the time from the server's clock. */
  function InsertText(schemaTableName: string): (r: string)
    ensures Contains(r, "insert into " + schemaTableName)
    ensures Contains(r, "@" + ScriptNameParameter + AppliedNow)
  {
    var head := "insert into " + schemaTableName;
    var values := "@" + ScriptNameParameter + AppliedNow;
    assert head + InsertColumns + values == head + (InsertColumns + values);
    ContainsPrefix(head, InsertColumns + values);
    ContainsSuffix(head + InsertColumns, values);
    head + InsertColumns + values
  }

  const OrderByScriptName: string := " order by [ScriptName]"

  /** The select: the `ScriptName` column of `schemaTableName`, ordered by it. */
  function SelectText(schemaTableName: string): (r: string)
    ensures Contains(r, "from " + schemaTableName + OrderByScriptName)
    ensures EndsWith(r, OrderByScriptName)
  {
    var from := "from " + schemaTableName;
    assert "select [ScriptName] " + from + OrderByScriptName == "select [ScriptName] " + (from + OrderByScriptName);
    ContainsSuffix("select [ScriptName] ", from + OrderByScriptName);
    EndsWithAppend("select [ScriptName] " + from, OrderByScriptName);
    "select [ScriptName] " + from + OrderByScriptName
  }

  /** The texts of the four commands the journal sends for one table. */
  datatype CommandTexts = CommandTexts(existence: string, create: string, insert: string, select: string)

  /** The four texts for the table `schema.table`, with its key constraint
      named `constraintName`: every one of them addresses that table. */
  function TextsFor(schema: string, table: string, constraintName: string): (r: CommandTexts)
    ensures Contains(r.existence, TableFilter + table + SchemaFilter + schema + "'")
    ensures Contains(r.create, "create table " + QualifiedName(schema, table))
    ensures Contains(r.create, ConstraintKeyword + constraintName + PrimaryKeyClause)
    ensures Contains(r.insert, "insert into " + QualifiedName(schema, table))
    ensures Contains(r.select, "from " + QualifiedName(schema, table) + OrderByScriptName)
  {
    CommandTexts(ExistsQueryText(table, schema), CreateTableText(QualifiedName(schema, table), constraintName),
                 InsertText(QualifiedName(schema, table)), SelectText(QualifiedName(schema, table)))
  }

  // ---------------------------------------------------------------------
  // What each command does to the database.

  /** `create table`: fails when it is refused, when the table name or its
      constraint name is already in use in the schema, or when the two are
      the same name (the constraint would clash with its own table);
      otherwise both names are taken and the table starts empty. */
  function CreateEffect(s: DbState, refused: set<CommandKind>, t: ObjectName, pk: ObjectName): (r: (DbState, Result<(), DbError>))
    ensures r.1.Ok? <==> CreateTable !in refused && t != pk && t !in s.objects && pk !in s.objects
    ensures r.1.Ok? ==> r.0 == DbState(s.tables[t := []], s.objects + {t, pk})
    ensures r.1.Err? ==> r.0 == s
  {
    if CreateTable in refused || t == pk || t in s.objects || pk in s.objects then (s, Err(CommandFailed(CreateTable)))
    else (DbState(s.tables[t := []], s.objects + {t, pk}), Ok(()))
  }

  /** The width of the `[ScriptName] nvarchar(255)` column, in UTF-16 code units. */
  const MaxScriptNameLength: nat := 255

  /** What the `[ScriptName]` column stores for `name`. A value that fits is
      stored as it is. A longer one is refused ("String or binary data would
      be truncated") unless everything past the width is trailing blanks,
      which the server drops without a word. */
  function ColumnValue(name: string): (r: Option<string>)
    ensures r.None? <==> Utf16Length(TrimTrailingSpaces(name)) > MaxScriptNameLength
    ensures Utf16Length(name) <= MaxScriptNameLength ==> r == Some(name)
    ensures r.Some? ==> && Utf16Length(r.value) <= MaxScriptNameLength
                        && |TrimTrailingSpaces(name)| <= |r.value| <= |name|
                        && r.value == name[..|r.value|]
    ensures r.Some? && Utf16Length(name) > MaxScriptNameLength ==> Utf16Length(r.value) == MaxScriptNameLength
  {
    var kept := TrimTrailingSpaces(name);
    BlanksAfter(name, kept, |name|);
    assert name[..|name|] == name;
    if Utf16Length(name) <= MaxScriptNameLength then Some(name)
    else if Utf16Length(kept) > MaxScriptNameLength then None
    else
      var k := |kept| + (MaxScriptNameLength - Utf16Length(kept));
      BlanksAfter(name, kept, k);
      Some(name[..k])
  }

  /** Past its trimmed form, a name is blanks, one code unit each. */
  lemma BlanksAfter(name: string, kept: string, k: nat)
    requires kept == TrimTrailingSpaces(name) && |kept| <= k <= |name|
    ensures Utf16Length(name[..k]) == Utf16Length(kept) + (k - |kept|)
  {
    var blanks := name[|kept|..k];
    assert name[..k] == kept + blanks;
    Utf16LengthAppend(kept, blanks);
    Utf16LengthOfSpaces(blanks);
  }

  /** Every name fits the `[ScriptName]` column as it is. */
  predicate FitColumn(names: seq<string>) {
    forall i :: 0 <= i < |names| ==> Utf16Length(names[i]) <= MaxScriptNameLength
  }

  lemma FitColumnSplit(names: seq<string>)
    requires FitColumn(names) && names != []
    ensures Utf16Length(names[0]) <= MaxScriptNameLength && FitColumn(names[1..])
  {
    assert forall i :: 0 <= i < |names| - 1 ==> names[1..][i] == names[i + 1];
  }

  /** `insert`: fails when it is refused, when the table is missing, or when
      the column refuses the script name; otherwise appends exactly one row,
      holding what the column stores, stamped by the server. */
  function InsertEffect(s: DbState, refused: set<CommandKind>, now: Timestamp, t: ObjectName, scriptName: string): (r: (DbState, Result<(), DbError>))
    ensures r.1.Ok? <==> InsertEntry !in refused && t in s.tables && ColumnValue(scriptName).Some?
    ensures r.1.Ok? ==> r.0 == DbState(s.tables[t := s.tables[t] + [Row(ColumnValue(scriptName).value, now)]], s.objects)
    ensures r.1.Err? ==> r.0 == s
  {
    if InsertEntry in refused || t !in s.tables || ColumnValue(scriptName).None? then (s, Err(CommandFailed(InsertEntry)))
    else (DbState(s.tables[t := s.tables[t] + [Row(ColumnValue(scriptName).value, now)]], s.objects), Ok(()))
  }

  /** The `count(*)` scalar of the existence query, turned into a boolean the
      way `DoesTableExist` does: `int.TryParse` and `!= 0`. A scalar that does
      not parse counts as "absent". */
  function ExistsFromScalar(scalar: string): (b: bool)
    ensures b <==> TryParseInt32(scalar).ok && TryParseInt32(scalar).value != 0
  {
    TryParseInt32(scalar).value != 0
  }

  /** The count the existence query returns (a table name is unique in its
      schema), after `ToString()`, says exactly whether the table exists. */
  lemma ExistsFromCount(present: bool)
    ensures ExistsFromScalar(DecimalString(if present then 1 else 0)) == present
  {
    ParseDecimalString(if present then 1 else 0);
  }

  // ---------------------------------------------------------------------
  // The two journal operations as functions of the database state.

  /** What `GetExecutedScripts` returns: an error when a command it sends is
      refused; no names when the table is missing; otherwise every stored
      name, sorted, whatever order the rows were inserted in. */
  function ReadSpec(s: DbState, refused: set<CommandKind>, t: ObjectName): (r: Result<seq<string>, DbError>)
    ensures r.Err? <==> ExistenceQuery in refused || (t in s.tables && SelectEntries in refused)
    ensures r.Ok? && t !in s.tables ==> r.value == []
    ensures r.Ok? ==> Sorted(r.value) && multiset(r.value) == multiset(Names(RowsOf(s, t)))
  {
    if ExistenceQuery in refused then Err(CommandFailed(ExistenceQuery))
    else if t !in s.tables then Ok([])
    else if SelectEntries in refused then Err(CommandFailed(SelectEntries))
    else Ok(Sort(Names(s.tables[t])))
  }

  /** The commands `GetExecutedScripts` sends: always a fresh existence query,
      then the select when the table exists. Never a create. */
  function ReadCommands(s: DbState, refused: set<CommandKind>, t: ObjectName, texts: CommandTexts): seq<Command> {
    [Command(ExistenceQuery, texts.existence, [])]
    + if ExistenceQuery !in refused && t in s.tables then [Command(SelectEntries, texts.select, [])] else []
  }

  /** The state, the commands sent and the outcome of one `StoreExecutedScript`. */
  datatype StoreStep = StoreStep(state: DbState, issued: seq<Command>, outcome: Result<(), DbError>)

  /** The number of `create table` commands among `cs`. */
  function CreateCount(cs: seq<Command>): nat {
    if cs == [] then 0 else (if cs[0].kind == CreateTable then 1 else 0) + CreateCount(cs[1..])
  }

  lemma {:induction false} CreateCountAppend(a: seq<Command>, b: seq<Command>)
    ensures CreateCount(a + b) == CreateCount(a) + CreateCount(b)
  {
    if a == [] {
      assert a + b == b;
    } else {
      assert (a + b)[0] == a[0];
      assert (a + b)[1..] == a[1..] + b;
      CreateCountAppend(a[1..], b);
    }
  }

  lemma CreateCountOfThree(a: Command, b: Command, c: Command)
    ensures CreateCount([a, b]) == CreateCount([a]) + CreateCount([b])
    ensures CreateCount([a, b, c]) == CreateCount([a]) + CreateCount([b]) + CreateCount([c])
  {
    assert [a, b][1..] == [b];
    assert [a, b, c][1..] == [b, c];
    assert [b, c][1..] == [c];
  }

  /** `StoreExecutedScript(script)` for the journal table `schema.table`
      whose definition names its key constraint `constraintName`: an
      existence query, a `create table` only if the table is missing, and one
      insert carrying the script name. It raises when a command it sends is
      refused, when the create finds the table name or the constraint name
      already in use in the schema (or the two equal), or when the column
      refuses the script name. */
  function StoreSpec(s: DbState, refused: set<CommandKind>, now: Timestamp, schema: string, table: string,
                     constraintName: string, texts: CommandTexts, scriptName: string): (r: StoreStep)
    requires Consistent(s)
    ensures Consistent(r.state)
    ensures r.outcome.Err? <==>
              || ExistenceQuery in refused
              || (ObjectName(schema, table) !in s.tables
                  && (CreateTable in refused || table == constraintName || ObjectName(schema, table) in s.objects
                      || ObjectName(schema, constraintName) in s.objects))
              || InsertEntry in refused
              || Utf16Length(TrimTrailingSpaces(scriptName)) > MaxScriptNameLength
    ensures |r.issued| >= 1 && r.issued[0] == Command(ExistenceQuery, texts.existence, [])
    ensures CreateCount(r.issued) == if ExistenceQuery !in refused && ObjectName(schema, table) !in s.tables then 1 else 0
    ensures r.outcome.Ok? ==> ObjectName(schema, table) in r.state.tables
    ensures r.outcome.Ok? ==> && ColumnValue(scriptName).Some?
                              && RowsOf(r.state, ObjectName(schema, table))
                                 == RowsOf(s, ObjectName(schema, table)) + [Row(ColumnValue(scriptName).value, now)]
    ensures r.outcome.Err? ==> RowsOf(r.state, ObjectName(schema, table)) == RowsOf(s, ObjectName(schema, table))
    ensures r.state.tables - {ObjectName(schema, table)} == s.tables - {ObjectName(schema, table)}
    ensures s.objects <= r.state.objects <= s.objects + {ObjectName(schema, table), ObjectName(schema, constraintName)}
  {
    var t := ObjectName(schema, table);
    var check := Command(ExistenceQuery, texts.existence, []);
    var create := Command(CreateTable, texts.create, []);
    var insert := Command(InsertEntry, texts.insert, [(ScriptNameParameter, scriptName)]);
    CreateCountOfThree(check, create, insert);
    CreateCountOfThree(check, insert, insert);
    if ExistenceQuery in refused then
      StoreStep(s, [check], Err(CommandFailed(ExistenceQuery)))
    else if t in s.tables then
      var inserted := InsertEffect(s, refused, now, t, scriptName);
      StoreStep(inserted.0, [check, insert], inserted.1)
    else
      var created := CreateEffect(s, refused, t, ObjectName(schema, constraintName));
      if created.1.Err? then StoreStep(s, [check, create], created.1)
      else
        var inserted := InsertEffect(created.0, refused, now, t, scriptName);
        StoreStep(inserted.0, [check, create, insert], inserted.1)
  }

  // ---------------------------------------------------------------------
  // Storing several scripts in a row.

  /** The state and the commands after storing `names` one by one, on a
      database that refuses nothing. */
  function StoreAll(s: DbState, now: Timestamp, schema: string, table: string, constraintName: string,
                    texts: CommandTexts, names: seq<string>): (r: (DbState, seq<Command>))
    requires Consistent(s)
    ensures Consistent(r.0)
    decreases |names|
  {
    if names == [] then (s, [])
    else
      var step := StoreSpec(s, {}, now, schema, table, constraintName, texts, names[0]);
      var rest := StoreAll(step.state, now, schema, table, constraintName, texts, names[1..]);
      (rest.0, step.issued + rest.1)
  }

  /** The table and its constraint have different names, and neither name
      is taken yet. */
  ghost predicate FreshFor(s: DbState, schema: string, table: string, constraintName: string) {
    table != constraintName && ObjectName(schema, table) !in s.objects && ObjectName(schema, constraintName) !in s.objects
  }

  /** One store of a name that fits the column, on a database that refuses
      nothing, where the table exists or both its names are free, appends
      one row and leaves the table there. */
  lemma StoreSpecAppends(s: DbState, now: Timestamp, schema: string, table: string, constraintName: string,
                         texts: CommandTexts, name: string)
    requires Consistent(s) && Utf16Length(name) <= MaxScriptNameLength
    requires ObjectName(schema, table) in s.tables || FreshFor(s, schema, table, constraintName)
    ensures var step := StoreSpec(s, {}, now, schema, table, constraintName, texts, name);
            && step.outcome.Ok?
            && ObjectName(schema, table) in step.state.tables
            && Names(RowsOf(step.state, ObjectName(schema, table))) == Names(RowsOf(s, ObjectName(schema, table))) + [name]
  {
    NamesAppend(RowsOf(s, ObjectName(schema, table)), Row(name, now));
  }

  /** Storing scripts whose names fit the column appends their names to the table in call order, with
      no deduplication. */
  lemma {:induction false} StoreAllAppends(s: DbState, now: Timestamp, schema: string, table: string,
                                           constraintName: string, texts: CommandTexts, names: seq<string>)
    requires Consistent(s) && FitColumn(names)
    requires ObjectName(schema, table) in s.tables || FreshFor(s, schema, table, constraintName)
    ensures ObjectName(schema, table) in StoreAll(s, now, schema, table, constraintName, texts, names).0.tables
            || (names == [] && FreshFor(s, schema, table, constraintName))
    ensures Names(RowsOf(StoreAll(s, now, schema, table, constraintName, texts, names).0, ObjectName(schema, table)))
            == Names(RowsOf(s, ObjectName(schema, table))) + names
    decreases |names|
  {
    var t := ObjectName(schema, table);
    if names == [] {
      assert Names(RowsOf(s, t)) + names == Names(RowsOf(s, t));
    } else {
      var step := StoreSpec(s, {}, now, schema, table, constraintName, texts, names[0]);
      var rest := StoreAll(step.state, now, schema, table, constraintName, texts, names[1..]);
      assert StoreAll(s, now, schema, table, constraintName, texts, names).0 == rest.0;
      FitColumnSplit(names);
      StoreSpecAppends(s, now, schema, table, constraintName, texts, names[0]);
      StoreAllAppends(step.state, now, schema, table, constraintName, texts, names[1..]);
      AppendCons(Names(RowsOf(s, t)), names);
    }
  }

  lemma AppendCons<T>(a: seq<T>, xs: seq<T>)
    requires xs != []
    ensures (a + [xs[0]]) + xs[1..] == a + xs
  {
    assert xs == [xs[0]] + xs[1..];
  }

  /** Storing any number of scripts creates the table exactly once when it
      was missing, and never when it was there. */
  lemma {:induction false} StoreAllCreatesOnce(s: DbState, now: Timestamp, schema: string, table: string,
                                               constraintName: string, texts: CommandTexts, names: seq<string>)
    requires Consistent(s) && FitColumn(names)
    requires ObjectName(schema, table) in s.tables || FreshFor(s, schema, table, constraintName)
    ensures CreateCount(StoreAll(s, now, schema, table, constraintName, texts, names).1)
            == if names != [] && ObjectName(schema, table) !in s.tables then 1 else 0
    decreases |names|
  {
    if names != [] {
      var step := StoreSpec(s, {}, now, schema, table, constraintName, texts, names[0]);
      FitColumnSplit(names);
      StoreSpecAppends(s, now, schema, table, constraintName, texts, names[0]);
      StoreAllCreatesOnce(step.state, now, schema, table, constraintName, texts, names[1..]);
      CreateCountAppend(step.issued, StoreAll(step.state, now, schema, table, constraintName, texts, names[1..]).1);
    }
  }

  /** Round trip: after storing any names that fit the column on a database
      where the table and its constraint name are free, reading the journal gives back exactly
      those names, sorted. */
  lemma StoreThenRead(s: DbState, now: Timestamp, schema: string, table: string, constraintName: string,
                      texts: CommandTexts, names: seq<string>)
    requires Consistent(s) && FreshFor(s, schema, table, constraintName) && FitColumn(names)
    ensures ReadSpec(StoreAll(s, now, schema, table, constraintName, texts, names).0, {}, ObjectName(schema, table))
            == Ok(Sort(names))
  {
    StoreAllAppends(s, now, schema, table, constraintName, texts, names);
    assert ObjectName(schema, table) !in s.tables;
    assert RowsOf(s, ObjectName(schema, table)) == [];
    assert Names(RowsOf(s, ObjectName(schema, table))) + names == names;
  }

  lemma SortExample()
    ensures Sort(["b", "a", "c"]) == ["a", "b", "c"]
  {
    SortedExample();
    assert multiset(["b", "a", "c"]) == multiset(["a", "b", "c"]);
    SortPermutationInvariant(["b", "a", "c"], ["a", "b", "c"]);
  }

  lemma SortedExample()
    ensures Sort(["a", "b", "c"]) == ["a", "b", "c"]
  {
    assert Le("a", "b") && Le("b", "c") && Le("a", "c");
    assert Sorted(["a", "b", "c"]);
    SortSorted(["a", "b", "c"]);
  }

  /** Storing "b", "a", "c" in that order reads back as "a", "b", "c". */
  lemma ReadOrderIgnoresInsertionOrder(s: DbState, now: Timestamp, schema: string, table: string,
                                       constraintName: string, texts: CommandTexts)
    requires Consistent(s) && FreshFor(s, schema, table, constraintName)
    ensures ReadSpec(StoreAll(s, now, schema, table, constraintName, texts, ["b", "a", "c"]).0, {}, ObjectName(schema, table))
            == Ok(["a", "b", "c"])
  {
    StoreThenRead(s, now, schema, table, constraintName, texts, ["b", "a", "c"]);
    SortExample();
  }

  // ---------------------------------------------------------------------
  // The constraint name of the table definition.

  /** Different tables get different derived constraint names. */
  lemma PrimaryKeyNameInjective(a: string, b: string)
    requires PrimaryKeyName(a) == PrimaryKeyName(b)
    ensures a == b
  {
    var pa, pb := PrimaryKeyName(a), PrimaryKeyName(b);
    assert a == pa[3..|pa| - 3];
    assert b == pb[3..|pb| - 3];
  }

  /** The table definition determines the constraint name it gives. */
  lemma CreateTableTextInjective(schemaTableName: string, c1: string, c2: string)
    requires CreateTableText(schemaTableName, c1) == CreateTableText(schemaTableName, c2)
    ensures c1 == c2
  {
    var p1, p2 := CreateTableParts(schemaTableName, c1), CreateTableParts(schemaTableName, c2);
    JoinAround(p1, 4);
    JoinAround(p2, 4);
    assert p1[..4] == p2[..4] && p1[5..] == p2[5..];
    MiddleDetermined(Join(p1[..4]), c1, c2, Join(p1[5..]));
  }

  /** The definition the source writes agrees with one whose constraint is
      named after the table only for the default table `SchemaVersions`. */
  lemma AsWrittenMatchesOnlyDefaultTable(schemaTableName: string, table: string)
    ensures CreateTableText(schemaTableName, FixedConstraintName) == CreateTableText(schemaTableName, PrimaryKeyName(table))
            <==> table == "SchemaVersions"
  {
    assert PrimaryKeyName("SchemaVersions") == FixedConstraintName;
    if CreateTableText(schemaTableName, FixedConstraintName) == CreateTableText(schemaTableName, PrimaryKeyName(table)) {
      CreateTableTextInjective(schemaTableName, FixedConstraintName, PrimaryKeyName(table));
      PrimaryKeyNameInjective(table, "SchemaVersions");
    }
  }

  /** As written: once one journal table exists in a schema, a journal over
      any other table in that schema cannot store a script, because its
      create collides on `PK_SchemaVersions_Id`. */
  lemma SecondJournalFailsAsWritten(s: DbState, now: Timestamp, schema: string, t1: string, t2: string,
                                    texts1: CommandTexts, texts2: CommandTexts, n1: string, n2: string)
    requires Consistent(s) && t1 != t2
    requires FreshFor(s, schema, t1, FixedConstraintName) && ObjectName(schema, t2) !in s.objects
    requires Utf16Length(n1) <= MaxScriptNameLength
    ensures var first := StoreSpec(s, {}, now, schema, t1, FixedConstraintName, texts1, n1);
            && first.outcome.Ok?
            && StoreSpec(first.state, {}, now, schema, t2, FixedConstraintName, texts2, n2).outcome
               == Err(CommandFailed(CreateTable))
  {
  }

  /** Corrected: with the constraint named after the table, journals over two
      different tables of one schema both store their scripts. */
  lemma SecondJournalSucceedsCorrected(s: DbState, now: Timestamp, schema: string, t1: string, t2: string,
                                       texts1: CommandTexts, texts2: CommandTexts, n1: string, n2: string)
    requires Consistent(s) && t1 != t2
    requires FreshFor(s, schema, t1, PrimaryKeyName(t1)) && FreshFor(s, schema, t2, PrimaryKeyName(t2))
    requires t2 != PrimaryKeyName(t1) && t1 != PrimaryKeyName(t2)
    requires Utf16Length(n1) <= MaxScriptNameLength && Utf16Length(n2) <= MaxScriptNameLength
    ensures var first := StoreSpec(s, {}, now, schema, t1, PrimaryKeyName(t1), texts1, n1);
            && first.outcome.Ok?
            && StoreSpec(first.state, {}, now, schema, t2, PrimaryKeyName(t2), texts2, n2).outcome.Ok?
  {
    if PrimaryKeyName(t1) == PrimaryKeyName(t2) { PrimaryKeyNameInjective(t1, t2); }
    StoreSpecAppends(s, now, schema, t1, PrimaryKeyName(t1), texts1, n1);
    var first := StoreSpec(s, {}, now, schema, t1, PrimaryKeyName(t1), texts1, n1);
    assert FreshFor(first.state, schema, t2, PrimaryKeyName(t2));
    StoreSpecAppends(first.state, now, schema, t2, PrimaryKeyName(t2), texts2, n2);
  }

  // ---------------------------------------------------------------------
  // The database and the journal.

  /** The SQL Server database behind the connection string. */
  class Database {
    var state: DbState
    /** Command kinds the server rejects. */
    var refused: set<CommandKind>
    /** What `getutcdate()` returns. */
    var now: Timestamp
    /** Every command sent to this database, in order. */
    ghost var issued: seq<Command>

    ghost predicate Valid()
      reads this
    {
      Consistent(state)
    }

    constructor (state: DbState, refused: set<CommandKind>, now: Timestamp)
      requires Consistent(state)
      ensures Valid()
      ensures this.state == state && this.refused == refused && this.now == now && issued == []
    {
      this.state := state;
      this.refused := refused;
      this.now := now;
      issued := [];
    }

    /** `ExecuteScalar()` of the existence query, after `ToString()`. */
    method CountTables(text: string, t: ObjectName) returns (r: Result<string, DbError>)
      modifies this`issued
      ensures issued == old(issued) + [Command(ExistenceQuery, text, [])]
      ensures r == if ExistenceQuery in refused then Err(CommandFailed(ExistenceQuery))
                   else Ok(DecimalString(if t in state.tables then 1 else 0))
    {
      issued := issued + [Command(ExistenceQuery, text, [])];
      if ExistenceQuery in refused {
        r := Err(CommandFailed(ExistenceQuery));
      } else {
        r := Ok(DecimalString(if t in state.tables then 1 else 0));
      }
    }

    /** `ExecuteNonQuery()` of the create-table text; `pk` is the constraint it names. */
    method Create(text: string, t: ObjectName, pk: ObjectName) returns (r: Result<(), DbError>)
      requires Valid()
      modifies this`state, this`issued
      ensures Valid()
      ensures issued == old(issued) + [Command(CreateTable, text, [])]
      ensures (state, r) == CreateEffect(old(state), refused, t, pk)
    {
      issued := issued + [Command(CreateTable, text, [])];
      var effect := CreateEffect(state, refused, t, pk);
      state, r := effect.0, effect.1;
    }

    /** `ExecuteNonQuery()` of the insert text, with `@scriptName` bound to `scriptName`. */
    method Insert(text: string, t: ObjectName, scriptName: string) returns (r: Result<(), DbError>)
      requires Valid()
      modifies this`state, this`issued
      ensures Valid()
      ensures issued == old(issued) + [Command(InsertEntry, text, [(ScriptNameParameter, scriptName)])]
      ensures (state, r) == InsertEffect(old(state), refused, now, t, scriptName)
    {
      issued := issued + [Command(InsertEntry, text, [(ScriptNameParameter, scriptName)])];
      var effect := InsertEffect(state, refused, now, t, scriptName);
      state, r := effect.0, effect.1;
    }

    /** `ExecuteReader()` of the select text: the `ScriptName` of every row,
        in the order `order by [ScriptName]` gives. */
    method Select(text: string, t: ObjectName) returns (r: Result<seq<string>, DbError>)
      modifies this`issued
      ensures issued == old(issued) + [Command(SelectEntries, text, [])]
      ensures r == if SelectEntries in refused || t !in state.tables then Err(CommandFailed(SelectEntries))
                   else Ok(Sort(Names(state.tables[t])))
    {
      issued := issued + [Command(SelectEntries, text, [])];
      if SelectEntries in refused || t !in state.tables {
        r := Err(CommandFailed(SelectEntries));
      } else {
        r := Ok(Sort(Names(state.tables[t])));
      }
    }
  }

  /** `TableJournal`: tracks executed scripts in the table `schema.tableName`. */
  class TableJournal {
    const dbConnectionString: string
    const schema: string
    const tableName: string
    const schemaTableName: string
    /** The texts of the commands this journal sends, composed from its
        names; the table definition always names its key constraint
        `PK_SchemaVersions_Id`, whatever the table is called. */
    const commands: CommandTexts

    ghost predicate Valid() {
      schemaTableName == QualifiedName(schema, tableName) && commands == TextsFor(schema, tableName, FixedConstraintName)
    }

    /** The journal table `schema.table`. */
    constructor (targetDbConnectionString: string, schema: string, table: string)
      ensures Valid()
      ensures dbConnectionString == targetDbConnectionString && this.schema == schema && tableName == table
      ensures schemaTableName == schema + "." + table
    {
      dbConnectionString := targetDbConnectionString;
      tableName := table;
      this.schema := schema;
      schemaTableName := schema + "." + table;
      commands := TextsFor(schema, table, FixedConstraintName);
    }

    /** The journal table `dbo.SchemaVersions`. */
    constructor WithDefaults(targetDbConnectionString: string)
      ensures Valid()
      ensures dbConnectionString == targetDbConnectionString && schema == "dbo" && tableName == "SchemaVersions"
      ensures schemaTableName == "dbo.SchemaVersions"
    {
      dbConnectionString := targetDbConnectionString;
      tableName := "SchemaVersions";
      schema := "dbo";
      schemaTableName := "dbo" + "." + "SchemaVersions";
      commands := TextsFor("dbo", "SchemaVersions", FixedConstraintName);
    }

    /** The journal table `schema.SchemaVersions`. */
    constructor WithSchema(targetDbConnectionString: string, schema: string)
      ensures Valid()
      ensures dbConnectionString == targetDbConnectionString && this.schema == schema && tableName == "SchemaVersions"
      ensures schemaTableName == schema + ".SchemaVersions"
    {
      dbConnectionString := targetDbConnectionString;
      tableName := "SchemaVersions";
      this.schema := schema;
      schemaTableName := schema + "." + "SchemaVersions";
      commands := TextsFor(schema, "SchemaVersions", FixedConstraintName);
    }

    function Table(): ObjectName {
      ObjectName(schema, tableName)
    }

    /** Asks the database whether the journal table exists, every time. */
    method DoesTableExist(db: Database) returns (r: Result<bool, DbError>)
      requires Valid()
      modifies db`issued
      ensures db.issued == old(db.issued) + [Command(ExistenceQuery, commands.existence, [])]
      ensures r == if ExistenceQuery in db.refused then Err(CommandFailed(ExistenceQuery))
                   else Ok(Table() in db.state.tables)
    {
      var scalar := db.CountTables(commands.existence, Table());
      if scalar.Err? {
        return Err(scalar.error);
      }
      ExistsFromCount(Table() in db.state.tables);
      r := Ok(ExistsFromScalar(scalar.value));
    }

    /** All executed scripts, sorted by name; none when the table is missing.
        Never creates anything. */
    method GetExecutedScripts(db: Database) returns (r: Result<seq<string>, DbError>)
      requires Valid()
      modifies db`issued
      ensures db.state == old(db.state)
      ensures r == ReadSpec(db.state, db.refused, Table())
      ensures db.issued == old(db.issued) + ReadCommands(db.state, db.refused, Table(), commands)
    {
      var found := DoesTableExist(db);
      if found.Err? {
        return Err(found.error);
      }
      if !found.value {
        return Ok([]);
      }
      var reader := db.Select(commands.select, Table());
      if reader.Err? {
        return Err(reader.error);
      }
      var scripts := ReadAll(reader.value);
      r := Ok(scripts);
    }

    /** The reader loop: every value it yields is added to the list, in the
        order the reader yields them. */
    static method ReadAll(rows: seq<string>) returns (scripts: seq<string>)
      ensures scripts == rows
    {
      scripts := [];
      var i := 0;
      while i < |rows|
        invariant 0 <= i <= |rows|
        invariant scripts == rows[..i]
      {
        scripts := scripts + [rows[i]];
        i := i + 1;
      }
      assert rows[..|rows|] == rows;
    }

    /** Records that `scriptName` ran: creates the table when it is missing,
        then appends one row. */
    method StoreExecutedScript(db: Database, scriptName: string) returns (r: Result<(), DbError>)
      requires Valid() && db.Valid()
      modifies db`state, db`issued
      ensures db.Valid()
      ensures |db.issued| >= |old(db.issued)| && db.issued[..|old(db.issued)|] == old(db.issued)
      ensures StoreSpec(old(db.state), db.refused, db.now, schema, tableName, FixedConstraintName, commands, scriptName)
              == StoreStep(db.state, db.issued[|old(db.issued)|..], r)
    {
      ghost var log0 := db.issued;
      var found := DoesTableExist(db);
      if found.Err? {
        assert db.issued[|log0|..] == [Command(ExistenceQuery, commands.existence, [])];
        return Err(found.error);
      }
      if !found.value {
        var created := db.Create(commands.create, Table(), ObjectName(schema, FixedConstraintName));
        if created.Err? {
          assert db.issued[|log0|..] == [Command(ExistenceQuery, commands.existence, []), Command(CreateTable, commands.create, [])];
          return Err(created.error);
        }
      }
      r := db.Insert(commands.insert, Table(), scriptName);
      assert found.value ==> db.issued[|log0|..] == [Command(ExistenceQuery, commands.existence, []), Command(InsertEntry, commands.insert, [(ScriptNameParameter, scriptName)])];
      assert !found.value ==> db.issued[|log0|..] == [Command(ExistenceQuery, commands.existence, []), Command(CreateTable, commands.create, []), Command(InsertEntry, commands.insert, [(ScriptNameParameter, scriptName)])];
    }
  }
}
