# DbUp journal tables, modelled in Dafny

DbUp records which upgrade scripts have run in a *journal table* inside the
target database. This project models three of its journals and proves
properties of them.

- **`TableJournal`** is the SQL Server journal, module `SqlServerJournal`.
  - Its table is `dbo.SchemaVersions` unless another schema or table is
    configured.
  - `GetExecutedScripts` asks whether the table exists. It returns no names
    when the table is missing, and otherwise every stored name in
    `order by [ScriptName]` order.
  - `StoreExecutedScript` creates the table when it is missing, then inserts
    one row. The table's key constraint is always named
    `PK_SchemaVersions_Id`, as the code writes it; "## Findings" shows what
    that does to a second journal table in the same schema.
  - The `[ScriptName] nvarchar(255)` column refuses a name that is longer
    than 255 UTF-16 units once its trailing blanks are dropped, and cuts
    only trailing blanks from one that fits that way.
  - The database behind the connection string is the class `Database`. Its
    state is the user tables with their rows and the schema-scoped object
    names in use. It also holds the command kinds it refuses (these raise)
    and a ghost log of every command sent, with its text and parameters.
- **`OracleTableJournal.EnsureTableExistsAndIsLatestVersion`** is modelled in
  module `OracleJournal`.
  - The journal caches in `journalExists` that its table is known to exist.
  - While the flag is unset, each call asks the database. When the table is
    missing, the call runs three DDL statements in order (the key sequence,
    the table, and the trigger that fills the key from the sequence) and then
    the `OnTableCreated` hook.
  - The flag is set only when the call returns normally.
  - The pure function `Ensure` states this, and the method
    `OracleTableJournal.EnsureTableExistsAndIsLatestVersion` over the class
    `OracleDatabase` is proved equal to it. Lemmas about `Ensure` cover
    caching, the order of the statements and what a statement that throws
    leaves behind.
- **The Oracle SQL text builders** are modelled in modules `OracleSql` and
  `OracleSqlWithSchema`.
  - Names are upper-cased when the table is looked up.
  - Parameters become `:` placeholders with every `@` removed.
  - The sequence, the primary key and the trigger are named consistently
    after the table.
  - The `OracleTableJournalWithSchema` constructor refuses a schema that is
    null, empty or white space only, with `ArgumentNullException("schema")`.

Supporting modules:

- `Text` models `ToUpper`, `Replace("@", "")`, `IsNullOrWhiteSpace`,
  substring containment, and the UTF-16 length and trailing-blank trimming
  that an `nvarchar` column applies.
- `Ordering` models the ordinal string order and the sorted permutation.
- `Int32Text` models `int.ToString()` and `int.TryParse`.
- `Results` holds `Option` and `Result`.

Exceptions are modelled as `Err` results or `Failed` outcomes.

## Model

| member | source | states |
|---|---|---|
| SqlServerJournal.TableJournal.constructor | src/DbUp/Journal/TableJournal.cs:56-63 | Keeps the connection string, schema and table as given; `schemaTableName` is `schema + "." + table`; the command texts are `TextsFor` those names with the constraint named `PK_SchemaVersions_Id`, as the code writes it. |
| SqlServerJournal.TableJournal.WithDefaults | src/DbUp/Journal/TableJournal.cs:28-31 | Uses schema `dbo` and table `SchemaVersions`, so the qualified name is `dbo.SchemaVersions`. |
| SqlServerJournal.TableJournal.WithSchema | src/DbUp/Journal/TableJournal.cs:41-44 | Uses the given schema and table `SchemaVersions`. |
| SqlServerJournal.TableJournal.DoesTableExist | src/DbUp/Journal/TableJournal.cs:140-161 | Requires the journal's texts to be `TextsFor` its own names. Sends exactly one existence query every call (nothing is cached). It raises when the query is refused; otherwise it answers exactly whether `schema.table` is a user table. |
| SqlServerJournal.TableJournal.GetExecutedScripts | src/DbUp/Journal/TableJournal.cs:69-94 | Requires the journal's texts to be `TextsFor` its own names. Leaves the database state unchanged and returns `ReadSpec` of it. It sends the existence query, then the select only when the table exists, and never a create. |
| SqlServerJournal.TableJournal.ReadAll | src/DbUp/Journal/TableJournal.cs:87-91 | The reader loop collects every value the reader yields, in order, and nothing else. |
| SqlServerJournal.TableJournal.StoreExecutedScript | src/DbUp/Journal/TableJournal.cs:100-138 | Requires the journal's texts to be `TextsFor` its own names. Only appends to the command log. The new state, the commands sent and the outcome are exactly `StoreSpec` of the old state with the constraint `PK_SchemaVersions_Id`, so a second journal table in the same schema fails at its create. The database stays consistent. |
| SqlServerJournal.Database.CountTables | src/DbUp/Journal/TableJournal.cs:146-155 | The scalar of the existence query is the decimal text of 1 or 0, depending on whether the table exists; it raises when refused. |
| SqlServerJournal.Database.Create | src/DbUp/Journal/TableJournal.cs:107-121 | Runs the create-table command as `CreateEffect` describes and keeps the database consistent. |
| SqlServerJournal.Database.Insert | src/DbUp/Journal/TableJournal.cs:127-137 | Runs the insert, with parameter `scriptName` bound, as `InsertEffect` describes. |
| SqlServerJournal.Database.Select | src/DbUp/Journal/TableJournal.cs:80-91 | Returns the `ScriptName` of every row, in `order by [ScriptName]` order; it raises when refused or when the table is missing. |
| SqlServerJournal.CreateEffect | src/DbUp/Journal/TableJournal.cs:107-121 | Succeeds iff not refused, the table is not named like its own constraint, and neither name is in use. On success both names are taken and the new table is empty; on failure nothing changes. |
| SqlServerJournal.ColumnValue | src/DbUp/Journal/TableJournal.cs:113 | What `[ScriptName] nvarchar(255)` keeps of a name: the name unchanged when it is at most 255 UTF-16 units; otherwise a prefix of exactly 255 units that only drops trailing blanks; refused iff the name without trailing blanks is longer than 255 units. |
| SqlServerJournal.InsertEffect | src/DbUp/Journal/TableJournal.cs:127-137 | Succeeds iff not refused, the table exists and the `nvarchar(255)` column accepts the script name (`ColumnValue`). On success exactly one row, holding the name as the column stores it, is appended to that table only; on failure nothing changes. |
| SqlServerJournal.ExistsFromScalar | src/DbUp/Journal/TableJournal.cs:154-157 | True iff `int.TryParse` succeeds and gives a value other than 0. |
| SqlServerJournal.ExistsFromCount | src/DbUp/Journal/TableJournal.cs:147-157 | The count 1 or 0, formatted and parsed back, means "exists" exactly when it is 1. |
| SqlServerJournal.ReadSpec | src/DbUp/Journal/TableJournal.cs:69-94 | For schema and table names that are plain identifiers: raises iff the existence query is refused, or the table exists and the select is refused. A missing table gives no names. Otherwise the result is sorted and is a permutation of the stored names. |
| SqlServerJournal.StoreSpec | src/DbUp/Journal/TableJournal.cs:100-138 | For schema and table names that are plain identifiers: raises iff the existence query is refused, or the table is missing and the create is refused, is given a table named like its constraint, or finds either name taken, or the insert is refused, or the script name without trailing blanks is longer than 255 UTF-16 units. Always sends the existence query first. It creates (one create command) exactly when the query succeeds and the table is missing. On success the table exists and has the row `ColumnValue(scriptName)` appended; at most the table and constraint names are newly taken; on failure its rows are unchanged; other tables are never touched. |
| SqlServerJournal.StoreAll | src/DbUp/Journal/TableJournal.cs:100-138 | Storing scripts one after another keeps every table name in use as an object name. The store lemmas below take the constraint name as a parameter, so they hold for the journal as written (`PK_SchemaVersions_Id`) as well as for any other name. |
| SqlServerJournal.StoreSpecAppends | src/DbUp/Journal/TableJournal.cs:100-138 | On a database that refuses nothing, where the table exists or both its names are free and distinct, one store of a name that fits the column succeeds and leaves the table there with the name appended, whatever the constraint is called. |
| SqlServerJournal.StoreAllAppends | src/DbUp/Journal/TableJournal.cs:100-138 | Storing names that fit the column one by one appends them to the table in call order, duplicates included. |
| SqlServerJournal.StoreAllCreatesOnce | src/DbUp/Journal/TableJournal.cs:102-124 | Across any number of stores of names that fit the column, the table is created exactly once when it was missing, and never when it existed. |
| SqlServerJournal.StoreThenRead | src/DbUp/Journal/TableJournal.cs:69-138 | Round trip: after storing any names that fit the column on a fresh database, reading gives back exactly those names, sorted. |
| SqlServerJournal.SortedExample | src/DbUp/Journal/TableJournal.cs:83 | Names already in order come back as they are. |
| SqlServerJournal.SortExample | src/DbUp/Journal/TableJournal.cs:83 | `b, a, c` sorts to `a, b, c`. |
| SqlServerJournal.ReadOrderIgnoresInsertionOrder | src/DbUp/Journal/TableJournal.cs:83 | Storing `b`, `a`, `c` reads back as `a`, `b`, `c`. |
| SqlServerJournal.ExistsQueryText | src/DbUp/Journal/TableJournal.cs:146-150 | The existence query filters on the table name and the schema name. |
| SqlServerJournal.CreateTableText | src/DbUp/Journal/TableJournal.cs:110-115 | Creates the qualified table, with `constraint <name> primary key nonclustered` on `[Id]`. |
| SqlServerJournal.InsertText | src/DbUp/Journal/TableJournal.cs:130 | Inserts into the qualified table, passing `@scriptName` and stamping `getutcdate()`. |
| SqlServerJournal.SelectText | src/DbUp/Journal/TableJournal.cs:83 | Reads from the qualified table and ends with `order by [ScriptName]`. |
| SqlServerJournal.TextsFor | src/DbUp/Journal/TableJournal.cs:83-150 | The four commands of a journal: the query filters on its table and schema, and create, insert and select all address `schema.table`. |
| SqlServerJournal.CreateTableTextInjective | src/DbUp/Journal/TableJournal.cs:110-115 | Two create-table texts for one table are equal only when they name the same constraint. |
| SqlServerJournal.AsWrittenMatchesOnlyDefaultTable | src/DbUp/Journal/TableJournal.cs:110-115 | The create-table text as written equals the one with the table-derived constraint name iff the table is `SchemaVersions`. |
| SqlServerJournal.SecondJournalFailsAsWritten | src/DbUp/Journal/TableJournal.cs:110-115 | As written: after the first journal table is created by storing a name that fits the column, storing into a second, free table in the same schema fails at the create, because `PK_SchemaVersions_Id` is taken. |
| SqlServerJournal.SecondJournalSucceedsCorrected | src/DbUp/Journal/TableJournal.cs:110-115 | With the constraint named `PK_<table>_Id`, both journal tables are created and both stores of names that fit the column succeed. |
| SqlServerJournal.PrimaryKeyNameInjective | src/DbUp/Journal/TableJournal.cs:112 | Constraint names derived from the table name differ for different tables. |
| Int32Text.DecimalString | src/DbUp/Journal/TableJournal.cs:155 | `ToString()` of a count is a non-empty run of digits that spells it, with no leading zero. |
| Int32Text.TryParseInt32 | src/DbUp/Journal/TableJournal.cs:155 | On success the value is within 32 bits; on failure the out value is 0. |
| Int32Text.ParseDecimalString | src/DbUp/Journal/TableJournal.cs:155 | Parsing the text of a non-negative 32-bit value succeeds and gives that value back. |
| Ordering.Sort | src/DbUp/Journal/TableJournal.cs:83 | The result is sorted and is a permutation of the input. |
| Ordering.SortedUnique | src/DbUp/Journal/TableJournal.cs:83 | Two sorted permutations of the same names are equal, so `order by` fixes the result. |
| Ordering.SortSorted | src/DbUp/Journal/TableJournal.cs:83 | Sorting names already in order changes nothing. |
| Ordering.SortPermutationInvariant | src/DbUp/Journal/TableJournal.cs:83 | The result depends only on the multiset of names, not on insertion order. |
| OracleJournal.Ensure | src/dbup-oracle/OracleTableJournal.cs:43-73 | Once the flag is set, nothing is sent and nothing changes. The flag afterwards is set iff the call returns normally. No object is ever removed. |
| OracleJournal.EnsureAsksFirst | src/dbup-oracle/OracleTableJournal.cs:45 | With the flag unset, the first thing sent is the existence query, and what is sent is a prefix of a full creation. |
| OracleJournal.EnsureLeavesExistingTable | src/dbup-oracle/OracleTableJournal.cs:45-72 | When the table exists, the call sends only the query, creates nothing and sets the flag. |
| OracleJournal.EnsureCreatesInOrder | src/dbup-oracle/OracleTableJournal.cs:45-70 | A successful creation runs query, sequence, table, trigger and then the hook, and all three objects exist afterwards. |
| OracleJournal.EnsureStopsAtFailure | src/dbup-oracle/OracleTableJournal.cs:50-69 | A statement that throws stops the rest, and the hook; objects created earlier remain, and the statement threw because it was refused or its object existed. |
| OracleJournal.EnsureIsCached | src/dbup-oracle/OracleTableJournal.cs:45-72 | After a normal return, a second call sends nothing, whatever the database would refuse. |
| OracleJournal.CreatedTableIsFound | src/dbup-oracle/OracleTableJournal.cs:43-73 | A new journal over a database where the table was created sends only the query and creates nothing. |
| OracleJournal.PartialCreationBlocksRetry | src/dbup-oracle/OracleTableJournal.cs:50-59 | If the table statement throws after the sequence was created, every later call throws at the sequence statement. |
| OracleJournal.FailedTriggerIsNotRepaired | src/dbup-oracle/OracleTableJournal.cs:45-65 | If only the trigger statement throws, the table is left without its trigger, and a later call finds the table and never re-creates the trigger. |
| OracleJournal.OracleDatabase.TableExists | src/dbup-oracle/OracleTableJournal.cs:45 | Logs the query. It throws when refused; otherwise it answers whether the table exists. |
| OracleJournal.OracleDatabase.ExecuteNonQuery | src/dbup-oracle/OracleTableJournal.cs:50-65 | Logs the statement. It succeeds iff it is not refused and can create its object; on success only that object is added. |
| OracleJournal.OracleDatabase.OnTableCreated | src/dbup-oracle/OracleTableJournal.cs:69 | Logs that the hook ran. |
| OracleJournal.TextsFor | src/dbup-oracle/OracleTableJournal.cs:75-106 | In both classes the trigger takes its key from the sequence the sequence statement creates. |
| OracleJournal.OracleTableJournal.constructor | src/dbup-oracle/OracleTableJournal.cs:28-31 | A new plain journal has the flag unset, and its texts are the plain builders' texts. |
| OracleJournal.OracleTableJournal.WithSchemaNames | src/dbup-oracle/OracleTableJournalWithSchema.cs:21 | A new with-schema journal has the flag unset, and its texts are the with-schema builders' texts. |
| OracleJournal.OracleTableJournal.NewWithSchema | src/dbup-oracle/OracleTableJournalWithSchema.cs:21-27 | Construction fails iff the schema is null, empty or white space, and the failure is `ArgumentNull("schema")`. Otherwise it gives a fresh journal with the flag unset. |
| OracleJournal.OracleTableJournal.EnsureTableExistsAndIsLatestVersion | src/dbup-oracle/OracleTableJournal.cs:43-73 | Requires the journal's texts to be `TextsFor` its dialect and key name. Only appends to the log. The new objects, the events sent, the outcome and the new flag are exactly `Ensure` of the old flag and objects. |
| OracleJournal.OracleTableJournal.EnsureWith | src/dbup-oracle/OracleTableJournal.cs:43-73 | The same steps over any four statement texts and a flag passed in: the result is exactly `Ensure` of them and of the old objects, and the log is only appended to. |
| OracleSql.PlaceholderOfAtName | src/dbup-oracle/OracleTableJournal.cs:133 | A parameter written `@name`, with no other `@`, becomes the placeholder `:name`. |
| OracleSql.PlaceholderHasNoAt | src/dbup-oracle/OracleTableJournal.cs:133 | A placeholder is `:` followed by the parameter name with every `@` removed, and holds no `@`. |
| OracleSql.CreateSchemaTableSequenceSql | src/dbup-oracle/OracleTableJournal.cs:75-79 | The statement is ` CREATE SEQUENCE <name>_sequence`. |
| OracleSql.CreateSchemaTableSql | src/dbup-oracle/OracleTableJournal.cs:81-92 | Creates `<name>` with constraint `PK_<name>` on `schemaversionid`, whatever key name the caller passes. |
| OracleSql.CreateSchemaTableTriggerSql | src/dbup-oracle/OracleTableJournal.cs:94-106 | The trigger is `<name>_on_insert`, fires before inserts on `<name>` and takes its key from `<name>_sequence.nextval`. |
| OracleSql.DoesTableExistSql | src/dbup-oracle/OracleTableJournal.cs:108-112 | Looks the table up in `user_tables` by its upper-cased name. |
| OracleSql.GetInsertJournalEntrySql | src/dbup-oracle/OracleTableJournal.cs:130-134 | Inserts into the upper-cased name, with values `:<scriptName>,:<applied>` with `@` removed; the text holds an `@` iff the table name does. |
| OracleSql.GetJournalEntriesSql | src/dbup-oracle/OracleTableJournal.cs:136-140 | Reads from the upper-cased table and ends with `order by scriptname`. |
| OracleSql.PrimaryKeyNameInjective | src/dbup-oracle/OracleTableJournal.cs:90 | Different tables get different key constraints. |
| OracleSql.InsertValuesHaveNoAt | src/dbup-oracle/OracleTableJournal.cs:133 | The values part of the insert holds no `@`. |
| OracleSqlWithSchema.CheckSchema | src/dbup-oracle/OracleTableJournalWithSchema.cs:21-27 | Refuses iff the schema is null or white space only, always with `ArgumentNull("schema")`; an accepted schema is returned as given and has a non-white character. |
| OracleSqlWithSchema.CheckSchemaCases | src/dbup-oracle/OracleTableJournalWithSchema.cs:23-26 | A present schema is accepted iff it has a character that is not white space. |
| OracleSqlWithSchema.CheckSchemaRefuses | src/dbup-oracle/OracleTableJournalWithSchema.cs:23-26 | Null, `""` and `" \t\r\n"` are refused with `ArgumentNull("schema")`. |
| OracleSqlWithSchema.ScriptValues | src/dbup-oracle/OracleTableJournalWithSchema.cs:71 | The values part quotes the script name with `@` removed, ends with `, sysdate)` and holds no `@`. |
| OracleSqlWithSchema.GetInsertJournalEntryScript | src/dbup-oracle/OracleTableJournalWithSchema.cs:69-72 | Inserts into the upper-cased qualified name the quoted script name without `@`, stamped with `sysdate`; the text holds an `@` iff the qualified name does. |
| OracleSqlWithSchema.CreateSchemaTableSequenceSql | src/dbup-oracle/OracleTableJournalWithSchema.cs:74-77 | The sequence is `<QSCHEMA>.<NAME>_sequence`, both names upper-cased. |
| OracleSqlWithSchema.CreateSchemaTableSql | src/dbup-oracle/OracleTableJournalWithSchema.cs:79-88 | Creates the upper-cased qualified table with constraint `PK_<NAME>` on `schemaversionid`, whatever key name is passed. |
| OracleSqlWithSchema.CreateSchemaTableTriggerSql | src/dbup-oracle/OracleTableJournalWithSchema.cs:90-101 | The trigger is `<QSCHEMA>.<NAME>_on_insert`, fires on the upper-cased qualified table and reads `<NAME>_sequence.nextval`. |
| OracleSqlWithSchema.DoesTableExistSql | src/dbup-oracle/OracleTableJournalWithSchema.cs:103-106 | The query filters `all_tables` on the upper-cased table name and the upper-cased schema as owner. |
| OracleSqlWithSchema.GetInsertJournalEntrySql | src/dbup-oracle/OracleTableJournalWithSchema.cs:108-111 | Equals the plain journal's insert over the qualified name: `:` placeholders without `@`, and an `@` only from the qualified name. |
| OracleSqlWithSchema.GetJournalEntriesSql | src/dbup-oracle/OracleTableJournalWithSchema.cs:113-116 | Equals the plain journal's entries query over the qualified name, ending with `order by scriptname`. |
| OracleSqlWithSchema.SameTargetName | src/dbup-oracle/OracleTableJournalWithSchema.cs:69-116 | Create, insert, insert script, entries query and trigger all address the same upper-cased qualified name. |
| Text.Upper | src/dbup-oracle/OracleTableJournal.cs:110 | Keeps the length, upper-cases each character on its own, and leaves no lower-case ASCII letter. |
| Text.UpperKeepsAt | src/dbup-oracle/OracleTableJournal.cs:132 | Upper-casing neither adds nor removes `@`. |
| Text.Utf16Length | src/DbUp/Journal/TableJournal.cs:113 | The length in UTF-16 code units, the unit `nvarchar(n)` counts: at least the number of characters and at most twice it. |
| Text.Utf16LengthOfChar | src/DbUp/Journal/TableJournal.cs:113 | A character counts one UTF-16 unit up to U+FFFF and two (a surrogate pair) above it. |
| Text.Utf16LengthAppend | src/DbUp/Journal/TableJournal.cs:113 | The UTF-16 length of `a + b` is the sum of the lengths. |
| Text.TrimTrailingSpaces | src/DbUp/Journal/TableJournal.cs:113 | The longest prefix that does not end in a blank; everything it drops is a blank. |
| Text.Utf16LengthOfSpaces | src/DbUp/Journal/TableJournal.cs:113 | A run of blanks is one unit per blank. |
| Text.WhiteSpaceCharacters | src/dbup-oracle/OracleTableJournalWithSchema.cs:23 | `IsWhiteSpace` holds for `\t` to `\r`, blank, no-break space and ideographic space, and fails for ASCII letters and digits, zero-width space, the byte-order mark and NUL. |
| Text.NullOrWhiteSpaceStrings | src/dbup-oracle/OracleTableJournalWithSchema.cs:23 | Null and `""` are null-or-white-space, and a concatenation is iff both parts are. |
| Text.RemoveAt | src/dbup-oracle/OracleTableJournal.cs:133 | No `@` is left, every other character is kept as often as it occurs, and a text without `@` is unchanged. |
| Text.RemoveAtAppend | src/dbup-oracle/OracleTableJournal.cs:133 | Removing `@` from `a + b` is removing it from each part, so the kept characters keep their order. |

## Left out

- Logging (`ILog` and `IUpgradeLog` messages) is not modelled; it does not change what the journals send or return.
- Connections, command objects, `using` disposal and concurrent journals on the same database are left out. Each command is one atomic call on the database object.
- The connection string only identifies the database. The journal methods take the `Database` or `OracleDatabase` object as a parameter instead.
- The `[Id]` identity column and the values of `getutcdate()` and `sysdate` are left out. A row holds an opaque timestamp the journal never reads.
- Text.Upper: only ASCII letters are upper-cased. This stands for `ToUpper` with the en-US culture, which also maps non-ASCII letters.
- Ordering.Sort: the `order by [ScriptName]` of the SQL Server read is modelled as ordinal, by character code. SQL Server orders `nvarchar` by the database collation, which is case-insensitive by default; collations are not modelled.
- SqlServerJournal.StoreSpec: the schema and the table are taken to be plain identifiers (no brackets, quotes, dots or blanks), so that the `create table schema.table` text and the existence query on `objects.name` and `schemas.name` address the same object, `ObjectName(schema, table)`. The source splices both names unquoted into two different texts, and they agree only for such names. With a table configured as `[Versions]`, for example, the create makes `Versions` while the query looks for `[Versions]` and never finds it, so every later store re-runs the create and raises. With dotted names, `a.b` + `c` and `a` + `b.c` give the same qualified text. The model promises nothing about such names.
- SqlServerJournal.TableJournal.StoreExecutedScript: its `StoreSpec` contract, and the store lemmas built on it (`StoreAllAppends`, `StoreAllCreatesOnce`, `StoreThenRead`), rest on the same plain-identifier reading of the names. For a bracketed, quoted or dotted name the source fails on every store after the first; the model does not.
- SqlServerJournal.ReadSpec: rests on the same reading. For a bracketed name the source's existence query misses the table, so `GetExecutedScripts` returns no names even after stores.
- Object names (`SqlServerJournal.ObjectName` values): schema, table and constraint names are compared exactly, as in a case-sensitive database. Under a case-insensitive collation `SchemaVersions` and `schemaversions` name one table, which the model treats as two.
- SqlServerJournal.ColumnValue: the server is taken to run with `ANSI_WARNINGS` on, the default for SqlClient connections; with it off, an over-long name would be cut to 255 units instead of refused.
- Int32Text.TryParseInt32: it accepts ASCII white space, an optional sign and decimal digits. The trailing NUL characters and culture-specific signs that .NET also accepts are not modelled.
- The Oracle base class `TableJournal` (namespace `DbUp.Support`) is not part of this model. That covers how it composes `UnquotedSchemaTableName`, `FqSchemaTableName`, `SchemaTableSchema` and `QuoteIdentifier`, and its `GetExecutedScripts`, `StoreExecutedScript` and `DoesTableExist`.
  - The composed names are parameters (`BaseNames` and `SchemaNames`).
  - The existence check is a call that throws or answers.
- OracleJournal.OracleDatabase.OnTableCreated: the hook is an event that never throws. Its base-class body is not part of this model.
- Whether Oracle accepts the DDL texts, and what the trigger does at insert time, are not modelled. The statements succeed or fail by the rule `UnitFails`:
  - a statement fails when it is refused;
  - `CREATE SEQUENCE` and `CREATE TABLE` also fail when their object already exists;
  - `CREATE OR REPLACE TRIGGER` does not fail for that reason.
- The `English` culture property and the `static readonly` culture field are represented only by `Text.Upper`.
- The four private `*ToUpper` properties of `OracleTableJournalWithSchema` (src/dbup-oracle/OracleTableJournalWithSchema.cs:33-63) have no members of their own. The builders apply `Text.Upper` to the matching name directly, and what they state about it is `Text.Upper`'s contract.
- Unlike the Oracle journal, which caches the answer in `journalExists`, the SQL Server journal asks again on every call. Nothing about this is left out; the model sends the existence query on each `GetExecutedScripts` and `StoreExecutedScript`.
- Inheritance between the two Oracle journal classes is modelled by the `Dialect` datatype. The virtual builders become `TextsFor`, which picks the class's texts.
- SqlServerJournal.SecondJournalSucceedsCorrected: requires that neither table is named after the other's constraint, because the model places constraint names and table names in one namespace, as SQL Server's `sys.objects` does. It also requires both script names to fit the `[ScriptName]` column, since a refused name fails the insert whatever the constraint is called.

## Findings

| source | as written | input that shows it | evidently intended | confidence | as-written member | corrected member |
|---|---|---|---|---|---|---|
| src/DbUp/Journal/TableJournal.cs:110-115 | The create-table text names the primary-key constraint `PK_SchemaVersions_Id`, whatever the configured table is called. Constraint names are schema-scoped in SQL Server. | Two journals in schema `dbo`, with tables `VersionsA` and `VersionsB`: the second `create table` fails, because `dbo.PK_SchemaVersions_Id` is already taken. | The constraint is named after the table (`PK_<table>_Id`), so that each journal table gets its own constraint name. The journal class keeps the code as written; the corrected name is the same `CreateTableText` with `PK_<table>_Id` passed. | not executed | SqlServerJournal.SecondJournalFailsAsWritten | SqlServerJournal.SecondJournalSucceedsCorrected |
