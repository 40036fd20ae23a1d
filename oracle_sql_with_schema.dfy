/** The SQL texts `OracleTableJournalWithSchema` builds, for a journal table
    kept in a named schema. The table is addressed by its upper-cased
    qualified name `FqSchemaTableName`; the sequence and the trigger are
    created in the upper-cased quoted schema; the existence query looks in
    `all_tables` under the upper-cased table name and schema. The
    constructor refuses a schema that is null, empty or white space only. */
module OracleSqlWithSchema {
  import opened Results
  import opened Text
  import OracleSql

  /** The names the base class supplies: the table name as configured
      (`UnquotedSchemaTableName`), its quoted, schema-qualified form
      (`FqSchemaTableName`), the schema (`SchemaTableSchema`) and the schema
      as `QuoteIdentifier` quotes it. */
  datatype SchemaNames = SchemaNames(unquoted: string, fq: string, schema: string, quotedSchema: string)

  /** The exception the constructor throws, with the parameter it names. */
  datatype ConstructionError = ArgumentNull(paramName: string)

  /** The constructor's guard: a null, empty or white-space schema is
      refused with `ArgumentNullException("schema")`; any other schema is
      accepted as given. */
  function CheckSchema(schema: Option<string>): (r: Result<string, ConstructionError>)
    ensures r.Err? <==> IsNullOrWhiteSpace(schema)
    ensures r.Err? ==> r.error == ArgumentNull("schema")
    ensures r.Ok? ==> schema == Some(r.value) && exists i :: 0 <= i < |r.value| && !IsWhiteSpace(r.value[i])
  {
    if IsNullOrWhiteSpace(schema) then Err(ArgumentNull("schema")) else Ok(schema.value)
  }

  // ---------------------------------------------------------------------
  // Fixed fragments that differ from the plain journal's (the table
  // definition is indented four columns further).

  const TableColumns: string :=
    "\n                    (\n                        schemaversionid NUMBER(10),\n                        scriptname VARCHAR2(255) NOT NULL,\n                        applied TIMESTAMP NOT NULL,\n                        "
  const TableEnd: string := "\n                    )"
  const SysdateEnd: string := ", sysdate)"
  const OwnerClause: string := "' and owner = '"

  // ---------------------------------------------------------------------
  // The builders. Every name they embed is upper-cased with `Upper`: the
  // class's `FqSchemaTableNameToUpper` is `Upper(n.fq)`, `QuotedSchemaToUpper`
  // is `Upper(n.quotedSchema)`, `SchemaToUpper` is `Upper(n.schema)` and
  // `UnquotedSchemaTableNameToUpper` is `Upper(n.unquoted)`.

  /** The `values (...)` part of the insert script: the script name, with
      every '@' removed, as a quoted literal, and `sysdate` as the applied time. */
  function ScriptValues(scriptName: string): (r: string)
    ensures Contains(r, "'" + RemoveAt(scriptName) + "'")
    ensures EndsWith(r, SysdateEnd)
    ensures '@' !in r
  {
    var quoted := "'" + RemoveAt(scriptName) + "'";
    ContainsMiddle(OracleSql.ValuesClause, quoted, SysdateEnd);
    EndsWithAppend(OracleSql.ValuesClause + quoted, SysdateEnd);
    assert '@' !in OracleSql.ValuesClause && '@' !in SysdateEnd;
    OracleSql.ValuesClause + quoted + SysdateEnd
  }

  function ScriptParts(n: SchemaNames, scriptName: string): seq<string> {
    [OracleSql.InsertInto, Upper(n.fq), ScriptValues(scriptName)]
  }

  /** The insert script writes into the upper-cased qualified name the
      script name as a literal, '@' removed, stamped with `sysdate`; an '@'
      appears in it only when the qualified name has one. */
  function GetInsertJournalEntryScript(n: SchemaNames, scriptName: string): (r: string)
    ensures Contains(r, OracleSql.InsertInto + Upper(n.fq))
    ensures Contains(r, "'" + RemoveAt(scriptName) + "'")
    ensures EndsWith(r, SysdateEnd)
    ensures '@' in r <==> '@' in n.fq
  {
    var parts := ScriptParts(n, scriptName);
    ContainsTwoFragments(parts, 0);
    ContainsFragment(parts, 2);
    ContainsTransitive(Join(parts), parts[2], "'" + RemoveAt(scriptName) + "'");
    JoinThree(OracleSql.InsertInto, Upper(n.fq), ScriptValues(scriptName));
    EndsWithTail(OracleSql.InsertInto + Upper(n.fq), ScriptValues(scriptName), SysdateEnd);
    UpperKeepsAt(n.fq);
    assert '@' !in OracleSql.InsertInto;
    Join(parts)
  }

  function SequenceParts(n: SchemaNames): seq<string> {
    [" CREATE SEQUENCE ", Upper(n.quotedSchema), ".", OracleSql.SequenceName(Upper(n.unquoted))]
  }

  /** The sequence is created in the upper-cased quoted schema, as
      `<SCHEMA>.<NAME>_sequence`. */
  function CreateSchemaTableSequenceSql(n: SchemaNames): (r: string)
    ensures r == " CREATE SEQUENCE " + Upper(n.quotedSchema) + "." + OracleSql.SequenceName(Upper(n.unquoted))
  {
    var parts := SequenceParts(n);
    var a, b, c := parts[1], parts[2], parts[3];
    assert parts[1..] == [a, b, c];
    JoinThree(a, b, c);
    assert " CREATE SEQUENCE " + (a + b + c) == " CREATE SEQUENCE " + a + b + c;
    Join(parts)
  }

  function TableParts(n: SchemaNames): seq<string> {
    [" CREATE TABLE ", Upper(n.fq), TableColumns,
     "CONSTRAINT ", OracleSql.PrimaryKeyName(Upper(n.unquoted)), OracleSql.KeyClause, TableEnd]
  }

  /** The table definition: the table under the upper-cased qualified name,
      with the primary key `PK_<NAME>` on `schemaversionid`, the name being
      the upper-cased unqualified one; `quotedPrimaryKeyName` is not used. */
  function CreateSchemaTableSql(n: SchemaNames, quotedPrimaryKeyName: string): (r: string)
    ensures Contains(r, " CREATE TABLE " + Upper(n.fq))
    ensures Contains(r, "CONSTRAINT " + OracleSql.PrimaryKeyName(Upper(n.unquoted)) + OracleSql.KeyClause)
  {
    ContainsTwoFragments(TableParts(n), 0);
    ContainsThreeFragments(TableParts(n), 3);
    Join(TableParts(n))
  }

  function TriggerParts(n: SchemaNames): seq<string> {
    [" CREATE OR REPLACE TRIGGER ",
     Upper(n.quotedSchema) + "." + OracleSql.TriggerName(Upper(n.unquoted)),
     OracleSql.TriggerOn, Upper(n.fq), OracleSql.TriggerBegin,
     OracleSql.SequenceName(Upper(n.unquoted)), ".nextval", OracleSql.TriggerEnd]
  }

  /** The trigger is `<SCHEMA>.<NAME>_on_insert`, fires on inserts into the
      upper-cased qualified table and takes the key from `<NAME>_sequence`
      (unqualified). */
  function CreateSchemaTableTriggerSql(n: SchemaNames): (r: string)
    ensures Contains(r, " CREATE OR REPLACE TRIGGER " + Upper(n.quotedSchema) + "."
                        + OracleSql.TriggerName(Upper(n.unquoted)))
    ensures Contains(r, OracleSql.TriggerOn + Upper(n.fq))
    ensures Contains(r, OracleSql.SequenceName(Upper(n.unquoted)) + ".nextval")
  {
    var parts := TriggerParts(n);
    ContainsTwoFragments(parts, 0);
    assert parts[0] + parts[1]
        == " CREATE OR REPLACE TRIGGER " + Upper(n.quotedSchema) + "." + OracleSql.TriggerName(Upper(n.unquoted));
    ContainsTwoFragments(parts, 2);
    ContainsTwoFragments(parts, 5);
    Join(parts)
  }

  function ExistsParts(n: SchemaNames): seq<string> {
    ["select 1 from all_tables where ", "table_name = '", Upper(n.unquoted),
     OwnerClause, Upper(n.schema), "'"]
  }

  /** The existence query looks in `all_tables` for the upper-cased
      unqualified table name owned by the upper-cased schema. */
  function DoesTableExistSql(n: SchemaNames): (r: string)
    ensures Contains(r, "select 1 from all_tables where ")
    ensures Contains(r, "table_name = '" + Upper(n.unquoted) + OwnerClause)
    ensures Contains(r, OwnerClause + Upper(n.schema) + "'")
  {
    ContainsFragment(ExistsParts(n), 0);
    ContainsThreeFragments(ExistsParts(n), 1);
    ContainsThreeFragments(ExistsParts(n), 3);
    Join(ExistsParts(n))
  }

  function InsertParts(n: SchemaNames, scriptName: string, applied: string): seq<string> {
    [OracleSql.InsertInto, Upper(n.fq), OracleSql.InsertValues(scriptName, applied)]
  }

  /** The insert is the plain journal's, applied to the qualified name in
      place of the unqualified one: it writes into the upper-cased qualified
      name through `:` placeholders with '@' removed. */
  function GetInsertJournalEntrySql(n: SchemaNames, scriptName: string, applied: string): (r: string)
    ensures r == OracleSql.GetInsertJournalEntrySql(OracleSql.BaseNames(n.fq, n.fq), scriptName, applied)
    ensures Contains(r, OracleSql.InsertInto + Upper(n.fq))
    ensures Contains(r, OracleSql.Placeholder(scriptName) + "," + OracleSql.Placeholder(applied))
    ensures '@' in r <==> '@' in n.fq
  {
    assert InsertParts(n, scriptName, applied) == OracleSql.InsertParts(OracleSql.BaseNames(n.fq, n.fq), scriptName, applied);
    Join(InsertParts(n, scriptName, applied))
  }

  function EntriesParts(n: SchemaNames): seq<string> {
    ["select scriptname ", "from ", Upper(n.fq), OracleSql.OrderByScriptName]
  }

  /** The entries query is the plain journal's, applied to the qualified
      name: it reads the upper-cased qualified table, ordered by script name. */
  function GetJournalEntriesSql(n: SchemaNames): (r: string)
    ensures r == OracleSql.GetJournalEntriesSql(OracleSql.BaseNames(n.fq, n.fq))
    ensures Contains(r, "from " + Upper(n.fq) + OracleSql.OrderByScriptName)
    ensures EndsWith(r, OracleSql.OrderByScriptName)
  {
    assert EntriesParts(n) == OracleSql.EntriesParts(OracleSql.BaseNames(n.fq, n.fq));
    Join(EntriesParts(n))
  }

  // ---------------------------------------------------------------------
  // Properties of the guard.

  /** A schema with at least one character that is not white space passes
      the guard, and one made of white space only does not. */
  lemma CheckSchemaCases(schema: string)
    ensures CheckSchema(Some(schema)).Ok? <==> exists i :: 0 <= i < |schema| && !IsWhiteSpace(schema[i])
    ensures CheckSchema(Some(schema)).Ok? ==> CheckSchema(Some(schema)).value == schema
  {
  }

  /** In particular, null, the empty string and blanks are refused. */
  lemma CheckSchemaRefuses()
    ensures CheckSchema(None) == Err(ArgumentNull("schema"))
    ensures CheckSchema(Some("")) == Err(ArgumentNull("schema"))
    ensures CheckSchema(Some(" \t\r\n")) == Err(ArgumentNull("schema"))
  {
    assert IsNullOrWhiteSpace(Some(" \t\r\n")) by {
      assert forall i :: 0 <= i < 4 ==> " \t\r\n"[i] in {' ', '\t', '\r', '\n'};
    }
  }

  // ---------------------------------------------------------------------
  // Properties of the texts.

  /** The create-table statement, the insert, the insert script, the entries
      query and the trigger all address one table: the upper-cased
      qualified name. */
  lemma SameTargetName(n: SchemaNames, quotedPrimaryKeyName: string, scriptName: string, applied: string)
    ensures Contains(CreateSchemaTableSql(n, quotedPrimaryKeyName), " CREATE TABLE " + Upper(n.fq))
    ensures Contains(GetInsertJournalEntrySql(n, scriptName, applied), OracleSql.InsertInto + Upper(n.fq))
    ensures Contains(GetInsertJournalEntryScript(n, scriptName), OracleSql.InsertInto + Upper(n.fq))
    ensures Contains(GetJournalEntriesSql(n), "from " + Upper(n.fq) + OracleSql.OrderByScriptName)
    ensures Contains(CreateSchemaTableTriggerSql(n), OracleSql.TriggerOn + Upper(n.fq))
  {
  }
}
