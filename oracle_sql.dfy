/** The SQL texts `OracleTableJournal` builds. Oracle has no identity column,
    so the journal table is created as three objects named from one base
    name: a sequence `<name>_sequence`, the table `<name>` with primary key
    `PK_<name>`, and a trigger `<name>_on_insert` that fills the key from the
    sequence. Queries use the upper-cased name, since Oracle stores unquoted
    identifiers upper-cased; parameters become `:` placeholders.

    Each text is the concatenation (`Join`) of its fragments, in the order in
    which the interpolated string writes them; the longer fixed fragments are
    named constants. */
module OracleSql {
  import opened Text

  /** The table names the journal's base class supplies: the table name as
      configured (`UnquotedSchemaTableName`) and its quoted, schema-qualified
      form (`FqSchemaTableName`). How the base class composes them is not part
      of this model. */
  datatype BaseNames = BaseNames(unquoted: string, fq: string)

  /** The sequence that feeds the key column of the table named `name`. */
  function SequenceName(name: string): string {
    name + "_sequence"
  }

  /** The primary-key constraint of the table named `name`. */
  function PrimaryKeyName(name: string): string {
    "PK_" + name
  }

  /** The trigger that fills the key column of the table named `name`. */
  function TriggerName(name: string): string {
    name + "_on_insert"
  }

  /** A `:` placeholder for a parameter whose name may carry `@`. */
  function Placeholder(parameterName: string): string {
    ":" + RemoveAt(parameterName)
  }

  // ---------------------------------------------------------------------
  // Fixed fragments (line breaks are LF; the indentation is the source's).

  const TableColumns: string :=
    "\n                (\n                    schemaversionid NUMBER(10),\n                    scriptname VARCHAR2(255) NOT NULL,\n                    applied TIMESTAMP NOT NULL,\n                    "
  const TableEnd: string := "\n                )"
  const KeyClause: string := " PRIMARY KEY (schemaversionid)"
  const InsertInto: string := "insert into "
  const ValuesClause: string := " (ScriptName, Applied) values ("
  const TriggerOn: string := "\n                    BEFORE INSERT ON "
  const TriggerBegin: string :=
    "\n                    FOR EACH ROW\n                    BEGIN\n                        SELECT "
  const TriggerEnd: string :=
    "\n                        INTO :new.schemaversionid\n                        FROM dual;\n                    END;\n                "

  // ---------------------------------------------------------------------
  // Properties of the names.

  /** A placeholder is `:` followed by the parameter name without any '@'. */
  lemma PlaceholderHasNoAt(parameterName: string)
    ensures Placeholder(parameterName)[0] == ':'
    ensures '@' !in Placeholder(parameterName)
    ensures Placeholder(parameterName)[1..] == RemoveAt(parameterName)
  {
    assert forall c :: c in Placeholder(parameterName) ==> c == ':' || c in RemoveAt(parameterName);
  }

  /** A parameter written `@name` becomes the placeholder `:name`. */
  lemma PlaceholderOfAtName(name: string)
    requires '@' !in name
    ensures Placeholder("@" + name) == ":" + name
  {
    RemoveAtAppend("@", name);
    assert RemoveAt("@") == [];
  }

  /** Distinct journal tables get distinct key constraints. */
  lemma PrimaryKeyNameInjective(a: string, b: string)
    requires PrimaryKeyName(a) == PrimaryKeyName(b)
    ensures a == b
  {
    assert a == PrimaryKeyName(a)[3..] && b == PrimaryKeyName(b)[3..];
  }

  // ---------------------------------------------------------------------
  // The builders.

  function SequenceParts(n: BaseNames): seq<string> {
    [" CREATE SEQUENCE ", SequenceName(n.unquoted)]
  }

  /** The sequence statement creates exactly `<name>_sequence`. */
  function CreateSchemaTableSequenceSql(n: BaseNames): (r: string)
    ensures r == " CREATE SEQUENCE " + SequenceName(n.unquoted)
  {
    JoinTwo(" CREATE SEQUENCE ", SequenceName(n.unquoted));
    Join(SequenceParts(n))
  }

  function TableParts(n: BaseNames): seq<string> {
    [" CREATE TABLE ", n.unquoted, TableColumns, "CONSTRAINT ", PrimaryKeyName(n.unquoted), KeyClause, TableEnd]
  }

  /** The table definition: the table under the configured name, with the
      primary key `PK_<name>` on `schemaversionid`. The `quotedPrimaryKeyName`
      the base class passes is not used. */
  function CreateSchemaTableSql(n: BaseNames, quotedPrimaryKeyName: string): (r: string)
    ensures Contains(r, " CREATE TABLE " + n.unquoted)
    ensures Contains(r, "CONSTRAINT " + PrimaryKeyName(n.unquoted) + KeyClause)
  {
    ContainsTwoFragments(TableParts(n), 0);
    ContainsThreeFragments(TableParts(n), 3);
    Join(TableParts(n))
  }

  function TriggerParts(n: BaseNames): seq<string> {
    [" CREATE OR REPLACE TRIGGER ", TriggerName(n.unquoted), TriggerOn, n.unquoted,
     TriggerBegin, SequenceName(n.unquoted), ".nextval", TriggerEnd]
  }

  /** The trigger `<name>_on_insert` fires before inserts on `<name>` and
      takes the key from `<name>_sequence`. */
  function CreateSchemaTableTriggerSql(n: BaseNames): (r: string)
    ensures Contains(r, " CREATE OR REPLACE TRIGGER " + TriggerName(n.unquoted))
    ensures Contains(r, TriggerOn + n.unquoted)
    ensures Contains(r, SequenceName(n.unquoted) + ".nextval")
  {
    ContainsTwoFragments(TriggerParts(n), 0);
    ContainsTwoFragments(TriggerParts(n), 2);
    ContainsTwoFragments(TriggerParts(n), 5);
    Join(TriggerParts(n))
  }

  function ExistsParts(n: BaseNames): seq<string> {
    ["select 1 from user_tables where ", "table_name = '", Upper(n.unquoted), "'"]
  }

  /** The existence query looks in `user_tables` for the upper-cased name. */
  function DoesTableExistSql(n: BaseNames): (r: string)
    ensures Contains(r, "select 1 from user_tables where ")
    ensures Contains(r, "table_name = '" + Upper(n.unquoted) + "'")
  {
    ContainsFragment(ExistsParts(n), 0);
    ContainsThreeFragments(ExistsParts(n), 1);
    Join(ExistsParts(n))
  }

  /** The `values (...)` part of the insert, after the table name. */
  function InsertValues(scriptName: string, applied: string): string {
    ValuesClause + (Placeholder(scriptName) + "," + Placeholder(applied)) + ")"
  }

  /** The values part of the insert holds no '@'. */
  lemma InsertValuesHaveNoAt(scriptName: string, applied: string)
    ensures '@' !in InsertValues(scriptName, applied)
  {
    PlaceholderHasNoAt(scriptName);
    PlaceholderHasNoAt(applied);
    assert '@' !in ValuesClause;
  }

  function InsertParts(n: BaseNames, scriptName: string, applied: string): seq<string> {
    [InsertInto, Upper(n.unquoted), InsertValues(scriptName, applied)]
  }

  /** The insert writes into the upper-cased table name; its values are the
      two parameters as `:` placeholders with '@' removed; an '@' appears in
      the text only when the table name itself has one. */
  function GetInsertJournalEntrySql(n: BaseNames, scriptName: string, applied: string): (r: string)
    ensures Contains(r, InsertInto + Upper(n.unquoted))
    ensures Contains(r, Placeholder(scriptName) + "," + Placeholder(applied))
    ensures '@' in r <==> '@' in n.unquoted
  {
    var parts := InsertParts(n, scriptName, applied);
    ContainsTwoFragments(parts, 0);
    ContainsFragment(parts, 2);
    ContainsMiddle(ValuesClause, Placeholder(scriptName) + "," + Placeholder(applied), ")");
    ContainsTransitive(Join(parts), parts[2], Placeholder(scriptName) + "," + Placeholder(applied));
    JoinThree(InsertInto, Upper(n.unquoted), InsertValues(scriptName, applied));
    UpperKeepsAt(n.unquoted);
    InsertValuesHaveNoAt(scriptName, applied);
    assert '@' !in InsertInto;
    Join(parts)
  }

  function EntriesParts(n: BaseNames): seq<string> {
    ["select scriptname ", "from ", Upper(n.unquoted), OrderByScriptName]
  }

  const OrderByScriptName: string := " order by scriptname"

  /** The entries query reads the upper-cased table, ordered by script name. */
  function GetJournalEntriesSql(n: BaseNames): (r: string)
    ensures Contains(r, "from " + Upper(n.unquoted) + OrderByScriptName)
    ensures EndsWith(r, OrderByScriptName)
  {
    var parts := EntriesParts(n);
    ContainsThreeFragments(parts, 1);
    JoinAppend(parts[..3], [OrderByScriptName]);
    assert parts == parts[..3] + [OrderByScriptName];
    assert Join([OrderByScriptName]) == OrderByScriptName + Join([]);
    EndsWithAppend(Join(parts[..3]), OrderByScriptName);
    Join(parts)
  }
}
