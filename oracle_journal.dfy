/** `OracleTableJournal.EnsureTableExistsAndIsLatestVersion`: the journal
    caches, in the field `journalExists`, that its table is known to be
    there. Until then each call asks the database; when the table is absent
    it runs three DDL statements in order (the key sequence, the table, the
    trigger that fills the key from the sequence) and then the
    `OnTableCreated` hook. The flag is set only when the call returns
    normally; a statement that throws leaves it as it was and stops the
    statements after it.

    The database is the class `OracleDatabase`: which of the journal's three
    objects exist, which statements it refuses (the ones that would throw),
    and a ghost log of what it was sent. */
module OracleJournal {
  import opened Results
  import opened Text
  import OracleSql
  import OracleSqlWithSchema

  /** The two journal classes: `OracleTableJournal` over a table name, and
      `OracleTableJournalWithSchema` over a table in a named schema. Each
      carries the names its base class supplies. */
  datatype Dialect =
    | Plain(baseNames: OracleSql.BaseNames)
    | WithSchema(schemaNames: OracleSqlWithSchema.SchemaNames)

  /** The three objects the journal creates, one DDL statement each. */
  datatype DdlUnit = SequenceUnit | TableUnit | TriggerUnit

  /** The position of each statement in the order in which they run. */
  function Position(u: DdlUnit): nat {
    match u
    case SequenceUnit => 0
    case TableUnit => 1
    case TriggerUnit => 2
  }

  /** The objects whose statements run before the one for `u`. */
  function Before(u: DdlUnit): (r: set<DdlUnit>)
    ensures forall v :: v in r <==> Position(v) < Position(u)
  {
    match u
    case SequenceUnit => {}
    case TableUnit => {SequenceUnit}
    case TriggerUnit => {SequenceUnit, TableUnit}
  }

  /** A point at which the call can throw. */
  datatype Stage = ExistenceCheck | Creating(unit: DdlUnit)

  /** How a call ends: normally, or with the exception thrown at a stage. */
  datatype Outcome = Done | Failed(stage: Stage)

  /** What the journal sends to the database. */
  datatype Event =
    | ExistenceQuery(sql: string)
    | Execute(unit: DdlUnit, sql: string)
    | TableCreated

  /** The texts of the four statements, as the journal's virtual builders
      produce them for its class. */
  datatype OracleTexts = OracleTexts(existence: string, sequence: string, table: string, trigger: string)

  /** The key sequence of the journal table: `<name>_sequence`, the name
      upper-cased in the schema dialect. */
  function SequenceOf(d: Dialect): string {
    match d
    case Plain(n) => OracleSql.SequenceName(n.unquoted)
    case WithSchema(n) => OracleSql.SequenceName(Upper(n.unquoted))
  }

  /** The four texts of a class; in either class the trigger takes the key
      from the sequence that the sequence statement creates. */
  function TextsFor(d: Dialect, quotedPrimaryKeyName: string): (r: OracleTexts)
    ensures EndsWith(r.sequence, SequenceOf(d))
    ensures Contains(r.trigger, SequenceOf(d) + ".nextval")
  {
    match d
    case Plain(n) =>
      EndsWithAppend(" CREATE SEQUENCE ", OracleSql.SequenceName(n.unquoted));
      OracleTexts(OracleSql.DoesTableExistSql(n), OracleSql.CreateSchemaTableSequenceSql(n),
                  OracleSql.CreateSchemaTableSql(n, quotedPrimaryKeyName), OracleSql.CreateSchemaTableTriggerSql(n))
    case WithSchema(n) =>
      EndsWithAppend(" CREATE SEQUENCE " + Upper(n.quotedSchema) + ".", OracleSql.SequenceName(Upper(n.unquoted)));
      OracleTexts(OracleSqlWithSchema.DoesTableExistSql(n), OracleSqlWithSchema.CreateSchemaTableSequenceSql(n),
                  OracleSqlWithSchema.CreateSchemaTableSql(n, quotedPrimaryKeyName),
                  OracleSqlWithSchema.CreateSchemaTableTriggerSql(n))
  }

  /** The statement for `u` throws when the database refuses it, or when the
      object already exists and the statement cannot replace it: `CREATE
      SEQUENCE` and `CREATE TABLE` fail on an existing name, `CREATE OR
      REPLACE TRIGGER` does not. */
  predicate UnitFails(objects: set<DdlUnit>, refused: set<Stage>, u: DdlUnit) {
    Creating(u) in refused || (u in objects && u != TriggerUnit)
  }

  /** The successful call from an absent table: the existence query, the
      three statements in order, then the hook. */
  function CreationEvents(texts: OracleTexts): seq<Event> {
    [ExistenceQuery(texts.existence), Execute(SequenceUnit, texts.sequence), Execute(TableUnit, texts.table),
     Execute(TriggerUnit, texts.trigger), TableCreated]
  }

  /** What a call does: the objects that exist afterwards, what was sent,
      how it ended, and the new value of `journalExists`. */
  datatype Ensured = Ensured(objects: set<DdlUnit>, events: seq<Event>, outcome: Outcome, journalExists: bool)

  /** `EnsureTableExistsAndIsLatestVersion` as a function of the flag and the
      database: once the flag is set nothing is sent and nothing changes; the
      flag is set exactly when the call returns normally, so it never
      reverts; no object is ever dropped. */
  function Ensure(journalExists: bool, objects: set<DdlUnit>, refused: set<Stage>, texts: OracleTexts): (r: Ensured)
    ensures journalExists ==> r == Ensured(objects, [], Done, true)
    ensures r.journalExists <==> r.outcome == Done
    ensures objects <= r.objects
  {
    var events := CreationEvents(texts);
    if journalExists then Ensured(objects, [], Done, true)
    else if ExistenceCheck in refused then Ensured(objects, events[..1], Failed(ExistenceCheck), false)
    else if TableUnit in objects then Ensured(objects, events[..1], Done, true)
    else if UnitFails(objects, refused, SequenceUnit) then
      Ensured(objects, events[..2], Failed(Creating(SequenceUnit)), false)
    else
      var withSequence := objects + {SequenceUnit};
      if UnitFails(withSequence, refused, TableUnit) then
        Ensured(withSequence, events[..3], Failed(Creating(TableUnit)), false)
      else
        var withTable := withSequence + {TableUnit};
        if UnitFails(withTable, refused, TriggerUnit) then
          Ensured(withTable, events[..4], Failed(Creating(TriggerUnit)), false)
        else
          Ensured(withTable + {TriggerUnit}, events, Done, true)
  }

  // ---------------------------------------------------------------------
  // Properties of one call.

  /** Until the flag is set, a call asks first, and what it sends is a
      prefix of a full creation. */
  lemma EnsureAsksFirst(objects: set<DdlUnit>, refused: set<Stage>, texts: OracleTexts)
    ensures var r := Ensure(false, objects, refused, texts);
            1 <= |r.events| <= 5 && r.events == CreationEvents(texts)[..|r.events|]
            && r.events[0] == ExistenceQuery(texts.existence)
  {
  }

  /** A table that is there is not touched: the call only asks. */
  lemma EnsureLeavesExistingTable(objects: set<DdlUnit>, refused: set<Stage>, texts: OracleTexts)
    requires ExistenceCheck !in refused && TableUnit in objects
    ensures Ensure(false, objects, refused, texts) == Ensured(objects, [ExistenceQuery(texts.existence)], Done, true)
  {
  }

  /** An absent table that is created successfully is created with its
      sequence and trigger, in that order, followed by the hook. */
  lemma EnsureCreatesInOrder(objects: set<DdlUnit>, refused: set<Stage>, texts: OracleTexts)
    requires TableUnit !in objects
    requires Ensure(false, objects, refused, texts).outcome == Done
    ensures var r := Ensure(false, objects, refused, texts);
            r.events == CreationEvents(texts) && r.objects == objects + {SequenceUnit, TableUnit, TriggerUnit}
  {
  }

  /** A statement that throws stops the statements after it and the hook;
      the objects of the statements before it stay created, its own is not
      created, and it threw because it was refused or its object was there. */
  lemma EnsureStopsAtFailure(objects: set<DdlUnit>, refused: set<Stage>, texts: OracleTexts)
    requires Ensure(false, objects, refused, texts).outcome.Failed?
    ensures var r := Ensure(false, objects, refused, texts);
      && TableCreated !in r.events
      && (r.outcome == Failed(ExistenceCheck) ==> r.objects == objects && r.events == [ExistenceQuery(texts.existence)])
      && (r.outcome.stage.Creating? ==>
            var u := r.outcome.stage.unit;
            && r.events == CreationEvents(texts)[..Position(u) + 2]
            && r.objects == objects + Before(u)
            && UnitFails(objects + Before(u), refused, u))
  {
    var events := CreationEvents(texts);
    assert TableCreated !in events[..4] by {
      assert forall i :: 0 <= i < 4 ==> events[i] != TableCreated;
    }
  }

  // ---------------------------------------------------------------------
  // Consequences over several calls.

  /** A second call after a normal return sends nothing. */
  lemma EnsureIsCached(objects: set<DdlUnit>, refused: set<Stage>, later: set<Stage>, texts: OracleTexts)
    requires Ensure(false, objects, refused, texts).outcome == Done
    ensures var first := Ensure(false, objects, refused, texts);
            Ensure(first.journalExists, first.objects, later, texts).events == []
  {
  }

  /** A fresh journal over a database where an earlier journal created the
      table only asks, and creates nothing. */
  lemma CreatedTableIsFound(objects: set<DdlUnit>, refused: set<Stage>, texts: OracleTexts)
    requires TableUnit !in objects
    requires Ensure(false, objects, refused, texts).outcome == Done
    ensures var first := Ensure(false, objects, refused, texts);
            Ensure(false, first.objects, {}, texts) == Ensured(first.objects, [ExistenceQuery(texts.existence)], Done, true)
  {
  }

  /** Creation is not undone when a later statement throws: once the
      sequence exists and the table does not, every later call throws at
      the sequence statement, so the journal cannot be created any more. */
  lemma PartialCreationBlocksRetry(objects: set<DdlUnit>, refused: set<Stage>, later: set<Stage>, texts: OracleTexts)
    requires SequenceUnit !in objects && TableUnit !in objects
    requires Ensure(false, objects, refused, texts).outcome == Failed(Creating(TableUnit))
    requires ExistenceCheck !in later
    ensures var first := Ensure(false, objects, refused, texts);
            Ensure(false, first.objects, later, texts).outcome == Failed(Creating(SequenceUnit))
  {
    EnsureStopsAtFailure(objects, refused, texts);
  }

  /** When only the trigger statement throws, the table is left without its
      trigger, and a later call finds the table and does not repair it. */
  lemma FailedTriggerIsNotRepaired(objects: set<DdlUnit>, refused: set<Stage>, later: set<Stage>, texts: OracleTexts)
    requires objects == {}
    requires Ensure(false, objects, refused, texts).outcome == Failed(Creating(TriggerUnit))
    requires ExistenceCheck !in later
    ensures var first := Ensure(false, objects, refused, texts);
            first.objects == {SequenceUnit, TableUnit}
            && Ensure(false, first.objects, later, texts).outcome == Done
            && TriggerUnit !in Ensure(false, first.objects, later, texts).objects
  {
    EnsureStopsAtFailure(objects, refused, texts);
  }

  // ---------------------------------------------------------------------
  // The database and the journal.

  class OracleDatabase {
    /** Which of the journal's objects exist. */
    var objects: set<DdlUnit>
    /** The statements that throw when sent. */
    const refused: set<Stage>
    /** Everything the journal has sent, in order. */
    ghost var issued: seq<Event>

    constructor (objects: set<DdlUnit>, refused: set<Stage>)
      ensures this.objects == objects && this.refused == refused && issued == []
    {
      this.objects := objects;
      this.refused := refused;
      issued := [];
    }

    /** The base class's `DoesTableExist`: the query either throws or says
        whether the table is there. */
    method TableExists(sql: string) returns (r: Result<bool, Stage>)
      modifies this`issued
      ensures issued == old(issued) + [ExistenceQuery(sql)]
      ensures r == if ExistenceCheck in refused then Err(ExistenceCheck) else Ok(TableUnit in objects)
    {
      issued := issued + [ExistenceQuery(sql)];
      if ExistenceCheck in refused {
        r := Err(ExistenceCheck);
      } else {
        r := Ok(TableUnit in objects);
      }
    }

    /** Runs the statement for `u` (`ExecuteNonQuery`). */
    method ExecuteNonQuery(u: DdlUnit, sql: string) returns (ok: bool)
      modifies this`objects, this`issued
      ensures issued == old(issued) + [Execute(u, sql)]
      ensures ok == !UnitFails(old(objects), refused, u)
      ensures objects == if ok then old(objects) + {u} else old(objects)
    {
      issued := issued + [Execute(u, sql)];
      ok := !UnitFails(objects, refused, u);
      if ok {
        objects := objects + {u};
      }
    }

    /** The `OnTableCreated` hook. */
    method OnTableCreated()
      modifies this`issued
      ensures issued == old(issued) + [TableCreated]
    {
      issued := issued + [TableCreated];
    }
  }

  class OracleTableJournal {
    const dialect: Dialect
    /** The key name the base class passes to `CreateSchemaTableSql`. */
    const quotedPrimaryKeyName: string
    const texts: OracleTexts
    var journalExists: bool

    ghost predicate Valid() {
      texts == TextsFor(dialect, quotedPrimaryKeyName)
    }

    /** `new OracleTableJournal(...)`: nothing is known about the table yet. */
    constructor (names: OracleSql.BaseNames, quotedPrimaryKeyName: string)
      ensures Valid()
      ensures dialect == Plain(names) && this.quotedPrimaryKeyName == quotedPrimaryKeyName
      ensures !journalExists
    {
      dialect := Plain(names);
      this.quotedPrimaryKeyName := quotedPrimaryKeyName;
      texts := TextsFor(Plain(names), quotedPrimaryKeyName);
      journalExists := false;
    }

    constructor WithSchemaNames(names: OracleSqlWithSchema.SchemaNames, quotedPrimaryKeyName: string)
      ensures Valid()
      ensures dialect == WithSchema(names) && this.quotedPrimaryKeyName == quotedPrimaryKeyName
      ensures !journalExists
    {
      dialect := WithSchema(names);
      this.quotedPrimaryKeyName := quotedPrimaryKeyName;
      texts := TextsFor(WithSchema(names), quotedPrimaryKeyName);
      journalExists := false;
    }

    /** `new OracleTableJournalWithSchema(...)`: refused with
        `ArgumentNullException("schema")` when the schema is null, empty or
        white space; otherwise a journal over the table in that schema. */
    static method NewWithSchema(schema: Option<string>, names: OracleSqlWithSchema.SchemaNames, quotedPrimaryKeyName: string)
      returns (r: Result<OracleTableJournal, OracleSqlWithSchema.ConstructionError>)
      requires schema.Some? ==> names.schema == schema.value
      ensures r.Err? <==> OracleSqlWithSchema.CheckSchema(schema).Err?
      ensures r.Err? ==> r.error == OracleSqlWithSchema.ArgumentNull("schema")
      ensures r.Ok? ==> fresh(r.value) && r.value.Valid() && r.value.dialect == WithSchema(names)
                        && r.value.quotedPrimaryKeyName == quotedPrimaryKeyName && !r.value.journalExists
    {
      var checked := OracleSqlWithSchema.CheckSchema(schema);
      if checked.Err? {
        r := Err(checked.error);
      } else {
        var journal := new OracleTableJournal.WithSchemaNames(names, quotedPrimaryKeyName);
        r := Ok(journal);
      }
    }

    method EnsureTableExistsAndIsLatestVersion(db: OracleDatabase) returns (outcome: Outcome)
      requires Valid()
      modifies this`journalExists, db`objects, db`issued
      ensures |db.issued| >= |old(db.issued)| && db.issued[..|old(db.issued)|] == old(db.issued)
      ensures Ensure(old(journalExists), old(db.objects), db.refused, texts)
              == Ensured(db.objects, db.issued[|old(db.issued)|..], outcome, journalExists)
    {
      outcome, journalExists := EnsureWith(texts, journalExists, db);
    }

    /** The steps of `EnsureTableExistsAndIsLatestVersion` over the journal's
        statement texts, with the flag passed in and returned. */
    static method EnsureWith(texts: OracleTexts, known: bool, db: OracleDatabase) returns (outcome: Outcome, nowKnown: bool)
      modifies db`objects, db`issued
      ensures |db.issued| >= |old(db.issued)| && db.issued[..|old(db.issued)|] == old(db.issued)
      ensures Ensure(known, old(db.objects), db.refused, texts)
              == Ensured(db.objects, db.issued[|old(db.issued)|..], outcome, nowKnown)
    {
      ghost var start := db.issued;
      ghost var events := CreationEvents(texts);
      nowKnown := known;
      if !known {
        var found := db.TableExists(texts.existence);
        if found.Err? {
          assert db.issued[|start|..] == events[..1];
          return Failed(found.error), false;
        }
        if !found.value {
          var ok := db.ExecuteNonQuery(SequenceUnit, texts.sequence);
          if !ok {
            assert db.issued[|start|..] == events[..2];
            return Failed(Creating(SequenceUnit)), false;
          }
          ok := db.ExecuteNonQuery(TableUnit, texts.table);
          if !ok {
            assert db.issued[|start|..] == events[..3];
            return Failed(Creating(TableUnit)), false;
          }
          ok := db.ExecuteNonQuery(TriggerUnit, texts.trigger);
          if !ok {
            assert db.issued[|start|..] == events[..4];
            return Failed(Creating(TriggerUnit)), false;
          }
          db.OnTableCreated();
          assert db.issued[|start|..] == events;
        } else {
          assert db.issued[|start|..] == events[..1];
        }
      }
      nowKnown := true;
      outcome := Done;
    }
  }
}
