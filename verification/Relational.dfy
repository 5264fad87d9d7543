/**
 A relational database as the copy sees it: tables of rows by primary key, and the constraints the
 engine enforces after every statement (primary keys, NOT NULL, foreign keys).
 */
module Relational {
  import opened Wrappers

  type Value = string
  type Row = map<string, Option<Value>>
  type Rows = map<Value, Row>
  type Database = map<string, Rows>

  /** `column` refers to the primary key of `table`. */
  datatype ForeignKey = ForeignKey(column: string, table: string)

  datatype Table = Table(name: string, pk: string, columns: set<string>, nullable: set<string>,
      foreignKeys: set<ForeignKey>) {

    function SelfRefs(): set<string> {
      set fk | fk in foreignKeys && fk.table == name :: fk.column
    }

    predicate WellFormed() {
      && pk in columns
      && pk !in nullable
      && forall fk :: fk in foreignKeys ==> fk.column in columns
    }

    /** The row fits the table on its own: columns, key and NOT NULL. */
    predicate Admits(key: Value, row: Row) {
      && row.Keys == columns
      && pk in row && row[pk] == Some(key)
      && forall c :: c in row && c !in nullable ==> row[c].Some?
    }

    predicate RefsHold(row: Row, db: Database) {
      forall fk :: fk in foreignKeys && fk.column in row && row[fk.column].Some? ==>
        fk.table in db && row[fk.column].value in db[fk.table]
    }

    predicate Holds(db: Database) {
      name in db && forall k :: k in db[name] ==> Admits(k, db[name][k]) && RefsHold(db[name][k], db)
    }
  }

  /** What the engine demands of the database after every statement. */
  predicate Intact(schema: seq<Table>, db: Database) {
    forall i :: 0 <= i < |schema| ==> schema[i].Holds(db)
  }

  ghost predicate WellFormed(schema: seq<Table>) {
    && (forall i :: 0 <= i < |schema| ==> schema[i].WellFormed())
    && (forall i, j :: 0 <= i < |schema| && 0 <= j < |schema| && schema[i].name == schema[j].name ==> i == j)
  }

  /** `sorted_tables`: a table comes after every table it refers to, itself excepted. */
  ghost predicate ParentsFirst(schema: seq<Table>) {
    forall i, fk :: 0 <= i < |schema| && fk in schema[i].foreignKeys ==>
      exists j :: 0 <= j <= i && schema[j].name == fk.table
  }

  /**
   One session of the target database, inside a transaction. The engine refuses a statement that
   would break a constraint; a statement whose number is in `faults` fails for any other reason.
   */
  class Target {
    const schema: seq<Table>
    const faults: set<nat>
    var committed: Database
    var working: Database
    var executed: nat

    constructor (schema: seq<Table>, faults: set<nat>, contents: Database)
      ensures this.schema == schema && this.faults == faults
      ensures committed == working == contents && executed == 0
    {
      this.schema, this.faults := schema, faults;
      committed, working, executed := contents, contents, 0;
    }

    ghost predicate NoFaultSince(start: nat)
      reads this
    {
      forall s :: start <= s < executed ==> s !in faults
    }

    method Execute(next: Database) returns (ok: bool)
      modifies this`working, this`executed
      ensures executed == old(executed) + 1
      ensures ok <==> old(executed) !in faults && Intact(schema, next)
      ensures working == if ok then next else old(working)
    {
      ok := executed !in faults && Intact(schema, next);
      executed := executed + 1;
      if ok {
        working := next;
      }
    }

    /** `DELETE FROM table` */
    method DeleteAll(table: Table) returns (ok: bool)
      modifies this`working, this`executed
      ensures executed == old(executed) + 1
      ensures ok <==> old(executed) !in faults && Intact(schema, old(working)[table.name := map[]])
      ensures working == if ok then old(working)[table.name := map[]] else old(working)
    {
      ok := Execute(working[table.name := map[]]);
    }

    /** `INSERT INTO table VALUES row`; a key that is NULL or taken is refused. */
    method Insert(table: Table, row: Row) returns (ok: bool)
      requires table.name in working && table.pk in row
      modifies this`working, this`executed
      ensures executed == old(executed) + 1
      ensures ok <==>
              && old(executed) !in faults
              && row[table.pk].Some?
              && row[table.pk].value !in old(working)[table.name]
              && Intact(schema, Inserted(old(working), table, row))
      ensures working == if ok then Inserted(old(working), table, row) else old(working)
    {
      if row[table.pk].Some? && row[table.pk].value !in working[table.name] {
        ok := Execute(Inserted(working, table, row));
      } else {
        ok := false;
        executed := executed + 1;
      }
    }

    /** `UPDATE table SET values WHERE pk = key` */
    method Update(table: Table, key: Value, values: Row) returns (ok: bool)
      requires table.name in working
      modifies this`working, this`executed
      ensures executed == old(executed) + 1
      ensures ok <==> old(executed) !in faults && Intact(schema, Updated(old(working), table, key, values))
      ensures working == if ok then Updated(old(working), table, key, values) else old(working)
    {
      ok := Execute(Updated(working, table, key, values));
    }

    method Commit() returns (ok: bool)
      modifies this`committed, this`executed
      ensures executed == old(executed) + 1
      ensures ok <==> old(executed) !in faults
      ensures committed == if ok then working else old(committed)
    {
      ok := executed !in faults;
      executed := executed + 1;
      if ok {
        committed := working;
      }
    }

    method Rollback()
      modifies this`working
      ensures working == committed
    {
      working := committed;
    }
  }

  function Inserted(db: Database, table: Table, row: Row): Database
    requires table.name in db && table.pk in row && row[table.pk].Some?
  {
    db[table.name := db[table.name][row[table.pk].value := row]]
  }

  function Updated(db: Database, table: Table, key: Value, values: Row): Database
    requires table.name in db
  {
    var rows := db[table.name];
    if key in rows then db[table.name := rows[key := rows[key] + values]] else db
  }

  /** Intact, in the engine's terms: columns, primary keys, NOT NULL, and no reference to a row that is not there. */
  lemma IntactMeans(schema: seq<Table>, db: Database)
    ensures Intact(schema, db) <==>
            forall i :: 0 <= i < |schema| ==>
              && schema[i].name in db
              && forall k :: k in db[schema[i].name] ==> RowMeans(schema[i], k, db)
  {
  }

  predicate RowMeans(table: Table, key: Value, db: Database)
    requires table.name in db && key in db[table.name]
  {
    var row := db[table.name][key];
    && row.Keys == table.columns
    && table.pk in row && row[table.pk] == Some(key)
    && (forall c :: c in row && row[c] == None ==> c in table.nullable)
    && (forall fk :: fk in table.foreignKeys && fk.column in row && row[fk.column].Some? ==>
          fk.table in db && row[fk.column].value in db[fk.table])
  }

  /** A database that agrees with an intact one on the first tables and is empty on the rest is intact. */
  lemma {:induction false} PrefixIntact(schema: seq<Table>, reference: Database, db: Database, n: nat)
    requires WellFormed(schema) && ParentsFirst(schema) && Intact(schema, reference)
    requires n <= |schema|
    requires forall i :: 0 <= i < n ==> schema[i].name in db && db[schema[i].name] == reference[schema[i].name]
    requires forall i :: n <= i < |schema| ==> schema[i].name in db && db[schema[i].name] == map[]
    ensures Intact(schema, db)
  {
    forall i | 0 <= i < n ensures schema[i].Holds(db) {
      var t := schema[i];
      assert t.Holds(reference);
      forall k | k in db[t.name] ensures t.RefsHold(db[t.name][k], db) {
        forall fk | fk in t.foreignKeys && fk.column in db[t.name][k] && db[t.name][k][fk.column].Some?
          ensures fk.table in db && db[t.name][k][fk.column].value in db[fk.table]
        {
          var j :| 0 <= j <= i && schema[j].name == fk.table;
          assert t.RefsHold(reference[t.name][k], reference);
        }
      }
    }
  }
}
