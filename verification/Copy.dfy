/**
 `helper db copy`: replace every row of one database with another's, in one transaction.

 Tables are emptied children first and filled parents first. A column that refers to the table it is
 in goes in as NULL and is set once all rows of the table are there. The main result is that no
 statement of the copy is ever refused and the target ends as an exact mirror, for any schema, any
 scan order, any batch size and any graph of self-references, cycles included; and that whatever
 does go wrong, the target is left as it was.
 */
module Copy {
  import opened Wrappers
  import opened Relational

  datatype TableCopy = TableCopy(table: string, rows: nat)

  datatype CopyError =
    | SameDatabase
    | NoSourceRevision
    | NoTargetRevision
    | RevisionsDiffer(source: string, target: string)
    | StatementFailed(table: string)
    | CountsDiffer(table: string, expected: nat, actual: nat)
    | CommitFailed

  datatype Endpoint = Endpoint(url: string, revision: Option<string>)

  function Refusal(source: Endpoint, target: Endpoint): Option<CopyError> {
    if source.url == target.url then Some(SameDatabase)
    else if source.revision == None then Some(NoSourceRevision)
    else if target.revision == None then Some(NoTargetRevision)
    else if source.revision != target.revision then Some(RevisionsDiffer(source.revision.value, target.revision.value))
    else None
  }

  // ---------------------------------------------------------------- one row

  /** The self-references of a row that are set. */
  function Refs(table: Table, row: Row): Row {
    map c | c in row && c in table.SelfRefs() && row[c].Some? :: row[c]
  }

  function Blanked(refs: Row): Row {
    map c | c in refs :: None
  }

  /** The row as it is first inserted. */
  function Stripped(table: Table, row: Row): Row {
    row + Blanked(Refs(table, row))
  }

  datatype Deferral = Deferral(pk: Value, refs: Row)

  /** Every self-reference that is set sits in a column that may be NULL for a while. */
  predicate Deferrable(table: Table, rows: Rows) {
    forall k :: k in rows ==> Refs(table, rows[k]).Keys <= table.nullable
  }

  // ---------------------------------------------------------------- one table, as values

  /** A scan yields every row of the table once, in whatever order the database likes. */
  ghost predicate IsScan(table: Table, scan: seq<Row>, rows: Rows) {
    && (forall i :: 0 <= i < |scan| ==>
        Keyed(table, scan[i]) && KeyOf(table, scan[i]) in rows && rows[KeyOf(table, scan[i])] == scan[i])
    && (forall i, j :: 0 <= i < j < |scan| ==> scan[i] != scan[j])
    && (forall k :: k in rows ==> exists i :: 0 <= i < |scan| && scan[i] == rows[k] && KeyOf(table, scan[i]) == k)
  }

  predicate Keyed(table: Table, row: Row) {
    table.pk in row && row[table.pk].Some?
  }

  function KeyOf(table: Table, row: Row): Value {
    if Keyed(table, row) then row[table.pk].value else ""
  }

  /** What the copy still owes each scanned row, in scan order. */
  function Deferrals(table: Table, scan: seq<Row>): seq<Deferral> {
    if scan == [] then []
    else
      var row := scan[|scan| - 1];
      Deferrals(table, scan[..|scan| - 1]) + Debt(KeyOf(table, row), Refs(table, row))
  }

  function Debt(key: Value, refs: Row): seq<Deferral> {
    if refs == map[] then [] else [Deferral(key, refs)]
  }

  /** The target table once these rows have been inserted. */
  ghost function Loaded(table: Table, scan: seq<Row>): Rows {
    if scan == [] then map[]
    else
      var row := scan[|scan| - 1];
      Loaded(table, scan[..|scan| - 1])[KeyOf(table, row) := Stripped(table, row)]
  }

  /** Between the first insert and the last update: rows agree with the source except for blanked self-references. */
  ghost predicate Approaches(table: Table, rows: Rows, partial: Rows) {
    && partial.Keys <= rows.Keys
    && (forall k :: k in partial ==> partial[k].Keys == rows[k].Keys)
    && (forall k, c :: k in partial && c in partial[k] && partial[k][c] != rows[k][c] ==>
          partial[k][c] == None && c in Refs(table, rows[k]))
  }

  /** A row that differs from an accepted one only by blanked self-references, in a table that has its keys. */
  lemma {:induction false} RowApproaches(table: Table, key: Value, row: Row, full: Row, db: Database, fullDb: Database)
    requires table.WellFormed() && table.Admits(key, full) && table.RefsHold(full, fullDb)
    requires Refs(table, full).Keys <= table.nullable
    requires row.Keys == full.Keys
    requires forall c :: c in row && row[c] != full[c] ==> row[c] == None && c in Refs(table, full)
    requires forall other :: other in fullDb && other != table.name ==> other in db && db[other] == fullDb[other]
    requires table.name in db && table.name in fullDb
    requires db[table.name].Keys == fullDb[table.name].Keys || Refs(table, row) == map[]
    ensures table.Admits(key, row) && table.RefsHold(row, db)
  {
    forall fk | fk in table.foreignKeys && fk.column in row && row[fk.column].Some?
      ensures fk.table in db && row[fk.column].value in db[fk.table]
    {
      assert row[fk.column] == full[fk.column];
      if fk.table == table.name {
        assert fk.column in table.SelfRefs();
        assert fk.column in Refs(table, row);
      }
    }
  }

  /** Filling a table that was empty leaves every other table as acceptable as it was. */
  lemma {:induction false} OthersUnmoved(other: Table, db: Database, name: string, partial: Rows)
    requires other.name != name && other.Holds(db) && name in db && db[name] == map[]
    ensures other.Holds(db[name := partial])
  {
    var next := db[name := partial];
    forall k | k in next[other.name] ensures other.RefsHold(next[other.name][k], next) {
      assert other.RefsHold(db[other.name][k], db);
    }
  }

  /**
   Every state a table goes through on its way from empty to the source's rows is intact: as long as
   rows are missing no self-reference is set, and once they are all there any of them may be.
   */
  lemma {:induction false} ApproachIntact(schema: seq<Table>, db: Database, n: nat, rows: Rows, partial: Rows)
    requires WellFormed(schema) && n < |schema|
    requires Intact(schema, db) && schema[n].name in db && db[schema[n].name] == map[]
    requires Intact(schema, db[schema[n].name := rows]) && Deferrable(schema[n], rows)
    requires Approaches(schema[n], rows, partial)
    requires partial.Keys == rows.Keys || forall k :: k in partial ==> Refs(schema[n], partial[k]) == map[]
    ensures Intact(schema, db[schema[n].name := partial])
  {
    hide Refs, Deferrable, Approaches;
    var t := schema[n];
    forall i | 0 <= i < |schema| ensures schema[i].Holds(db[t.name := partial]) {
      if i != n {
        OthersUnmoved(schema[i], db, t.name, partial);
      } else {
        ApproachHolds(t, db, rows, partial);
      }
    }
  }

  lemma {:induction false} ApproachHolds(t: Table, db: Database, rows: Rows, partial: Rows)
    requires t.WellFormed() && t.Holds(db[t.name := rows])
    requires Deferrable(t, rows) && Approaches(t, rows, partial)
    requires partial.Keys == rows.Keys || forall k :: k in partial ==> Refs(t, partial[k]) == map[]
    ensures t.Holds(db[t.name := partial])
  {
    hide Refs, Table.RefsHold, Table.Admits;
    var next, full := db[t.name := partial], db[t.name := rows];
    forall k | k in partial ensures t.Admits(k, partial[k]) && t.RefsHold(partial[k], next) {
      assert t.Admits(k, rows[k]) && t.RefsHold(rows[k], full);
      RowApproaches(t, k, partial[k], rows[k], next, full);
    }
  }

  lemma {:induction false} LoadedRows(table: Table, scan: seq<Row>, rows: Rows, i: nat)
    requires IsScan(table, scan, rows) && i <= |scan|
    ensures var loaded := Loaded(table, scan[..i]);
            && (forall k :: k in loaded ==> k in rows && loaded[k] == Stripped(table, rows[k]))
            && (forall k :: k in loaded ==> exists j :: 0 <= j < i && scan[j] == rows[k])
            && (forall j :: 0 <= j < i ==> KeyOf(table, scan[j]) in loaded)
  {
    hide Stripped, KeyOf, IsScan, Loaded;
    LoadedNext(table, scan, rows, i);
    if i > 0 {
      LoadedRows(table, scan, rows, i - 1);
      var before, loaded, key := Loaded(table, scan[..i - 1]), Loaded(table, scan[..i]), KeyOf(table, scan[i - 1]);
      forall k | k in loaded
        ensures k in rows && loaded[k] == Stripped(table, rows[k])
        ensures exists j :: 0 <= j < i && scan[j] == rows[k]
      {
        if k == key {
          assert scan[i - 1] == rows[k];
        } else {
          assert k in before;
        }
      }
      forall j | 0 <= j < i ensures KeyOf(table, scan[j]) in loaded {
        assert j == i - 1 || KeyOf(table, scan[j]) in before;
      }
    }
  }

  lemma LoadedNext(table: Table, scan: seq<Row>, rows: Rows, i: nat)
    requires IsScan(table, scan, rows) && i <= |scan|
    ensures i == 0 ==> Loaded(table, scan[..i]) == map[]
    ensures i > 0 ==>
              var row, key := scan[i - 1], KeyOf(table, scan[i - 1]);
              && Loaded(table, scan[..i]) == Loaded(table, scan[..i - 1])[key := Stripped(table, row)]
              && key in rows && rows[key] == row
  {
    if i > 0 {
      assert scan[..i][..i - 1] == scan[..i - 1];
    }
  }

  lemma {:induction false} KeyIsFree(table: Table, scan: seq<Row>, rows: Rows, i: nat)
    requires IsScan(table, scan, rows) && i < |scan|
    ensures KeyOf(table, scan[i]) !in Loaded(table, scan[..i])
  {
    hide Loaded, Stripped;
    LoadedRows(table, scan, rows, i);
  }

  lemma {:induction false} AllLoaded(table: Table, scan: seq<Row>, rows: Rows)
    requires IsScan(table, scan, rows)
    ensures Loaded(table, scan).Keys == rows.Keys
  {
    hide Loaded, Stripped;
    LoadedRows(table, scan, rows, |scan|);
    assert scan[..|scan|] == scan;
    forall k | k in rows ensures k in Loaded(table, scan) {
      var i :| 0 <= i < |scan| && scan[i] == rows[k] && KeyOf(table, scan[i]) == k;
      assert KeyOf(table, scan[i]) in Loaded(table, scan[..|scan|]);
    }
  }

  lemma StrippedRow(table: Table, row: Row)
    ensures Stripped(table, row).Keys == row.Keys
    ensures forall c :: c in row && Stripped(table, row)[c] != row[c] ==>
          Stripped(table, row)[c] == None && c in Refs(table, row)
    ensures forall c :: c in Refs(table, row) ==> Stripped(table, row)[c] == None
    ensures Refs(table, Stripped(table, row)) == map[]
    ensures Refs(table, row) == map[] ==> Stripped(table, row) == row
  {
  }

  lemma {:induction false} LoadedApproaches(table: Table, scan: seq<Row>, rows: Rows, i: nat)
    requires IsScan(table, scan, rows) && i <= |scan|
    ensures Approaches(table, rows, Loaded(table, scan[..i]))
    ensures forall k :: k in Loaded(table, scan[..i]) ==> Refs(table, Loaded(table, scan[..i])[k]) == map[]
  {
    LoadedRows(table, scan, rows, i);
    hide Loaded, Stripped, Refs, IsScan;
    forall k | k in Loaded(table, scan[..i]) {
      StrippedRow(table, rows[k]);
    }
  }

  /** If the stripped rows are accepted, the columns that were blanked may be NULL. */
  lemma {:induction false} AcceptedMeansDeferrable(table: Table, scan: seq<Row>, rows: Rows, db: Database)
    requires table.Holds(db) && IsScan(table, scan, rows) && db[table.name] == Loaded(table, scan)
    ensures Deferrable(table, rows)
  {
    LoadedRows(table, scan, rows, |scan|);
    AllLoaded(table, scan, rows);
    assert scan[..|scan|] == scan;
    hide Loaded, Stripped, Refs, IsScan;
    forall k | k in rows ensures Refs(table, rows[k]).Keys <= table.nullable {
      StrippedRow(table, rows[k]);
      assert table.Admits(k, db[table.name][k]);
      assert forall c :: c in Refs(table, rows[k]) ==> c in Stripped(table, rows[k]);
    }
  }

  // ---------------------------------------------------------------- the deferred updates

  /** After the first `j` updates: rows no longer owed anything are the source's rows. */
  ghost predicate Settling(table: Table, rows: Rows, deferred: seq<Deferral>, j: nat, partial: Rows) {
    && j <= |deferred|
    && Approaches(table, rows, partial) && partial.Keys == rows.Keys
    && forall k :: k in rows && (forall i :: j <= i < |deferred| ==> deferred[i].pk != k) ==> partial[k] == rows[k]
  }

  predicate Owed(deferred: seq<Deferral>, key: Value) {
    exists i :: 0 <= i < |deferred| && deferred[i].pk == key
  }

  predicate OwedByRows(table: Table, rows: Rows, deferred: seq<Deferral>) {
    forall j :: 0 <= j < |deferred| ==> deferred[j].pk in rows && deferred[j].refs == Refs(table, rows[deferred[j].pk])
  }

  lemma {:induction false} DeferralsOwed(table: Table, scan: seq<Row>, rows: Rows, i: nat)
    requires IsScan(table, scan, rows) && i <= |scan|
    ensures var deferred := Deferrals(table, scan[..i]);
            && OwedByRows(table, rows, deferred)
            && (forall j :: 0 <= j < i ==> Refs(table, scan[j]) == map[] || Owed(deferred, KeyOf(table, scan[j])))
  {
    hide Refs, KeyOf, IsScan, Loaded, Deferrals, Owed, OwedByRows;
    DeferralsNext(table, scan, i);
    if i == 0 {
      NothingOwed(table, rows);
    } else {
      DeferralsOwed(table, scan, rows, i - 1);
      LoadedNext(table, scan, rows, i);
      OwedOneMore(table, rows, Deferrals(table, scan[..i - 1]), KeyOf(table, scan[i - 1]));
    }
  }

  lemma DeferralsNext(table: Table, scan: seq<Row>, i: nat)
    requires i <= |scan|
    ensures i == 0 ==> Deferrals(table, scan[..i]) == []
    ensures i > 0 ==>
              Deferrals(table, scan[..i]) ==
                  Deferrals(table, scan[..i - 1]) + Debt(KeyOf(table, scan[i - 1]), Refs(table, scan[i - 1]))
  {
    if i > 0 {
      assert scan[..i][..i - 1] == scan[..i - 1];
    }
  }

  lemma NothingOwed(table: Table, rows: Rows)
    ensures OwedByRows(table, rows, [])
  {
  }

  lemma OwedOneMore(table: Table, rows: Rows, before: seq<Deferral>, key: Value)
    requires OwedByRows(table, rows, before) && key in rows
    ensures var after := before + Debt(key, Refs(table, rows[key]));
            && OwedByRows(table, rows, after)
            && (forall k :: Owed(before, k) ==> Owed(after, k))
            && (Refs(table, rows[key]) == map[] || Owed(after, key))
  {
    hide Refs;
    var after := before + Debt(key, Refs(table, rows[key]));
    forall k | Owed(before, k) ensures Owed(after, k) {
      var m :| 0 <= m < |before| && before[m].pk == k;
      assert after[m].pk == k;
    }
    if Refs(table, rows[key]) != map[] {
      assert after[|before|].pk == key;
    }
  }

  lemma {:induction false} UnowedIsWhole(table: Table, scan: seq<Row>, rows: Rows, key: Value)
    requires IsScan(table, scan, rows) && key in rows && !Owed(Deferrals(table, scan), key)
    ensures key in Loaded(table, scan) && Loaded(table, scan)[key] == rows[key]
  {
    assert scan[..|scan|] == scan;
    DeferralsOwed(table, scan, rows, |scan|);
    LoadedRows(table, scan, rows, |scan|);
    AllLoaded(table, scan, rows);
    StrippedRow(table, rows[key]);
    hide Loaded, Deferrals, Stripped, Refs, Owed, OwedByRows;
    var i :| 0 <= i < |scan| && scan[i] == rows[key] && KeyOf(table, scan[i]) == key;
    assert Refs(table, scan[i]) == map[];
  }

  lemma {:induction false} SettlingStarts(table: Table, scan: seq<Row>, rows: Rows)
    requires IsScan(table, scan, rows)
    ensures Settling(table, rows, Deferrals(table, scan), 0, Loaded(table, scan))
  {
    assert scan[..|scan|] == scan;
    LoadedApproaches(table, scan, rows, |scan|);
    AllLoaded(table, scan, rows);
    hide Loaded, Deferrals, Approaches, IsScan;
    var deferred := Deferrals(table, scan);
    forall k | k in rows && (forall i :: 0 <= i < |deferred| ==> deferred[i].pk != k)
      ensures Loaded(table, scan)[k] == rows[k]
    {
      UnowedIsWhole(table, scan, rows, k);
    }
  }

  /** Setting a row's owed references makes it the source's row. */
  lemma {:induction false} SettlingStep(table: Table, rows: Rows, deferred: seq<Deferral>, j: nat, partial: Rows)
    requires Settling(table, rows, deferred, j, partial) && j < |deferred|
    requires deferred[j].pk in rows && deferred[j].refs == Refs(table, rows[deferred[j].pk])
    ensures Settling(table, rows, deferred, j + 1,
          partial[deferred[j].pk := partial[deferred[j].pk] + deferred[j].refs])
  {
    var k := deferred[j].pk;
    assert partial[k] + Refs(table, rows[k]) == rows[k];
  }

  // ---------------------------------------------------------------- one table, as the copy does it

  /** The database is intact with the table empty and with the table full. */
  ghost predicate Fillable(schema: seq<Table>, n: nat, base: Database, rows: Rows) {
    && WellFormed(schema) && n < |schema|
    && Intact(schema, base) && schema[n].name in base && base[schema[n].name] == map[]
    && Intact(schema, base[schema[n].name := rows])
  }

  lemma Overwritten(db: Database, name: string, a: Rows, b: Rows)
    ensures db[name := a][name := b] == db[name := b]
  {
  }

  /** Inserting the next stripped row of the scan: its key is free, and it loads one row more. */
  lemma {:induction false} InsertStep(table: Table, base: Database, rows: Rows, scan: seq<Row>, i: nat)
    requires IsScan(table, scan, rows) && i < |scan|
    ensures var row, db := Stripped(table, scan[i]), base[table.name := Loaded(table, scan[..i])];
            && table.pk in row
            && KeyOf(table, scan[i]) !in db[table.name]
            && (row[table.pk].Some? ==>
                  row[table.pk].value == KeyOf(table, scan[i]) &&
                  Inserted(db, table, row) == base[table.name := Loaded(table, scan[..i + 1])])
  {
    KeyIsFree(table, scan, rows, i);
    StrippedRow(table, scan[i]);
    assert Keyed(table, scan[i]);
    assert scan[..i + 1][..i] == scan[..i];
    var loaded, row := Loaded(table, scan[..i]), Stripped(table, scan[i]);
    assert Loaded(table, scan[..i + 1]) == loaded[KeyOf(table, scan[i]) := row];
    Overwritten(base, table.name, loaded, loaded[KeyOf(table, scan[i]) := row]);
  }

  /** The next row is accepted if it may be NULL where blanked. */
  lemma {:induction false} InsertAccepted(schema: seq<Table>, n: nat, base: Database, rows: Rows, scan: seq<Row>,
      i: nat)
    requires Fillable(schema, n, base, rows) && IsScan(schema[n], scan, rows) && i < |scan|
    requires Deferrable(schema[n], rows)
    ensures var t := schema[n];
            && t.pk in Stripped(t, scan[i]) && Stripped(t, scan[i])[t.pk].Some?
            && Intact(schema, base[t.name := Loaded(t, scan[..i + 1])])
  {
    var t := schema[n];
    assert t.WellFormed() && Keyed(t, scan[i]);
    StrippedRow(t, scan[i]);
    hide Intact, Loaded, Stripped, Refs;
    assert t.pk !in Refs(t, rows[KeyOf(t, scan[i])]);
    LoadedApproaches(t, scan, rows, i + 1);
    ApproachIntact(schema, base, n, rows, Loaded(t, scan[..i + 1]));
  }

  /** One batch: `values` are the stripped rows `scan[from..from + |values|]`. */
  method InsertBatch(dst: Target, table: Table, values: seq<Row>, ghost n: nat, ghost base: Database,
      ghost rows: Rows, ghost scan: seq<Row>, ghost from: nat)
    returns (ok: bool)
    requires Fillable(dst.schema, n, base, rows) && dst.schema[n] == table
    requires IsScan(table, scan, rows) && from + |values| <= |scan|
    requires forall j :: 0 <= j < |values| ==> values[j] == Stripped(table, scan[from + j])
    requires dst.working == base[table.name := Loaded(table, scan[..from])]
    requires Intact(dst.schema, dst.working)
    modifies dst
    ensures dst.committed == old(dst.committed) && dst.executed >= old(dst.executed)
    ensures ok ==> dst.NoFaultSince(old(dst.executed)) && Intact(dst.schema, dst.working)
    ensures !ok ==> !dst.NoFaultSince(old(dst.executed)) || !Deferrable(table, rows)
    ensures ok ==> dst.working == base[table.name := Loaded(table, scan[..from + |values|])]
  {
    hide Intact, Fillable, IsScan, Loaded, Stripped;
    for j := 0 to |values|
      invariant dst.committed == old(dst.committed) && dst.executed >= old(dst.executed)
      invariant dst.NoFaultSince(old(dst.executed))
      invariant dst.working == base[table.name := Loaded(table, scan[..from + j])]
      invariant Intact(dst.schema, dst.working)
    {
      InsertStep(table, base, rows, scan, from + j);
      if Deferrable(table, rows) {
        InsertAccepted(dst.schema, n, base, rows, scan, from + j);
      }
      ok := dst.Insert(table, values[j]);
      if !ok {
        return;
      }
    }
    ok := true;
  }

  lemma {:induction false} UpdateStep(schema: seq<Table>, n: nat, base: Database, rows: Rows, deferred: seq<Deferral>,
      j: nat, partial: Rows)
    requires Fillable(schema, n, base, rows) && Deferrable(schema[n], rows)
    requires Settling(schema[n], rows, deferred, j, partial) && j < |deferred|
    requires OwedByRows(schema[n], rows, deferred)
    ensures deferred[j].pk in partial
    ensures var next := partial[deferred[j].pk := partial[deferred[j].pk] + deferred[j].refs];
            && Settling(schema[n], rows, deferred, j + 1, next)
            && Updated(base[schema[n].name := partial], schema[n], deferred[j].pk, deferred[j].refs) ==
                base[schema[n].name := next]
            && Intact(schema, base[schema[n].name := next])
  {
    var next := partial[deferred[j].pk := partial[deferred[j].pk] + deferred[j].refs];
    SettlingStep(schema[n], rows, deferred, j, partial);
    hide Intact, Approaches;
    Overwritten(base, schema[n].name, partial, next);
    ApproachIntact(schema, base, n, rows, next);
  }

  /** Sets the deferred self-references, one statement each. */
  method SetDeferred(dst: Target, table: Table, deferred: seq<Deferral>, ghost n: nat, ghost base: Database,
      ghost rows: Rows, ghost scan: seq<Row>)
    returns (ok: bool)
    requires Fillable(dst.schema, n, base, rows) && dst.schema[n] == table
    requires IsScan(table, scan, rows) && Deferrable(table, rows) && deferred == Deferrals(table, scan)
    requires dst.working == base[table.name := Loaded(table, scan)]
    modifies dst
    ensures dst.committed == old(dst.committed) && dst.executed >= old(dst.executed)
    ensures ok <==> dst.NoFaultSince(old(dst.executed))
    ensures ok ==> dst.working == base[table.name := rows]
  {
    hide Intact, Fillable, Deferrable, IsScan, Loaded, Deferrals, OwedByRows, Owed, Settling, Updated;
    SettlingStarts(table, scan, rows);
    DeferralsOwed(table, scan, rows, |scan|);
    assert scan[..|scan|] == scan;
    ghost var partial := Loaded(table, scan);
    for j := 0 to |deferred|
      invariant dst.committed == old(dst.committed) && dst.executed >= old(dst.executed)
      invariant dst.NoFaultSince(old(dst.executed))
      invariant Settling(table, rows, deferred, j, partial)
      invariant dst.working == base[table.name := partial]
    {
      UpdateStep(dst.schema, n, base, rows, deferred, j, partial);
      ok := dst.Update(table, deferred[j].pk, deferred[j].refs);
      if !ok {
        return;
      }
      partial := partial[deferred[j].pk := partial[deferred[j].pk] + deferred[j].refs];
    }
    Settled(table, rows, deferred, |deferred|, partial);
    ok := true;
  }

  lemma Settled(table: Table, rows: Rows, deferred: seq<Deferral>, j: nat, partial: Rows)
    requires Settling(table, rows, deferred, j, partial)
    ensures partial.Keys == rows.Keys
    ensures j == |deferred| ==> partial == rows
  {
  }

  /** Strips the rows of one batch and notes what each is owed. */
  method StripBatch(table: Table, scan: seq<Row>, from: nat, size: nat, owed: seq<Deferral>)
    returns (values: seq<Row>, deferred: seq<Deferral>)
    requires from + size <= |scan| && owed == Deferrals(table, scan[..from])
    ensures |values| == size && forall j :: 0 <= j < size ==> values[j] == Stripped(table, scan[from + j])
    ensures deferred == Deferrals(table, scan[..from + size])
  {
    hide Refs, Blanked, KeyOf, Deferrals;
    values, deferred := [], owed;
    for j := 0 to size
      invariant deferred == Deferrals(table, scan[..from + j])
      invariant |values| == j && forall i :: 0 <= i < j ==> values[i] == Stripped(table, scan[from + i])
    {
      var row := scan[from + j];
      var refs := Refs(table, row);
      if refs != map[] {
        deferred := deferred + [Deferral(KeyOf(table, row), refs)];
      }
      DeferralsNext(table, scan, from + j + 1);
      values := values + [row + Blanked(refs)];
    }
  }

  /**
   Fills one empty table from a scan of the source's. It succeeds exactly when no statement fails for
   an outside reason and every self-reference that is set may be NULL for a while.
   */
  method CopyTable(dst: Target, table: Table, scan: seq<Row>, batchSize: nat, ghost n: nat, ghost rows: Rows)
    returns (ok: bool, copied: nat)
    requires Fillable(dst.schema, n, dst.working, rows) && dst.schema[n] == table
    requires IsScan(table, scan, rows) && batchSize >= 1
    modifies dst
    ensures dst.committed == old(dst.committed) && dst.executed >= old(dst.executed)
    ensures ok <==> dst.NoFaultSince(old(dst.executed)) && Deferrable(table, rows)
    ensures ok ==> dst.working == old(dst.working)[table.name := rows] && copied == |scan|
  {
    hide Intact, Fillable, Deferrable, IsScan, Stripped, Loaded, Deferrals;
    ghost var base := dst.working;
    NothingLoaded(dst.schema, n, base, scan, rows);
    var deferred: seq<Deferral> := [];
    copied := 0;
    while copied < |scan|
      invariant copied <= |scan|
      invariant dst.committed == old(dst.committed) && dst.executed >= old(dst.executed)
      invariant dst.NoFaultSince(old(dst.executed))
      invariant deferred == Deferrals(table, scan[..copied])
      invariant dst.working == base[table.name := Loaded(table, scan[..copied])]
      invariant Intact(dst.schema, dst.working)
    {
      var size := if batchSize <= |scan| - copied then batchSize else |scan| - copied;
      var values;
      values, deferred := StripBatch(table, scan, copied, size, deferred);
      ok := InsertBatch(dst, table, values, n, base, rows, scan, copied);
      if !ok {
        return;
      }
      copied := copied + size;
    }
    assert scan[..|scan|] == scan;
    Accepted(dst.schema, n, base, dst.working, scan, rows);
    ok := SetDeferred(dst, table, deferred, n, base, rows, scan);
  }

  lemma NothingLoaded(schema: seq<Table>, n: nat, base: Database, scan: seq<Row>, rows: Rows)
    requires Fillable(schema, n, base, rows)
    ensures Intact(schema, base) && base == base[schema[n].name := Loaded(schema[n], scan[..0])]
    ensures Deferrals(schema[n], scan[..0]) == []
  {
  }

  /** If the engine accepted all stripped rows, they could be stripped. */
  lemma {:induction false} Accepted(schema: seq<Table>, n: nat, base: Database, db: Database, scan: seq<Row>,
      rows: Rows)
    requires Fillable(schema, n, base, rows) && Intact(schema, db)
    requires IsScan(schema[n], scan, rows) && db == base[schema[n].name := Loaded(schema[n], scan)]
    ensures Deferrable(schema[n], rows)
  {
    assert schema[n].Holds(db);
    AcceptedMeansDeferrable(schema[n], scan, rows, db);
  }

  // ---------------------------------------------------------------- the whole database

  /** The first `n` tables are the reference's, the rest are empty. */
  ghost predicate Prefix(schema: seq<Table>, db: Database, reference: Database, n: nat) {
    && n <= |schema|
    && (forall i :: 0 <= i < n ==>
        schema[i].name in db && schema[i].name in reference && db[schema[i].name] == reference[schema[i].name])
    && (forall i :: n <= i < |schema| ==> schema[i].name in db && db[schema[i].name] == map[])
  }

  /** What must hold of the two databases: same intact schema, children after parents. */
  ghost predicate Copyable(schema: seq<Table>, source: Database, target: Database) {
    && WellFormed(schema) && ParentsFirst(schema)
    && Intact(schema, source) && Intact(schema, target)
  }

  lemma {:induction false} DeleteStep(schema: seq<Table>, source: Database, target: Database, db: Database, n: nat)
    requires Copyable(schema, source, target) && n < |schema| && Prefix(schema, db, target, n + 1)
    ensures Prefix(schema, db[schema[n].name := map[]], target, n)
    ensures Intact(schema, db[schema[n].name := map[]])
  {
    PrefixIntact(schema, target, db[schema[n].name := map[]], n);
  }

  lemma {:induction false} FillStep(schema: seq<Table>, source: Database, target: Database, db: Database, n: nat)
    requires Copyable(schema, source, target) && n < |schema| && Prefix(schema, db, source, n)
    ensures schema[n].name in source && Fillable(schema, n, db, source[schema[n].name])
    ensures Prefix(schema, db[schema[n].name := source[schema[n].name]], source, n + 1)
  {
    assert schema[n].Holds(source);
    PrefixIntact(schema, source, db, n);
    PrefixIntact(schema, source, db[schema[n].name := source[schema[n].name]], n + 1);
  }

  lemma {:induction false} StartPrefix(schema: seq<Table>, source: Database, target: Database)
    requires Copyable(schema, source, target)
    ensures Prefix(schema, target, target, |schema|)
  {
    forall i | 0 <= i < |schema| ensures schema[i].name in target {
      assert schema[i].Holds(target);
    }
  }

  ghost predicate AllDeferrable(schema: seq<Table>, source: Database) {
    forall i :: 0 <= i < |schema| ==> schema[i].name in source && Deferrable(schema[i], source[schema[i].name])
  }

  /** What a second look at the source counts, table by table. */
  ghost predicate CountsAgree(schema: seq<Table>, source: Database, recount: map<string, nat>) {
    forall i :: 0 <= i < |schema| ==>
      schema[i].name in source && schema[i].name in recount && recount[schema[i].name] == |source[schema[i].name]|
  }

  ghost predicate Scanned(schema: seq<Table>, source: Database, scans: map<string, seq<Row>>) {
    forall i :: 0 <= i < |schema| ==>
      schema[i].name in source && schema[i].name in scans &&
          IsScan(schema[i], scans[schema[i].name], source[schema[i].name])
  }

  /** Children first. */
  method EmptyTables(dst: Target, ghost source: Database) returns (ok: bool, failed: string)
    requires Copyable(dst.schema, source, dst.working)
    modifies dst
    ensures dst.committed == old(dst.committed) && dst.executed >= old(dst.executed)
    ensures ok <==> dst.NoFaultSince(old(dst.executed))
    ensures ok ==> Prefix(dst.schema, dst.working, source, 0)
  {
    hide Intact, Copyable, Prefix;
    ghost var target := dst.working;
    StartPrefix(dst.schema, source, target);
    failed := "";
    for n := |dst.schema| downto 0
      invariant dst.committed == old(dst.committed) && dst.executed >= old(dst.executed)
      invariant dst.NoFaultSince(old(dst.executed))
      invariant Prefix(dst.schema, dst.working, target, n)
    {
      DeleteStep(dst.schema, source, target, dst.working, n);
      ok := dst.DeleteAll(dst.schema[n]);
      if !ok {
        return false, dst.schema[n].name;
      }
    }
    NoPrefix(dst.schema, dst.working, target, source);
    ok := true;
  }

  lemma NoPrefix(schema: seq<Table>, db: Database, reference: Database, other: Database)
    requires Prefix(schema, db, reference, 0)
    ensures Prefix(schema, db, other, 0)
  {
  }

  ghost predicate Reports(schema: seq<Table>, scans: map<string, seq<Row>>, copied: seq<TableCopy>) {
    && |copied| <= |schema|
    && forall i :: 0 <= i < |copied| ==>
         schema[i].name in scans && copied[i] == TableCopy(schema[i].name, |scans[schema[i].name]|)
  }

  /** Parents first. */
  method FillTables(dst: Target, ghost source: Database, ghost target: Database, scans: map<string, seq<Row>>,
      batchSize: nat)
    returns (ok: bool, failed: string, copied: seq<TableCopy>)
    requires Copyable(dst.schema, source, target) && Prefix(dst.schema, dst.working, source, 0)
    requires Scanned(dst.schema, source, scans) && batchSize >= 1
    modifies dst
    ensures dst.committed == old(dst.committed) && dst.executed >= old(dst.executed)
    ensures ok <==> dst.NoFaultSince(old(dst.executed)) && AllDeferrable(dst.schema, source)
    ensures ok ==> Prefix(dst.schema, dst.working, source, |dst.schema|)
    ensures ok ==> |copied| == |dst.schema| && Reports(dst.schema, scans, copied)
  {
    hide Intact, Copyable, Prefix, Fillable, IsScan, Deferrable;
    failed, copied := "", [];
    for n := 0 to |dst.schema|
      invariant dst.committed == old(dst.committed) && dst.executed >= old(dst.executed)
      invariant dst.NoFaultSince(old(dst.executed))
      invariant forall i :: 0 <= i < n ==> Deferrable(dst.schema[i], source[dst.schema[i].name])
      invariant Prefix(dst.schema, dst.working, source, n)
      invariant |copied| == n && Reports(dst.schema, scans, copied)
    {
      var table := dst.schema[n];
      FillStep(dst.schema, source, target, dst.working, n);
      var rows;
      ok, rows := CopyTable(dst, table, scans[table.name], batchSize, n, source[table.name]);
      if !ok {
        return false, table.name, copied;
      }
      copied := copied + [TableCopy(table.name, rows)];
    }
    ok := true;
  }

  /** The error names a table whose second count differs from the rows copied, and gives both. */
  ghost predicate IsMiscount(error: CopyError, schema: seq<Table>, source: Database, recount: map<string, nat>) {
    && error.CountsDiffer? && error.expected != error.actual
    && error.table in recount && error.expected == recount[error.table]
    && error.table in source && error.actual == |source[error.table]|
    && exists i :: 0 <= i < |schema| && schema[i].name == error.table
  }

  /** The last check before the commit: row counts, table by table. */
  method CompareCounts(dst: Target, copied: seq<TableCopy>, recount: map<string, nat>, ghost source: Database)
    returns (differ: Option<CopyError>)
    requires Prefix(dst.schema, dst.working, source, |dst.schema|)
    requires |copied| == |dst.schema| && forall i :: 0 <= i < |copied| ==> copied[i].table == dst.schema[i].name
    requires forall i :: 0 <= i < |dst.schema| ==> dst.schema[i].name in recount
    ensures differ == None <==> CountsAgree(dst.schema, source, recount)
    ensures differ.Some? ==> IsMiscount(differ.value, dst.schema, source, recount)
  {
    for i := 0 to |copied|
      invariant forall j :: 0 <= j < i ==> recount[dst.schema[j].name] == |source[dst.schema[j].name]|
    {
      var expected, actual := recount[copied[i].table], |dst.working[copied[i].table]|;
      if expected != actual {
        return Some(CountsDiffer(copied[i].table, expected, actual));
      }
    }
    differ := None;
  }

  /** Every table of the schema holds the source's rows, key by key and column by column. */
  ghost predicate Mirrors(schema: seq<Table>, db: Database, source: Database) {
    forall i :: 0 <= i < |schema| ==>
      schema[i].name in db && schema[i].name in source && db[schema[i].name] == source[schema[i].name]
  }

  /**
   The copy. `scans` is the source read table by table and `recount` the counts taken again at the end;
   they agree on a source that nobody wrote to meanwhile.

   It succeeds exactly when the endpoints are acceptable, no statement fails for an outside reason, the
   counts agree, and every self-reference that is set may be NULL for a while. No statement is ever
   refused by a constraint otherwise. On success the target mirrors the source, whatever the batch
   size; on any failure what was committed before is still what is committed.
   */
  method CopyDatabase(from: Endpoint, to: Endpoint, dst: Target, scans: map<string, seq<Row>>,
      recount: map<string, nat>, batchSize: nat, ghost source: Database)
    returns (r: Result<seq<TableCopy>, CopyError>)
    requires Copyable(dst.schema, source, dst.committed)
    requires Scanned(dst.schema, source, scans) && batchSize >= 1
    requires forall i :: 0 <= i < |dst.schema| ==> dst.schema[i].name in recount
    modifies dst
    ensures r.Success? <==>
            && from.url != to.url && from.revision.Some? && from.revision == to.revision
            && dst.NoFaultSince(old(dst.executed))
            && AllDeferrable(dst.schema, source)
            && CountsAgree(dst.schema, source, recount)
    ensures r.Success? ==> Mirrors(dst.schema, dst.committed, source)
    ensures r.Success? ==> |r.value| == |dst.schema| && Reports(dst.schema, scans, r.value)
    ensures r.Failure? ==> dst.committed == old(dst.committed)
    ensures r == Failure(SameDatabase) <==> from.url == to.url
    ensures r == Failure(NoSourceRevision) <==> from.url != to.url && from.revision == None
    ensures r == Failure(NoTargetRevision) <==> from.url != to.url && from.revision.Some? && to.revision == None
    ensures from.url != to.url && from.revision.Some? && to.revision.Some? && from.revision != to.revision <==>
            r.Failure? && r.error.RevisionsDiffer?
    ensures r.Failure? && r.error.CountsDiffer? ==> IsMiscount(r.error, dst.schema, source, recount)
  {
    hide Copyable, Scanned, AllDeferrable, CountsAgree, IsMiscount;
    var refusal := Refusal(from, to);
    if refusal.Some? {
      return Failure(refusal.value);
    }
    dst.Rollback();
    ghost var target := dst.working;
    var ok, failed := EmptyTables(dst, source);
    if !ok {
      dst.Rollback();
      return Failure(StatementFailed(failed));
    }
    var copied;
    ok, failed, copied := FillTables(dst, source, target, scans, batchSize);
    if !ok {
      dst.Rollback();
      return Failure(StatementFailed(failed));
    }
    var differ := CompareCounts(dst, copied, recount, source);
    if differ.Some? {
      dst.Rollback();
      return Failure(differ.value);
    }
    ok := dst.Commit();
    if !ok {
      dst.Rollback();
      return Failure(CommitFailed);
    }
    r := Success(copied);
  }
}
