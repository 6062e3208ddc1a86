/**
 The target database of an import: rows by table and key, the statements an import runs, and what each statement
 does to the foreign keys.
 */
module CatalogTarget {
  import opened CatalogSchema
  import opened CatalogNormalization

  datatype RowRef = RowRef(table: Table, key: Key)

  type Db = map<RowRef, Row>

  function RefOf(t: Table, row: Row): RowRef {
    RowRef(t, KeyOf(t, row))
  }

  function CellAt(db: Db, r: RowRef, c: Column): Value {
    if r in db then Get(db[r], c) else Null
  }

  // ---- Foreign keys ----------------------------------------------------------------------------------------

  ghost predicate Points(db: Db, reference: Reference, value: Value)
    requires reference.Reference?
  {
    (reference.nullable && value == Null) || RowRef(reference.parent, [value]) in db
  }

  /** Every reference of a row resolves. */
  ghost predicate RowPoints(db: Db, t: Table, row: Row) {
    forall c :: References(t, c).Reference? ==> Points(db, References(t, c), Get(row, c))
  }

  /** Every foreign key of the catalogue holds. */
  ghost predicate Intact(db: Db) {
    forall r :: r in db ==> RowPoints(db, r.table, db[r])
  }

  // ---- Statements ------------------------------------------------------------------------------------------

  /** What an upsert leaves of a row: every declared column except the deferred ones is written. */
  function Upserted(t: Table, existing: Row, row: Row): Row {
    existing + map c: Column | Declared(t, c) && !Deferred(t, c) :: Get(row, c)
  }

  function Existing(db: Db, r: RowRef): Row {
    if r in db then db[r] else map[]
  }

  function UpsertOne(db: Db, t: Table, row: Row): Db {
    db[RefOf(t, row) := Upserted(t, Existing(db, RefOf(t, row)), row)]
  }

  /** INSERT ... ON CONFLICT DO UPDATE of a batch with distinct keys. */
  function Upsert(db: Db, t: Table, rows: seq<Row>): Db {
    if rows == [] then db else UpsertOne(Upsert(db, t, rows[..|rows| - 1]), t, rows[|rows| - 1])
  }

  function RestoreOne(db: Db, t: Table, c: Column, row: Row): Db {
    var r := RefOf(t, row);
    if r in db then db[r := db[r][c := Get(row, c)]] else db
  }

  /** UPDATE of one deferred column from the snapshot rows, NULLs included. */
  function Restore(db: Db, t: Table, c: Column, rows: seq<Row>): Db {
    if rows == [] then db else RestoreOne(Restore(db, t, c, rows[..|rows| - 1]), t, c, rows[|rows| - 1])
  }

  function Remove(db: Db, gone: set<RowRef>): Db {
    map r | r in db && r !in gone :: db[r]
  }

  function SetStatus(db: Db, rows: set<RowRef>, status: Value): Db {
    map r | r in db :: if r in rows then db[r][Status := status] else db[r]
  }

  // ---- What statements keep --------------------------------------------------------------------------------

  /** Removing rows of the reconciled relation tables breaks no foreign key: nothing refers to them. */
  lemma RemovingRelationsKeepsReferences(db: Db, gone: set<RowRef>)
    requires Intact(db) && forall r :: r in gone ==> Reconciled(r.table)
    ensures Intact(Remove(db, gone))
  {
    var after := Remove(db, gone);
    forall r | r in after ensures RowPoints(after, r.table, after[r]) {
      assert RowPoints(db, r.table, db[r]);
      forall c | References(r.table, c).Reference? ensures Points(after, References(r.table, c), Get(after[r], c)) {
        ParentsComeFirst(r.table, c);
        assert Points(db, References(r.table, c), Get(db[r], c));
      }
    }
  }

  lemma StatusKeepsReferences(db: Db, rows: set<RowRef>, status: Value)
    requires Intact(db)
    ensures Intact(SetStatus(db, rows, status))
  {
    var after := SetStatus(db, rows, status);
    assert after.Keys == db.Keys;
    forall r | r in after ensures RowPoints(after, r.table, after[r]) {
      assert RowPoints(db, r.table, db[r]);
      forall c | References(r.table, c).Reference? ensures Points(after, References(r.table, c), Get(after[r], c)) {
        assert Points(db, References(r.table, c), Get(db[r], c));
        assert Get(after[r], c) == Get(db[r], c);
      }
    }
  }

  /** The references of a row that do not wait for the restore resolve in `db`. */
  ghost predicate ReadyFor(db: Db, t: Table, row: Row) {
    forall c :: References(t, c).Reference? && !Deferred(t, c) ==> Points(db, References(t, c), Get(row, c))
  }

  lemma UpsertedCells(t: Table, existing: Row, row: Row, c: Column)
    ensures Get(Upserted(t, existing, row), c) ==
            if Declared(t, c) && !Deferred(t, c) then Get(row, c) else Get(existing, c)
  {
  }

  /** Upserting a row whose parents are there keeps every foreign key. */
  lemma UpsertOneKeepsReferences(db: Db, t: Table, row: Row)
    requires Intact(db) && ReadyFor(db, t, row)
    ensures Intact(UpsertOne(db, t, row)) && db.Keys <= UpsertOne(db, t, row).Keys
  {
    var after := UpsertOne(db, t, row);
    var target := RefOf(t, row);
    forall r | r in after ensures RowPoints(after, r.table, after[r]) {
      forall c | References(r.table, c).Reference? ensures Points(after, References(r.table, c), Get(after[r], c)) {
        ParentsComeFirst(r.table, c);
        if r == target {
          UpsertedCells(t, Existing(db, target), row, c);
          if Deferred(t, c) && r in db {
            assert RowPoints(db, t, db[r]);
            assert Points(db, References(t, c), Get(db[r], c));
          } else if !Deferred(t, c) {
            assert Points(db, References(t, c), Get(row, c));
          }
        } else {
          assert RowPoints(db, r.table, db[r]);
          assert Points(db, References(r.table, c), Get(db[r], c));
        }
      }
    }
  }

  lemma ReadyInLarger(db: Db, larger: Db, t: Table, row: Row)
    requires ReadyFor(db, t, row) && db.Keys <= larger.Keys
    ensures ReadyFor(larger, t, row)
  {
    forall c | References(t, c).Reference? && !Deferred(t, c) ensures Points(larger, References(t, c), Get(row, c)) {
      assert Points(db, References(t, c), Get(row, c));
    }
  }

  lemma {:induction false} UpsertKeepsReferences(db: Db, t: Table, rows: seq<Row>)
    requires Intact(db) && forall i :: 0 <= i < |rows| ==> ReadyFor(db, t, rows[i])
    ensures Intact(Upsert(db, t, rows)) && db.Keys <= Upsert(db, t, rows).Keys
  {
    if rows != [] {
      var n := |rows| - 1;
      UpsertKeepsReferences(db, t, rows[..n]);
      ReadyInLarger(db, Upsert(db, t, rows[..n]), t, rows[n]);
      UpsertOneKeepsReferences(Upsert(db, t, rows[..n]), t, rows[n]);
    }
  }

  lemma {:induction false} RestoreKeepsReferences(db: Db, t: Table, c: Column, rows: seq<Row>)
    requires Intact(db) && Deferred(t, c)
    requires forall i :: 0 <= i < |rows| ==> Points(db, References(t, c), Get(rows[i], c))
    ensures Intact(Restore(db, t, c, rows)) && Restore(db, t, c, rows).Keys == db.Keys
  {
    if rows != [] {
      var n := |rows| - 1;
      RestoreKeepsReferences(db, t, c, rows[..n]);
      RestoreOneKeepsReferences(Restore(db, t, c, rows[..n]), t, c, rows[n]);
    }
  }

  lemma RestoreOneKeepsReferences(db: Db, t: Table, c: Column, row: Row)
    requires Intact(db) && Deferred(t, c) && Points(db, References(t, c), Get(row, c))
    ensures Intact(RestoreOne(db, t, c, row)) && RestoreOne(db, t, c, row).Keys == db.Keys
  {
    var after := RestoreOne(db, t, c, row);
    forall r | r in after ensures RowPoints(after, r.table, after[r]) {
      assert RowPoints(db, r.table, db[r]);
      forall d | References(r.table, d).Reference? ensures Points(after, References(r.table, d), Get(after[r], d)) {
        assert Points(db, References(r.table, d), Get(db[r], d));
        assert Get(after[r], d) == if r == RefOf(t, row) && d == c then Get(row, c) else Get(db[r], d);
      }
    }
  }

  // ---- What statements write -------------------------------------------------------------------------------

  /** The rows of `db` carry the values of these snapshot rows in the columns an upsert writes. */
  ghost predicate Carries(db: Db, t: Table, row: Row) {
    RefOf(t, row) in db && forall c :: Declared(t, c) && !Deferred(t, c) ==> CellAt(db, RefOf(t, row), c) == Get(row, c)
  }

  function RefsOf(t: Table, rows: seq<Row>): set<RowRef> {
    set i | 0 <= i < |rows| :: RefOf(t, rows[i])
  }

  lemma RefsOfPrefix(t: Table, rows: seq<Row>, n: nat)
    requires n <= |rows|
    ensures RefsOf(t, rows[..n]) <= RefsOf(t, rows)
  {
    forall i | 0 <= i < n ensures RefOf(t, rows[..n][i]) in RefsOf(t, rows) {
      assert rows[..n][i] == rows[i];
    }
  }

  lemma {:induction false} UpsertFrame(db: Db, t: Table, rows: seq<Row>, r: RowRef)
    requires r !in RefsOf(t, rows)
    ensures r in Upsert(db, t, rows) <==> r in db
    ensures r in db ==> Upsert(db, t, rows)[r] == db[r]
  {
    if rows != [] {
      var n := |rows| - 1;
      RefsOfPrefix(t, rows, n);
      assert RefOf(t, rows[n]) in RefsOf(t, rows);
      UpsertFrame(db, t, rows[..n], r);
    }
  }

  lemma UpsertOneCarries(db: Db, t: Table, row: Row, other: Row)
    requires other == row || (Carries(db, t, other) && RefOf(t, other) != RefOf(t, row))
    ensures Carries(UpsertOne(db, t, row), t, other)
  {
    forall c { UpsertedCells(t, Existing(db, RefOf(t, row)), row, c); }
    if other != row {
      forall c | Declared(t, c) && !Deferred(t, c)
        ensures CellAt(UpsertOne(db, t, row), RefOf(t, other), c) == Get(other, c)
      {
        assert CellAt(db, RefOf(t, other), c) == Get(other, c);
      }
    }
  }

  lemma EarlierKeyDiffers(t: Table, rows: seq<Row>, i: nat)
    requires UniqueKeys(t, rows) && i < |rows| - 1
    ensures RefOf(t, rows[i]) != RefOf(t, rows[|rows| - 1]) && rows[..|rows| - 1][i] == rows[i]
  {
    assert KeyOf(t, rows[i]) != KeyOf(t, rows[|rows| - 1]);
  }

  /** After an upsert every row of the batch is there with its values. */
  lemma {:induction false} UpsertWrites(db: Db, t: Table, rows: seq<Row>, i: nat)
    requires UniqueKeys(t, rows) && i < |rows|
    ensures Carries(Upsert(db, t, rows), t, rows[i])
    decreases |rows|
  {
    var n := |rows| - 1;
    if i < n {
      EarlierKeyDiffers(t, rows, i);
      UpsertWrites(db, t, rows[..n], i);
    }
    UpsertOneCarries(Upsert(db, t, rows[..n]), t, rows[n], rows[i]);
  }

  lemma {:induction false} RestoreFrame(db: Db, t: Table, c: Column, rows: seq<Row>, r: RowRef)
    ensures Restore(db, t, c, rows).Keys == db.Keys
    ensures r in db && r !in RefsOf(t, rows) ==> Restore(db, t, c, rows)[r] == db[r]
    ensures forall d :: d != c ==> CellAt(Restore(db, t, c, rows), r, d) == CellAt(db, r, d)
  {
    if rows != [] {
      var n := |rows| - 1;
      RefsOfPrefix(t, rows, n);
      assert RefOf(t, rows[n]) in RefsOf(t, rows);
      RestoreFrame(db, t, c, rows[..n], r);
    }
  }

  lemma RestoreOneCell(db: Db, t: Table, c: Column, row: Row, r: RowRef)
    requires r in db
    ensures r in RestoreOne(db, t, c, row)
    ensures CellAt(RestoreOne(db, t, c, row), r, c) == if r == RefOf(t, row) then Get(row, c) else CellAt(db, r, c)
  {
  }

  /** After the restore the deferred column holds the snapshot's value, NULL included. */
  lemma {:induction false} RestoreWrites(db: Db, t: Table, c: Column, rows: seq<Row>, i: nat)
    requires UniqueKeys(t, rows) && i < |rows| && RefOf(t, rows[i]) in db
    ensures CellAt(Restore(db, t, c, rows), RefOf(t, rows[i]), c) == Get(rows[i], c)
    decreases |rows|
  {
    var n := |rows| - 1;
    RestoreFrame(db, t, c, rows[..n], RefOf(t, rows[i]));
    RestoreOneCell(Restore(db, t, c, rows[..n]), t, c, rows[n], RefOf(t, rows[i]));
    if i < n {
      EarlierKeyDiffers(t, rows, i);
      RestoreWrites(db, t, c, rows[..n], i);
    }
  }
}
