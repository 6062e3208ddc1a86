/**
 Importing a snapshot into the demo target, and what any sequence of imports leaves there.

 `DemoTarget.ImportCatalogSnapshot` is the transaction: it removes what the source dropped, upserts the planned rows
 table by table in batches, restores the deferred columns, deactivates superseded fallbacks and records the import.
 Every foreign key holds after each of its statements. Its effect, `ImportedRows`, is what the lemmas about whole
 sequences of imports build on.
 */
module CatalogImport {
  import opened Sequences
  import opened Wrappers
  import opened CatalogSchema
  import opened CatalogNormalization
  import opened CatalogFallback
  import opened CatalogTarget
  import CatalogSnapshot

  // ---- Snapshots an import accepts -------------------------------------------------------------------------

  ghost predicate AvoidsDemoSupplier(f: Fixture, rows: seq<Row>) {
    forall row :: row in rows ==> Get(row, SupplierId) != Str(f.supplier)
  }

  /** What the snapshot check and the freshness of derived ids give the importer. */
  ghost predicate Importable(f: Fixture, source: Tables) {
    && EveryTable(source) && FreshIds(f, source) && Closed(f, source)
    && (forall t: Table :: UniqueKeys(t, source[t]))
    && (forall sku :: sku in source[Skus] ==> Get(sku, Id).Str?)
    && DistinctSkuIds(source[Skus])
    && AvoidsDemoSupplier(f, source[SkuSuppliers])
  }

  /** An accepted snapshot is importable. */
  lemma AcceptedIsImportable(rules: CatalogSnapshot.Rules, s: CatalogSnapshot.Snapshot, f: Fixture)
    requires CatalogSnapshot.Accepted(rules, s) && CatalogSnapshot.UuidColumns(s.tables)
    requires f.supplier in rules.reserved && FreshIds(f, s.tables)
    ensures Importable(f, s.tables)
  {
    var ts := s.tables;
    forall t: Table ensures UniqueKeys(t, ts[t]) {
      CatalogSnapshot.AcceptedKeysAreUnique(rules, s, t);
    }
    forall t, row, c | row in RowsOf(ts, t) && References(t, c).Reference? ensures CellResolves(f, ts, t, c, Get(row, c)) {
      var i :| 0 <= i < |ts[t]| && ts[t][i] == row;
      CatalogSnapshot.AcceptedSnapshotIsClosed(rules, s, t, i, c);
    }
    AcceptedSkuIds(rules, s);
    forall row | row in ts[SkuSuppliers] ensures Get(row, SupplierId) != Str(f.supplier) {
      var i :| 0 <= i < |ts[SkuSuppliers]| && ts[SkuSuppliers][i] == row;
      assert CatalogSnapshot.AvoidsFixture(rules, ts[SkuSuppliers]);
      assert SupplierId in row ==> row[SupplierId] != Str(f.supplier);
    }
  }

  lemma AcceptedSkuIds(rules: CatalogSnapshot.Rules, s: CatalogSnapshot.Snapshot)
    requires CatalogSnapshot.Accepted(rules, s) && CatalogSnapshot.UuidColumns(s.tables)
    ensures forall sku :: sku in RowsOf(s.tables, Skus) ==> Get(sku, Id).Str?
    ensures DistinctSkuIds(RowsOf(s.tables, Skus))
  {
    var rows := RowsOf(s.tables, Skus);
    assert Skus in s.tables;
    assert CatalogSnapshot.KeysPresentAndUnique(Skus, rows);
    forall sku | sku in rows ensures Get(sku, Id).Str? {
      var i :| 0 <= i < |rows| && rows[i] == sku;
      assert Id in KeyColumns(Skus);
    }
    CatalogSnapshot.UniqueSkuKeys(s.tables);
    forall i, j | 0 <= i < j < |rows| ensures Text(rows[i], Id) != Text(rows[j], Id) {
      assert CatalogSnapshot.SkuIds(s.tables)[i] != CatalogSnapshot.SkuIds(s.tables)[j];
    }
  }

  // ---- The steps on values ---------------------------------------------------------------------------------

  datatype ImportRecord = ImportRecord(generatedAt: int, relationKeys: set<RowRef>, fallbackSkus: set<string>)

  function RelationKeys(ts: Tables): set<RowRef> {
    set t, row | Reconciled(t) && row in RowsOf(ts, t) :: RefOf(t, row)
  }

  function Dropped(previous: Option<ImportRecord>, source: Tables): set<RowRef> {
    if previous.None? then {}
    else set r | r in previous.value.relationKeys && Reconciled(r.table) && r !in RelationKeys(source)
  }

  function DemoSupplierRef(f: Fixture, skuId: string): RowRef {
    RowRef(SkuSuppliers, [Str(skuId), Str(f.supplier)])
  }

  function SupersededSuppliers(f: Fixture, previous: Option<ImportRecord>, current: seq<string>): set<RowRef> {
    if previous.None? then {}
    else set id | id in previous.value.fallbackSkus && id !in current :: DemoSupplierRef(f, id)
  }

  /** The fallback suppliers a supplier relation of the target already makes superfluous. */
  predicate CoveredInTarget(f: Fixture, db: Db, skuId: string) {
    exists r :: r in db && r.table == SkuSuppliers && |r.key| == 2 && r.key[0] == Str(skuId) && r.key[1] != Str(f.supplier)
  }

  function KeepUncovered(f: Fixture, db: Db, ids: seq<string>): seq<string> {
    if ids == [] then []
    else KeepUncovered(f, db, ids[..|ids| - 1])
           + (if CoveredInTarget(f, db, ids[|ids| - 1]) then [] else [ids[|ids| - 1]])
  }

  predicate CoveredFallback(f: Fixture, db: Db, fallbacks: seq<string>, row: Row) {
    Get(row, SupplierId) == Str(f.supplier) && Text(row, SkuId) in fallbacks && CoveredInTarget(f, db, Text(row, SkuId))
  }

  function DropCovered(f: Fixture, db: Db, fallbacks: seq<string>, rows: seq<Row>): seq<Row> {
    if rows == [] then []
    else DropCovered(f, db, fallbacks, rows[..|rows| - 1])
           + (if CoveredFallback(f, db, fallbacks, rows[|rows| - 1]) then [] else [rows[|rows| - 1]])
  }

  function Suppressed(f: Fixture, db: Db, plan: Plan): Plan
    requires SkuSuppliers in plan.tables
  {
    plan.(tables := plan.tables[SkuSuppliers := DropCovered(f, db, plan.supplierFallbacks, plan.tables[SkuSuppliers])],
          supplierFallbacks := KeepUncovered(f, db, plan.supplierFallbacks))
  }

  function SyntheticSkus(plan: Plan): set<string> {
    set l | l in plan.synthetic :: l.skuId
  }

  /** The fallback variants and versions of source SKUs that no longer get a chain. */
  function SupersededChains(f: Fixture, source: Tables, plan: Plan): set<RowRef> {
    (set sku | sku in RowsOf(source, Skus) && Text(sku, Id) !in SyntheticSkus(plan)
       :: RowRef(ProductVariants, [Str(f.idsOf(Text(sku, Id)).variant)]))
    + (set sku | sku in RowsOf(source, Skus) && Text(sku, Id) !in SyntheticSkus(plan)
       :: RowRef(ProductMasterVersions, [Str(f.idsOf(Text(sku, Id)).version)]))
  }

  function UpsertTables(db: Db, ts: Tables, n: nat): Db
    requires n <= TABLE_COUNT
  {
    if n == 0 then db else Upsert(UpsertTables(db, ts, n - 1), TableAt(n - 1), RowsOf(ts, TableAt(n - 1)))
  }

  function RestoreTables(db: Db, ts: Tables): Db {
    Restore(Restore(db, ProductCategories, ParentId, RowsOf(ts, ProductCategories)),
            ProductMasterVersions, ParentVersionId, RowsOf(ts, ProductMasterVersions))
  }

  function ImportedRows(f: Fixture, db: Db, previous: Option<ImportRecord>, source: Tables, plan: Plan): Db {
    var kept := Remove(Remove(db, Dropped(previous, source)), SupersededSuppliers(f, previous, plan.supplierFallbacks));
    SetStatus(RestoreTables(UpsertTables(kept, plan.tables, TABLE_COUNT), plan.tables),
              SupersededChains(f, source, plan), Str("inactive"))
  }

  // ---- The plan after suppression --------------------------------------------------------------------------

  lemma {:induction false} DropCoveredExactly(f: Fixture, db: Db, fallbacks: seq<string>, rows: seq<Row>)
    ensures forall row :: row in DropCovered(f, db, fallbacks, rows) <==> row in rows && !CoveredFallback(f, db, fallbacks, row)
  {
    if rows != [] {
      DropCoveredExactly(f, db, fallbacks, rows[..|rows| - 1]);
      assert rows == rows[..|rows| - 1] + [rows[|rows| - 1]];
    }
  }

  lemma {:induction false} DropCoveredKeepsUnique(f: Fixture, db: Db, fallbacks: seq<string>, rows: seq<Row>)
    requires UniqueKeys(SkuSuppliers, rows)
    ensures UniqueKeys(SkuSuppliers, DropCovered(f, db, fallbacks, rows))
  {
    if rows != [] {
      var n := |rows| - 1;
      var rest := DropCovered(f, db, fallbacks, rows[..n]);
      DropCoveredKeepsUnique(f, db, fallbacks, rows[..n]);
      DropCoveredExactly(f, db, fallbacks, rows[..n]);
      forall i | 0 <= i < |rest| ensures KeyOf(SkuSuppliers, rest[i]) != KeyOf(SkuSuppliers, rows[n]) {
        assert rest[i] in rows[..n];
        var j :| 0 <= j < n && rows[j] == rest[i];
      }
    }
  }

  /** What the importer writes: unique keys, closed references, and all rows of the source. */
  ghost predicate Writable(f: Fixture, source: Tables, ts: Tables) {
    && EveryTable(source) && EveryTable(ts) && Closed(f, ts)
    && (forall t: Table :: UniqueKeys(t, ts[t]))
    && (forall t: Table, row :: row in source[t] ==> row in ts[t])
  }

  lemma ClosedAfterDropping(f: Fixture, ts: Tables, rows: seq<Row>)
    requires EveryTable(ts) && Closed(f, ts) && forall row :: row in rows ==> row in ts[SkuSuppliers]
    ensures Closed(f, ts[SkuSuppliers := rows])
  {
    var after := ts[SkuSuppliers := rows];
    forall t, row, c | row in RowsOf(after, t) && References(t, c).Reference?
      ensures CellResolves(f, after, t, c, Get(row, c))
    {
      ParentsComeFirst(t, c);
      assert row in RowsOf(ts, t);
      assert CellResolves(f, ts, t, c, Get(row, c));
      assert RowsOf(after, References(t, c).parent) == RowsOf(ts, References(t, c).parent);
    }
  }

  lemma SuppressedKeysAreUnique(f: Fixture, db: Db, plan: Plan, t: Table)
    requires EveryTable(plan.tables) && UniqueKeys(t, plan.tables[t])
    ensures UniqueKeys(t, Suppressed(f, db, plan).tables[t])
  {
    if t == SkuSuppliers {
      DropCoveredKeepsUnique(f, db, plan.supplierFallbacks, plan.tables[SkuSuppliers]);
    }
  }

  lemma SuppressedIsClosed(f: Fixture, db: Db, source: Tables, createdAt: string, plan: Plan)
    requires Importable(f, source) && IsPlanFor(f, source, createdAt, plan)
    ensures EveryTable(plan.tables) && Closed(f, Suppressed(f, db, plan).tables)
  {
    PlanIsClosed(f, source, createdAt, plan);
    DropCoveredExactly(f, db, plan.supplierFallbacks, plan.tables[SkuSuppliers]);
    ClosedAfterDropping(f, plan.tables, DropCovered(f, db, plan.supplierFallbacks, plan.tables[SkuSuppliers]));
  }

  lemma SourceRowsSurvive(f: Fixture, db: Db, source: Tables, createdAt: string, plan: Plan, t: Table, row: Row)
    requires EveryTable(source) && Extends(f, source, createdAt, plan) && AvoidsDemoSupplier(f, source[SkuSuppliers])
    requires row in source[t]
    ensures EveryTable(plan.tables) && row in Suppressed(f, db, plan).tables[t]
  {
    SourceRowsArePlanned(f, source, createdAt, plan, t, row);
    DropCoveredExactly(f, db, plan.supplierFallbacks, plan.tables[SkuSuppliers]);
  }

  lemma PlannedRowsAreWritable(f: Fixture, db: Db, source: Tables, createdAt: string, plan: Plan)
    requires Importable(f, source) && IsPlanFor(f, source, createdAt, plan)
    ensures EveryTable(plan.tables) && Writable(f, source, Suppressed(f, db, plan).tables)
  {
    SuppressedIsClosed(f, db, source, createdAt, plan);
    forall t: Table ensures UniqueKeys(t, Suppressed(f, db, plan).tables[t]) {
      PlanKeepsKeysUnique(f, source, createdAt, plan, t);
      SuppressedKeysAreUnique(f, db, plan, t);
    }
    forall t: Table, row | row in source[t] ensures row in Suppressed(f, db, plan).tables[t] {
      SourceRowsSurvive(f, db, source, createdAt, plan, t, row);
    }
  }

  lemma SourceRowsArePlanned(f: Fixture, source: Tables, createdAt: string, plan: Plan, t: Table, row: Row)
    requires Extends(f, source, createdAt, plan) && row in source[t]
    ensures row in plan.tables[t]
  {
  }

  // ---- Foreign keys at every step --------------------------------------------------------------------------

  /** The rows of the first tables in import order are there. */
  ghost predicate TablesPresent(db: Db, ts: Tables, n: nat)
    requires EveryTable(ts)
  {
    forall t: Table, row :: Rank(t) < n && row in ts[t] ==> RefOf(t, row) in db
  }

  lemma PresentParent(f: Fixture, db: Db, ts: Tables, n: nat, t: Table, row: Row, c: Column)
    requires EveryTable(ts) && Closed(f, ts) && TablesPresent(db, ts, n) && RowRef(Suppliers, [Str(f.supplier)]) in db
    requires References(t, c).Reference? && Rank(References(t, c).parent) < n && row in ts[t]
    ensures Points(db, References(t, c), Get(row, c))
  {
    var parent, value := References(t, c).parent, Get(row, c);
    assert row in RowsOf(ts, t);
    assert CellResolves(f, ts, t, c, value);
    ParentsComeFirst(t, c);
    if value.Str? && RowWithId(RowsOf(ts, parent), value) {
      var p :| p in RowsOf(ts, parent) && Get(p, Id) == value;
      assert RefOf(parent, p) == RowRef(parent, [value]);
    }
  }

  lemma ReadyAtItsTurn(f: Fixture, db: Db, ts: Tables, n: nat, row: Row)
    requires EveryTable(ts) && Closed(f, ts) && n < TABLE_COUNT && TablesPresent(db, ts, n)
    requires RowRef(Suppliers, [Str(f.supplier)]) in db && row in ts[TableAt(n)]
    ensures ReadyFor(db, TableAt(n), row)
  {
    var t := TableAt(n);
    forall c | References(t, c).Reference? && !Deferred(t, c) ensures Points(db, References(t, c), Get(row, c)) {
      ParentsComeFirst(t, c);
      PresentParent(f, db, ts, n, t, row, c);
    }
  }

  lemma PresentAfterUpsert(db: Db, ts: Tables, n: nat)
    requires EveryTable(ts) && n < TABLE_COUNT && TablesPresent(db, ts, n)
    requires UniqueKeys(TableAt(n), ts[TableAt(n)])
    requires db.Keys <= Upsert(db, TableAt(n), ts[TableAt(n)]).Keys
    ensures TablesPresent(Upsert(db, TableAt(n), ts[TableAt(n)]), ts, n + 1)
  {
    var u := TableAt(n);
    var after := Upsert(db, u, ts[u]);
    forall t: Table, row | Rank(t) < n + 1 && row in ts[t] ensures RefOf(t, row) in after {
      if Rank(t) == n {
        TableAtRank(t);
        var i :| 0 <= i < |ts[u]| && ts[u][i] == row;
        UpsertWrites(db, u, ts[u], i);
        assert Carries(after, u, row);
      } else {
        assert RefOf(t, row) in db;
      }
    }
  }

  lemma UpsertOneMore(db: Db, t: Table, rows: seq<Row>, last: Row)
    ensures Upsert(db, t, rows + [last]) == UpsertOne(Upsert(db, t, rows), t, last)
  {
    assert (rows + [last])[..|rows|] == rows;
  }

  lemma RestoreOneMore(db: Db, t: Table, c: Column, rows: seq<Row>, last: Row)
    ensures Restore(db, t, c, rows + [last]) == RestoreOne(Restore(db, t, c, rows), t, c, last)
  {
    assert (rows + [last])[..|rows|] == rows;
  }

  lemma OneMore<T>(done: seq<T>, batch: seq<T>)
    requires batch != []
    ensures batch == batch[..|batch| - 1] + [batch[|batch| - 1]]
    ensures done + batch == (done + batch[..|batch| - 1]) + [batch[|batch| - 1]]
  {
  }

  lemma {:induction false} UpsertInBatches(db: Db, t: Table, done: seq<Row>, batch: seq<Row>)
    ensures Upsert(Upsert(db, t, done), t, batch) == Upsert(db, t, done + batch)
  {
    if batch == [] {
      assert done + batch == done;
    } else {
      var rest, last := batch[..|batch| - 1], batch[|batch| - 1];
      OneMore(done, batch);
      UpsertInBatches(db, t, done, rest);
      UpsertOneMore(db, t, done + rest, last);
      UpsertOneMore(Upsert(db, t, done), t, rest, last);
    }
  }

  lemma {:induction false} RestoreInBatches(db: Db, t: Table, c: Column, done: seq<Row>, batch: seq<Row>)
    ensures Restore(Restore(db, t, c, done), t, c, batch) == Restore(db, t, c, done + batch)
  {
    if batch == [] {
      assert done + batch == done;
    } else {
      var rest, last := batch[..|batch| - 1], batch[|batch| - 1];
      OneMore(done, batch);
      RestoreInBatches(db, t, c, done, rest);
      RestoreOneMore(db, t, c, done + rest, last);
      RestoreOneMore(Restore(db, t, c, done), t, c, rest, last);
    }
  }

  // ---- What an import writes -------------------------------------------------------------------------------

  function AllRefs(ts: Tables): set<RowRef> {
    set t, row | row in RowsOf(ts, t) :: RefOf(t, row)
  }

  lemma {:induction false} UpsertTablesFrame(db: Db, ts: Tables, n: nat, r: RowRef)
    requires n <= TABLE_COUNT && r !in AllRefs(ts)
    ensures r in UpsertTables(db, ts, n) <==> r in db
    ensures r in db ==> UpsertTables(db, ts, n)[r] == db[r]
  {
    if n > 0 {
      UpsertTablesFrame(db, ts, n - 1, r);
      var t := TableAt(n - 1);
      forall k | 0 <= k < |RowsOf(ts, t)| ensures RefOf(t, RowsOf(ts, t)[k]) in AllRefs(ts) {
        assert RowsOf(ts, t)[k] in RowsOf(ts, t);
      }
      UpsertFrame(UpsertTables(db, ts, n - 1), t, RowsOf(ts, t), r);
    }
  }

  lemma CarriesAcross(db: Db, t: Table, row: Row, u: Table, rows: seq<Row>)
    requires t != u && Carries(db, t, row)
    ensures Carries(Upsert(db, u, rows), t, row)
  {
    UpsertFrame(db, u, rows, RefOf(t, row));
    forall c | Declared(t, c) && !Deferred(t, c) ensures CellAt(Upsert(db, u, rows), RefOf(t, row), c) == Get(row, c) {
      assert CellAt(db, RefOf(t, row), c) == Get(row, c);
    }
  }

  lemma {:induction false} UpsertTablesCarry(db: Db, ts: Tables, n: nat, t: Table, row: Row)
    requires n <= TABLE_COUNT && Rank(t) < n && row in RowsOf(ts, t) && UniqueKeys(t, RowsOf(ts, t))
    ensures Carries(UpsertTables(db, ts, n), t, row)
  {
    TableAtRank(t);
    if Rank(t) == n - 1 {
      var k :| 0 <= k < |RowsOf(ts, t)| && RowsOf(ts, t)[k] == row;
      UpsertWrites(UpsertTables(db, ts, n - 1), t, RowsOf(ts, t), k);
    } else {
      UpsertTablesCarry(db, ts, n - 1, t, row);
      CarriesAcross(UpsertTables(db, ts, n - 1), t, row, TableAt(n - 1), RowsOf(ts, TableAt(n - 1)));
    }
  }

  lemma RestoreTablesFrame(db: Db, ts: Tables, r: RowRef)
    requires r !in AllRefs(ts)
    ensures r in RestoreTables(db, ts) <==> r in db
    ensures r in db ==> RestoreTables(db, ts)[r] == db[r]
  {
    NotPlannedInTable(ts, ProductCategories, r);
    NotPlannedInTable(ts, ProductMasterVersions, r);
    RestoreFrame(db, ProductCategories, ParentId, RowsOf(ts, ProductCategories), r);
    RestoreFrame(Restore(db, ProductCategories, ParentId, RowsOf(ts, ProductCategories)),
                 ProductMasterVersions, ParentVersionId, RowsOf(ts, ProductMasterVersions), r);
  }

  lemma NotPlannedInTable(ts: Tables, t: Table, r: RowRef)
    requires r !in AllRefs(ts)
    ensures r !in RefsOf(t, RowsOf(ts, t))
  {
    forall k | 0 <= k < |RowsOf(ts, t)| ensures RefOf(t, RowsOf(ts, t)[k]) in AllRefs(ts) {
      assert RowsOf(ts, t)[k] in RowsOf(ts, t);
    }
  }

  lemma RestoreCell(db: Db, t: Table, c: Column, rows: seq<Row>, u: Table, row: Row, d: Column)
    requires Deferred(t, c) && UniqueKeys(t, rows) && RefOf(u, row) in db
    requires u == t ==> row in rows
    ensures RefOf(u, row) in Restore(db, t, c, rows)
    ensures CellAt(Restore(db, t, c, rows), RefOf(u, row), d)
            == if u == t && d == c then Get(row, c) else CellAt(db, RefOf(u, row), d)
  {
    RestoreFrame(db, t, c, rows, RefOf(u, row));
    if u == t {
      var k :| 0 <= k < |rows| && rows[k] == row;
      RestoreWrites(db, t, c, rows, k);
    }
  }

  /** After the upserts and the restore every planned row is there with all its declared values. */
  lemma PlannedCell(db: Db, ts: Tables, t: Table, row: Row, c: Column)
    requires row in RowsOf(ts, t) && Declared(t, c)
    requires forall u: Table :: UniqueKeys(u, RowsOf(ts, u))
    ensures RefOf(t, row) in RestoreTables(UpsertTables(db, ts, TABLE_COUNT), ts)
    ensures CellAt(RestoreTables(UpsertTables(db, ts, TABLE_COUNT), ts), RefOf(t, row), c) == Get(row, c)
  {
    var upserted := UpsertTables(db, ts, TABLE_COUNT);
    UpsertTablesCarry(db, ts, TABLE_COUNT, t, row);
    RestoreCell(upserted, ProductCategories, ParentId, RowsOf(ts, ProductCategories), t, row, c);
    RestoreCell(Restore(upserted, ProductCategories, ParentId, RowsOf(ts, ProductCategories)),
                ProductMasterVersions, ParentVersionId, RowsOf(ts, ProductMasterVersions), t, row, c);
  }

  function Removed(f: Fixture, previous: Option<ImportRecord>, source: Tables, plan: Plan): set<RowRef> {
    Dropped(previous, source) + SupersededSuppliers(f, previous, plan.supplierFallbacks)
  }

  /** A row no planned row addresses is gone if it was to be removed, and otherwise keeps all but a deactivation. */
  lemma UnplannedRows(f: Fixture, db: Db, previous: Option<ImportRecord>, source: Tables, plan: Plan, r: RowRef)
    requires r !in AllRefs(plan.tables)
    ensures r in ImportedRows(f, db, previous, source, plan) <==> r in db && r !in Removed(f, previous, source, plan)
    ensures r in ImportedRows(f, db, previous, source, plan)
            ==> ImportedRows(f, db, previous, source, plan)[r]
                == if r in SupersededChains(f, source, plan) then db[r][Status := Str("inactive")] else db[r]
  {
    var kept := Remove(Remove(db, Dropped(previous, source)), SupersededSuppliers(f, previous, plan.supplierFallbacks));
    UpsertTablesFrame(kept, plan.tables, TABLE_COUNT, r);
    RestoreTablesFrame(UpsertTables(kept, plan.tables, TABLE_COUNT), plan.tables, r);
  }

  /** A planned row that is no superseded chain is there with all its declared values, deferred columns included. */
  lemma PlannedRows(f: Fixture, db: Db, previous: Option<ImportRecord>, source: Tables, plan: Plan, t: Table, row: Row, c: Column)
    requires row in RowsOf(plan.tables, t) && Declared(t, c)
    requires forall u: Table :: UniqueKeys(u, RowsOf(plan.tables, u))
    requires c == Status ==> RefOf(t, row) !in SupersededChains(f, source, plan)
    ensures RefOf(t, row) in ImportedRows(f, db, previous, source, plan)
    ensures CellAt(ImportedRows(f, db, previous, source, plan), RefOf(t, row), c) == Get(row, c)
  {
    var kept := Remove(Remove(db, Dropped(previous, source)), SupersededSuppliers(f, previous, plan.supplierFallbacks));
    PlannedCell(kept, plan.tables, t, row, c);
  }

  lemma ImportIsComplete(f: Fixture, db: Db, previous: Option<ImportRecord>, source: Tables, written: Plan)
    requires Writable(f, source, written.tables)
    ensures MissingSkus(ImportedRows(f, db, previous, source, written), source) == {}
    ensures DeletedMismatches(ImportedRows(f, db, previous, source, written), source) == {}
  {
    forall sku | sku in RowsOf(source, Skus)
      ensures RefOf(Skus, sku) in ImportedRows(f, db, previous, source, written)
      ensures CellAt(ImportedRows(f, db, previous, source, written), RefOf(Skus, sku), IsDeleted) == Get(sku, IsDeleted)
    {
      PlannedRows(f, db, previous, source, written, Skus, sku, IsDeleted);
    }
  }

  // ---- The fallback rows of a SKU --------------------------------------------------------------------------

  /** Of a SKU with a chain, variant and version are there, active exactly if it is live; of any other none is active. */
  predicate ChainFollows(rows: Db, ids: ChainIds, chained: bool, live: bool) {
    var variant, version := RowRef(ProductVariants, [Str(ids.variant)]), RowRef(ProductMasterVersions, [Str(ids.version)]);
    if chained
    then
      && variant in rows && Get(rows[variant], Status) == Str(if live then "active" else "inactive")
      && version in rows && Get(rows[version], Status) == Str(if live then "active" else "inactive")
    else
      && (variant in rows ==> Get(rows[variant], Status) == Str("inactive"))
      && (version in rows ==> Get(rows[version], Status) == Str("inactive"))
  }

  predicate HasLink(links: seq<Link>, id: string) {
    exists l :: l in links && l.skuId == id
  }

  /** The fallback rows of every SKU of the source follow the links of the plan. */
  ghost predicate ChainsFollow(f: Fixture, rows: Db, source: Tables, links: seq<Link>) {
    forall sku :: sku in RowsOf(source, Skus) ==>
      ChainFollows(rows, f.idsOf(Text(sku, Id)), HasLink(links, Text(sku, Id)), Get(sku, IsDeleted) != Flag(true))
  }

  /** Chains that are not superseded keep their refs out of what is deactivated. */
  lemma ChainIsNotSuperseded(f: Fixture, source: Tables, plan: Plan, l: Link)
    requires DistinctChains(f) && SkuIds(source) <= f.skus && l in plan.synthetic && l.skuId in f.skus
    ensures RowRef(ProductVariants, [Str(f.idsOf(l.skuId).variant)]) !in SupersededChains(f, source, plan)
    ensures RowRef(ProductMasterVersions, [Str(f.idsOf(l.skuId).version)]) !in SupersededChains(f, source, plan)
  {
    assert l.skuId in SyntheticSkus(plan);
    forall sku | sku in RowsOf(source, Skus) && Text(sku, Id) !in SyntheticSkus(plan)
      ensures f.idsOf(Text(sku, Id)).variant != f.idsOf(l.skuId).variant
      ensures f.idsOf(Text(sku, Id)).version != f.idsOf(l.skuId).version
    {
      assert Text(sku, Id) in f.skus;
    }
  }

  lemma PlannedChainRows(f: Fixture, source: Tables, createdAt: string, plan: Plan, l: Link)
    requires Extends(f, source, createdAt, plan) && l in plan.synthetic
    ensures VariantRow(f, l) in plan.tables[ProductVariants]
    ensures VersionRow(f, l, createdAt) in plan.tables[ProductMasterVersions]
  {
    AddedExactly(f, ProductVariants, plan.synthetic, createdAt);
    AddedExactly(f, ProductMasterVersions, plan.synthetic, createdAt);
    assert VariantRow(f, l) in ChainRows(f, ProductVariants, l, createdAt);
    assert VersionRow(f, l, createdAt) in ChainRows(f, ProductMasterVersions, l, createdAt);
  }

  /** A planned row whose ref is not superseded keeps its status. */
  lemma PlannedStatus(f: Fixture, db: Db, previous: Option<ImportRecord>, source: Tables, plan: Plan, t: Table, row: Row)
    requires forall u: Table :: UniqueKeys(u, RowsOf(plan.tables, u))
    requires t in {ProductVariants, ProductMasterVersions} && row in RowsOf(plan.tables, t)
    requires RefOf(t, row) !in SupersededChains(f, source, plan)
    ensures RefOf(t, row) in ImportedRows(f, db, previous, source, plan)
    ensures Get(ImportedRows(f, db, previous, source, plan)[RefOf(t, row)], Status) == Get(row, Status)
  {
    PlannedRows(f, db, previous, source, plan, t, row, Status);
  }

  lemma ChainRefs(f: Fixture, l: Link, createdAt: string)
    ensures RefOf(ProductVariants, VariantRow(f, l)) == RowRef(ProductVariants, [Str(f.idsOf(l.skuId).variant)])
    ensures RefOf(ProductMasterVersions, VersionRow(f, l, createdAt))
            == RowRef(ProductMasterVersions, [Str(f.idsOf(l.skuId).version)])
  {
    assert KeyOf(ProductVariants, VariantRow(f, l))[0] == Str(f.idsOf(l.skuId).variant);
    assert KeyOf(ProductMasterVersions, VersionRow(f, l, createdAt))[0] == Str(f.idsOf(l.skuId).version);
  }

  /** The rows of a chain in what an import writes, and so after it. */
  lemma WrittenChainFollows(f: Fixture, db: Db, previous: Option<ImportRecord>, source: Tables, createdAt: string,
                            written: Plan, l: Link)
    requires forall u: Table :: UniqueKeys(u, RowsOf(written.tables, u))
    requires DistinctChains(f) && SkuIds(source) <= f.skus && l in written.synthetic && l.skuId in f.skus
    requires VariantRow(f, l) in RowsOf(written.tables, ProductVariants)
    requires VersionRow(f, l, createdAt) in RowsOf(written.tables, ProductMasterVersions)
    ensures ChainFollows(ImportedRows(f, db, previous, source, written), f.idsOf(l.skuId), true, !l.sourceDeleted)
  {
    ChainRefs(f, l, createdAt);
    ChainIsNotSuperseded(f, source, written, l);
    PlannedStatus(f, db, previous, source, written, ProductVariants, VariantRow(f, l));
    PlannedStatus(f, db, previous, source, written, ProductMasterVersions, VersionRow(f, l, createdAt));
  }

  lemma WrittenChainRows(f: Fixture, db: Db, source: Tables, createdAt: string, plan: Plan, l: Link)
    requires Importable(f, source) && IsPlanFor(f, source, createdAt, plan) && l in plan.synthetic
    ensures EveryTable(plan.tables) && l in Suppressed(f, db, plan).synthetic
    ensures VariantRow(f, l) in RowsOf(Suppressed(f, db, plan).tables, ProductVariants)
    ensures VersionRow(f, l, createdAt) in RowsOf(Suppressed(f, db, plan).tables, ProductMasterVersions)
    ensures DistinctChains(f) && SkuIds(source) <= f.skus
  {
    PlannedChainRows(f, source, createdAt, plan, l);
  }

  lemma WrittenKeysAreUnique(f: Fixture, db: Db, source: Tables, createdAt: string, plan: Plan)
    requires Importable(f, source) && IsPlanFor(f, source, createdAt, plan)
    ensures EveryTable(plan.tables)
    ensures forall u: Table :: UniqueKeys(u, RowsOf(Suppressed(f, db, plan).tables, u))
  {
    PlannedRowsAreWritable(f, db, source, createdAt, plan);
    forall u: Table ensures UniqueKeys(u, RowsOf(Suppressed(f, db, plan).tables, u)) {
      assert u in Suppressed(f, db, plan).tables;
    }
  }

  lemma LinkedChainFollows(f: Fixture, db: Db, previous: Option<ImportRecord>, source: Tables, createdAt: string,
                           plan: Plan, l: Link)
    requires Importable(f, source) && IsPlanFor(f, source, createdAt, plan) && l in plan.synthetic && l.skuId in f.skus
    ensures ChainFollows(ImportedRows(f, db, previous, source, Suppressed(f, db, plan)), f.idsOf(l.skuId), true,
                         !l.sourceDeleted)
  {
    WrittenKeysAreUnique(f, db, source, createdAt, plan);
    WrittenChainRows(f, db, source, createdAt, plan, l);
    WrittenChainFollows(f, db, previous, source, createdAt, Suppressed(f, db, plan), l);
  }

  lemma UnlinkedChainFollows(f: Fixture, db: Db, previous: Option<ImportRecord>, source: Tables, plan: Plan, sku: Row)
    requires sku in RowsOf(source, Skus) && !HasLink(plan.synthetic, Text(sku, Id))
    ensures ChainFollows(ImportedRows(f, db, previous, source, plan), f.idsOf(Text(sku, Id)), false,
                         Get(sku, IsDeleted) != Flag(true))
  {
    assert Text(sku, Id) !in SyntheticSkus(plan);
    var ids := f.idsOf(Text(sku, Id));
    assert RowRef(ProductVariants, [Str(ids.variant)]) in SupersededChains(f, source, plan);
    assert RowRef(ProductMasterVersions, [Str(ids.version)]) in SupersededChains(f, source, plan);
  }

  /** An import leaves the chains it planned as the plan has them, and those it no longer plans inactive. */
  lemma ImportedChainsFollow(f: Fixture, db: Db, previous: Option<ImportRecord>, source: Tables, createdAt: string, plan: Plan)
    requires Importable(f, source) && IsPlanFor(f, source, createdAt, plan)
    ensures ChainsFollow(f, ImportedRows(f, db, previous, source, Suppressed(f, db, plan)), source, plan.synthetic)
  {
    var after := ImportedRows(f, db, previous, source, Suppressed(f, db, plan));
    forall sku | sku in RowsOf(source, Skus)
      ensures ChainFollows(after, f.idsOf(Text(sku, Id)), HasLink(plan.synthetic, Text(sku, Id)),
                           Get(sku, IsDeleted) != Flag(true))
    {
      if l :| l in plan.synthetic && l.skuId == Text(sku, Id) {
        LinkOfItsSku(f, source, createdAt, plan, sku, l);
        LinkedChainFollows(f, db, previous, source, createdAt, plan, l);
      } else {
        UnlinkedChainFollows(f, db, previous, source, Suppressed(f, db, plan), sku);
      }
    }
  }

  lemma LinkOfItsSku(f: Fixture, source: Tables, createdAt: string, plan: Plan, sku: Row, l: Link)
    requires Importable(f, source) && IsPlanFor(f, source, createdAt, plan)
    requires sku in source[Skus] && l in plan.synthetic && l.skuId == Text(sku, Id)
    ensures l.skuId in f.skus && l.sourceDeleted == (Get(sku, IsDeleted) == Flag(true))
  {
    assert l.skuId in SkuIds(source);
    ChainsExactly(f, source, createdAt, plan, l);
    var other :| GetsChain(source, other, l);
    var i :| 0 <= i < |source[Skus]| && source[Skus][i] == sku;
    var j :| 0 <= j < |source[Skus]| && source[Skus][j] == other;
    assert i == j;
  }

  // ---- The demo suppliers of a target ----------------------------------------------------------------------

  /** A supplier other than the demo supplier is in the target already. */
  ghost predicate HasOwnSupplier(f: Fixture, db: Db, id: string) {
    exists other :: other != Str(f.supplier) && RowRef(SkuSuppliers, [Str(id), other]) in db
  }

  lemma CoveredExactly(f: Fixture, db: Db, id: string)
    ensures CoveredInTarget(f, db, id) <==> HasOwnSupplier(f, db, id)
  {
    if r :| r in db && r.table == SkuSuppliers && |r.key| == 2 && r.key[0] == Str(id) && r.key[1] != Str(f.supplier) {
      assert r == RowRef(SkuSuppliers, [Str(id), r.key[1]]);
    }
    if HasOwnSupplier(f, db, id) {
      var other :| other != Str(f.supplier) && RowRef(SkuSuppliers, [Str(id), other]) in db;
      var r := RowRef(SkuSuppliers, [Str(id), other]);
      assert r.key[0] == Str(id) && r.key[1] == other;
    }
  }

  lemma {:induction false} KeepUncoveredExactly(f: Fixture, db: Db, ids: seq<string>)
    ensures forall id :: id in KeepUncovered(f, db, ids) <==> id in ids && !CoveredInTarget(f, db, id)
  {
    if ids != [] {
      KeepUncoveredExactly(f, db, ids[..|ids| - 1]);
      assert ids == ids[..|ids| - 1] + [ids[|ids| - 1]];
    }
  }

  lemma DemoRef(f: Fixture, row: Row, id: string)
    ensures RefOf(SkuSuppliers, row) == DemoSupplierRef(f, id)
            <==> Get(row, SkuId) == Str(id) && Get(row, SupplierId) == Str(f.supplier)
  {
    assert KeyOf(SkuSuppliers, row)[0] == Get(row, SkuId) && KeyOf(SkuSuppliers, row)[1] == Get(row, SupplierId);
  }

  /** The rows with the key of a demo supplier, after those of a source that knows none. */
  lemma DemoRowsAmong(f: Fixture, rows: seq<Row>, ids: seq<string>, id: string)
    requires AvoidsDemoSupplier(f, rows)
    ensures var all := rows + seq(|ids|, i requires 0 <= i < |ids| => SupplierRow(f, ids[i]));
            forall row :: row in all && RefOf(SkuSuppliers, row) == DemoSupplierRef(f, id)
                          <==> id in ids && row == SupplierRow(f, id)
  {
    var added := seq(|ids|, i requires 0 <= i < |ids| => SupplierRow(f, ids[i]));
    forall row
      ensures row in rows + added && RefOf(SkuSuppliers, row) == DemoSupplierRef(f, id)
              <==> id in ids && row == SupplierRow(f, id)
    {
      DemoRef(f, row, id);
      if row in added {
        var i :| 0 <= i < |ids| && row == SupplierRow(f, ids[i]);
      }
      if id in ids && row == SupplierRow(f, id) {
        var i :| 0 <= i < |ids| && ids[i] == id;
        assert added[i] == row;
      }
    }
  }

  lemma DemoRowOfPlan(f: Fixture, source: Tables, createdAt: string, plan: Plan, id: string, row: Row)
    requires Importable(f, source) && IsPlanFor(f, source, createdAt, plan)
    ensures row in plan.tables[SkuSuppliers] && RefOf(SkuSuppliers, row) == DemoSupplierRef(f, id)
            <==> id in plan.supplierFallbacks && row == SupplierRow(f, id)
  {
    SupplierTableRows(f, source, createdAt, plan);
    DemoRowsAmong(f, source[SkuSuppliers], plan.supplierFallbacks, id);
  }

  lemma DemoRowIsCovered(f: Fixture, db: Db, fallbacks: seq<string>, id: string)
    requires id in fallbacks
    ensures CoveredFallback(f, db, fallbacks, SupplierRow(f, id)) <==> HasOwnSupplier(f, db, id)
  {
    CoveredExactly(f, db, id);
  }

  /** The demo supplier of a SKU is written exactly if the plan gives it one and the target has no other for it. */
  lemma DemoSupplierIsWritten(f: Fixture, db: Db, source: Tables, createdAt: string, plan: Plan, id: string)
    requires Importable(f, source) && IsPlanFor(f, source, createdAt, plan)
    ensures DemoSupplierRef(f, id) in AllRefs(Suppressed(f, db, plan).tables)
            <==> id in plan.supplierFallbacks && !HasOwnSupplier(f, db, id)
  {
    DemoRowIsKept(f, db, source, createdAt, plan, id, SupplierRow(f, id));
    SuppressedSuppliers(f, db, plan, SupplierRow(f, id));
    DemoRef(f, SupplierRow(f, id), id);
    if DemoSupplierRef(f, id) in AllRefs(Suppressed(f, db, plan).tables) {
      WrittenOnlyIfKept(f, db, source, createdAt, plan, id);
    } else {
      NotAmongRows(Suppressed(f, db, plan).tables, SkuSuppliers, SupplierRow(f, id));
    }
  }

  lemma WrittenOnlyIfKept(f: Fixture, db: Db, source: Tables, createdAt: string, plan: Plan, id: string)
    requires Importable(f, source) && IsPlanFor(f, source, createdAt, plan)
    requires DemoSupplierRef(f, id) in AllRefs(Suppressed(f, db, plan).tables)
    ensures id in plan.supplierFallbacks && !HasOwnSupplier(f, db, id)
  {
    var row := RowOfRef(Suppressed(f, db, plan).tables, DemoSupplierRef(f, id));
    DemoRowIsKept(f, db, source, createdAt, plan, id, row);
    SuppressedSuppliers(f, db, plan, row);
  }

  lemma SuppressedSuppliers(f: Fixture, db: Db, plan: Plan, row: Row)
    requires SkuSuppliers in plan.tables
    ensures row in RowsOf(Suppressed(f, db, plan).tables, SkuSuppliers)
            <==> row in plan.tables[SkuSuppliers] && !CoveredFallback(f, db, plan.supplierFallbacks, row)
  {
    DropCoveredExactly(f, db, plan.supplierFallbacks, plan.tables[SkuSuppliers]);
  }

  lemma NotAmongRows(ts: Tables, t: Table, row: Row)
    requires RefOf(t, row) !in AllRefs(ts)
    ensures row !in RowsOf(ts, t)
  {
  }

  lemma DemoRowIsKept(f: Fixture, db: Db, source: Tables, createdAt: string, plan: Plan, id: string, row: Row)
    requires Importable(f, source) && IsPlanFor(f, source, createdAt, plan)
    ensures && row in plan.tables[SkuSuppliers] && RefOf(SkuSuppliers, row) == DemoSupplierRef(f, id)
            && !CoveredFallback(f, db, plan.supplierFallbacks, row)
            <==> id in plan.supplierFallbacks && row == SupplierRow(f, id) && !HasOwnSupplier(f, db, id)
  {
    DemoRowOfPlan(f, source, createdAt, plan, id, row);
    if id in plan.supplierFallbacks {
      DemoRowIsCovered(f, db, plan.supplierFallbacks, id);
    }
  }

  /** The import record names the same SKUs. */
  lemma DemoSupplierIsRecorded(f: Fixture, db: Db, plan: Plan, id: string)
    requires SkuSuppliers in plan.tables
    ensures id in Suppressed(f, db, plan).supplierFallbacks
            <==> id in plan.supplierFallbacks && !HasOwnSupplier(f, db, id)
  {
    KeepUncoveredExactly(f, db, plan.supplierFallbacks);
    CoveredExactly(f, db, id);
  }

  lemma RowOfRef(ts: Tables, r: RowRef) returns (row: Row)
    requires r in AllRefs(ts)
    ensures row in RowsOf(ts, r.table) && RefOf(r.table, row) == r
  {
    var t;
    t, row :| row in RowsOf(ts, t) && r == RefOf(t, row);
  }

  /** After an import a demo supplier is there if it was written, or was there and no record of the source names it. */
  lemma DemoSupplierAfterImport(f: Fixture, db: Db, previous: Option<ImportRecord>, source: Tables, createdAt: string,
                                plan: Plan, id: string)
    requires Importable(f, source) && IsPlanFor(f, source, createdAt, plan)
    ensures DemoSupplierRef(f, id) in ImportedRows(f, db, previous, source, Suppressed(f, db, plan))
            <==> || (id in plan.supplierFallbacks && !HasOwnSupplier(f, db, id))
                 || (&& DemoSupplierRef(f, id) in db
                     && (previous.Some? ==> id !in previous.value.fallbackSkus
                                            && DemoSupplierRef(f, id) !in previous.value.relationKeys))
  {
    var written, demo := Suppressed(f, db, plan), DemoSupplierRef(f, id);
    DemoSupplierIsWritten(f, db, source, createdAt, plan, id);
    DemoSupplierIsRecorded(f, db, plan, id);
    if demo in AllRefs(written.tables) {
      WrittenIsThere(f, db, previous, source, createdAt, plan, demo);
    } else {
      UnplannedRows(f, db, previous, source, written, demo);
      DemoIsRemoved(f, previous, source, written, id);
    }
  }

  lemma WrittenIsThere(f: Fixture, db: Db, previous: Option<ImportRecord>, source: Tables, createdAt: string, plan: Plan,
                       r: RowRef)
    requires Importable(f, source) && IsPlanFor(f, source, createdAt, plan) && r in AllRefs(Suppressed(f, db, plan).tables)
    ensures r in ImportedRows(f, db, previous, source, Suppressed(f, db, plan))
  {
    WrittenKeysAreUnique(f, db, source, createdAt, plan);
    PlannedIsThere(f, db, previous, source, Suppressed(f, db, plan), r);
  }

  lemma FirstKeyColumn(t: Table)
    ensures Declared(t, KeyColumns(t)[0]) && KeyColumns(t)[0] != Status
  {
  }

  lemma PlannedIsThere(f: Fixture, db: Db, previous: Option<ImportRecord>, source: Tables, plan: Plan, r: RowRef)
    requires r in AllRefs(plan.tables) && forall u: Table :: UniqueKeys(u, RowsOf(plan.tables, u))
    ensures r in ImportedRows(f, db, previous, source, plan)
  {
    var t, row :| row in RowsOf(plan.tables, t) && r == RefOf(t, row);
    FirstKeyColumn(t);
    PlannedRows(f, db, previous, source, plan, t, row, KeyColumns(t)[0]);
  }

  lemma DemoIsRemoved(f: Fixture, previous: Option<ImportRecord>, source: Tables, plan: Plan, id: string)
    requires EveryTable(source) && AvoidsDemoSupplier(f, source[SkuSuppliers]) && id !in plan.supplierFallbacks
    ensures DemoSupplierRef(f, id) in Removed(f, previous, source, plan)
            <==> previous.Some? && (id in previous.value.fallbackSkus || DemoSupplierRef(f, id) in previous.value.relationKeys)
  {
    var demo := DemoSupplierRef(f, id);
    forall row | row in source[SkuSuppliers] ensures RefOf(SkuSuppliers, row) != demo {
      DemoRef(f, row, id);
    }
    assert demo !in RelationKeys(source);
    forall other | DemoSupplierRef(f, other) == demo ensures other == id {
      assert DemoSupplierRef(f, other).key[0] == Str(other);
    }
  }

  // ---- Columns of the target alone -------------------------------------------------------------------------

  lemma {:induction false} UpsertKeepsOtherCell(db: Db, t: Table, rows: seq<Row>, r: RowRef, c: Column)
    requires !Declared(r.table, c)
    ensures CellAt(Upsert(db, t, rows), r, c) == CellAt(db, r, c)
  {
    if rows != [] {
      UpsertKeepsOtherCell(db, t, rows[..|rows| - 1], r, c);
    }
  }

  lemma {:induction false} UpsertTablesKeepOtherCell(db: Db, ts: Tables, n: nat, r: RowRef, c: Column)
    requires n <= TABLE_COUNT && !Declared(r.table, c)
    ensures CellAt(UpsertTables(db, ts, n), r, c) == CellAt(db, r, c)
  {
    if n > 0 {
      UpsertTablesKeepOtherCell(db, ts, n - 1, r, c);
      UpsertKeepsOtherCell(UpsertTables(db, ts, n - 1), TableAt(n - 1), RowsOf(ts, TableAt(n - 1)), r, c);
    }
  }

  lemma {:induction false} RestoreKeepsOtherCell(db: Db, t: Table, d: Column, rows: seq<Row>, r: RowRef, c: Column)
    requires Deferred(t, d) && !Declared(r.table, c)
    ensures CellAt(Restore(db, t, d, rows), r, c) == CellAt(db, r, c)
  {
    if rows != [] {
      RestoreKeepsOtherCell(db, t, d, rows[..|rows| - 1], r, c);
      assert Declared(t, d);
    }
  }

  /** A row that is not removed keeps the columns its table does not declare, written or not. */
  lemma OtherCellsStay(f: Fixture, db: Db, previous: Option<ImportRecord>, source: Tables, plan: Plan, r: RowRef, c: Column)
    requires r !in Removed(f, previous, source, plan) && !Declared(r.table, c)
    ensures CellAt(ImportedRows(f, db, previous, source, plan), r, c) == CellAt(db, r, c)
  {
    var kept := Remove(Remove(db, Dropped(previous, source)), SupersededSuppliers(f, previous, plan.supplierFallbacks));
    var upserted := UpsertTables(kept, plan.tables, TABLE_COUNT);
    var categories := RowsOf(plan.tables, ProductCategories);
    UpsertTablesKeepOtherCell(kept, plan.tables, TABLE_COUNT, r, c);
    RestoreKeepsOtherCell(upserted, ProductCategories, ParentId, categories, r, c);
    RestoreKeepsOtherCell(Restore(upserted, ProductCategories, ParentId, categories), ProductMasterVersions, ParentVersionId,
                          RowsOf(plan.tables, ProductMasterVersions), r, c);
    assert r in SupersededChains(f, source, plan) ==> Declared(r.table, Status);
  }

  lemma SourceRelationIsNoDemo(f: Fixture, source: Tables, id: string)
    requires EveryTable(source) && AvoidsDemoSupplier(f, source[SkuSuppliers])
    ensures DemoSupplierRef(f, id) !in RelationKeys(source)
  {
    forall row | row in source[SkuSuppliers] ensures RefOf(SkuSuppliers, row) != DemoSupplierRef(f, id) {
      DemoRef(f, row, id);
    }
  }

  /**
   Relations the source still has are updated in place, and so are the demo suppliers that are still needed: columns
   the target alone has stay as they were.
   */
  lemma StillNeededRowsStay(f: Fixture, db: Db, previous: Option<ImportRecord>, source: Tables, createdAt: string, plan: Plan,
                            id: string, r: RowRef, c: Column)
    requires Importable(f, source) && IsPlanFor(f, source, createdAt, plan) && !Declared(r.table, c)
    requires || r in RelationKeys(source)
             || (&& r == DemoSupplierRef(f, id) && id in plan.supplierFallbacks && !HasOwnSupplier(f, db, id)
                 && (previous.Some? ==> r !in previous.value.relationKeys))
    ensures CellAt(ImportedRows(f, db, previous, source, Suppressed(f, db, plan)), r, c) == CellAt(db, r, c)
  {
    var written := Suppressed(f, db, plan);
    forall other | DemoSupplierRef(f, other) == r
      ensures r !in RelationKeys(source) && (r == DemoSupplierRef(f, id) ==> other == id)
    {
      SourceRelationIsNoDemo(f, source, other);
      assert DemoSupplierRef(f, other).key[0] == Str(other);
    }
    DemoSupplierIsRecorded(f, db, plan, id);
    OtherCellsStay(f, db, previous, source, written, r, c);
  }

  // ---- Active versions in the target -----------------------------------------------------------------------

  predicate IsVersion(r: RowRef) {
    r.table == ProductMasterVersions
  }

  /** The unique index of the target: no master has two active versions. */
  ghost predicate OneActiveInTarget(db: Db) {
    forall r, s :: r in db && s in db && IsVersion(r) && IsVersion(s) && r != s && Active(db[r]) && Active(db[s]) ==>
      Text(db[r], MasterId) != Text(db[s], MasterId)
  }

  /** The collision check for this index: an active row of the target with the master of an active row of another key. */
  predicate ActiveVersionCollides(db: Db, versions: seq<Row>) {
    exists r, row :: r in db && row in versions && IsVersion(r) && Active(db[r]) && Active(row)
                     && Text(db[r], MasterId) == Text(row, MasterId) && r != RefOf(ProductMasterVersions, row)
  }

  /** An active version of the target belongs to the master of an active version of these rows with another id. */
  ghost predicate TakesActiveMaster(db: Db, versions: seq<Row>) {
    exists r, row :: && r in db && row in versions && r.table == ProductMasterVersions && r.key != [Get(row, Id)]
                     && Get(db[r], Status) == Str("active") && Get(row, Status) == Str("active")
                     && Text(db[r], MasterId) == Text(row, MasterId)
  }

  lemma CollidesExactly(db: Db, versions: seq<Row>)
    ensures ActiveVersionCollides(db, versions) <==> TakesActiveMaster(db, versions)
  {
    forall row ensures RefOf(ProductMasterVersions, row) == RowRef(ProductMasterVersions, [Get(row, Id)]) {
      assert KeyOf(ProductMasterVersions, row)[0] == Get(row, Id);
    }
    if r, row :| r in db && row in versions && IsVersion(r) && Active(db[r]) && Active(row)
                 && Text(db[r], MasterId) == Text(row, MasterId) && r != RefOf(ProductMasterVersions, row) {
      assert r == RowRef(ProductMasterVersions, r.key);
    }
  }

  lemma PlannedVersion(f: Fixture, db: Db, previous: Option<ImportRecord>, source: Tables, plan: Plan, row: Row)
    requires forall u: Table :: UniqueKeys(u, RowsOf(plan.tables, u))
    requires row in RowsOf(plan.tables, ProductMasterVersions)
    ensures var after, r := ImportedRows(f, db, previous, source, plan), RefOf(ProductMasterVersions, row);
            && r in after && Text(after[r], MasterId) == Text(row, MasterId)
            && (Active(after[r]) ==> Active(row))
  {
    var r := RefOf(ProductMasterVersions, row);
    PlannedRows(f, db, previous, source, plan, ProductMasterVersions, row, MasterId);
    if r !in SupersededChains(f, source, plan) {
      PlannedRows(f, db, previous, source, plan, ProductMasterVersions, row, Status);
    } else {
      assert Get(ImportedRows(f, db, previous, source, plan)[r], Status) == Str("inactive");
    }
  }

  /** An active version of the target after an import is a planned one, or was active with the same master before. */
  lemma ActiveVersionOrigin(f: Fixture, db: Db, previous: Option<ImportRecord>, source: Tables, plan: Plan, r: RowRef)
    requires forall u: Table :: UniqueKeys(u, RowsOf(plan.tables, u))
    requires r in ImportedRows(f, db, previous, source, plan) && IsVersion(r)
    requires Active(ImportedRows(f, db, previous, source, plan)[r])
    ensures if r in AllRefs(plan.tables)
            then exists row :: row in RowsOf(plan.tables, ProductMasterVersions) && r == RefOf(ProductMasterVersions, row)
                   && Active(row) && Text(row, MasterId) == Text(ImportedRows(f, db, previous, source, plan)[r], MasterId)
            else r in db && Active(db[r])
                   && Text(db[r], MasterId) == Text(ImportedRows(f, db, previous, source, plan)[r], MasterId)
  {
    if r in AllRefs(plan.tables) {
      var t, row :| row in RowsOf(plan.tables, t) && r == RefOf(t, row);
      PlannedVersion(f, db, previous, source, plan, row);
    } else {
      UnplannedRows(f, db, previous, source, plan, r);
    }
  }

  /** A target with one active version per master keeps that if the planned rows do not collide with it. */
  lemma ImportKeepsOneActiveVersion(f: Fixture, db: Db, previous: Option<ImportRecord>, source: Tables, plan: Plan)
    requires forall u: Table :: UniqueKeys(u, RowsOf(plan.tables, u))
    requires OneActiveInTarget(db) && OneActiveVersionPerMaster(RowsOf(plan.tables, ProductMasterVersions))
    requires !ActiveVersionCollides(db, RowsOf(plan.tables, ProductMasterVersions))
    ensures OneActiveInTarget(ImportedRows(f, db, previous, source, plan))
  {
    var after := ImportedRows(f, db, previous, source, plan);
    forall r, s | r in after && s in after && IsVersion(r) && IsVersion(s) && r != s && Active(after[r]) && Active(after[s])
      ensures Text(after[r], MasterId) != Text(after[s], MasterId)
    {
      ActiveVersionOrigin(f, db, previous, source, plan, r);
      ActiveVersionOrigin(f, db, previous, source, plan, s);
    }
  }

  /** The collision check: for active versions as it is, for the other alternate keys an oracle. */
  predicate Collides(others: (Db, Tables) -> bool, db: Db, tables: Tables) {
    ActiveVersionCollides(db, RowsOf(tables, ProductMasterVersions)) || others(db, tables)
  }

  /** The collision check of an import looks at the versions of its plan, whichever demo suppliers are left out. */
  lemma ImportCollidesExactly(f: Fixture, db: Db, plan: Plan, others: (Db, Tables) -> bool)
    requires SkuSuppliers in plan.tables && ProductMasterVersions in plan.tables
    ensures Collides(others, db, Suppressed(f, db, plan).tables)
            <==> others(db, Suppressed(f, db, plan).tables) || TakesActiveMaster(db, plan.tables[ProductMasterVersions])
  {
    CollidesExactly(db, plan.tables[ProductMasterVersions]);
  }

  lemma ActiveVersionsStayUnique(f: Fixture, db: Db, previous: Option<ImportRecord>, source: Tables, createdAt: string,
                                 plan: Plan)
    requires Importable(f, source) && IsPlanFor(f, source, createdAt, plan)
    requires !ActiveVersionCollides(db, RowsOf(Suppressed(f, db, plan).tables, ProductMasterVersions))
    ensures OneActiveInTarget(db) && OneActiveVersionPerMaster(source[ProductMasterVersions]) ==>
              OneActiveInTarget(ImportedRows(f, db, previous, source, Suppressed(f, db, plan)))
  {
    if OneActiveInTarget(db) && OneActiveVersionPerMaster(source[ProductMasterVersions]) {
      PlannedRowsAreWritable(f, db, source, createdAt, plan);
      PlanKeepsOneActiveVersion(f, source, createdAt, plan);
      ImportKeepsOneActiveVersion(f, db, previous, source, Suppressed(f, db, plan));
    }
  }

  // ---- The transaction -------------------------------------------------------------------------------------

  datatype Target = Target(rows: Db, imports: map<string, ImportRecord>)

  datatype Import = Import(source: Tables, generatedAt: int, snapshotId: string, createdAt: string)

  datatype ImportError = StaleSnapshot | TargetCollision

  /** The first record of the imports in descending order of extraction time; ties are the database's choice. */
  ghost predicate IsLatest(imports: map<string, ImportRecord>, previous: Option<ImportRecord>) {
    if imports == map[] then previous == None
    else exists id :: LatestAt(imports, id) && previous == Some(imports[id])
  }

  predicate LatestAt(imports: map<string, ImportRecord>, id: string) {
    id in imports && forall other :: other in imports ==> imports[other].generatedAt <= imports[id].generatedAt
  }

  predicate Stale(imports: map<string, ImportRecord>, generatedAt: int) {
    exists id :: id in imports && generatedAt < imports[id].generatedAt
  }

  /** The records after an import wrote `plan`. */
  function WithRecord(imports: map<string, ImportRecord>, i: Import, plan: Plan): map<string, ImportRecord> {
    imports[i.snapshotId := ImportRecord(i.generatedAt, RelationKeys(i.source), set id | id in plan.supplierFallbacks)]
  }

  /** One committed import. */
  ghost predicate Applies(f: Fixture, before: Target, after: Target, i: Import, previous: Option<ImportRecord>, plan: Plan) {
    && Importable(f, i.source) && IsPlanFor(f, i.source, i.createdAt, plan)
    && IsLatest(before.imports, previous) && !Stale(before.imports, i.generatedAt)
    && var written := Suppressed(f, before.rows, plan);
       after == Target(ImportedRows(f, before.rows, previous, i.source, written), WithRecord(before.imports, i, written))
  }

  ghost predicate Sound(f: Fixture, rows: Db) {
    Intact(rows) && RowRef(Suppliers, [Str(f.supplier)]) in rows
  }

  function MissingSkus(rows: Db, source: Tables): set<string> {
    set sku | sku in RowsOf(source, Skus) && RefOf(Skus, sku) !in rows :: Text(sku, Id)
  }

  function DeletedMismatches(rows: Db, source: Tables): set<string> {
    set sku | sku in RowsOf(source, Skus) && RefOf(Skus, sku) in rows
              && (CellAt(rows, RefOf(Skus, sku), IsDeleted) == Flag(true)) != IsDeletedSku(sku) :: Text(sku, Id)
  }

  /** The SKU is not in the target. */
  predicate Lacks(rows: Db, sku: Row, id: string) {
    Text(sku, Id) == id && RowRef(Skus, [Get(sku, Id)]) !in rows
  }

  /** The SKU is in the target with another deleted flag. */
  predicate Misstates(rows: Db, sku: Row, id: string) {
    var r := RowRef(Skus, [Get(sku, Id)]);
    Text(sku, Id) == id && r in rows && (Get(rows[r], IsDeleted) == Flag(true)) != (Get(sku, IsDeleted) == Flag(true))
  }

  datatype ImportReport = ImportReport(missing: set<string>, deletedMismatches: set<string>,
                                       synthetic: seq<Link>, supplierFallbacks: seq<string>)

  /** The report names exactly the SKUs of the source that are not in the target, or are there with another deleted flag. */
  ghost predicate ReportIsTrue(rows: Db, source: Tables, report: ImportReport) {
    && (forall id :: id in report.missing <==> exists sku :: sku in RowsOf(source, Skus) && Lacks(rows, sku, id))
    && (forall id :: id in report.deletedMismatches <==> exists sku :: sku in RowsOf(source, Skus) && Misstates(rows, sku, id))
  }

  lemma ReportedExactly(rows: Db, source: Tables, report: ImportReport)
    requires report.missing == MissingSkus(rows, source) && report.deletedMismatches == DeletedMismatches(rows, source)
    ensures ReportIsTrue(rows, source, report)
  {
    forall sku ensures RefOf(Skus, sku) == RowRef(Skus, [Get(sku, Id)]) {
      assert KeyOf(Skus, sku)[0] == Get(sku, Id);
    }
  }

  lemma LatestDecidesStaleness(imports: map<string, ImportRecord>, previous: Option<ImportRecord>, generatedAt: int)
    requires IsLatest(imports, previous)
    ensures Stale(imports, generatedAt) <==> previous.Some? && generatedAt < previous.value.generatedAt
  {
  }

  lemma ReadyInLaterDb(before: Db, now: Db, t: Table, rows: seq<Row>, batch: seq<Row>)
    requires before.Keys <= now.Keys && forall k :: 0 <= k < |rows| ==> ReadyFor(before, t, rows[k])
    requires forall row :: row in batch ==> row in rows
    ensures forall k :: 0 <= k < |batch| ==> ReadyFor(now, t, batch[k])
  {
    forall k | 0 <= k < |batch| ensures ReadyFor(now, t, batch[k]) {
      assert batch[k] in rows;
      ReadyInLarger(before, now, t, batch[k]);
    }
  }

  lemma UpsertBatch(before: Db, now: Db, t: Table, rows: seq<Row>, offset: nat, end: nat)
    requires offset <= end <= |rows| && now == Upsert(before, t, rows[..offset]) && Intact(now)
    requires before.Keys <= now.Keys && forall k :: 0 <= k < |rows| ==> ReadyFor(before, t, rows[k])
    ensures Upsert(now, t, rows[offset..end]) == Upsert(before, t, rows[..end])
    ensures Intact(Upsert(now, t, rows[offset..end])) && before.Keys <= Upsert(now, t, rows[offset..end]).Keys
  {
    var done, batch := rows[..offset], rows[offset..end];
    ReadyInLaterDb(before, now, t, rows, batch);
    UpsertKeepsReferences(now, t, batch);
    UpsertInBatches(before, t, done, batch);
    SplitAt(rows, offset, end);
  }

  lemma RestorablePoints(f: Fixture, now: Db, ts: Tables, t: Table, c: Column, batch: seq<Row>)
    requires EveryTable(ts) && Closed(f, ts) && Sound(f, now) && TablesPresent(now, ts, TABLE_COUNT) && Deferred(t, c)
    requires forall k :: 0 <= k < |batch| ==> batch[k] in ts[t]
    ensures forall k :: 0 <= k < |batch| ==> Points(now, References(t, c), Get(batch[k], c))
  {
    forall k | 0 <= k < |batch| ensures Points(now, References(t, c), Get(batch[k], c)) {
      PresentParent(f, now, ts, TABLE_COUNT, t, batch[k], c);
    }
  }

  lemma RestoreBatch(f: Fixture, before: Db, now: Db, ts: Tables, t: Table, c: Column, offset: nat, end: nat)
    requires EveryTable(ts) && Closed(f, ts) && offset <= end <= |ts[t]| && now == Restore(before, t, c, ts[t][..offset])
    requires Sound(f, now) && TablesPresent(now, ts, TABLE_COUNT) && Deferred(t, c)
    ensures Restore(now, t, c, ts[t][offset..end]) == Restore(before, t, c, ts[t][..end])
    ensures Sound(f, Restore(now, t, c, ts[t][offset..end])) && Restore(now, t, c, ts[t][offset..end]).Keys == now.Keys
  {
    var done, batch := ts[t][..offset], ts[t][offset..end];
    RestorablePoints(f, now, ts, t, c, batch);
    RestoreKeepsReferences(now, t, c, batch);
    RestoreInBatches(before, t, c, done, batch);
    SplitAt(ts[t], offset, end);
  }

  lemma {:induction false} SomeRecordIsLatest(imports: map<string, ImportRecord>)
    requires imports != map[]
    ensures exists id :: LatestAt(imports, id)
    decreases |imports|
  {
    var some :| some in imports;
    var rest := imports - {some};
    if rest == map[] {
      assert forall other :: other in imports ==> other == some || other in rest;
      assert LatestAt(imports, some);
    } else {
      SomeRecordIsLatest(rest);
      var best :| LatestAt(rest, best);
      assert forall other :: other in imports ==> other == some || other in rest;
      assert LatestAt(imports, if imports[some].generatedAt <= imports[best].generatedAt then best else some);
    }
  }

  lemma RemovedAreRelations(previous: Option<ImportRecord>, source: Tables, f: Fixture, current: seq<string>)
    ensures forall r :: r in Dropped(previous, source) ==> Reconciled(r.table)
    ensures forall r :: r in SupersededSuppliers(f, previous, current) ==> Reconciled(r.table)
  {
  }

  class DemoTarget {
    var rows: Db
    var imports: map<string, ImportRecord>

    constructor (rows: Db, imports: map<string, ImportRecord>)
      ensures this.rows == rows && this.imports == imports
    {
      this.rows, this.imports := rows, imports;
    }

    /** One statement. The target refuses it if it leaves a foreign key broken. */
    method Execute(next: Db)
      requires Intact(next)
      modifies `rows
      ensures rows == next
    {
      rows := next;
    }

    method ExecuteBatchedUpsert(t: Table, batch: seq<Row>, batchSize: nat)
      requires 0 < batchSize && Intact(rows)
      requires forall k :: 0 <= k < |batch| ==> ReadyFor(rows, t, batch[k])
      modifies `rows
      ensures rows == Upsert(old(rows), t, batch) && Intact(rows) && old(rows).Keys <= rows.Keys
    {
      var offset := 0;
      while offset < |batch|
        invariant offset <= |batch| && rows == Upsert(old(rows), t, batch[..offset])
        invariant Intact(rows) && old(rows).Keys <= rows.Keys
      {
        var end := if offset + batchSize < |batch| then offset + batchSize else |batch|;
        UpsertBatch(old(rows), rows, t, batch, offset, end);
        Execute(Upsert(rows, t, batch[offset..end]));
        offset := end;
      }
      assert batch[..offset] == batch;
    }

    /** The n-th table of the import order, once the tables before it are in. */
    method UpsertTable(f: Fixture, source: Tables, ts: Tables, n: nat, batchSize: nat)
      requires 0 < batchSize && n < TABLE_COUNT
      requires Sound(f, rows) && Writable(f, source, ts) && TablesPresent(rows, ts, n)
      modifies `rows
      ensures rows == Upsert(old(rows), TableAt(n), RowsOf(ts, TableAt(n)))
      ensures Sound(f, rows) && TablesPresent(rows, ts, n + 1)
    {
      var t := TableAt(n);
      forall k | 0 <= k < |ts[t]| ensures ReadyFor(rows, t, ts[t][k]) {
        ReadyAtItsTurn(f, rows, ts, n, ts[t][k]);
      }
      ghost var before := rows;
      ExecuteBatchedUpsert(t, ts[t], batchSize);
      PresentAfterUpsert(before, ts, n);
    }

    /** One turn of the loop over the tables: `start` are the rows before the first one. */
    method UpsertNext(f: Fixture, source: Tables, ts: Tables, n: nat, batchSize: nat, ghost start: Db)
      requires 0 < batchSize && n < TABLE_COUNT && rows == UpsertTables(start, ts, n)
      requires Sound(f, rows) && Writable(f, source, ts) && TablesPresent(rows, ts, n)
      modifies `rows
      ensures rows == UpsertTables(start, ts, n + 1)
      ensures Sound(f, rows) && TablesPresent(rows, ts, n + 1)
    {
      UpsertTable(f, source, ts, n, batchSize);
    }

    method UpsertAll(f: Fixture, source: Tables, ts: Tables, batchSize: nat)
      requires 0 < batchSize && Sound(f, rows) && Writable(f, source, ts)
      modifies `rows
      ensures rows == UpsertTables(old(rows), ts, TABLE_COUNT)
      ensures Sound(f, rows) && TablesPresent(rows, ts, TABLE_COUNT)
    {
      var n, count := 0, TABLE_COUNT;
      while n < count
        invariant n <= count == TABLE_COUNT && rows == UpsertTables(old(rows), ts, n)
        invariant Sound(f, rows) && TablesPresent(rows, ts, n)
      {
        UpsertNext(f, source, ts, n, batchSize, old(rows));
        n := n + 1;
      }
    }

    method RestoreDeferredColumn(f: Fixture, ts: Tables, t: Table, c: Column)
      requires Sound(f, rows) && EveryTable(ts) && Closed(f, ts) && TablesPresent(rows, ts, TABLE_COUNT) && Deferred(t, c)
      modifies `rows
      ensures rows == Restore(old(rows), t, c, ts[t]) && rows.Keys == old(rows).Keys
      ensures Sound(f, rows) && TablesPresent(rows, ts, TABLE_COUNT)
    {
      var values, offset := ts[t], 0;
      while offset < |values|
        invariant offset <= |values| && rows == Restore(old(rows), t, c, values[..offset])
        invariant rows.Keys == old(rows).Keys && Sound(f, rows) && TablesPresent(rows, ts, TABLE_COUNT)
      {
        var end := if offset + 500 < |values| then offset + 500 else |values|;
        RestoreBatch(f, old(rows), rows, ts, t, c, offset, end);
        Execute(Restore(rows, t, c, values[offset..end]));
        offset := end;
      }
      assert values[..offset] == values;
    }

    method LatestSourceImport() returns (previous: Option<ImportRecord>)
      ensures IsLatest(imports, previous)
    {
      if imports == map[] {
        previous := None;
      } else {
        SomeRecordIsLatest(imports);
        var id :| id in imports && LatestAt(imports, id);
        previous := Some(imports[id]);
      }
    }

    /** The statements of an applied import. */
    method Write(f: Fixture, previous: Option<ImportRecord>, source: Tables, written: Plan, batchSize: nat)
      requires Writable(f, source, written.tables) && Sound(f, rows) && 0 < batchSize
      modifies `rows
      ensures rows == ImportedRows(f, old(rows), previous, source, written) && Sound(f, rows)
    {
      RemovedAreRelations(previous, source, f, written.supplierFallbacks);
      RemovingRelationsKeepsReferences(rows, Dropped(previous, source));
      Execute(Remove(rows, Dropped(previous, source)));
      RemovingRelationsKeepsReferences(rows, SupersededSuppliers(f, previous, written.supplierFallbacks));
      Execute(Remove(rows, SupersededSuppliers(f, previous, written.supplierFallbacks)));
      UpsertAll(f, source, written.tables, batchSize);
      RestoreDeferredColumn(f, written.tables, ProductCategories, ParentId);
      RestoreDeferredColumn(f, written.tables, ProductMasterVersions, ParentVersionId);
      StatusKeepsReferences(rows, SupersededChains(f, source, written), Str("inactive"));
      Execute(SetStatus(rows, SupersededChains(f, source, written), Str("inactive")));
    }

    method Apply(f: Fixture, i: Import, previous: Option<ImportRecord>, written: Plan, batchSize: nat)
      returns (missing: set<string>, mismatches: set<string>)
      requires Writable(f, i.source, written.tables) && Sound(f, rows) && 0 < batchSize
      modifies this
      ensures rows == ImportedRows(f, old(rows), previous, i.source, written) && Sound(f, rows)
      ensures imports == WithRecord(old(imports), i, written)
      ensures missing == MissingSkus(rows, i.source) == {} && mismatches == DeletedMismatches(rows, i.source) == {}
    {
      Write(f, previous, i.source, written, batchSize);
      ImportIsComplete(f, old(rows), previous, i.source, written);
      missing, mismatches := MissingSkus(rows, i.source), DeletedMismatches(rows, i.source);
      if missing != {} || mismatches != {} {
        assert false;
      }
      imports := WithRecord(imports, i, written);
    }

    /** What an import that passed its checks does to the target. */
    method Commit(f: Fixture, i: Import, previous: Option<ImportRecord>, plan: Plan, batchSize: nat)
      returns (missing: set<string>, mismatches: set<string>)
      requires Importable(f, i.source) && IsPlanFor(f, i.source, i.createdAt, plan) && Sound(f, rows) && 0 < batchSize
      requires IsLatest(imports, previous) && !Stale(imports, i.generatedAt)
      requires !ActiveVersionCollides(rows, plan.tables[ProductMasterVersions])
      modifies this
      ensures Applies(f, Target(old(rows), old(imports)), Target(rows, imports), i, previous, plan)
      ensures Sound(f, rows) && ChainsFollow(f, rows, i.source, plan.synthetic)
      ensures missing == MissingSkus(rows, i.source) == {} && mismatches == DeletedMismatches(rows, i.source) == {}
      ensures OneActiveInTarget(old(rows)) && OneActiveVersionPerMaster(i.source[ProductMasterVersions]) ==>
                OneActiveInTarget(rows)
    {
      PlannedRowsAreWritable(f, rows, i.source, i.createdAt, plan);
      ActiveVersionsStayUnique(f, rows, previous, i.source, i.createdAt, plan);
      ImportedChainsFollow(f, rows, previous, i.source, i.createdAt, plan);
      missing, mismatches := Apply(f, i, previous, Suppressed(f, rows, plan), batchSize);
    }

    /** Planning, and the checks before anything is written. */
    method Prepare(f: Fixture, i: Import, collides: (Db, Tables) -> bool)
      returns (failure: Option<ImportError>, previous: Option<ImportRecord>, plan: Plan)
      requires Importable(f, i.source)
      ensures IsPlanFor(f, i.source, i.createdAt, plan) && IsLatest(imports, previous)
      ensures failure == Some(StaleSnapshot) <==> Stale(imports, i.generatedAt)
      ensures failure == Some(TargetCollision)
        <==> && !Stale(imports, i.generatedAt)
             && (collides(rows, Suppressed(f, rows, plan).tables) || TakesActiveMaster(rows, plan.tables[ProductMasterVersions]))
    {
      plan := WithTrainingFallbacks(f, i.source, i.createdAt);
      previous := LatestSourceImport();
      LatestDecidesStaleness(imports, previous, i.generatedAt);
      ImportCollidesExactly(f, rows, plan, collides);
      if previous.Some? && i.generatedAt < previous.value.generatedAt {
        failure := Some(StaleSnapshot);
      } else if Collides(collides, rows, Suppressed(f, rows, plan).tables) {
        failure := Some(TargetCollision);
      } else {
        failure := None;
      }
    }

    /**
     The import transaction. Rejected and dry-run imports change nothing; an applied one has exactly the effect
     `Applies` describes, with every foreign key intact after each statement, and its completeness check never fires.
     */
    method ImportCatalogSnapshot(f: Fixture, i: Import, collides: (Db, Tables) -> bool, apply: bool, batchSize: nat)
      returns (r: Result<ImportReport, ImportError>, previous: Option<ImportRecord>, plan: Plan)
      requires Importable(f, i.source) && Sound(f, rows) && 0 < batchSize
      modifies this
      ensures IsPlanFor(f, i.source, i.createdAt, plan)
      ensures r == Err(StaleSnapshot) <==> Stale(old(imports), i.generatedAt)
      ensures r == Err(TargetCollision)
        <==> && !Stale(old(imports), i.generatedAt)
             && (collides(old(rows), Suppressed(f, old(rows), plan).tables)
                 || TakesActiveMaster(old(rows), plan.tables[ProductMasterVersions]))
      ensures !(r.Ok? && apply) ==> rows == old(rows) && imports == old(imports)
      ensures r.Ok? && apply ==> Applies(f, Target(old(rows), old(imports)), Target(rows, imports), i, previous, plan)
      ensures Sound(f, rows)
      ensures r.Ok? ==> r.value == ImportReport(MissingSkus(rows, i.source), DeletedMismatches(rows, i.source),
                                                plan.synthetic, Suppressed(f, old(rows), plan).supplierFallbacks)
      ensures r.Ok? ==> ReportIsTrue(rows, i.source, r.value)
      ensures r.Ok? && apply ==> r.value.missing == {} && r.value.deletedMismatches == {}
      ensures r.Ok? && apply ==> ChainsFollow(f, rows, i.source, plan.synthetic)
      ensures OneActiveInTarget(old(rows)) && OneActiveVersionPerMaster(i.source[ProductMasterVersions]) ==>
                OneActiveInTarget(rows)
    {
      var failure;
      failure, previous, plan := Prepare(f, i, collides);
      if failure.Some? {
        return Err(failure.value), previous, plan;
      }
      CollidesExactly(rows, plan.tables[ProductMasterVersions]);
      var fallbacks := Suppressed(f, rows, plan).supplierFallbacks;
      var missing, mismatches := MissingSkus(rows, i.source), DeletedMismatches(rows, i.source);
      if apply {
        missing, mismatches := Commit(f, i, previous, plan, batchSize);
      }
      var report := ImportReport(missing, mismatches, plan.synthetic, fallbacks);
      ReportedExactly(rows, i.source, report);
      r := Ok(report);
    }
  }
}
