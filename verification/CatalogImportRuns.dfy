/**
 Whole sequences of imports. After every import of a run with increasing extraction times, the source-owned keys of
 the reconciled relation tables are exactly those of the last snapshot, with its values, and rows no snapshot and no
 fallback ever named are as they were.
 */
module CatalogImportRuns {
  import opened Wrappers
  import opened CatalogSchema
  import opened CatalogNormalization
  import opened CatalogFallback
  import opened CatalogTarget
  import opened CatalogImport

  /** A reference only the fallback plan makes: a demo supplier relation, or a row keyed by a derived id. */
  ghost predicate Derived(f: Fixture, r: RowRef) {
    || (r.table == SkuSuppliers && |r.key| == 2 && r.key[1] == Str(f.supplier))
    || (0 < |r.key| && exists skuId :: skuId in f.skus && ChainIdOf(f, skuId, StringOf(r.key[0])))
  }

  lemma SourceRefsAreNotDerived(f: Fixture, source: Tables, t: Table, row: Row)
    requires Importable(f, source) && row in source[t]
    ensures !Derived(f, RefOf(t, row))
  {
    var c := KeyColumns(t)[0];
    assert KeyOf(t, row)[0] == Get(row, c);
    forall skuId | skuId in f.skus ensures !ChainIdOf(f, skuId, StringOf(Get(row, c))) {
      assert !ChainIdOf(f, skuId, Text(row, c));
    }
    if t == SkuSuppliers {
      assert KeyOf(t, row)[1] == Get(row, SupplierId);
    }
  }

  lemma ChainRefIsDerived(f: Fixture, t: Table, row: Row, l: Link)
    requires ChainTable(t) && ChainRow(f, t, row, l) && l.skuId in f.skus
    ensures Derived(f, RefOf(t, row))
  {
    ChainKeyDecides(f, t, l, row, row);
    assert KeyColumns(t)[0] == ChainKey(f, t, l).0;
    assert KeyOf(t, row)[0] == Get(row, ChainKey(f, t, l).0);
    assert ChainIdOf(f, l.skuId, ChainKey(f, t, l).1);
  }

  lemma SupplierRefIsDerived(f: Fixture, skuId: string)
    ensures Derived(f, RefOf(SkuSuppliers, SupplierRow(f, skuId)))
  {
    assert KeyOf(SkuSuppliers, SupplierRow(f, skuId))[1] == Str(f.supplier);
  }

  lemma OnlyChainRow(f: Fixture, t: Table, l: Link, createdAt: string, row: Row)
    requires ChainTable(t) && row in ChainRows(f, t, l, createdAt)
    ensures ChainRow(f, t, row, l)
  {
    ChainRowsAreChainRows(f, t, l, createdAt);
  }

  lemma AddedRefsAreDerived(f: Fixture, source: Tables, createdAt: string, plan: Plan, t: Table, row: Row)
    requires Extends(f, source, createdAt, plan) && row in plan.tables[t] && row !in source[t]
    requires LinksOf(f, plan.synthetic)
    ensures Derived(f, RefOf(t, row))
  {
    NewRowOrigin(f, source, createdAt, plan, t, row);
    if t == SkuSuppliers {
      var id :| id in plan.supplierFallbacks && row == SupplierRow(f, id);
      SupplierRefIsDerived(f, id);
    } else {
      var l :| l in plan.synthetic && row in ChainRows(f, t, l, createdAt);
      OnlyChainRow(f, t, l, createdAt, row);
      ChainRefIsDerived(f, t, row, l);
    }
  }

  lemma WrittenRefs(f: Fixture, db: Db, source: Tables, createdAt: string, plan: Plan, r: RowRef)
    requires Importable(f, source) && IsPlanFor(f, source, createdAt, plan)
    requires r in AllRefs(Suppressed(f, db, plan).tables)
    ensures r in AllRefs(source) || Derived(f, r)
  {
    var written := Suppressed(f, db, plan).tables;
    var t, row :| row in RowsOf(written, t) && r == RefOf(t, row);
    DropCoveredExactly(f, db, plan.supplierFallbacks, plan.tables[SkuSuppliers]);
    ChainsAreOfTheSource(f, UsableSkus(source), source);
    if row in source[t] {
      assert row in RowsOf(source, t);
    } else {
      AddedRefsAreDerived(f, source, createdAt, plan, t, row);
    }
  }

  // ---- One import ------------------------------------------------------------------------------------------

  /** What the lemmas below need of the rows an import writes. */
  ghost predicate Writes(f: Fixture, source: Tables, written: Plan) {
    && SkuIds(source) <= f.skus
    && (forall t: Table :: UniqueKeys(t, RowsOf(written.tables, t)))
    && (forall t, row :: row in RowsOf(source, t) ==> row in RowsOf(written.tables, t))
    && (forall r :: r in AllRefs(written.tables) ==> r in AllRefs(source) || Derived(f, r))
  }

  lemma AllWrittenRefs(f: Fixture, db: Db, source: Tables, createdAt: string, plan: Plan)
    requires Importable(f, source) && IsPlanFor(f, source, createdAt, plan)
    ensures EveryTable(plan.tables)
    ensures forall r :: r in AllRefs(Suppressed(f, db, plan).tables) ==> r in AllRefs(source) || Derived(f, r)
  {
    forall r | r in AllRefs(Suppressed(f, db, plan).tables) ensures r in AllRefs(source) || Derived(f, r) {
      WrittenRefs(f, db, source, createdAt, plan, r);
    }
  }

  lemma WritableRowsWrite(f: Fixture, source: Tables, written: Plan)
    requires Writable(f, source, written.tables) && SkuIds(source) <= f.skus
    requires forall r :: r in AllRefs(written.tables) ==> r in AllRefs(source) || Derived(f, r)
    ensures Writes(f, source, written)
  {
    forall t, row | row in RowsOf(source, t) ensures row in RowsOf(written.tables, t) {
      assert row in source[t];
    }
  }

  lemma ImportWrites(f: Fixture, db: Db, source: Tables, createdAt: string, plan: Plan)
    requires Importable(f, source) && IsPlanFor(f, source, createdAt, plan)
    ensures EveryTable(plan.tables) && Writes(f, source, Suppressed(f, db, plan))
  {
    PlannedRowsAreWritable(f, db, source, createdAt, plan);
    AllWrittenRefs(f, db, source, createdAt, plan);
    WritableRowsWrite(f, source, Suppressed(f, db, plan));
  }

  function RecordedKeys(previous: Option<ImportRecord>): set<RowRef> {
    if previous.None? then {} else previous.value.relationKeys
  }

  /** A relation the source once owned is there after an import if the snapshot has it, or no record says to drop it. */
  lemma RelationAfterImport(f: Fixture, db: Db, previous: Option<ImportRecord>, source: Tables, written: Plan, r: RowRef)
    requires Writes(f, source, written) && !Derived(f, r) && Reconciled(r.table)
    ensures r in ImportedRows(f, db, previous, source, written)
            <==> r in RelationKeys(source) || (r in db && r !in RecordedKeys(previous))
  {
    assert r in AllRefs(source) ==> r in RelationKeys(source);
    if r in RelationKeys(source) {
      var t, row :| Reconciled(t) && row in RowsOf(source, t) && r == RefOf(t, row);
      PlannedRows(f, db, previous, source, written, t, row, KeyColumns(t)[0]);
    } else {
      UnplannedRows(f, db, previous, source, written, r);
      NoDemoSupplier(f, previous, written.supplierFallbacks, r);
    }
  }

  lemma NoDemoSupplier(f: Fixture, previous: Option<ImportRecord>, current: seq<string>, r: RowRef)
    requires !Derived(f, r)
    ensures r !in SupersededSuppliers(f, previous, current)
  {
  }

  /** Of the keys snapshots ever carried, the relation tables hold exactly those of `source`, with its values. */
  ghost predicate Holds(rows: Db, source: Tables, ever: set<RowRef>) {
    && (forall r :: r in ever ==> (r in rows <==> r in RelationKeys(source)))
    && RelationValues(rows, source)
  }

  ghost predicate RelationValues(rows: Db, source: Tables) {
    forall t, row, c :: Reconciled(t) && row in RowsOf(source, t) && Declared(t, c)
      ==> CellAt(rows, RefOf(t, row), c) == Get(row, c)
  }

  ghost predicate OwnedKeys(f: Fixture, keys: set<RowRef>) {
    forall r :: r in keys ==> !Derived(f, r) && Reconciled(r.table)
  }

  lemma RelationKeysAreOwned(f: Fixture, source: Tables)
    requires Importable(f, source)
    ensures OwnedKeys(f, RelationKeys(source))
  {
    forall r | r in RelationKeys(source) ensures !Derived(f, r) && Reconciled(r.table) {
      var t, row :| Reconciled(t) && row in RowsOf(source, t) && r == RefOf(t, row);
      SourceRefsAreNotDerived(f, source, t, row);
    }
  }

  lemma RelationValuesAfterImport(f: Fixture, db: Db, previous: Option<ImportRecord>, source: Tables, written: Plan)
    requires Writes(f, source, written)
    ensures RelationValues(ImportedRows(f, db, previous, source, written), source)
  {
    forall t, row, c | Reconciled(t) && row in RowsOf(source, t) && Declared(t, c)
      ensures CellAt(ImportedRows(f, db, previous, source, written), RefOf(t, row), c) == Get(row, c)
    {
      PlannedRows(f, db, previous, source, written, t, row, c);
    }
  }

  /** An import leaves the relation tables agreeing with its snapshot exactly if its record names all it must drop. */
  lemma ImportKeepsIndex(f: Fixture, db: Db, previous: Option<ImportRecord>, source: Tables, written: Plan,
                         last: Tables, ever: set<RowRef>)
    requires Writes(f, source, written) && OwnedKeys(f, RelationKeys(source))
    requires Holds(db, last, ever) && RelationKeys(last) <= ever && OwnedKeys(f, ever)
    ensures Holds(ImportedRows(f, db, previous, source, written), source, ever + RelationKeys(source))
            <==> RelationKeys(last) - RelationKeys(source) <= RecordedKeys(previous)
  {
    RelationValuesAfterImport(f, db, previous, source, written);
    forall r | r in ever + RelationKeys(source)
      ensures r in ImportedRows(f, db, previous, source, written)
              <==> r in RelationKeys(source) || (r in db && r !in RecordedKeys(previous))
    {
      RelationAfterImport(f, db, previous, source, written, r);
    }
    IndexArithmetic(db, ImportedRows(f, db, previous, source, written), last, source, RecordedKeys(previous), ever);
  }

  lemma IndexArithmetic(db: Db, after: Db, last: Tables, source: Tables, recorded: set<RowRef>, ever: set<RowRef>)
    requires Holds(db, last, ever) && RelationKeys(last) <= ever && RelationValues(after, source)
    requires forall r :: r in ever + RelationKeys(source)
               ==> (r in after <==> r in RelationKeys(source) || (r in db && r !in recorded))
    ensures Holds(after, source, ever + RelationKeys(source)) <==> RelationKeys(last) - RelationKeys(source) <= recorded
  {
    var now, owned, kept := ever + RelationKeys(source), RelationKeys(last), RelationKeys(source);
    if Holds(after, source, now) {
      forall r | r in owned - kept ensures r in recorded {
        assert r in now;
      }
    }
  }

  /** A row neither the snapshot, nor the last record, nor a fallback names is as it was. */
  lemma ImportFrame(f: Fixture, db: Db, previous: Option<ImportRecord>, source: Tables, written: Plan, r: RowRef)
    requires Writes(f, source, written)
    requires !Derived(f, r) && r !in AllRefs(source) && r !in RecordedKeys(previous)
    ensures r in ImportedRows(f, db, previous, source, written) <==> r in db
    ensures r in db ==> ImportedRows(f, db, previous, source, written)[r] == db[r]
  {
    UnplannedRows(f, db, previous, source, written, r);
    NoDemoSupplier(f, previous, written.supplierFallbacks, r);
    if r in SupersededChains(f, source, written) {
      SupersededChainsAreDerived(f, source, written, r);
    }
  }

  lemma SupersededChainsAreDerived(f: Fixture, source: Tables, plan: Plan, r: RowRef)
    requires r in SupersededChains(f, source, plan) && SkuIds(source) <= f.skus
    ensures Derived(f, r)
  {
    var sku :| sku in RowsOf(source, Skus) && Text(sku, Id) !in SyntheticSkus(plan)
               && (r == RowRef(ProductVariants, [Str(f.idsOf(Text(sku, Id)).variant)])
                   || r == RowRef(ProductMasterVersions, [Str(f.idsOf(Text(sku, Id)).version)]));
    assert ChainIdOf(f, Text(sku, Id), StringOf(r.key[0]));
  }

  // ---- Runs ------------------------------------------------------------------------------------------------

  datatype Commit = Commit(i: Import, previous: Option<ImportRecord>, plan: Plan)

  /** A sequence of committed imports into a target without import records. */
  ghost predicate Run(f: Fixture, states: seq<Target>, commits: seq<Commit>) {
    && |states| == |commits| + 1 && states[0].imports == map[]
    && forall k :: 0 <= k < |commits| ==> CommittedAt(f, states, commits, k)
  }

  ghost predicate CommittedAt(f: Fixture, states: seq<Target>, commits: seq<Commit>, k: nat)
    requires |states| == |commits| + 1 && k < |commits|
  {
    Committed(f, states[k], states[k + 1], commits[k])
  }

  ghost predicate Committed(f: Fixture, before: Target, after: Target, c: Commit) {
    Applies(f, before, after, c.i, c.previous, c.plan)
  }

  /** What a committed import is to the target, without the plan behind it. */
  ghost predicate Step(f: Fixture, before: Target, after: Target, c: Commit, written: Plan) {
    && Writes(f, c.i.source, written) && OwnedKeys(f, RelationKeys(c.i.source)) && IsLatest(before.imports, c.previous)
    && after == Target(ImportedRows(f, before.rows, c.previous, c.i.source, written), WithRecord(before.imports, c.i, written))
  }

  lemma CommittedIsStep(f: Fixture, before: Target, after: Target, c: Commit) returns (written: Plan)
    requires Committed(f, before, after, c)
    ensures Step(f, before, after, c, written)
  {
    ImportWrites(f, before.rows, c.i.source, c.i.createdAt, c.plan);
    RelationKeysAreOwned(f, c.i.source);
    written := Suppressed(f, before.rows, c.plan);
  }

  lemma StepOfRun(f: Fixture, states: seq<Target>, commits: seq<Commit>, n: nat) returns (written: Plan)
    requires Run(f, states, commits) && n < |commits|
    ensures Step(f, states[n], states[n + 1], commits[n], written)
  {
    assert CommittedAt(f, states, commits, n);
    written := CommittedIsStep(f, states[n], states[n + 1], commits[n]);
  }

  predicate IncreasingTimes(commits: seq<Commit>) {
    forall j, k :: 0 <= j < k < |commits| ==> commits[j].i.generatedAt < commits[k].i.generatedAt
  }

  /** Every relation key of the first `n` snapshots. */
  function Ever(commits: seq<Commit>, n: nat): set<RowRef>
    requires n <= |commits|
  {
    if n == 0 then {} else Ever(commits, n - 1) + RelationKeys(commits[n - 1].i.source)
  }

  lemma {:induction false} EverHas(commits: seq<Commit>, n: nat, k: nat)
    requires k < n <= |commits|
    ensures RelationKeys(commits[k].i.source) <= Ever(commits, n)
  {
    if k < n - 1 {
      EverHas(commits, n - 1, k);
    }
  }

  lemma OwnedTogether(f: Fixture, keys: set<RowRef>, more: set<RowRef>)
    requires OwnedKeys(f, keys) && OwnedKeys(f, more)
    ensures OwnedKeys(f, keys + more)
  {
  }

  lemma {:induction false} AllOwned(f: Fixture, commits: seq<Commit>, n: nat)
    requires n <= |commits| && forall k :: 0 <= k < n ==> OwnedKeys(f, RelationKeys(commits[k].i.source))
    ensures OwnedKeys(f, Ever(commits, n))
  {
    if n > 0 {
      AllOwned(f, commits, n - 1);
      OwnedTogether(f, Ever(commits, n - 1), RelationKeys(commits[n - 1].i.source));
    }
  }

  lemma EverIsOwned(f: Fixture, states: seq<Target>, commits: seq<Commit>, n: nat)
    requires Run(f, states, commits) && n <= |commits|
    ensures OwnedKeys(f, Ever(commits, n))
  {
    forall k | 0 <= k < n ensures OwnedKeys(f, RelationKeys(commits[k].i.source)) {
      OwnedInRun(f, states, commits, k);
    }
    AllOwned(f, commits, n);
  }

  lemma OwnedInRun(f: Fixture, states: seq<Target>, commits: seq<Commit>, n: nat)
    requires Run(f, states, commits) && n < |commits|
    ensures OwnedKeys(f, RelationKeys(commits[n].i.source))
  {
    var written := StepOfRun(f, states, commits, n);
  }

  predicate RecordOf(record: ImportRecord, i: Import) {
    record.generatedAt == i.generatedAt && record.relationKeys == RelationKeys(i.source)
  }

  /** Every record is that of a past import. */
  ghost predicate PastRecords(imports: map<string, ImportRecord>, commits: seq<Commit>, n: nat)
    requires n <= |commits|
  {
    forall id :: id in imports ==> exists k :: 0 <= k < n && RecordOf(imports[id], commits[k].i)
  }

  lemma RecordIsPast(imports: map<string, ImportRecord>, commits: seq<Commit>, n: nat, id: string) returns (k: nat)
    requires n <= |commits| && PastRecords(imports, commits, n) && id in imports
    ensures k < n && RecordOf(imports[id], commits[k].i)
  {
    k :| k < n && RecordOf(imports[id], commits[k].i);
  }

  lemma PastRecordsStep(imports: map<string, ImportRecord>, commits: seq<Commit>, n: nat, written: Plan)
    requires n < |commits| && PastRecords(imports, commits, n)
    ensures PastRecords(WithRecord(imports, commits[n].i, written), commits, n + 1)
    ensures commits[n].i.snapshotId in WithRecord(imports, commits[n].i, written)
    ensures RecordOf(WithRecord(imports, commits[n].i, written)[commits[n].i.snapshotId], commits[n].i)
  {
    var i := commits[n].i;
    var after := WithRecord(imports, i, written);
    assert RecordOf(after[i.snapshotId], i);
    forall id | id in after ensures exists k :: 0 <= k < n + 1 && RecordOf(after[id], commits[k].i) {
      if id != i.snapshotId {
        var k :| 0 <= k < n && RecordOf(imports[id], commits[k].i);
        assert RecordOf(after[id], commits[k].i);
      }
    }
  }

  /** The records after `n` imports are those of past imports, the last of them among them. */
  lemma {:induction false} RecordsOfRun(f: Fixture, states: seq<Target>, commits: seq<Commit>, n: nat)
    requires Run(f, states, commits) && n <= |commits|
    ensures PastRecords(states[n].imports, commits, n)
    ensures n > 0 ==> commits[n - 1].i.snapshotId in states[n].imports
                      && RecordOf(states[n].imports[commits[n - 1].i.snapshotId], commits[n - 1].i)
  {
    if n > 0 {
      RecordsOfRun(f, states, commits, n - 1);
      RecordedInRun(f, states, commits, n - 1);
    }
  }

  lemma RecordedInRun(f: Fixture, states: seq<Target>, commits: seq<Commit>, n: nat)
    requires Run(f, states, commits) && n < |commits| && PastRecords(states[n].imports, commits, n)
    ensures PastRecords(states[n + 1].imports, commits, n + 1)
    ensures commits[n].i.snapshotId in states[n + 1].imports
    ensures RecordOf(states[n + 1].imports[commits[n].i.snapshotId], commits[n].i)
  {
    var written := StepOfRun(f, states, commits, n);
    PastRecordsStep(states[n].imports, commits, n, written);
  }

  lemma PreviousInRun(f: Fixture, states: seq<Target>, commits: seq<Commit>, n: nat)
    requires Run(f, states, commits) && n < |commits|
    ensures IsLatest(states[n].imports, commits[n].previous)
  {
    var written := StepOfRun(f, states, commits, n);
  }

  lemma IndexInRun(f: Fixture, states: seq<Target>, commits: seq<Commit>, n: nat, last: Tables, ever: set<RowRef>)
    requires Run(f, states, commits) && n < |commits|
    requires Holds(states[n].rows, last, ever) && RelationKeys(last) <= ever && OwnedKeys(f, ever)
    ensures Holds(states[n + 1].rows, commits[n].i.source, ever + RelationKeys(commits[n].i.source))
            <==> RelationKeys(last) - RelationKeys(commits[n].i.source) <= RecordedKeys(commits[n].previous)
  {
    var written := StepOfRun(f, states, commits, n);
    ImportKeepsIndex(f, states[n].rows, commits[n].previous, commits[n].i.source, written, last, ever);
  }

  predicate SameRow(before: Db, after: Db, r: RowRef) {
    (r in after <==> r in before) && (r in before ==> after[r] == before[r])
  }

  lemma FrameInRun(f: Fixture, states: seq<Target>, commits: seq<Commit>, n: nat, r: RowRef)
    requires Run(f, states, commits) && n < |commits|
    requires !Derived(f, r) && r !in AllRefs(commits[n].i.source) && r !in RecordedKeys(commits[n].previous)
    ensures SameRow(states[n].rows, states[n + 1].rows, r)
  {
    var written := StepOfRun(f, states, commits, n);
    ImportFrame(f, states[n].rows, commits[n].previous, commits[n].i.source, written, r);
  }

  lemma NewestRecordIsLatest(earlier: map<string, ImportRecord>, commits: seq<Commit>, n: nat, record: ImportRecord,
                             previous: Option<ImportRecord>)
    requires n < |commits| && IncreasingTimes(commits) && PastRecords(earlier, commits, n) && RecordOf(record, commits[n].i)
    requires IsLatest(earlier[commits[n].i.snapshotId := record], previous)
    ensures previous == Some(record)
  {
    var imports := earlier[commits[n].i.snapshotId := record];
    forall id | id in earlier ensures earlier[id].generatedAt < record.generatedAt {
      var k := RecordIsPast(earlier, commits, n, id);
    }
    assert commits[n].i.snapshotId in imports;
    var id :| LatestAt(imports, id) && previous == Some(imports[id]);
    assert imports[commits[n].i.snapshotId].generatedAt <= imports[id].generatedAt;
  }

  /** The record an import of a run writes. */
  ghost function RecordAt(f: Fixture, states: seq<Target>, commits: seq<Commit>, n: nat): ImportRecord
    requires |states| == |commits| + 1 && n < |commits| && EveryTable(commits[n].plan.tables)
  {
    ImportRecord(commits[n].i.generatedAt, RelationKeys(commits[n].i.source),
                 set id | id in Suppressed(f, states[n].rows, commits[n].plan).supplierFallbacks)
  }

  /** The latest record an import of a run finds is that of the import before it, under increasing extraction times. */
  lemma PreviousIsTheLastRecord(f: Fixture, states: seq<Target>, commits: seq<Commit>, n: nat)
    requires Run(f, states, commits) && IncreasingTimes(commits) && n + 1 < |commits|
    ensures EveryTable(commits[n].plan.tables) && commits[n + 1].previous == Some(RecordAt(f, states, commits, n))
  {
    RecordsOfRun(f, states, commits, n);
    PreviousInRun(f, states, commits, n + 1);
    assert CommittedAt(f, states, commits, n);
    NewestRecordIsLatest(states[n].imports, commits, n, RecordAt(f, states, commits, n), commits[n + 1].previous);
  }

  lemma PreviousKeys(f: Fixture, states: seq<Target>, commits: seq<Commit>, n: nat)
    requires Run(f, states, commits) && IncreasingTimes(commits) && n + 1 < |commits|
    ensures RecordedKeys(commits[n + 1].previous) == RelationKeys(commits[n].i.source)
  {
    PreviousIsTheLastRecord(f, states, commits, n);
  }

  lemma LatestIsSomeImport(imports: map<string, ImportRecord>, commits: seq<Commit>, n: nat, previous: Option<ImportRecord>,
                           ever: set<RowRef>)
    requires n <= |commits| && PastRecords(imports, commits, n) && IsLatest(imports, previous)
    requires ever == Ever(commits, n)
    ensures RecordedKeys(previous) <= ever
  {
    if imports != map[] {
      var id :| LatestAt(imports, id) && previous == Some(imports[id]);
      var k :| 0 <= k < n && RecordOf(imports[id], commits[k].i);
      EverHas(commits, n, k);
    }
  }

  lemma PreviousIsSomeImport(f: Fixture, states: seq<Target>, commits: seq<Commit>, n: nat)
    requires Run(f, states, commits) && n < |commits|
    ensures RecordedKeys(commits[n].previous) <= Ever(commits, n)
  {
    RecordsOfRun(f, states, commits, n);
    PreviousInRun(f, states, commits, n);
    LatestIsSomeImport(states[n].imports, commits, n, commits[n].previous, Ever(commits, n));
  }

  lemma IndexGoesOn(f: Fixture, states: seq<Target>, commits: seq<Commit>, n: nat)
    requires Run(f, states, commits) && IncreasingTimes(commits) && 0 < n < |commits|
    requires Holds(states[n].rows, commits[n - 1].i.source, Ever(commits, n))
    ensures Holds(states[n + 1].rows, commits[n].i.source, Ever(commits, n + 1))
  {
    PreviousKeys(f, states, commits, n - 1);
    EverIsOwned(f, states, commits, n);
    EverHas(commits, n, n - 1);
    RecordedIsDropped(f, states, commits, n, commits[n - 1].i.source, Ever(commits, n));
    assert Ever(commits, n + 1) == Ever(commits, n) + RelationKeys(commits[n].i.source);
  }

  lemma RecordedIsDropped(f: Fixture, states: seq<Target>, commits: seq<Commit>, n: nat, last: Tables, ever: set<RowRef>)
    requires Run(f, states, commits) && n < |commits| && RecordedKeys(commits[n].previous) == RelationKeys(last)
    requires Holds(states[n].rows, last, ever) && RelationKeys(last) <= ever && OwnedKeys(f, ever)
    ensures Holds(states[n + 1].rows, commits[n].i.source, ever + RelationKeys(commits[n].i.source))
  {
    IndexInRun(f, states, commits, n, last, ever);
  }

  /** After every import of a run the relation tables agree with the last snapshot. */
  lemma {:induction false} RunKeepsIndex(f: Fixture, states: seq<Target>, commits: seq<Commit>, n: nat)
    requires Run(f, states, commits) && IncreasingTimes(commits) && 0 < n <= |commits|
    ensures Holds(states[n].rows, commits[n - 1].i.source, Ever(commits, n))
  {
    if n == 1 {
      IndexStarts(f, states, commits);
    } else {
      RunKeepsIndex(f, states, commits, n - 1);
      IndexGoesOn(f, states, commits, n - 1);
    }
  }

  lemma IndexStarts(f: Fixture, states: seq<Target>, commits: seq<Commit>)
    requires Run(f, states, commits) && commits != []
    ensures Holds(states[1].rows, commits[0].i.source, Ever(commits, 1))
  {
    NothingImported(f, states[0].rows);
    NothingIsDropped(f, states, commits, map[], {});
    assert Ever(commits, 1) == {} + RelationKeys(commits[0].i.source);
  }

  lemma NothingIsDropped(f: Fixture, states: seq<Target>, commits: seq<Commit>, last: Tables, ever: set<RowRef>)
    requires Run(f, states, commits) && commits != [] && RelationKeys(last) == {}
    requires Holds(states[0].rows, last, ever) && OwnedKeys(f, ever)
    ensures Holds(states[1].rows, commits[0].i.source, ever + RelationKeys(commits[0].i.source))
  {
    IndexInRun(f, states, commits, 0, last, ever);
  }

  lemma NothingImported(f: Fixture, db: Db)
    ensures RelationKeys(map[]) == {} && Holds(db, map[], {}) && OwnedKeys(f, {})
  {
  }

  /** Rows no snapshot and no fallback ever named are as they were before the first import. */
  lemma {:induction false} RunLeavesOtherRows(f: Fixture, states: seq<Target>, commits: seq<Commit>, n: nat, r: RowRef)
    requires Run(f, states, commits) && n <= |commits| && !Derived(f, r)
    requires forall k :: 0 <= k < n ==> r !in AllRefs(commits[k].i.source)
    ensures SameRow(states[0].rows, states[n].rows, r)
  {
    if n > 0 {
      RunLeavesOtherRows(f, states, commits, n - 1, r);
      NotRecordedInRun(f, states, commits, n - 1, r);
      FrameInRun(f, states, commits, n - 1, r);
    }
  }

  lemma NotRecordedInRun(f: Fixture, states: seq<Target>, commits: seq<Commit>, n: nat, r: RowRef)
    requires Run(f, states, commits) && n < |commits|
    requires forall k :: 0 <= k < n ==> r !in AllRefs(commits[k].i.source)
    ensures r !in RecordedKeys(commits[n].previous)
  {
    EverIsFromSources(commits, n, r);
    PreviousIsSomeImport(f, states, commits, n);
  }

  lemma {:induction false} EverIsFromSources(commits: seq<Commit>, n: nat, r: RowRef)
    requires n <= |commits| && forall k :: 0 <= k < n ==> r !in AllRefs(commits[k].i.source)
    ensures r !in Ever(commits, n)
  {
    if n > 0 {
      EverIsFromSources(commits, n - 1, r);
      assert r !in AllRefs(commits[n - 1].i.source);
      assert RelationKeys(commits[n - 1].i.source) <= AllRefs(commits[n - 1].i.source);
    }
  }

  // ---- Fallback rows over runs -----------------------------------------------------------------------------

  /** A SKU of an importable source has a link in the plan exactly if it is physical and has no path to sell. */
  lemma LinkedExactly(f: Fixture, source: Tables, createdAt: string, plan: Plan, sku: Row)
    requires Importable(f, source) && IsPlanFor(f, source, createdAt, plan) && sku in source[Skus]
    ensures HasLink(plan.synthetic, Text(sku, Id)) <==> Get(sku, StockType) == Str("physical") && !Sells(source, Text(sku, Id))
  {
    var link := Link(Text(sku, Id), Get(sku, IsDeleted) == Flag(true), Get(sku, GroupId));
    ChainsExactly(f, source, createdAt, plan, link);
    assert Get(sku, StockType) == Str("physical") && !Sells(source, Text(sku, Id)) ==> GetsChain(source, sku, link);
    if l :| l in plan.synthetic && l.skuId == Text(sku, Id) {
      ChainsExactly(f, source, createdAt, plan, l);
      var other :| GetsChain(source, other, l);
      var i :| 0 <= i < |source[Skus]| && source[Skus][i] == sku;
      var j :| 0 <= j < |source[Skus]| && source[Skus][j] == other;
      assert i == j;
    }
  }

  /**
   After every import of a run, of a SKU of the last snapshot: a physical one without a path to sell has its fallback
   variant and version, active exactly if it is live; of any other, none an earlier import left is active.
   */
  lemma RunChainsFollow(f: Fixture, states: seq<Target>, commits: seq<Commit>, n: nat, sku: Row)
    requires Run(f, states, commits) && 0 < n <= |commits| && sku in RowsOf(commits[n - 1].i.source, Skus)
    ensures ChainFollows(states[n].rows, f.idsOf(Text(sku, Id)),
                         Get(sku, StockType) == Str("physical") && !Sells(commits[n - 1].i.source, Text(sku, Id)),
                         Get(sku, IsDeleted) != Flag(true))
  {
    assert CommittedAt(f, states, commits, n - 1);
    var c := commits[n - 1];
    ImportedChainsFollow(f, states[n - 1].rows, c.previous, c.i.source, c.i.createdAt, c.plan);
    LinkedExactly(f, c.i.source, c.i.createdAt, c.plan, sku);
  }

  /** The SKUs an import wrote demo suppliers for. */
  ghost predicate DemoSupplied(f: Fixture, states: seq<Target>, commits: seq<Commit>, n: nat, id: string)
    requires |states| == |commits| + 1 && n < |commits|
  {
    && !HasOwnSupplier(f, states[n].rows, id)
    && exists sku :: LacksSupplier(commits[n].i.source, sku) && Text(sku, Id) == id
  }

  lemma DemoSuppliedExactly(f: Fixture, states: seq<Target>, commits: seq<Commit>, n: nat, id: string)
    requires Run(f, states, commits) && n < |commits|
    ensures EveryTable(commits[n].plan.tables)
    ensures DemoSupplied(f, states, commits, n, id)
            <==> id in Suppressed(f, states[n].rows, commits[n].plan).supplierFallbacks
    ensures DemoSupplied(f, states, commits, n, id)
            <==> id in commits[n].plan.supplierFallbacks && !HasOwnSupplier(f, states[n].rows, id)
  {
    var c := commits[n];
    PlanOfCommit(f, states, commits, n);
    SupplierFallbacksExactly(f, c.i.source, c.i.createdAt, c.plan, id);
    DemoSupplierIsRecorded(f, states[n].rows, c.plan, id);
  }

  lemma PlanOfCommit(f: Fixture, states: seq<Target>, commits: seq<Commit>, n: nat)
    requires Run(f, states, commits) && n < |commits|
    ensures IsPlanFor(f, commits[n].i.source, commits[n].i.createdAt, commits[n].plan) && EveryTable(commits[n].plan.tables)
  {
    assert CommittedAt(f, states, commits, n);
  }

  lemma DemoIsNoRelation(f: Fixture, states: seq<Target>, commits: seq<Commit>, n: nat, id: string)
    requires Run(f, states, commits) && n < |commits|
    ensures DemoSupplierRef(f, id) !in RecordedKeys(commits[n].previous)
  {
    PreviousIsSomeImport(f, states, commits, n);
    EverIsOwned(f, states, commits, n);
    assert Derived(f, DemoSupplierRef(f, id));
  }

  lemma DemoSupplierStep(f: Fixture, states: seq<Target>, commits: seq<Commit>, n: nat, id: string)
    requires Run(f, states, commits) && n < |commits|
    ensures DemoSupplierRef(f, id) in states[n + 1].rows
            <==> DemoSupplied(f, states, commits, n, id)
                 || (&& DemoSupplierRef(f, id) in states[n].rows
                     && (commits[n].previous.Some? ==> id !in commits[n].previous.value.fallbackSkus))
  {
    var c := commits[n];
    assert CommittedAt(f, states, commits, n);
    DemoSuppliedExactly(f, states, commits, n, id);
    DemoIsNoRelation(f, states, commits, n, id);
    DemoSupplierAfterImport(f, states[n].rows, c.previous, c.i.source, c.i.createdAt, c.plan, id);
  }

  /**
   After every import of a run the demo suppliers the target did not start with are those the last import needed: of
   live physical SKUs for which neither its snapshot nor the target before it had a supplier.
   */
  lemma {:induction false} RunDemoSuppliersFollow(f: Fixture, states: seq<Target>, commits: seq<Commit>, n: nat, id: string)
    requires Run(f, states, commits) && IncreasingTimes(commits) && 0 < n <= |commits|
    requires DemoSupplierRef(f, id) !in states[0].rows
    ensures DemoSupplierRef(f, id) in states[n].rows <==> DemoSupplied(f, states, commits, n - 1, id)
  {
    DemoSupplierStep(f, states, commits, n - 1, id);
    if 1 < n {
      RunDemoSuppliersFollow(f, states, commits, n - 1, id);
      PreviousIsTheLastRecord(f, states, commits, n - 2);
      DemoSuppliedExactly(f, states, commits, n - 2, id);
    }
  }

  // ---- Equal extraction times ------------------------------------------------------------------------------

  ghost function PlanOf(f: Fixture, source: Tables, createdAt: string): (plan: Plan)
    requires EveryTable(source)
    ensures IsPlanFor(f, source, createdAt, plan) && EveryTable(plan.tables)
  {
    var links, ids := Chained(UsableSkus(source), source[Skus]), Unsupplied(SuppliedSkus(source), source[Skus]);
    Plan(map t: Table | t in source :: source[t] + Added(f, t, links, ids, createdAt), links, ids)
  }

  ghost function Next(f: Fixture, before: Target, i: Import, previous: Option<ImportRecord>, plan: Plan): Target
    requires EveryTable(plan.tables)
  {
    var written := Suppressed(f, before.rows, plan);
    Target(ImportedRows(f, before.rows, previous, i.source, written), WithRecord(before.imports, i, written))
  }

  lemma NextApplies(f: Fixture, before: Target, i: Import, previous: Option<ImportRecord>, plan: Plan)
    requires Importable(f, i.source) && IsPlanFor(f, i.source, i.createdAt, plan) && EveryTable(plan.tables)
    requires IsLatest(before.imports, previous) && !Stale(before.imports, i.generatedAt)
    ensures Applies(f, before, Next(f, before, i, previous, plan), i, previous, plan)
  {
  }

  /** Records of equal extraction times are all the latest, and none of them makes a snapshot of that time stale. */
  lemma TiesAreAllLatest(imports: map<string, ImportRecord>, first: string, last: string)
    requires LatestAt(imports, last) && first in imports && imports[first].generatedAt == imports[last].generatedAt
    ensures IsLatest(imports, Some(imports[first])) && !Stale(imports, imports[last].generatedAt)
  {
    assert LatestAt(imports, first);
  }

  /**
   After an import without relations and one with some, both of one extraction time, the database may take the first
   record for the latest: importing a snapshot without relations then leaves those of the second behind.
   */
  lemma EqualTimesMayKeepDroppedRows(f: Fixture, before: Target, full: Tables, i: Import, first: string, last: string)
      returns (after: Target, plan: Plan)
    requires Importable(f, i.source) && RelationKeys(i.source) == {} && OwnedKeys(f, RelationKeys(full))
    requires RelationKeys(full) != {} && Holds(before.rows, full, RelationKeys(full))
    requires LatestAt(before.imports, last) && before.imports[last].relationKeys == RelationKeys(full)
    requires first in before.imports && before.imports[first].relationKeys == {}
    requires before.imports[first].generatedAt == before.imports[last].generatedAt == i.generatedAt
    ensures Applies(f, before, after, i, Some(before.imports[first]), plan)
    ensures !Holds(after.rows, i.source, RelationKeys(full) + RelationKeys(i.source))
  {
    plan := PlanOf(f, i.source, i.createdAt);
    after := Next(f, before, i, Some(before.imports[first]), plan);
    TiesAreAllLatest(before.imports, first, last);
    NextApplies(f, before, i, Some(before.imports[first]), plan);
    ImportWrites(f, before.rows, i.source, i.createdAt, plan);
    DroppedKeysStay(f, before.rows, Some(before.imports[first]), i.source, Suppressed(f, before.rows, plan), full);
  }

  lemma DroppedKeysStay(f: Fixture, db: Db, previous: Option<ImportRecord>, source: Tables, written: Plan, full: Tables)
    requires Writes(f, source, written) && RelationKeys(source) == {} && RecordedKeys(previous) == {}
    requires RelationKeys(full) != {} && Holds(db, full, RelationKeys(full)) && OwnedKeys(f, RelationKeys(full))
    ensures !Holds(ImportedRows(f, db, previous, source, written), source, RelationKeys(full) + RelationKeys(source))
  {
    ImportKeepsIndex(f, db, previous, source, written, full, RelationKeys(full));
    var r :| r in RelationKeys(full);
    assert r in RelationKeys(full) - RelationKeys(source);
  }

  lemma RelationRowsHaveKeys(source: Tables, t: Table, row: Row)
    requires Reconciled(t) && row in RowsOf(source, t)
    ensures RefOf(t, row) in RelationKeys(source)
  {
  }

  lemma BareHolds(rows: Db, source: Tables)
    requires RelationKeys(source) == {}
    ensures Holds(rows, source, {})
  {
    forall t, row | Reconciled(t) && row in RowsOf(source, t) ensures false {
      RelationRowsHaveKeys(source, t, row);
    }
  }

  /** The target after an import of `full` over a target without relations. */
  lemma FullHolds(f: Fixture, before: Target, bare: Tables, i: Import, previous: Option<ImportRecord>, plan: Plan)
    requires RelationKeys(bare) == {} && Importable(f, i.source) && IsPlanFor(f, i.source, i.createdAt, plan)
    requires EveryTable(plan.tables)
    ensures Holds(Next(f, before, i, previous, plan).rows, i.source, RelationKeys(i.source))
    ensures OwnedKeys(f, RelationKeys(i.source))
  {
    BareHolds(before.rows, bare);
    ImportWrites(f, before.rows, i.source, i.createdAt, plan);
    RelationKeysAreOwned(f, i.source);
    ImportKeepsIndex(f, before.rows, previous, i.source, Suppressed(f, before.rows, plan), bare, {});
  }

  /** A relation that is another name for committing an import. */
  ghost predicate NamesCommits(f: Fixture, commits: (Target, Target, Commit) -> bool) {
    forall before, after, c {:trigger Committed(f, before, after, c)} ::
      commits(before, after, c) <==> Committed(f, before, after, c)
  }

  lemma LinkedIsRun(f: Fixture, link: (Target, Target, Commit) -> bool, states: seq<Target>, commits: seq<Commit>)
    requires NamesCommits(f, link) && |states| == |commits| + 1 && states[0].imports == map[]
    requires forall k :: 0 <= k < |commits| ==> link(states[k], states[k + 1], commits[k])
    ensures Run(f, states, commits)
  {
    forall k | 0 <= k < |commits| ensures CommittedAt(f, states, commits, k) {
      assert link(states[k], states[k + 1], commits[k]);
    }
  }

  lemma RecordIsAdded(imports: map<string, ImportRecord>, i: Import, written: Plan)
    ensures var after := WithRecord(imports, i, written);
            && after.Keys == imports.Keys + {i.snapshotId} && RecordOf(after[i.snapshotId], i)
            && (forall id :: id in imports && id != i.snapshotId ==> after[id] == imports[id])
  {
  }

  lemma NextHasRecord(f: Fixture, before: Target, i: Import, previous: Option<ImportRecord>, plan: Plan)
    requires EveryTable(plan.tables)
    ensures var imports := Next(f, before, i, previous, plan).imports;
            && imports.Keys == before.imports.Keys + {i.snapshotId} && RecordOf(imports[i.snapshotId], i)
            && (forall id :: id in before.imports && id != i.snapshotId ==> imports[id] == before.imports[id])
  {
    RecordIsAdded(before.imports, i, Suppressed(f, before.rows, plan));
  }

  /** An import over a target without relations that takes `previous` for the latest record. */
  lemma CommitOver(f: Fixture, link: (Target, Target, Commit) -> bool, before: Target, bare: Tables, i: Import,
                   previous: Option<ImportRecord>)
      returns (s: Target, c: Commit)
    requires NamesCommits(f, link)
    requires Importable(f, i.source) && IsLatest(before.imports, previous) && !Stale(before.imports, i.generatedAt)
    requires RelationKeys(bare) == {}
    ensures link(before, s, c) && c.i == i
    ensures s.imports.Keys == before.imports.Keys + {i.snapshotId} && RecordOf(s.imports[i.snapshotId], i)
    ensures forall id :: id in before.imports && id != i.snapshotId ==> s.imports[id] == before.imports[id]
    ensures Holds(s.rows, i.source, RelationKeys(i.source)) && OwnedKeys(f, RelationKeys(i.source))
  {
    var plan := PlanOf(f, i.source, i.createdAt);
    s, c := Next(f, before, i, previous, plan), Commit(i, previous, plan);
    NextApplies(f, before, i, previous, plan);
    assert Committed(f, before, s, c);
    NextHasRecord(f, before, i, previous, plan);
    FullHolds(f, before, bare, i, previous, plan);
  }

  /** Records of one time: each of them may be taken for the latest. */
  predicate OneTime(imports: map<string, ImportRecord>, time: int) {
    forall id :: id in imports ==> imports[id].generatedAt == time
  }

  lemma AnyMayBeLatest(imports: map<string, ImportRecord>, time: int, id: string)
    requires OneTime(imports, time) && id in imports
    ensures IsLatest(imports, Some(imports[id])) && LatestAt(imports, id) && !Stale(imports, time)
  {
    assert LatestAt(imports, id);
  }

  lemma EverOfThree(commits: seq<Commit>)
    requires |commits| == 3
    ensures Ever(commits, 3) == RelationKeys(commits[0].i.source) + RelationKeys(commits[1].i.source)
                                + RelationKeys(commits[2].i.source)
  {
    assert Ever(commits, 0) == {};
    assert Ever(commits, 1) == RelationKeys(commits[0].i.source);
    assert Ever(commits, 2) == Ever(commits, 1) + RelationKeys(commits[1].i.source);
  }

  lemma FirstOfOneTime(f: Fixture, link: (Target, Target, Commit) -> bool, start: Target, bare: Import)
      returns (s: Target, c: Commit)
    requires NamesCommits(f, link)
    requires start.imports == map[] && Importable(f, bare.source) && RelationKeys(bare.source) == {}
    ensures link(start, s, c) && c.i == bare
    ensures s.imports.Keys == {bare.snapshotId} && RecordOf(s.imports[bare.snapshotId], bare)
  {
    s, c := CommitOver(f, link, start, bare.source, bare, None);
    assert s.imports.Keys == {bare.snapshotId};
  }

  /** The records after two imports of one time, of which the second has relations. */
  ghost predicate BothRecorded(f: Fixture, s: Target, bare: Import, full: Import) {
    && s.imports.Keys == {bare.snapshotId, full.snapshotId}
    && RecordOf(s.imports[bare.snapshotId], bare) && RecordOf(s.imports[full.snapshotId], full)
    && Holds(s.rows, full.source, RelationKeys(full.source)) && OwnedKeys(f, RelationKeys(full.source))
  }

  lemma SecondOfOneTime(f: Fixture, link: (Target, Target, Commit) -> bool, before: Target, bare: Import, full: Import)
      returns (s: Target, c: Commit)
    requires NamesCommits(f, link)
    requires before.imports.Keys == {bare.snapshotId} && RecordOf(before.imports[bare.snapshotId], bare)
    requires RelationKeys(bare.source) == {} && Importable(f, full.source)
    requires bare.generatedAt == full.generatedAt && bare.snapshotId != full.snapshotId
    ensures link(before, s, c) && c.i == full && BothRecorded(f, s, bare, full)
  {
    AnyMayBeLatest(before.imports, bare.generatedAt, bare.snapshotId);
    s, c := CommitOver(f, link, before, bare.source, full, Some(before.imports[bare.snapshotId]));
    assert s.imports.Keys == {bare.snapshotId, full.snapshotId};
  }

  lemma ThirdOfOneTime(f: Fixture, link: (Target, Target, Commit) -> bool, before: Target, bare: Import, full: Import,
                       again: Import)
      returns (s: Target, c: Commit)
    requires NamesCommits(f, link)
    requires BothRecorded(f, before, bare, full) && Importable(f, again.source) && again.source == bare.source
    requires bare.generatedAt == full.generatedAt == again.generatedAt
    requires RelationKeys(bare.source) == {} && RelationKeys(full.source) != {}
    ensures link(before, s, c) && c.i == again
    ensures !Holds(s.rows, again.source, RelationKeys(full.source) + RelationKeys(again.source))
  {
    AnyMayBeLatest(before.imports, bare.generatedAt, full.snapshotId);
    var plan: Plan;
    s, plan := EqualTimesMayKeepDroppedRows(f, before, full.source, again, bare.snapshotId, full.snapshotId);
    c := Commit(again, Some(before.imports[bare.snapshotId]), plan);
    assert Committed(f, before, s, c);
  }

  /** Three imports of one extraction time after which relations of the second snapshot are still there. */
  lemma EqualTimesLink(f: Fixture, link: (Target, Target, Commit) -> bool, start: Target, bare: Import, full: Import,
                       again: Import)
      returns (states: seq<Target>, commits: seq<Commit>)
    requires NamesCommits(f, link)
    requires start.imports == map[] && Importable(f, bare.source) && Importable(f, full.source)
    requires again.source == bare.source && bare.generatedAt == full.generatedAt == again.generatedAt
    requires bare.snapshotId != full.snapshotId
    requires RelationKeys(bare.source) == {} && RelationKeys(full.source) != {}
    ensures |commits| == 3 && |states| == 4 && states[0] == start
    ensures forall k :: 0 <= k < |commits| ==> link(states[k], states[k + 1], commits[k])
    ensures commits[0].i == bare && commits[1].i == full && commits[2].i == again
    ensures !Holds(states[3].rows, again.source, Ever(commits, 3))
  {
    var s1, c1 := FirstOfOneTime(f, link, start, bare);
    var s2, c2 := SecondOfOneTime(f, link, s1, bare, full);
    var s3, c3 := ThirdOfOneTime(f, link, s2, bare, full, again);
    states, commits := [start, s1, s2, s3], [c1, c2, c3];
    EverOfThree(commits);
    assert Ever(commits, 3) == RelationKeys(full.source) + RelationKeys(again.source);
  }

  lemma EqualTimesRun(f: Fixture, start: Target, bare: Import, full: Import, again: Import)
      returns (states: seq<Target>, commits: seq<Commit>)
    requires start.imports == map[] && Importable(f, bare.source) && Importable(f, full.source)
    requires again.source == bare.source && bare.generatedAt == full.generatedAt == again.generatedAt
    requires bare.snapshotId != full.snapshotId
    requires RelationKeys(bare.source) == {} && RelationKeys(full.source) != {}
    ensures Run(f, states, commits) && |commits| == 3
    ensures commits[0].i == bare && commits[1].i == full && commits[2].i == again
    ensures !Holds(states[3].rows, again.source, Ever(commits, 3))
  {
    var link := (before: Target, after: Target, c: Commit) => Committed(f, before, after, c);
    states, commits := EqualTimesLink(f, link, start, bare, full, again);
    LinkedIsRun(f, link, states, commits);
  }

  // Snapshots for such a run: one without rows, and one with a SKU in a category.

  const BARE: Tables := map t: Table | 0 <= Rank(t) :: []

  const SAMPLE_FIXTURE: Fixture := Fixture(_ => ChainIds("m", "v", "x", "w", "y"), "supplier", {"sku"})

  const SKU_ROW: Row := map[Id := Str("sku")]
  const CATEGORY_ROW: Row := map[Id := Str("category")]
  const SKU_CATEGORY_ROW: Row := map[Id := Str("relation"), SkuId := Str("sku"), CategoryId := Str("category")]

  const FULL: Tables := BARE[Skus := [SKU_ROW]][Categories := [CATEGORY_ROW]][SkuCategories := [SKU_CATEGORY_ROW]]

  lemma BareHasNoRows(t: Table)
    ensures t in BARE && BARE[t] == [] && RowsOf(BARE, t) == []
  {
  }

  lemma BareIsImportable()
    ensures Importable(SAMPLE_FIXTURE, BARE) && RelationKeys(BARE) == {}
  {
    forall t: Table { BareHasNoRows(t); }
    assert SkuIds(BARE) == {};
  }

  lemma FullIsClosed()
    ensures Closed(SAMPLE_FIXTURE, FULL)
  {
    forall t, row, c | row in RowsOf(FULL, t) && References(t, c).Reference?
      ensures CellResolves(SAMPLE_FIXTURE, FULL, t, c, Get(row, c))
    {
      assert SKU_ROW in RowsOf(FULL, Skus) && CATEGORY_ROW in RowsOf(FULL, Categories);
      assert t == Skus || t == SkuCategories || t == Categories;
    }
  }

  lemma FullIsFresh()
    ensures FreshIds(SAMPLE_FIXTURE, FULL)
  {
    forall t | t in FULL ensures NamesNoChain(SAMPLE_FIXTURE, FULL[t]) {
      forall row, c | row in FULL[t] ensures |Text(row, c)| > 1 {
      }
    }
  }

  lemma FullIsImportable()
    ensures Importable(SAMPLE_FIXTURE, FULL) && RelationKeys(FULL) != {}
  {
    FullIsClosed();
    FullIsFresh();
    assert RefOf(SkuCategories, SKU_CATEGORY_ROW) in RelationKeys(FULL) by {
      assert SKU_CATEGORY_ROW in RowsOf(FULL, SkuCategories);
    }
  }

  /** Such a run exists, on any target without records. */
  lemma EqualTimesHappen(start: Target) returns (states: seq<Target>, commits: seq<Commit>)
    requires start.imports == map[]
    ensures Run(SAMPLE_FIXTURE, states, commits) && |commits| == 3 && commits[2].i.source == BARE
    ensures !Holds(states[3].rows, BARE, Ever(commits, 3))
  {
    BareIsImportable();
    FullIsImportable();
    assert "first" != "second";
    states, commits := EqualTimesRun(SAMPLE_FIXTURE, start, Import(BARE, 0, "first", ""), Import(FULL, 0, "second", ""),
                                     Import(BARE, 0, "third", ""));
  }
}
