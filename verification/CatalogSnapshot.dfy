/**
 Building a snapshot from extracted rows and the check every import starts with.

 `FreshSnapshotIsAccepted` says which part of the check normalisation and finalisation take care of: only the
 structural checks on the tables can reject a fresh snapshot. `AcceptedSnapshotIsClosed` says what that check gives
 the importer.
 */
module CatalogSnapshot {
  import opened Wrappers
  import opened CatalogSchema
  import opened CatalogNormalization

  /** The three digests of a manifest, the dates that parse, and the identifiers of the demo fixture; all abstract. */
  datatype Rules = Rules(
    ofReferences: seq<ReferenceRecord> -> string,
    ofIds: seq<string> -> string,
    ofContent: (seq<string>, map<Table, nat>, seq<SealedNormalization>, Tables) -> string,
    isTimestamp: string -> bool,
    reserved: set<string>)

  datatype SealedNormalization = SealedNormalization(
    policy: OrphanPolicy, count: nat, references: seq<ReferenceRecord>, rowIds: seq<Key>, sha256: string)

  datatype Source = Source(stage: string, readOnly: bool)

  datatype Manifest = Manifest(
    schemaVersion: nat,
    generatedAt: string,
    source: Source,
    skuIds: seq<string>,
    skuIdSha256: string,
    counts: map<Table, nat>,
    normalizations: seq<SealedNormalization>,
    contentSha256: string)

  datatype Snapshot = Snapshot(manifest: Manifest, tables: Tables)

  function Seal(rules: Rules, n: Normalization): SealedNormalization {
    SealedNormalization(n.policy, |n.references|, n.references,
                        seq(|n.references|, i requires 0 <= i < |n.references| => n.references[i].rowKey),
                        rules.ofReferences(n.references))
  }

  function SealAll(rules: Rules, ns: seq<Normalization>): seq<SealedNormalization> {
    seq(|ns|, i requires 0 <= i < |ns| => Seal(rules, ns[i]))
  }

  function SkuIds(ts: Tables): seq<string> {
    seq(|RowsOf(ts, Skus)|, i requires 0 <= i < |RowsOf(ts, Skus)| => StringOf(Get(RowsOf(ts, Skus)[i], Id)))
  }

  function Counts(ts: Tables): map<Table, nat> {
    map t | t in ts :: |ts[t]|
  }

  const SNAPSHOT_SCHEMA_VERSION := 1

  function Finalized(rules: Rules, ts: Tables, source: Source, generatedAt: string, ns: seq<SealedNormalization>): Snapshot {
    var ids := SkuIds(ts);
    Snapshot(Manifest(SNAPSHOT_SCHEMA_VERSION, generatedAt, source, ids, rules.ofIds(ids), Counts(ts), ns,
                      rules.ofContent(ids, Counts(ts), ns, ts)), ts)
  }

  // ---- The checks ------------------------------------------------------------------------------------------

  predicate ProvenanceHolds(rules: Rules, n: SealedNormalization) {
    n.count == |n.rowIds| && n.count == |n.references| && n.sha256 != "" && n.sha256 == rules.ofReferences(n.references)
  }

  predicate DeclaredColumnsOnly(t: Table, rows: seq<Row>) {
    forall i, c :: 0 <= i < |rows| && c in rows[i] ==> Declared(t, c)
  }

  /** The text the duplicate check compares: the key columns as strings. */
  function KeyText(t: Table, row: Row): seq<string> {
    var columns := KeyColumns(t);
    seq(|columns|, i requires 0 <= i < |columns| => StringOf(Get(row, columns[i])))
  }

  predicate KeysPresentAndUnique(t: Table, rows: seq<Row>) {
    && (forall i, j :: 0 <= i < j < |rows| ==> KeyText(t, rows[i]) != KeyText(t, rows[j]))
    && (forall i, c :: 0 <= i < |rows| && c in KeyColumns(t) ==> Get(rows[i], c) != Null && Get(rows[i], c) != Str(""))
  }

  predicate AvoidsFixture(rules: Rules, rows: seq<Row>) {
    forall i, c :: 0 <= i < |rows| && c in rows[i] && rows[i][c].Str? ==> rows[i][c].s !in rules.reserved
  }

  predicate ReferenceHolds(ts: Tables, t: Table, c: Column) {
    match References(t, c)
    case NoReference => true
    case Reference(parent, nullable) =>
      var ids := IdSet(ts, parent);
      forall i :: 0 <= i < |RowsOf(ts, t)| ==>
        var value := Get(RowsOf(ts, t)[i], c);
        (nullable && value == Null) || StringOf(value) in ids
  }

  predicate MandatoryReferencesHold(ts: Tables) {
    forall t, c :: References(t, c).Reference? && !References(t, c).nullable ==> ReferenceHolds(ts, t, c)
  }

  predicate AllReferencesHold(ts: Tables) {
    forall t, c :: References(t, c).Reference? ==> ReferenceHolds(ts, t, c)
  }

  predicate BarcodesUnique(rows: seq<Row>) {
    forall i, j :: 0 <= i < j < |rows| ==> StringOf(Get(rows[i], Barcode)) != StringOf(Get(rows[j], Barcode))
  }

  predicate TablesAreSound(rules: Rules, ts: Tables) {
    && (forall t :: t in ts)
    && (forall t :: t in ts ==> DeclaredColumnsOnly(t, ts[t]) && KeysPresentAndUnique(t, ts[t]) && AvoidsFixture(rules, ts[t]))
    && BarcodesUnique(RowsOf(ts, SkuBarcodes))
  }

  predicate NoDuplicates(ids: seq<string>) {
    forall i, j :: 0 <= i < j < |ids| ==> ids[i] != ids[j]
  }

  /** A live source read without writing, and a date that parses. */
  predicate OriginHolds(rules: Rules, source: Source, generatedAt: string) {
    source.stage == "live" && source.readOnly && rules.isTimestamp(generatedAt)
  }

  /** The snapshot check, hashes included. Sorted identifier lists are compared as multisets. */
  predicate Accepted(rules: Rules, s: Snapshot) {
    && s.manifest.schemaVersion == SNAPSHOT_SCHEMA_VERSION && OriginHolds(rules, s.manifest.source, s.manifest.generatedAt)
    && (forall n :: n in s.manifest.normalizations ==> ProvenanceHolds(rules, n))
    && TablesAreSound(rules, s.tables)
    && (forall t :: t in s.manifest.counts ==> s.manifest.counts[t] == |RowsOf(s.tables, t)|)
    && NoDuplicates(SkuIds(s.tables))
    && multiset(SkuIds(s.tables)) == multiset(s.manifest.skuIds)
    && AllReferencesHold(s.tables)
    && s.manifest.skuIdSha256 == rules.ofIds(SkuIds(s.tables))
    && s.manifest.contentSha256
       == rules.ofContent(s.manifest.skuIds, s.manifest.counts, s.manifest.normalizations, s.tables)
  }

  /** The place of a table and column among the policies. */
  function PolicyIndex(t: Table, c: Column): int {
    match (t, c)
    case (ProductMatchings, MasterId) => 0
    case (ProductMatchings, SkuGroupId) => 1
    case (Skus, GroupId) => 2
    case (Skus, LogisticsPartnerId) => 3
    case (ProductCategories, ParentId) => 4
    case (ProductMasterVersions, ParentVersionId) => 5
    case _ => -1
  }

  lemma PoliciesAreUsable()
    ensures UsablePolicies(NULLABLE_ORPHAN_POLICIES)
  {
    var all := NULLABLE_ORPHAN_POLICIES;
    forall i | 0 <= i < |all| ensures PolicyIndex(all[i].table, all[i].column) == i {
      assert i == 0 || i == 1 || i == 2 || i == 3 || i == 4 || i == 5;
    }
    forall i, j | 0 <= i < j < |all| ensures all[i].table != all[j].table || all[i].column != all[j].column {
      assert PolicyIndex(all[i].table, all[i].column) != PolicyIndex(all[j].table, all[j].column);
    }
    forall i | 0 <= i < |all| ensures all[i].column !in KeyColumns(all[i].table) && all[i].column != Id {
      assert PolicyIndex(all[i].table, all[i].column) == i;
    }
  }

  /** The snapshot built from extracted rows: normalise, seal the provenance, finalise, check. */
  method SnapshotFromRows(rules: Rules, rows: ExtractedTables, source: Source, generatedAt: string)
    returns (r: Result<Snapshot, ()>)
    requires forall references :: rules.ofReferences(references) != ""
    modifies rows
    ensures r.Ok? <==> source == Source("live", true) && rules.isTimestamp(generatedAt)
                       && !Rejects(old(rows.tables), NULLABLE_ORPHAN_POLICIES)
                       && TablesAreSound(rules, Normalized(old(rows.tables), NULLABLE_ORPHAN_POLICIES))
                       && MandatoryReferencesHold(Normalized(old(rows.tables), NULLABLE_ORPHAN_POLICIES))
    ensures r.Ok? ==> r.value.tables == Normalized(old(rows.tables), NULLABLE_ORPHAN_POLICIES)
    ensures r.Ok? ==> Accepted(rules, r.value)
  {
    PoliciesAreUsable();
    ghost var before := rows.tables;
    var normalizations := rows.NormalizeNullableOrphans(NULLABLE_ORPHAN_POLICIES);
    if normalizations.Err? { return Err(()); }
    var snapshot := Finalized(rules, rows.tables, source, generatedAt, SealAll(rules, normalizations.value));
    FreshSnapshotIsAccepted(rules, before, source, generatedAt);
    if !Accepted(rules, snapshot) { return Err(()); }
    return Ok(snapshot);
  }

  lemma NullableReferencesHold(ts: Tables, t: Table, c: Column)
    requires !Rejects(ts, NULLABLE_ORPHAN_POLICIES)
    requires References(t, c).Reference? && References(t, c).nullable
    ensures ReferenceHolds(Normalized(ts, NULLABLE_ORPHAN_POLICIES), t, c)
  {
    var policies := NULLABLE_ORPHAN_POLICIES;
    var p := OrphanPolicy(t, c, References(t, c).parent);
    PoliciesAreUsable();
    PoliciesAreTheNullableReferences(t, c, p.parent);
    var after := Normalized(ts, policies);
    assert !HasBadReference(RowsOf(ts, t), c);
    forall i | 0 <= i < |RowsOf(after, t)|
      ensures var value := Get(RowsOf(after, t)[i], c); value == Null || StringOf(value) in IdSet(after, p.parent)
    {
      NormalizedHasNoOrphans(ts, policies, t, i, p);
      assert !Get(RowsOf(ts, t)[i], c).Flag?;
    }
  }

  lemma UniqueSkuKeys(ts: Tables)
    requires KeysPresentAndUnique(Skus, RowsOf(ts, Skus))
    ensures NoDuplicates(SkuIds(ts))
  {
    var rows := RowsOf(ts, Skus);
    forall i, j | 0 <= i < j < |rows| ensures SkuIds(ts)[i] != SkuIds(ts)[j] {
      assert KeyText(Skus, rows[i])[0] == SkuIds(ts)[i] && KeyText(Skus, rows[j])[0] == SkuIds(ts)[j];
      assert KeyText(Skus, rows[i]) == [SkuIds(ts)[i]] && KeyText(Skus, rows[j]) == [SkuIds(ts)[j]];
    }
  }

  /**
   A snapshot built from rows that passed normalisation is accepted exactly when its source and date are in order, the
   normalised tables pass the structural checks and the mandatory references hold: schema version, provenance, counts,
   identifiers, hashes and every nullable reference are met by construction.
   */
  lemma FreshSnapshotIsAccepted(rules: Rules, ts: Tables, source: Source, generatedAt: string)
    requires forall references :: rules.ofReferences(references) != ""
    requires !Rejects(ts, NULLABLE_ORPHAN_POLICIES)
    ensures var after := Normalized(ts, NULLABLE_ORPHAN_POLICIES);
            Accepted(rules, Finalized(rules, after, source, generatedAt,
                                      SealAll(rules, Records(ts, NULLABLE_ORPHAN_POLICIES))))
            <==> OriginHolds(rules, source, generatedAt) && TablesAreSound(rules, after) && MandatoryReferencesHold(after)
  {
    var after := Normalized(ts, NULLABLE_ORPHAN_POLICIES);
    forall t, c | References(t, c).Reference? && References(t, c).nullable ensures ReferenceHolds(after, t, c) {
      NullableReferencesHold(ts, t, c);
    }
    assert MandatoryReferencesHold(after) <==> AllReferencesHold(after);
    if TablesAreSound(rules, after) {
      assert Skus in after;
      UniqueSkuKeys(after);
    }
    var sealed := SealAll(rules, Records(ts, NULLABLE_ORPHAN_POLICIES));
    forall n | n in sealed ensures ProvenanceHolds(rules, n) {
    }
  }

  // ---- What the check demands ------------------------------------------------------------------------------

  /** Every cell stands in a column of its table and names nothing of the demo fixture; key cells are filled. */
  ghost predicate CellsAreSound(rules: Rules, ts: Tables) {
    && (forall t: Table, row: Row, c: Column :: row in RowsOf(ts, t) && c in row ==>
          Declared(t, c) && (row[c].Str? ==> row[c].s !in rules.reserved))
    && (forall t: Table, row: Row, c: Column :: row in RowsOf(ts, t) && c in KeyColumns(t) ==> Get(row, c) !in {Null, Str("")})
  }

  ghost predicate KeysDiffer(t: Table, a: Row, b: Row) {
    exists c :: c in KeyColumns(t) && StringOf(Get(a, c)) != StringOf(Get(b, c))
  }

  ghost predicate KeysDifferIn(t: Table, rows: seq<Row>) {
    forall i, j :: 0 <= i < j < |rows| ==> KeysDiffer(t, rows[i], rows[j])
  }

  /** No two rows of a table have the same key text, and no two barcode rows the same barcode. */
  ghost predicate RowsDiffer(ts: Tables) {
    && (forall t :: KeysDifferIn(t, RowsOf(ts, t)))
    && (forall i, j :: 0 <= i < j < |RowsOf(ts, SkuBarcodes)| ==>
          StringOf(Get(RowsOf(ts, SkuBarcodes)[i], Barcode)) != StringOf(Get(RowsOf(ts, SkuBarcodes)[j], Barcode)))
  }

  lemma KeyTextsDiffer(t: Table, a: Row, b: Row)
    ensures KeyText(t, a) != KeyText(t, b) <==> KeysDiffer(t, a, b)
  {
    var columns := KeyColumns(t);
    if c :| c in columns && StringOf(Get(a, c)) != StringOf(Get(b, c)) {
      var k :| 0 <= k < |columns| && columns[k] == c;
      assert KeyText(t, a)[k] != KeyText(t, b)[k];
    } else {
      forall k | 0 <= k < |columns| ensures KeyText(t, a)[k] == KeyText(t, b)[k] {
        assert columns[k] in columns;
      }
    }
  }

  lemma SoundCells(rules: Rules, ts: Tables, t: Table)
    requires t in ts && CellsAreSound(rules, ts)
    ensures DeclaredColumnsOnly(t, ts[t]) && AvoidsFixture(rules, ts[t])
    ensures forall i, c :: 0 <= i < |ts[t]| && c in KeyColumns(t) ==> Get(ts[t][i], c) != Null && Get(ts[t][i], c) != Str("")
  {
    forall i | 0 <= i < |ts[t]| ensures ts[t][i] in RowsOf(ts, t) {
    }
  }

  lemma DifferentKeys(t: Table, rows: seq<Row>)
    ensures KeysDifferIn(t, rows) <==> forall i, j :: 0 <= i < j < |rows| ==> KeyText(t, rows[i]) != KeyText(t, rows[j])
  {
    forall i, j | 0 <= i < j < |rows| ensures KeyText(t, rows[i]) != KeyText(t, rows[j]) <==> KeysDiffer(t, rows[i], rows[j]) {
      KeyTextsDiffer(t, rows[i], rows[j]);
    }
  }

  lemma SoundTablesHaveSoundCells(rules: Rules, ts: Tables)
    requires TablesAreSound(rules, ts)
    ensures CellsAreSound(rules, ts)
  {
    forall t: Table, row: Row, c: Column | row in RowsOf(ts, t) && c in row
      ensures Declared(t, c) && (row[c].Str? ==> row[c].s !in rules.reserved)
    {
      var i :| 0 <= i < |RowsOf(ts, t)| && RowsOf(ts, t)[i] == row;
      assert t in ts && DeclaredColumnsOnly(t, ts[t]) && AvoidsFixture(rules, ts[t]);
    }
    forall t: Table, row: Row, c: Column | row in RowsOf(ts, t) && c in KeyColumns(t) ensures Get(row, c) !in {Null, Str("")} {
      var i :| 0 <= i < |RowsOf(ts, t)| && RowsOf(ts, t)[i] == row;
      assert t in ts && KeysPresentAndUnique(t, ts[t]);
    }
  }

  /** The structural checks, table by table, come to this. */
  lemma SoundTablesExactly(rules: Rules, ts: Tables)
    requires forall t: Table :: t in ts
    ensures TablesAreSound(rules, ts) <==> CellsAreSound(rules, ts) && RowsDiffer(ts)
  {
    forall t: Table { DifferentKeys(t, RowsOf(ts, t)); }
    if CellsAreSound(rules, ts) && RowsDiffer(ts) {
      forall t | t in ts ensures DeclaredColumnsOnly(t, ts[t]) && KeysPresentAndUnique(t, ts[t]) && AvoidsFixture(rules, ts[t]) {
        SoundCells(rules, ts, t);
        assert RowsOf(ts, t) == ts[t] && KeysDifferIn(t, RowsOf(ts, t));
      }
    } else if TablesAreSound(rules, ts) {
      SoundTablesHaveSoundCells(rules, ts);
      forall t ensures KeysDifferIn(t, RowsOf(ts, t)) {
        assert t in ts && KeysPresentAndUnique(t, ts[t]);
      }
    }
  }

  /**
   The tables determine the manifest: what an accepted snapshot says of its tables, in counts, SKU ids and digests, is
   what any other accepted snapshot of the same tables says, and its provenance is complete.
   */
  lemma AcceptedManifestIsDetermined(rules: Rules, s: Snapshot, other: Snapshot)
    requires Accepted(rules, s) && Accepted(rules, other) && s.tables == other.tables
    ensures s.manifest.schemaVersion == other.manifest.schemaVersion == 1
    ensures s.manifest.source == Source("live", true) && rules.isTimestamp(s.manifest.generatedAt)
    ensures forall t :: t in s.manifest.counts && t in other.manifest.counts ==> s.manifest.counts[t] == other.manifest.counts[t]
    ensures multiset(s.manifest.skuIds) == multiset(other.manifest.skuIds)
    ensures s.manifest.skuIdSha256 == other.manifest.skuIdSha256
    ensures forall n, m :: n in s.manifest.normalizations && m in other.manifest.normalizations && n.references == m.references ==>
              n.sha256 == m.sha256 != "" && n.count == m.count == |n.rowIds| == |n.references|
    ensures s.manifest.skuIds == other.manifest.skuIds && s.manifest.counts == other.manifest.counts
            && s.manifest.normalizations == other.manifest.normalizations ==>
              s.manifest.contentSha256 == other.manifest.contentSha256
  {
  }

  // ---- What the check gives -------------------------------------------------------------------------------

  /** Key and reference columns hold text or NULL, as their uuid columns demand. */
  ghost predicate UuidColumns(ts: Tables) {
    forall t, i, c :: t in ts && 0 <= i < |ts[t]| && (c in KeyColumns(t) || References(t, c).Reference? || c == Id) ==>
      (Get(ts[t][i], c).Str? && Get(ts[t][i], c).s != "null") || Get(ts[t][i], c) == Null
  }

  /** A row of the tables has this `id`. */
  ghost predicate HasId(ts: Tables, t: Table, id: Value) {
    exists i :: 0 <= i < |RowsOf(ts, t)| && Get(RowsOf(ts, t)[i], Id) == id
  }

  /** In an accepted snapshot every reference is NULL where it may be, or names a row of the parent table. */
  lemma AcceptedSnapshotIsClosed(rules: Rules, s: Snapshot, t: Table, i: nat, c: Column)
    requires Accepted(rules, s) && UuidColumns(s.tables)
    requires i < |RowsOf(s.tables, t)| && References(t, c).Reference?
    ensures var value := Get(RowsOf(s.tables, t)[i], c);
            (References(t, c).nullable && value == Null) || (value.Str? && HasId(s.tables, References(t, c).parent, value))
  {
    var ts, parent := s.tables, References(t, c).parent;
    var value := Get(RowsOf(ts, t)[i], c);
    assert ReferenceHolds(ts, t, c);
    if !(References(t, c).nullable && value == Null) {
      var j :| 0 <= j < |RowsOf(ts, parent)| && StringOf(Get(RowsOf(ts, parent)[j], Id)) == StringOf(value);
      ParentsComeFirst(t, c);
      AcceptedIdIsPresent(rules, s, parent, j);
      UuidCell(ts, parent, j, Id);
      UuidCell(ts, t, i, c);
    }
  }

  lemma UuidCell(ts: Tables, t: Table, i: nat, c: Column)
    requires UuidColumns(ts) && i < |RowsOf(ts, t)| && (References(t, c).Reference? || c == Id)
    ensures Get(RowsOf(ts, t)[i], c) == Null || (Get(RowsOf(ts, t)[i], c).Str? && Get(RowsOf(ts, t)[i], c).s != "null")
  {
    assert t in ts && RowsOf(ts, t) == ts[t];
    assert c in KeyColumns(t) || References(t, c).Reference? || c == Id;
  }

  lemma AcceptedIdIsPresent(rules: Rules, s: Snapshot, t: Table, j: nat)
    requires Accepted(rules, s) && KeyColumns(t) == [Id] && j < |RowsOf(s.tables, t)|
    ensures Get(RowsOf(s.tables, t)[j], Id) != Null
  {
    assert Id in KeyColumns(t);
    assert KeysPresentAndUnique(t, RowsOf(s.tables, t));
  }

  lemma AcceptedKeysAreUnique(rules: Rules, s: Snapshot, t: Table)
    requires Accepted(rules, s)
    ensures UniqueKeys(t, RowsOf(s.tables, t))
  {
    var rows := RowsOf(s.tables, t);
    assert t in s.tables;
    forall i, j | 0 <= i < j < |rows| ensures KeyOf(t, rows[i]) != KeyOf(t, rows[j]) {
      assert KeyText(t, rows[i]) != KeyText(t, rows[j]);
      if KeyOf(t, rows[i]) == KeyOf(t, rows[j]) {
        forall k | 0 <= k < |KeyColumns(t)| ensures KeyText(t, rows[i])[k] == KeyText(t, rows[j])[k] {
          assert KeyOf(t, rows[i])[k] == KeyOf(t, rows[j])[k];
        }
      }
    }
  }
}
