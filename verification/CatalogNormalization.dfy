/**
 Normalisation of dangling nullable references in an extracted catalogue, and the check of the snapshot
 that is built from the result.

 `ExtractedTables.NormalizeNullableOrphans` nulls the rows in place, policy by policy. Its result is stated as a
 simultaneous edit of the original tables, so it cannot depend on the order of the policies; the recorded
 references undo it, and a second pass finds nothing.
 */
module CatalogNormalization {
  import opened Wrappers
  import opened CatalogSchema
  import opened Sequences

  type Tables = map<Table, seq<Row>>

  datatype OrphanPolicy = OrphanPolicy(table: Table, column: Column, parent: Table)

  const NULLABLE_ORPHAN_POLICIES: seq<OrphanPolicy> := [
    OrphanPolicy(ProductMatchings, MasterId, ProductMasters),
    OrphanPolicy(ProductMatchings, SkuGroupId, SkuGroups),
    OrphanPolicy(Skus, GroupId, SkuGroups),
    OrphanPolicy(Skus, LogisticsPartnerId, Suppliers),
    OrphanPolicy(ProductCategories, ParentId, ProductCategories),
    OrphanPolicy(ProductMasterVersions, ParentVersionId, ProductMasterVersions)
  ]

  /** The tables with nullable references. */
  predicate HasNullable(t: Table) {
    t == ProductMatchings || t == Skus || t == ProductCategories || t == ProductMasterVersions
  }

  lemma MandatoryInMasterData(t: Table, c: Column)
    requires !HasNullable(t) && Rank(t) < 19
    ensures References(t, c).Reference? ==> !References(t, c).nullable
  {
  }

  lemma MandatoryInSales(t: Table, c: Column)
    requires !HasNullable(t) && 19 <= Rank(t)
    ensures References(t, c).Reference? ==> !References(t, c).nullable
  {
  }

  predicate Listed(t: Table, c: Column, p: Table) {
    || (t == ProductMatchings && ((c == MasterId && p == ProductMasters) || (c == SkuGroupId && p == SkuGroups)))
    || (t == Skus && ((c == GroupId && p == SkuGroups) || (c == LogisticsPartnerId && p == Suppliers)))
    || (t == ProductCategories && c == ParentId && p == ProductCategories)
    || (t == ProductMasterVersions && c == ParentVersionId && p == ProductMasterVersions)
  }

  lemma PoliciesListed(t: Table, c: Column, p: Table)
    ensures OrphanPolicy(t, c, p) in NULLABLE_ORPHAN_POLICIES <==> Listed(t, c, p)
  {
    var all := NULLABLE_ORPHAN_POLICIES;
    assert all[0] == OrphanPolicy(ProductMatchings, MasterId, ProductMasters);
    assert all[1] == OrphanPolicy(ProductMatchings, SkuGroupId, SkuGroups);
    assert all[2] == OrphanPolicy(Skus, GroupId, SkuGroups);
    assert all[3] == OrphanPolicy(Skus, LogisticsPartnerId, Suppliers);
    assert all[4] == OrphanPolicy(ProductCategories, ParentId, ProductCategories);
    assert all[5] == OrphanPolicy(ProductMasterVersions, ParentVersionId, ProductMasterVersions);
  }

  lemma NullableAreListed(t: Table, c: Column, p: Table)
    requires HasNullable(t)
    ensures Listed(t, c, p) <==> References(t, c) == Reference(p, true)
  {
  }

  /** The policies are exactly the nullable references of the schema. */
  lemma PoliciesAreTheNullableReferences(t: Table, c: Column, p: Table)
    ensures OrphanPolicy(t, c, p) in NULLABLE_ORPHAN_POLICIES <==> References(t, c) == Reference(p, true)
  {
    PoliciesListed(t, c, p);
    if HasNullable(t) {
      NullableAreListed(t, c, p);
    } else if Rank(t) < 19 {
      MandatoryInMasterData(t, c);
    } else {
      MandatoryInSales(t, c);
    }
  }

  function StringOf(v: Value): string {
    match v
    case Null => "null"
    case Str(s) => s
    case Flag(b) => if b then "true" else "false"
  }

  function RowsOf(ts: Tables, t: Table): seq<Row> {
    if t in ts then ts[t] else []
  }

  function IdSet(ts: Tables, t: Table): set<string> {
    set i | 0 <= i < |RowsOf(ts, t)| :: StringOf(Get(RowsOf(ts, t)[i], Id))
  }

  predicate Dangling(ids: set<string>, column: Column, row: Row) {
    Get(row, column).Str? && Get(row, column).s !in ids
  }

  /** A policy that is named once and neither edits a key nor an `id`. */
  predicate UsablePolicies(policies: seq<OrphanPolicy>) {
    && (forall i :: 0 <= i < |policies| ==> policies[i].column !in KeyColumns(policies[i].table) && policies[i].column != Id)
    && (forall i, j :: 0 <= i < j < |policies| ==>
          policies[i].table != policies[j].table || policies[i].column != policies[j].column)
  }

  // ---- The edit, stated on the original tables -------------------------------------------------------------

  predicate Orphaned(ts: Tables, policies: seq<OrphanPolicy>, t: Table, c: Column, row: Row) {
    exists p :: p in policies && p.table == t && p.column == c && Dangling(IdSet(ts, p.parent), c, row)
  }

  /** The row with exactly its dangling nullable references nulled. */
  function NulledRow(ts: Tables, policies: seq<OrphanPolicy>, t: Table, row: Row): Row {
    map c | c in row :: if Orphaned(ts, policies, t, c, row) then Null else row[c]
  }

  function NulledRows(ts: Tables, policies: seq<OrphanPolicy>, t: Table, rows: seq<Row>): seq<Row> {
    seq(|rows|, i requires 0 <= i < |rows| => NulledRow(ts, policies, t, rows[i]))
  }

  function Normalized(ts: Tables, policies: seq<OrphanPolicy>): Tables {
    map t | t in ts :: NulledRows(ts, policies, t, ts[t])
  }

  datatype ReferenceRecord = ReferenceRecord(rowKey: Key, referencedId: string)

  datatype Normalization = Normalization(policy: OrphanPolicy, references: seq<ReferenceRecord>)

  /** The references one policy records, in row order. */
  function Affected(ids: set<string>, p: OrphanPolicy, rows: seq<Row>): seq<ReferenceRecord> {
    if rows == [] then []
    else
      var row := rows[|rows| - 1];
      Affected(ids, p, rows[..|rows| - 1])
        + (if Dangling(ids, p.column, row) then [ReferenceRecord(KeyOf(p.table, row), Get(row, p.column).s)] else [])
  }

  function Records(ts: Tables, policies: seq<OrphanPolicy>): seq<Normalization> {
    if policies == [] then []
    else
      var p := policies[|policies| - 1];
      var references := Affected(IdSet(ts, p.parent), p, RowsOf(ts, p.table));
      Records(ts, policies[..|policies| - 1]) + (if references == [] then [] else [Normalization(p, references)])
  }

  predicate HasBadReference(rows: seq<Row>, c: Column) {
    exists i :: 0 <= i < |rows| && Get(rows[i], c).Flag?
  }

  predicate Rejects(ts: Tables, policies: seq<OrphanPolicy>) {
    exists p :: p in policies && HasBadReference(RowsOf(ts, p.table), p.column)
  }

  // ---- The pass --------------------------------------------------------------------------------------------

  lemma NulledKeepsOthers(ts: Tables, policies: seq<OrphanPolicy>, t: Table, row: Row, c: Column)
    requires forall p :: p in policies ==> p.table != t || p.column != c
    ensures Get(NulledRow(ts, policies, t, row), c) == Get(row, c)
  {
    assert !Orphaned(ts, policies, t, c, row);
    var nulled := NulledRow(ts, policies, t, row);
    assert c in nulled <==> c in row;
  }

  lemma NulledKeepsKeys(ts: Tables, policies: seq<OrphanPolicy>, t: Table, row: Row)
    requires UsablePolicies(policies)
    ensures KeyOf(t, NulledRow(ts, policies, t, row)) == KeyOf(t, row)
    ensures Get(NulledRow(ts, policies, t, row), Id) == Get(row, Id)
  {
    var columns := KeyColumns(t);
    forall i | 0 <= i < |columns| ensures Get(NulledRow(ts, policies, t, row), columns[i]) == Get(row, columns[i]) {
      NulledKeepsOthers(ts, policies, t, row, columns[i]);
    }
    NulledKeepsOthers(ts, policies, t, row, Id);
  }

  lemma NormalizedKeepsIds(ts: Tables, policies: seq<OrphanPolicy>, t: Table)
    requires UsablePolicies(policies)
    ensures IdSet(Normalized(ts, policies), t) == IdSet(ts, t)
  {
    var before, after := RowsOf(ts, t), RowsOf(Normalized(ts, policies), t);
    assert |after| == |before|;
    forall i | 0 <= i < |before| ensures Get(after[i], Id) == Get(before[i], Id) {
      NulledKeepsKeys(ts, policies, t, before[i]);
    }
  }

  /** Adding one policy edits one column of one table. */
  lemma NulledRowStep(ts: Tables, policies: seq<OrphanPolicy>, k: nat, row: Row)
    requires k < |policies| && UsablePolicies(policies)
    ensures var p := policies[k];
            var before, after := NulledRow(ts, policies[..k], p.table, row), NulledRow(ts, policies[..k + 1], p.table, row);
            && Get(before, p.column) == Get(row, p.column)
            && after == (if Dangling(IdSet(ts, p.parent), p.column, row) then before[p.column := Null] else before)
  {
    var p := policies[k];
    assert policies[..k + 1] == policies[..k] + [p];
    assert forall q :: q in policies[..k + 1] <==> q in policies[..k] || q == p;
    forall q | q in policies[..k] ensures q.table != p.table || q.column != p.column {
    }
    NulledKeepsOthers(ts, policies[..k], p.table, row, p.column);
  }

  lemma OtherTablesStep(ts: Tables, policies: seq<OrphanPolicy>, k: nat, t: Table, row: Row)
    requires k < |policies| && policies[k].table != t
    ensures NulledRow(ts, policies[..k + 1], t, row) == NulledRow(ts, policies[..k], t, row)
  {
    assert policies[..k + 1] == policies[..k] + [policies[k]];
    assert forall q :: q in policies[..k + 1] <==> q in policies[..k] || q == policies[k];
  }

  /** One cell edit of one policy. */
  function EditedRow(ids: set<string>, c: Column, row: Row): Row {
    if Dangling(ids, c, row) then row[c := Null] else row
  }

  /** Editing one column of one table takes the result for k policies to the result for k + 1. */
  lemma EditStep(start: Tables, policies: seq<OrphanPolicy>, k: nat, before: Tables, after: Tables)
    requires UsablePolicies(policies) && k < |policies|
    requires before == Normalized(start, policies[..k])
    requires after.Keys == before.Keys
    requires var p := policies[k];
             && (forall t :: t in after && t != p.table ==> after[t] == before[t])
             && RowsOf(after, p.table) ==
                EditedRows(IdSet(start, p.parent), p.column, RowsOf(before, p.table), |RowsOf(before, p.table)|)
    ensures after == Normalized(start, policies[..k + 1])
  {
    var p := policies[k];
    forall t | t in start ensures after[t] == NulledRows(start, policies[..k + 1], t, start[t]) {
      forall i | 0 <= i < |start[t]| ensures after[t][i] == NulledRow(start, policies[..k + 1], t, start[t][i]) {
        if t == p.table {
          NulledRowStep(start, policies, k, start[t][i]);
          assert RowsOf(before, t)[i] == NulledRow(start, policies[..k], t, start[t][i]);
        } else {
          OtherTablesStep(start, policies, k, t, start[t][i]);
        }
      }
    }
  }

  /** What a policy records does not depend on the edits of the others. */
  lemma {:induction false} SameAffected(ids: set<string>, p: OrphanPolicy, rows: seq<Row>, others: seq<Row>)
    requires |rows| == |others|
    requires forall i :: 0 <= i < |rows| ==>
      Get(rows[i], p.column) == Get(others[i], p.column) && KeyOf(p.table, rows[i]) == KeyOf(p.table, others[i])
    ensures Affected(ids, p, rows) == Affected(ids, p, others)
    ensures HasBadReference(rows, p.column) <==> HasBadReference(others, p.column)
  {
    if rows != [] {
      SameAffected(ids, p, rows[..|rows| - 1], others[..|others| - 1]);
    }
  }

  /** The next policy reads the same ids and records the same references as on the original tables. */
  lemma SameForNextPolicy(start: Tables, policies: seq<OrphanPolicy>, k: nat)
    requires UsablePolicies(policies) && k < |policies|
    ensures var p, before := policies[k], Normalized(start, policies[..k]);
            && IdSet(before, p.parent) == IdSet(start, p.parent)
            && Affected(IdSet(start, p.parent), p, RowsOf(before, p.table)) == Affected(IdSet(start, p.parent), p, RowsOf(start, p.table))
            && (HasBadReference(RowsOf(before, p.table), p.column) <==> HasBadReference(RowsOf(start, p.table), p.column))
  {
    var p, before := policies[k], Normalized(start, policies[..k]);
    NormalizedKeepsIds(start, policies[..k], p.parent);
    var original := RowsOf(start, p.table);
    forall i | 0 <= i < |original|
      ensures Get(RowsOf(before, p.table)[i], p.column) == Get(original[i], p.column)
      ensures KeyOf(p.table, RowsOf(before, p.table)[i]) == KeyOf(p.table, original[i])
    {
      NulledRowStep(start, policies, k, original[i]);
      NulledKeepsKeys(start, policies[..k], p.table, original[i]);
    }
    SameAffected(IdSet(start, p.parent), p, RowsOf(before, p.table), original);
  }

  lemma RecordsStep(start: Tables, policies: seq<OrphanPolicy>, k: nat)
    requires k < |policies|
    ensures var references := Affected(IdSet(start, policies[k].parent), policies[k], RowsOf(start, policies[k].table));
            Records(start, policies[..k + 1]) ==
            Records(start, policies[..k]) + (if references == [] then [] else [Normalization(policies[k], references)])
  {
    assert policies[..k + 1][..k] == policies[..k];
  }

  lemma RejectsStep(start: Tables, policies: seq<OrphanPolicy>, k: nat)
    requires k < |policies|
    ensures Rejects(start, policies[..k + 1]) <==>
            Rejects(start, policies[..k]) || HasBadReference(RowsOf(start, policies[k].table), policies[k].column)
    ensures Rejects(start, policies[..k + 1]) ==> Rejects(start, policies)
  {
    assert policies[..k + 1] == policies[..k] + [policies[k]];
  }

  function EditedRows(ids: set<string>, c: Column, rows: seq<Row>, n: nat): seq<Row> {
    seq(|rows|, i requires 0 <= i < |rows| => if i < n then EditedRow(ids, c, rows[i]) else rows[i])
  }

  lemma EditedRowsStep(ids: set<string>, p: OrphanPolicy, rows: seq<Row>, i: nat)
    requires i < |rows|
    ensures var edited := EditedRows(ids, p.column, rows, i);
            |edited| == |rows| && edited[i] == rows[i]
            && EditedRows(ids, p.column, rows, i + 1) == edited[i := EditedRow(ids, p.column, rows[i])]
    ensures Affected(ids, p, rows[..i + 1]) == Affected(ids, p, rows[..i])
              + (if Dangling(ids, p.column, rows[i]) then [ReferenceRecord(KeyOf(p.table, rows[i]), Get(rows[i], p.column).s)] else [])
  {
    assert rows[..i + 1][..i] == rows[..i];
  }

  class ExtractedTables {
    var tables: Tables

    constructor (rows: Tables)
      ensures tables == rows
    {
      tables := rows;
    }

    /** One policy: null the references that are not among the parent ids, row by row. */
    method NullColumn(p: OrphanPolicy, ids: set<string>) returns (r: Result<seq<ReferenceRecord>, (Table, Column)>)
      modifies this
      ensures r.Err? <==> HasBadReference(RowsOf(old(tables), p.table), p.column)
      ensures r.Ok? ==> r.value == Affected(ids, p, RowsOf(old(tables), p.table))
      ensures tables.Keys == old(tables).Keys
      ensures forall t :: t in tables && t != p.table ==> tables[t] == old(tables)[t]
      ensures r.Ok? ==>
        RowsOf(tables, p.table) == EditedRows(ids, p.column, RowsOf(old(tables), p.table), |RowsOf(old(tables), p.table)|)
    {
      var affected: seq<ReferenceRecord> := [];
      ghost var original := RowsOf(tables, p.table);
      var count := |RowsOf(tables, p.table)|;
      for i := 0 to count
        invariant count == |original| && tables.Keys == old(tables).Keys
        invariant forall t :: t in tables && t != p.table ==> tables[t] == old(tables)[t]
        invariant forall j :: 0 <= j < i ==> !Get(original[j], p.column).Flag?
        invariant RowsOf(tables, p.table) == EditedRows(ids, p.column, original, i)
        invariant affected == Affected(ids, p, original[..i])
      {
        var rows := RowsOf(tables, p.table);
        EditedRowsStep(ids, p, original, i);
        var row := rows[i];
        if Get(row, p.column).Flag? {
          return Err((p.table, p.column));
        }
        if Dangling(ids, p.column, row) {
          affected := affected + [ReferenceRecord(KeyOf(p.table, row), Get(row, p.column).s)];
          tables := tables[p.table := rows[i := row[p.column := Null]]];
        }
      }
      assert original[..count] == original;
      return Ok(affected);
    }

    /**
     All policies in turn. An invalid reference stops the extraction; otherwise the tables are the original ones with
     exactly the dangling nullable references nulled, and every nulled reference is recorded.
     */
    method NormalizeNullableOrphans(policies: seq<OrphanPolicy>) returns (r: Result<seq<Normalization>, (Table, Column)>)
      requires UsablePolicies(policies)
      modifies this
      ensures r.Err? <==> Rejects(old(tables), policies)
      ensures r.Ok? ==> tables == Normalized(old(tables), policies) && NulledExactly(old(tables), policies, tables)
      ensures r.Ok? ==> r.value == Records(old(tables), policies)
    {
      ghost var start := tables;
      var normalizations: seq<Normalization> := [];
      assert tables == Normalized(start, policies[..0]) by { NothingToNull(start); }
      for k := 0 to |policies|
        invariant tables == Normalized(start, policies[..k])
        invariant !Rejects(start, policies[..k])
        invariant normalizations == Records(start, policies[..k])
      {
        var p := policies[k];
        RecordsStep(start, policies, k);
        ghost var before := tables;
        SameForNextPolicy(start, policies, k);
        var references := NullColumn(p, IdSet(tables, p.parent));
        RejectsStep(start, policies, k);
        if references.Err? {
          return Err(references.error);
        }
        EditStep(start, policies, k, before, tables);
        if references.value != [] {
          normalizations := normalizations + [Normalization(policies[k], references.value)];
        }
      }
      assert policies[..|policies|] == policies;
      NormalizedExactly(start, policies);
      return Ok(normalizations);
    }
  }

  lemma NothingToNull(ts: Tables)
    ensures Normalized(ts, []) == ts
  {
    forall t | t in ts ensures NulledRows(ts, [], t, ts[t]) == ts[t] {
      forall i | 0 <= i < |ts[t]| ensures NulledRow(ts, [], t, ts[t][i]) == ts[t][i] {
      }
    }
  }

  // ---- What is nulled --------------------------------------------------------------------------------------

  /** The value reads as this text. */
  predicate ReadsAs(v: Value, text: string) {
    || v == Str(text)
    || (v == Null && text == "null")
    || (v == Flag(true) && text == "true")
    || (v == Flag(false) && text == "false")
  }

  /** The row refers, by the column of the policy, to an id no row of the parent table has. */
  ghost predicate RefersNowhere(ts: Tables, p: OrphanPolicy, row: Row) {
    && Get(row, p.column).Str?
    && forall parent :: parent in RowsOf(ts, p.parent) ==> !ReadsAs(Get(parent, Id), Get(row, p.column).s)
  }

  lemma DanglesExactly(ts: Tables, p: OrphanPolicy, row: Row)
    ensures Dangling(IdSet(ts, p.parent), p.column, row) <==> RefersNowhere(ts, p, row)
  {
    var rows := RowsOf(ts, p.parent);
    forall parent, id ensures ReadsAs(Get(parent, Id), id) <==> StringOf(Get(parent, Id)) == id {
    }
    forall id ensures id in IdSet(ts, p.parent) <==> exists parent :: parent in rows && ReadsAs(Get(parent, Id), id) {
      if id in IdSet(ts, p.parent) {
        var i :| 0 <= i < |rows| && StringOf(Get(rows[i], Id)) == id;
        assert rows[i] in rows && ReadsAs(Get(rows[i], Id), id);
      }
    }
  }

  /** Some policy is for this column of this table, and the row refers nowhere by it. */
  ghost predicate NulledBy(ts: Tables, policies: seq<OrphanPolicy>, t: Table, c: Column, row: Row) {
    exists p :: p in policies && p.table == t && p.column == c && RefersNowhere(ts, p, row)
  }

  /** Row by row and cell by cell, exactly the references that refer nowhere are nulled. */
  ghost predicate NulledExactly(before: Tables, policies: seq<OrphanPolicy>, after: Tables) {
    && after.Keys == before.Keys
    && (forall t :: t in before ==> |after[t]| == |before[t]|)
    && (forall t, i, c :: t in before && 0 <= i < |before[t]| ==>
          Get(after[t][i], c) == if NulledBy(before, policies, t, c, before[t][i]) then Null else Get(before[t][i], c))
  }

  lemma NormalizedExactly(ts: Tables, policies: seq<OrphanPolicy>)
    ensures NulledExactly(ts, policies, Normalized(ts, policies))
  {
    var after := Normalized(ts, policies);
    forall t, i, c | t in ts && 0 <= i < |ts[t]|
      ensures Get(after[t][i], c) == if NulledBy(ts, policies, t, c, ts[t][i]) then Null else Get(ts[t][i], c)
    {
      forall p { DanglesExactly(ts, p, ts[t][i]); }
      NulledCell(ts, policies, t, ts[t][i], c);
    }
  }

  lemma NulledCell(ts: Tables, policies: seq<OrphanPolicy>, t: Table, row: Row, c: Column)
    ensures Get(NulledRow(ts, policies, t, row), c) == if Orphaned(ts, policies, t, c, row) then Null else Get(row, c)
  {
    assert Orphaned(ts, policies, t, c, row) ==> c in row;
  }

  // ---- Order, second pass, undo ----------------------------------------------------------------------------

  /** The result does not depend on the order in which the policies are listed. */
  lemma PolicyOrderDoesNotMatter(ts: Tables, policies: seq<OrphanPolicy>, others: seq<OrphanPolicy>)
    requires forall p :: p in policies <==> p in others
    ensures Normalized(ts, policies) == Normalized(ts, others)
  {
    forall t | t in ts ensures NulledRows(ts, policies, t, ts[t]) == NulledRows(ts, others, t, ts[t]) {
      forall i | 0 <= i < |ts[t]| ensures NulledRow(ts, policies, t, ts[t][i]) == NulledRow(ts, others, t, ts[t][i]) {
      }
    }
  }

  lemma {:induction false} AffectedExactly(ids: set<string>, p: OrphanPolicy, rows: seq<Row>)
    ensures forall r :: r in Affected(ids, p, rows) <==>
      exists i :: 0 <= i < |rows| && Dangling(ids, p.column, rows[i])
                  && r == ReferenceRecord(KeyOf(p.table, rows[i]), Get(rows[i], p.column).s)
  {
    if rows != [] {
      var rest, row := rows[..|rows| - 1], rows[|rows| - 1];
      AffectedExactly(ids, p, rest);
      forall r ensures r in Affected(ids, p, rows) <==>
        exists i :: 0 <= i < |rows| && Dangling(ids, p.column, rows[i])
                    && r == ReferenceRecord(KeyOf(p.table, rows[i]), Get(rows[i], p.column).s)
      {
        if r in Affected(ids, p, rest) {
          var i :| 0 <= i < |rest| && Dangling(ids, p.column, rest[i])
                   && r == ReferenceRecord(KeyOf(p.table, rest[i]), Get(rest[i], p.column).s);
          assert rows[i] == rest[i];
        }
        if i :| 0 <= i < |rows| && Dangling(ids, p.column, rows[i])
                && r == ReferenceRecord(KeyOf(p.table, rows[i]), Get(rows[i], p.column).s) {
          assert i < |rest| ==> rest[i] == rows[i];
        }
      }
    }
  }

  lemma {:induction false} RecordsExactly(ts: Tables, policies: seq<OrphanPolicy>)
    ensures forall n :: n in Records(ts, policies) <==>
      n.policy in policies && n.references != []
      && n.references == Affected(IdSet(ts, n.policy.parent), n.policy, RowsOf(ts, n.policy.table))
  {
    if policies != [] {
      var rest, p := policies[..|policies| - 1], policies[|policies| - 1];
      RecordsExactly(ts, rest);
      assert policies == rest + [p];
    }
  }

  lemma NormalizedHasNoOrphans(ts: Tables, policies: seq<OrphanPolicy>, t: Table, i: nat, p: OrphanPolicy)
    requires UsablePolicies(policies) && t in ts && i < |ts[t]| && p in policies && p.table == t
    ensures !Dangling(IdSet(Normalized(ts, policies), p.parent), p.column, Normalized(ts, policies)[t][i])
  {
    NormalizedKeepsIds(ts, policies, p.parent);
  }

  /** A second pass changes nothing and records nothing. */
  lemma SecondPassIsIdle(ts: Tables, policies: seq<OrphanPolicy>)
    requires UsablePolicies(policies)
    ensures Normalized(Normalized(ts, policies), policies) == Normalized(ts, policies)
    ensures Records(Normalized(ts, policies), policies) == []
  {
    var once := Normalized(ts, policies);
    forall t, i | t in once && 0 <= i < |once[t]| ensures NulledRow(once, policies, t, once[t][i]) == once[t][i] {
      forall p | p in policies && p.table == t
        ensures !Dangling(IdSet(once, p.parent), p.column, once[t][i])
      {
        NormalizedHasNoOrphans(ts, policies, t, i, p);
      }
    }
    forall t | t in once ensures NulledRows(once, policies, t, once[t]) == once[t] {
    }
    RecordsExactly(once, policies);
    forall p | p in policies
      ensures Affected(IdSet(once, p.parent), p, RowsOf(once, p.table)) == []
    {
      var rows, ids := RowsOf(once, p.table), IdSet(once, p.parent);
      AffectedExactly(ids, p, rows);
      forall i | 0 <= i < |rows| ensures !Dangling(ids, p.column, rows[i]) {
        NormalizedHasNoOrphans(ts, policies, p.table, i, p);
      }
      FirstIsMember(Affected(ids, p, rows));
    }
    FirstIsMember(Records(once, policies));
  }

  predicate UniqueKeys(t: Table, rows: seq<Row>) {
    forall i, j :: 0 <= i < j < |rows| ==> KeyOf(t, rows[i]) != KeyOf(t, rows[j])
  }

  /** The reference recorded for a cell, if any. */
  function Recorded(normalizations: seq<Normalization>, t: Table, c: Column, key: Key): set<string> {
    set n, r | n in normalizations && n.policy.table == t && n.policy.column == c
               && r in n.references && r.rowKey == key :: r.referencedId
  }

  /** Writing every recorded reference back. */
  ghost function Restored(ts: Tables, normalizations: seq<Normalization>): Tables {
    map t | t in ts :: seq(|ts[t]|, i requires 0 <= i < |ts[t]| => RestoredRow(normalizations, t, ts[t][i]))
  }

  ghost function RestoredRow(normalizations: seq<Normalization>, t: Table, row: Row): Row {
    map c | c in row ::
      var found := Recorded(normalizations, t, c, KeyOf(t, row));
      if found == {} then row[c] else Str(PickOne(found))
  }

  ghost function PickOne(found: set<string>): (s: string)
    requires found != {}
    ensures s in found
  {
    var s :| s in found; s
  }

  lemma OnlyOrphansAreRecorded(ts: Tables, policies: seq<OrphanPolicy>, t: Table, i: nat, n: Normalization, r: ReferenceRecord)
    requires t in ts && i < |ts[t]| && UniqueKeys(t, ts[t])
    requires n in Records(ts, policies) && n.policy.table == t
    requires r in n.references && r.rowKey == KeyOf(t, ts[t][i])
    ensures Orphaned(ts, policies, t, n.policy.column, ts[t][i]) && r.referencedId == Get(ts[t][i], n.policy.column).s
  {
    RecordsExactly(ts, policies);
    AffectedExactly(IdSet(ts, n.policy.parent), n.policy, ts[t]);
    var j :| 0 <= j < |ts[t]| && Dangling(IdSet(ts, n.policy.parent), n.policy.column, ts[t][j])
             && r == ReferenceRecord(KeyOf(t, ts[t][j]), Get(ts[t][j], n.policy.column).s);
    assert j == i;
  }

  lemma OrphansAreRecorded(ts: Tables, policies: seq<OrphanPolicy>, p: OrphanPolicy, i: nat)
    requires p in policies && p.table in ts && i < |ts[p.table]|
    requires Dangling(IdSet(ts, p.parent), p.column, ts[p.table][i])
    ensures Get(ts[p.table][i], p.column).s in Recorded(Records(ts, policies), p.table, p.column, KeyOf(p.table, ts[p.table][i]))
  {
    var rows, ids := ts[p.table], IdSet(ts, p.parent);
    RecordsExactly(ts, policies);
    AffectedExactly(ids, p, rows);
    var r := ReferenceRecord(KeyOf(p.table, rows[i]), Get(rows[i], p.column).s);
    assert r in Affected(ids, p, rows);
    var n := Normalization(p, Affected(ids, p, rows));
    assert n in Records(ts, policies) && r in n.references;
  }

  lemma RecordedOnlyOrphans(ts: Tables, policies: seq<OrphanPolicy>, t: Table, i: nat, c: Column, s: string)
    requires t in ts && i < |ts[t]| && UniqueKeys(t, ts[t])
    requires s in Recorded(Records(ts, policies), t, c, KeyOf(t, ts[t][i]))
    ensures Orphaned(ts, policies, t, c, ts[t][i]) && s == Get(ts[t][i], c).s
  {
    var records, key := Records(ts, policies), KeyOf(t, ts[t][i]);
    var n, r :| n in records && n.policy.table == t && n.policy.column == c
                && r in n.references && r.rowKey == key && r.referencedId == s;
    OnlyOrphansAreRecorded(ts, policies, t, i, n, r);
  }

  /** What is recorded for a cell is the dangling reference it held, and nothing for any other cell. */
  lemma RecordedIsTheOrphan(ts: Tables, policies: seq<OrphanPolicy>, t: Table, i: nat, c: Column)
    requires t in ts && i < |ts[t]| && UniqueKeys(t, ts[t])
    ensures var found := Recorded(Records(ts, policies), t, c, KeyOf(t, ts[t][i]));
            && (found != {} <==> Orphaned(ts, policies, t, c, ts[t][i]))
            && (forall s :: s in found ==> s == Get(ts[t][i], c).s)
  {
    forall s | s in Recorded(Records(ts, policies), t, c, KeyOf(t, ts[t][i]))
      ensures Orphaned(ts, policies, t, c, ts[t][i]) && s == Get(ts[t][i], c).s
    {
      RecordedOnlyOrphans(ts, policies, t, i, c, s);
    }
    if Orphaned(ts, policies, t, c, ts[t][i]) {
      var p :| p in policies && p.table == t && p.column == c && Dangling(IdSet(ts, p.parent), c, ts[t][i]);
      OrphansAreRecorded(ts, policies, p, i);
    }
  }

  /** Normalisation is reversible: writing the recorded references back gives the original tables. */
  lemma RestoreUndoesNormalization(ts: Tables, policies: seq<OrphanPolicy>)
    requires UsablePolicies(policies) && forall t :: t in ts ==> UniqueKeys(t, ts[t])
    ensures Restored(Normalized(ts, policies), Records(ts, policies)) == ts
  {
    var after, records := Normalized(ts, policies), Records(ts, policies);
    forall t, i | t in ts && 0 <= i < |ts[t]| ensures RestoredRow(records, t, after[t][i]) == ts[t][i] {
      NulledKeepsKeys(ts, policies, t, ts[t][i]);
      forall c | c in ts[t][i] ensures RestoredRow(records, t, after[t][i])[c] == ts[t][i][c] {
        RecordedIsTheOrphan(ts, policies, t, i, c);
      }
    }
    forall t | t in ts
      ensures Restored(after, records)[t] == ts[t]
    {
    }
  }
}
