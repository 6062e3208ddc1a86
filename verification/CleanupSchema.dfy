/**
 The tables, rows and foreign keys the fulfilment cutover touches, the predicate that selects the rows to delete,
 and the DELETE statement with its referential actions.

 A row lists its references by constraint name; a missing entry is a NULL column. `Listed` foreign keys are the ones
 the closure query can see: it only reads constraints whose two tables are in the current schema.
 */
module CleanupSchema {
  import opened Wrappers

  datatype Table =
    | Backlogs | StockReservations | ShipmentTracking | InspectionIssues | Invoices | ShipmentLines | Shipments
    | FulfillmentOrderBatches | FulfillmentOrderItems | FulfillmentOrders | OutboundBatches | OutboxEvents
    | Other(name: string)

  const CLEANUP_TABLES: seq<Table> := [
    Backlogs, StockReservations, ShipmentTracking, InspectionIssues, Invoices, ShipmentLines, Shipments,
    FulfillmentOrderBatches, FulfillmentOrderItems, FulfillmentOrders, OutboundBatches, OutboxEvents
  ]

  datatype Columns =
    | Dated(createdAt: int)
    | ReservationColumns(targetType: string, warehouse: string, sku: string, quantity: nat, confirmed: bool)
    | OutboxColumns(status: string, aggregateType: string, eventType: string)

  datatype RowId = RowId(table: Table, key: nat)

  datatype Row = Row(columns: Columns, refs: map<string, RowId>)

  type Db = map<RowId, Row>

  datatype DeleteAction = NoAction | Restrict | Cascade | SetNull | SetDefault(default: Option<RowId>)

  datatype ForeignKey = ForeignKey(name: string, source: Table, target: Table, action: DeleteAction, listed: bool)

  type Schema = seq<ForeignKey>

  // ---- Which rows go ---------------------------------------------------------------------------------------

  function LowerChar(c: char): char {
    if 'A' <= c <= 'Z' then c + 32 as char else c
  }

  function Lower(s: string): string {
    seq(|s|, i requires 0 <= i < |s| => LowerChar(s[i]))
  }

  predicate LegacyOutbox(status: string, aggregateType: string, eventType: string) {
    && status in ["pending", "failed"]
    && (|| Lower(aggregateType) in ["fulfillment", "fulfillment_order", "fulfillmentorder", "shipment"]
        || "fulfillment" <= Lower(eventType)
        || "shipment" <= Lower(eventType))
  }

  predicate CleanupPredicate(t: Table, c: Columns) {
    match t
    case Other(_) => false
    case StockReservations => c.ReservationColumns? && Lower(c.targetType) == "fulfillment_order"
    case OutboxEvents => c.OutboxColumns? && LegacyOutbox(c.status, c.aggregateType, c.eventType)
    case _ => true
  }

  predicate Covered(id: RowId, row: Row) {
    CleanupPredicate(id.table, row.columns)
  }

  /** What a committed cleanup leaves: every row the predicates do not select, untouched. */
  function Remaining(db: Db): Db {
    map id | id in db && !Covered(id, db[id]) :: db[id]
  }

  /** The texts differ at most in the case of Latin letters of the first one; the second one has no capital letters. */
  predicate UpToCase(text: string, small: string) {
    |text| == |small| && forall i :: 0 <= i < |text| ==>
      small[i] == if 'A' <= text[i] <= 'Z' then (text[i] as int + 32) as char else text[i]
  }

  predicate BeginsUpToCase(text: string, small: string) {
    |small| <= |text| && UpToCase(text[..|small|], small)
  }

  lemma LowerIsUpToCase(text: string, small: string)
    ensures Lower(text) == small <==> UpToCase(text, small)
    ensures small <= Lower(text) <==> BeginsUpToCase(text, small)
  {
    if |small| <= |text| {
      assert Lower(text)[..|small|] == Lower(text[..|small|]);
    }
  }

  /**
   A row is selected exactly if it lies in a table that goes as a whole, reserves for a fulfilment order, or is an
   unsent or failed event of a fulfilment or a shipment; names are compared without regard to case, statuses are not.
   */
  lemma CoveredExactly(id: RowId, row: Row)
    ensures Covered(id, row) <==>
      || (id.table in CLEANUP_TABLES && id.table != StockReservations && id.table != OutboxEvents)
      || (id.table == StockReservations && row.columns.ReservationColumns? && UpToCase(row.columns.targetType, "fulfillment_order"))
      || (&& id.table == OutboxEvents && row.columns.OutboxColumns?
          && (row.columns.status == "pending" || row.columns.status == "failed")
          && (|| UpToCase(row.columns.aggregateType, "fulfillment") || UpToCase(row.columns.aggregateType, "fulfillment_order")
              || UpToCase(row.columns.aggregateType, "fulfillmentorder") || UpToCase(row.columns.aggregateType, "shipment")
              || BeginsUpToCase(row.columns.eventType, "fulfillment") || BeginsUpToCase(row.columns.eventType, "shipment")))
  {
    match row.columns
    case Dated(_) => {}
    case ReservationColumns(targetType, _, _, _, _) => LowerIsUpToCase(targetType, "fulfillment_order");
    case OutboxColumns(_, aggregateType, eventType) =>
      LowerIsUpToCase(aggregateType, "fulfillment");
      LowerIsUpToCase(aggregateType, "fulfillment_order");
      LowerIsUpToCase(aggregateType, "fulfillmentorder");
      LowerIsUpToCase(aggregateType, "shipment");
      LowerIsUpToCase(eventType, "fulfillment");
      LowerIsUpToCase(eventType, "shipment");
    CoveredTablesAreCleanupTables(id, row);
  }

  // ---- Referential integrity -------------------------------------------------------------------------------

  ghost predicate Intact(db: Db) {
    forall id, name :: id in db && name in db[id].refs ==> db[id].refs[name] in db
  }

  predicate Declares(fk: ForeignKey, name: string, source: Table, target: Table) {
    fk.name == name && fk.source == source && fk.target == target
  }

  /** Every reference in the data is declared by a foreign key of the schema. */
  ghost predicate Declared(db: Db, schema: Schema) {
    forall id, name :: id in db && name in db[id].refs ==>
      exists fk :: fk in schema && Declares(fk, name, id.table, db[id].refs[name].table)
  }

  /** Tables of which the cleanup keeps some rows. */
  predicate MayKeep(t: Table) {
    t.Other? || t == StockReservations || t == OutboxEvents
  }

  /** The closure query sees a foreign key of this name between these tables. */
  predicate Seen(schema: Schema, name: string, source: Table, target: Table) {
    exists fk :: fk in schema && fk.listed && Declares(fk, name, source, target)
  }

  /** What the closure query sees of the foreign keys into the cleanup tables covers all that kept rows may use. */
  predicate KeptSourcesListed(schema: Schema) {
    forall fk :: fk in schema && fk.target in CLEANUP_TABLES && MayKeep(fk.source) ==>
      Seen(schema, fk.name, fk.source, fk.target)
  }

  /** A row the cleanup keeps never references a row it deletes. */
  ghost predicate NoneUncovered(db: Db) {
    forall id, name :: id in db && name in db[id].refs && db[id].refs[name] in db ==>
      Covered(db[id].refs[name], db[db[id].refs[name]]) ==> Covered(id, db[id])
  }

  // ---- The closure query -----------------------------------------------------------------------------------

  datatype EdgeCount = EdgeCount(constraint: string, referencing: nat, uncovered: nat)

  function Referencing(db: Db, fk: ForeignKey): set<RowId> {
    set id | id in db && id.table == fk.source && fk.name in db[id].refs
             && db[id].refs[fk.name].table == fk.target && db[id].refs[fk.name] in db
             && Covered(db[id].refs[fk.name], db[db[id].refs[fk.name]])
  }

  function Uncovered(db: Db, fk: ForeignKey): set<RowId> {
    set id | id in Referencing(db, fk) && !Covered(id, db[id])
  }

  function ForeignKeyClosure(db: Db, schema: Schema): seq<EdgeCount> {
    if schema == [] then []
    else
      var fk := schema[0];
      (if fk.listed && fk.target in CLEANUP_TABLES
       then [EdgeCount(fk.name, |Referencing(db, fk)|, |Uncovered(db, fk)|)] else [])
        + ForeignKeyClosure(db, schema[1..])
  }

  /** The row refers, by this foreign key, to a row the cleanup deletes. */
  ghost predicate RefersToCovered(db: Db, id: RowId, fk: ForeignKey) {
    && id in db && id.table == fk.source
    && fk.name in db[id].refs
    && exists to :: to in db && to.table == fk.target && Covered(to, db[to]) && db[id].refs[fk.name] == to
  }

  /** An entry of the closure: how many rows refer to covered ones by a listed key, and how many of them are kept. */
  ghost predicate TrueEdge(db: Db, fk: ForeignKey, e: EdgeCount) {
    && fk.listed && fk.target in CLEANUP_TABLES && e.constraint == fk.name
    && e.referencing == |set id | id in db && RefersToCovered(db, id, fk)|
    && e.uncovered == |set id | id in db && RefersToCovered(db, id, fk) && !Covered(id, db[id])|
  }

  lemma EdgeIsTrue(db: Db, fk: ForeignKey)
    requires fk.listed && fk.target in CLEANUP_TABLES
    ensures TrueEdge(db, fk, EdgeCount(fk.name, |Referencing(db, fk)|, |Uncovered(db, fk)|))
  {
    assert Referencing(db, fk) == set id | id in db && RefersToCovered(db, id, fk);
    assert Uncovered(db, fk) == set id | id in db && RefersToCovered(db, id, fk) && !Covered(id, db[id]);
  }

  /** The closure has one entry for every listed key into the cleanup tables, with the true numbers, and no other. */
  lemma {:induction false} ClosureCountsTruly(db: Db, schema: Schema)
    ensures forall e :: e in ForeignKeyClosure(db, schema) <==> exists fk :: fk in schema && TrueEdge(db, fk, e)
  {
    if schema != [] {
      var fk, rest := schema[0], schema[1..];
      ClosureCountsTruly(db, rest);
      assert schema == [fk] + rest;
      if fk.listed && fk.target in CLEANUP_TABLES {
        EdgeIsTrue(db, fk);
      }
      forall e ensures e in ForeignKeyClosure(db, schema) <==> exists k :: k in schema && TrueEdge(db, k, e) {
        if k :| k in schema && TrueEdge(db, k, e) {
          assert k == fk || k in rest;
        }
      }
    }
  }

  predicate ClosureIsCovered(closure: seq<EdgeCount>) {
    forall e :: e in closure ==> e.uncovered == 0
  }

  lemma {:induction false} CoveredClosureCoversEdges(db: Db, schema: Schema)
    ensures ClosureIsCovered(ForeignKeyClosure(db, schema)) <==>
            forall fk :: fk in schema && fk.listed && fk.target in CLEANUP_TABLES ==> Uncovered(db, fk) == {}
  {
    if schema != [] {
      var fk, rest := schema[0], ForeignKeyClosure(db, schema[1..]);
      CoveredClosureCoversEdges(db, schema[1..]);
      assert schema == [fk] + schema[1..];
      var head := if fk.listed && fk.target in CLEANUP_TABLES
                  then [EdgeCount(fk.name, |Referencing(db, fk)|, |Uncovered(db, fk)|)] else [];
      assert forall e :: e in ForeignKeyClosure(db, schema) <==> e in head || e in rest;
      assert |Uncovered(db, fk)| == 0 <==> Uncovered(db, fk) == {};
    }
  }

  /** Whatever the closure query counts as uncovered is a kept row that references a deleted one. */
  lemma UncoveredEdgesAreReal(db: Db, schema: Schema)
    requires NoneUncovered(db)
    ensures ClosureIsCovered(ForeignKeyClosure(db, schema))
  {
    CoveredClosureCoversEdges(db, schema);
    forall fk | fk in schema && fk.listed && fk.target in CLEANUP_TABLES ensures Uncovered(db, fk) == {} {
      forall id | id in Referencing(db, fk) ensures Covered(id, db[id]) {
        assert fk.name in db[id].refs;
      }
    }
  }

  lemma SeenKey(schema: Schema, name: string, source: Table, target: Table) returns (seen: ForeignKey)
    requires KeptSourcesListed(schema) && target in CLEANUP_TABLES && MayKeep(source)
    requires exists fk :: fk in schema && Declares(fk, name, source, target)
    ensures seen in schema && seen.listed && Declares(seen, name, source, target) && seen.target in CLEANUP_TABLES
  {
    var fk :| fk in schema && Declares(fk, name, source, target);
    assert Seen(schema, fk.name, fk.source, fk.target);
    seen :| seen in schema && seen.listed && Declares(seen, name, source, target);
  }

  lemma SeenReferenceIsCovered(db: Db, schema: Schema, id: RowId, name: string)
    requires Intact(db) && Declared(db, schema) && KeptSourcesListed(schema)
    requires forall fk :: fk in schema && fk.listed && fk.target in CLEANUP_TABLES ==> Uncovered(db, fk) == {}
    requires id in db && name in db[id].refs && Covered(db[id].refs[name], db[db[id].refs[name]]) && MayKeep(id.table)
    ensures Covered(id, db[id])
  {
    var t := db[id].refs[name];
    assert t.table in CLEANUP_TABLES by { CoveredTablesAreCleanupTables(t, db[t]); }
    var seen := SeenKey(schema, name, id.table, t.table);
    assert id in Referencing(db, seen);
    assert id !in Uncovered(db, seen);
  }

  /**
   The closure query finds nothing uncovered exactly when no kept row references a deleted one, provided it sees the
   foreign keys that kept rows may use.
   */
  lemma ClosureFindsEveryUncoveredRow(db: Db, schema: Schema)
    requires Intact(db) && Declared(db, schema) && KeptSourcesListed(schema)
    ensures ClosureIsCovered(ForeignKeyClosure(db, schema)) <==> NoneUncovered(db)
  {
    CoveredClosureCoversEdges(db, schema);
    if ClosureIsCovered(ForeignKeyClosure(db, schema)) {
      forall id, name | id in db && name in db[id].refs && Covered(db[id].refs[name], db[db[id].refs[name]])
        ensures Covered(id, db[id])
      {
        if MayKeep(id.table) {
          SeenReferenceIsCovered(db, schema, id, name);
        }
      }
    } else if NoneUncovered(db) {
      UncoveredEdgesAreReal(db, schema);
    }
  }

  lemma CoveredTablesAreCleanupTables(id: RowId, row: Row)
    ensures Covered(id, row) ==> exists j :: 0 <= j < |CLEANUP_TABLES| && CLEANUP_TABLES[j] == id.table
  {
    assert CLEANUP_TABLES[0] == Backlogs && CLEANUP_TABLES[1] == StockReservations && CLEANUP_TABLES[2] == ShipmentTracking
        && CLEANUP_TABLES[3] == InspectionIssues && CLEANUP_TABLES[4] == Invoices && CLEANUP_TABLES[5] == ShipmentLines
        && CLEANUP_TABLES[6] == Shipments && CLEANUP_TABLES[7] == FulfillmentOrderBatches
        && CLEANUP_TABLES[8] == FulfillmentOrderItems && CLEANUP_TABLES[9] == FulfillmentOrders
        && CLEANUP_TABLES[10] == OutboundBatches && CLEANUP_TABLES[11] == OutboxEvents;
  }

  // ---- Which schemas the closure query can be trusted on ---------------------------------------------------

  function CoveredColumns(t: Table): Columns {
    match t
    case StockReservations => ReservationColumns("fulfillment_order", "", "", 1, false)
    case OutboxEvents => OutboxColumns("pending", "shipment", "")
    case _ => Dated(0)
  }

  function KeptColumns(t: Table): Columns {
    match t
    case StockReservations => ReservationColumns("", "", "", 1, false)
    case OutboxEvents => OutboxColumns("published", "", "")
    case _ => Dated(0)
  }

  lemma LowerCaseStays(s: string)
    requires forall i :: 0 <= i < |s| ==> !('A' <= s[i] <= 'Z')
    ensures Lower(s) == s
  {
  }

  lemma SampleRows(t: Table)
    requires t in CLEANUP_TABLES
    ensures CleanupPredicate(t, CoveredColumns(t))
  {
    if t == StockReservations {
      LowerCaseStays("fulfillment_order");
    } else if t == OutboxEvents {
      LowerCaseStays("shipment");
    } else {
      assert !t.Other?;
    }
  }

  lemma KeptSampleRows(t: Table)
    requires MayKeep(t)
    ensures !CleanupPredicate(t, KeptColumns(t))
  {
    if t == StockReservations {
      assert |Lower("")| == 0;
    }
  }

  /** A kept row that references a covered one through `fk`, and nothing else. */
  function KeptReference(fk: ForeignKey): Db {
    var target, source := RowId(fk.target, 0), RowId(fk.source, 1);
    map[target := Row(CoveredColumns(fk.target), map[]), source := Row(KeptColumns(fk.source), map[fk.name := target])]
  }

  lemma KeptReferenceIsMissed(schema: Schema, fk: ForeignKey)
    requires fk in schema && fk.target in CLEANUP_TABLES && MayKeep(fk.source)
    requires !Seen(schema, fk.name, fk.source, fk.target)
    ensures var db := KeptReference(fk);
            Intact(db) && Declared(db, schema) && ClosureIsCovered(ForeignKeyClosure(db, schema)) && !NoneUncovered(db)
  {
    var db := KeptReference(fk);
    var target, source := RowId(fk.target, 0), RowId(fk.source, 1);
    SampleRows(fk.target);
    KeptSampleRows(fk.source);
    assert Declares(fk, fk.name, source.table, target.table);
    CoveredClosureCoversEdges(db, schema);
    forall seen | seen in schema && seen.listed ensures Referencing(db, seen) == {} {
      assert !Declares(seen, fk.name, fk.source, fk.target);
    }
    assert fk.name in db[source].refs && db[source].refs[fk.name] == target;
  }

  ghost predicate ClosureIsTrue(schema: Schema) {
    forall db: Db :: Intact(db) && Declared(db, schema) && ClosureIsCovered(ForeignKeyClosure(db, schema)) ==>
      NoneUncovered(db)
  }

  /**
   The closure query vouches for every database of a schema exactly if it sees each foreign key into the cleanup
   tables whose source may keep rows. An unlisted key from a table that is deleted as a whole does no harm.
   */
  lemma ClosureIsTrueExactly(schema: Schema)
    ensures ClosureIsTrue(schema) <==> KeptSourcesListed(schema)
  {
    if KeptSourcesListed(schema) {
      forall db: Db | Intact(db) && Declared(db, schema) && ClosureIsCovered(ForeignKeyClosure(db, schema))
        ensures NoneUncovered(db)
      {
        ClosureFindsEveryUncoveredRow(db, schema);
      }
    } else {
      var fk :| && fk in schema && fk.target in CLEANUP_TABLES && MayKeep(fk.source)
                && !Seen(schema, fk.name, fk.source, fk.target);
      KeptReferenceIsMissed(schema, fk);
    }
  }

  // ---- DELETE ----------------------------------------------------------------------------------------------

  /** The action declared for a constraint of a table; constraint names are unique within their table. */
  function ActionFor(schema: Schema, source: Table, name: string): Option<DeleteAction> {
    if schema == [] then None
    else if schema[0].source == source && schema[0].name == name then Some(schema[0].action)
    else ActionFor(schema[1..], source, name)
  }

  predicate IsKey(fk: ForeignKey, source: Table, name: string) {
    fk.source == source && fk.name == name
  }

  /** The i-th key is the first one of this table with this name. */
  ghost predicate FirstKey(schema: Schema, source: Table, name: string, i: nat) {
    i < |schema| && IsKey(schema[i], source, name) && forall j :: 0 <= j < i ==> !IsKey(schema[j], source, name)
  }

  /** The action is that of the first key of this table with this name, and none if there is no such key. */
  lemma {:induction false} ActionForExactly(schema: Schema, source: Table, name: string)
    ensures ActionFor(schema, source, name) == None <==> forall fk :: fk in schema ==> !IsKey(fk, source, name)
    ensures forall i: nat :: FirstKey(schema, source, name, i) ==> ActionFor(schema, source, name) == Some(schema[i].action)
  {
    if schema != [] {
      var rest := schema[1..];
      ActionForExactly(rest, source, name);
      assert schema == [schema[0]] + rest && schema[0] in schema;
      assert forall fk :: fk in schema <==> fk == schema[0] || fk in rest;
      forall i: nat | FirstKey(schema, source, name, i) ensures ActionFor(schema, source, name) == Some(schema[i].action) {
        if i > 0 {
          assert !IsKey(schema[0], source, name);
          assert forall j :: 0 <= j < i - 1 ==> rest[j] == schema[j + 1];
          assert FirstKey(rest, source, name, i - 1);
        }
      }
    }
  }

  /** What happens to a reference when the rows in `dead` go. */
  function Hit(schema: Schema, id: RowId, row: Row, name: string, dead: set<RowId>): Option<DeleteAction>
    requires name in row.refs
  {
    if row.refs[name] in dead then ActionFor(schema, id.table, name) else None
  }

  function CascadeOnce(db: Db, schema: Schema, dead: set<RowId>): set<RowId> {
    dead + set id, name | id in db && name in db[id].refs && Hit(schema, id, db[id], name, dead) == Some(Cascade) :: id
  }

  lemma ProperSubsetIsSmaller<T>(a: set<T>, b: set<T>)
    requires a < b
    ensures |a| < |b|
  {
    assert b == a + (b - a);
  }

  /** Everything a DELETE of `dead` takes with it through ON DELETE CASCADE. */
  function CascadeClosure(db: Db, schema: Schema, dead: set<RowId>): (all: set<RowId>)
    requires dead <= db.Keys
    ensures dead <= all <= db.Keys
    decreases |db.Keys - dead|
  {
    var next := CascadeOnce(db, schema, dead);
    if next == dead then dead
    else
      ProperSubsetIsSmaller(db.Keys - next, db.Keys - dead);
      CascadeClosure(db, schema, next)
  }

  /** A surviving row after SET NULL and SET DEFAULT. */
  function Detached(schema: Schema, id: RowId, row: Row, dead: set<RowId>): Row {
    row.(refs := map name | name in row.refs && Hit(schema, id, row, name, dead) !in {Some(SetNull), Some(SetDefault(None))}
                   :: Redirected(Hit(schema, id, row, name, dead), row.refs[name]))
  }

  function Redirected(action: Option<DeleteAction>, reference: RowId): RowId {
    if action.Some? && action.value.SetDefault? && action.value.default.Some? then action.value.default.value else reference
  }

  /**
   One DELETE statement: cascades, then nulls and defaults; it fails when a RESTRICT reference stands outside the
   selected rows, or when a reference would dangle afterwards (NO ACTION, or a default that does not exist).
   */
  predicate Restricted(db: Db, schema: Schema, roots: set<RowId>, dead: set<RowId>) {
    exists id, name :: id in db && name in db[id].refs && id !in roots &&
                       Hit(schema, id, db[id], name, dead) == Some(Restrict)
  }

  function AfterDelete(db: Db, schema: Schema, dead: set<RowId>): Db {
    map id | id in db && id !in dead :: Detached(schema, id, db[id], dead)
  }

  predicate Dangling(db: Db) {
    exists id, name :: id in db && name in db[id].refs && db[id].refs[name] !in db
  }

  function Delete(db: Db, schema: Schema, roots: set<RowId>): Option<Db>
    requires roots <= db.Keys
  {
    var dead := CascadeClosure(db, schema, roots);
    var after := AfterDelete(db, schema, dead);
    if Restricted(db, schema, roots, dead) || Dangling(after) then None else Some(after)
  }

  function CoveredIn(db: Db, t: Table): (roots: set<RowId>)
    ensures roots <= db.Keys
  {
    set id | id in db && id.table == t && Covered(id, db[id])
  }

  // ---- When a DELETE fails ---------------------------------------------------------------------------------

  /** A cascading reference: deleting the row it points to takes this row along. */
  predicate CascadesFrom(db: Db, schema: Schema, id: RowId, name: string) {
    id in db && name in db[id].refs && ActionFor(schema, id.table, name) == Some(Cascade)
  }

  ghost predicate ClosedUnderCascades(db: Db, schema: Schema, dead: set<RowId>) {
    forall id, name :: CascadesFrom(db, schema, id, name) && db[id].refs[name] in dead ==> id in dead
  }

  /** What a DELETE takes along is the least set of rows with its roots that is closed under cascades. */
  lemma {:induction false} ClosureIsLeast(db: Db, schema: Schema, dead: set<RowId>, closed: set<RowId>)
    requires dead <= db.Keys
    ensures ClosedUnderCascades(db, schema, CascadeClosure(db, schema, dead))
    ensures dead <= closed && ClosedUnderCascades(db, schema, closed) ==> CascadeClosure(db, schema, dead) <= closed
    decreases |db.Keys - dead|
  {
    var next := CascadeOnce(db, schema, dead);
    if next == dead {
      forall id, name | CascadesFrom(db, schema, id, name) && db[id].refs[name] in dead ensures id in dead {
        assert id in next;
      }
    } else {
      ProperSubsetIsSmaller(db.Keys - next, db.Keys - dead);
      ClosureIsLeast(db, schema, next, closed);
      if dead <= closed && ClosedUnderCascades(db, schema, closed) {
        forall id | id in next ensures id in closed {
          if id !in dead {
            var name :| name in db[id].refs && Hit(schema, id, db[id], name, dead) == Some(Cascade);
            assert CascadesFrom(db, schema, id, name);
          }
        }
      }
    }
  }

  /** A reference into the deleted rows that its foreign key does not put up with. */
  predicate Objects(db: Db, schema: Schema, roots: set<RowId>, dead: set<RowId>, id: RowId, name: string) {
    && id in db && name in db[id].refs && db[id].refs[name] in dead
    && match ActionFor(schema, id.table, name)
       case Some(Restrict) => id !in roots
       case Some(Cascade) => false
       case Some(SetNull) => false
       case Some(SetDefault(None)) => false
       case Some(SetDefault(Some(to))) => id !in dead && (to !in db || to in dead)
       case Some(NoAction) => id !in dead
       case None => id !in dead
  }

  lemma DetachedRefs(schema: Schema, id: RowId, row: Row, dead: set<RowId>, name: string)
    ensures name in Detached(schema, id, row, dead).refs <==>
              name in row.refs && Hit(schema, id, row, name, dead) !in {Some(SetNull), Some(SetDefault(None))}
    ensures name in Detached(schema, id, row, dead).refs ==>
              Detached(schema, id, row, dead).refs[name] == Redirected(Hit(schema, id, row, name, dead), row.refs[name])
  {
  }

  lemma DanglesIfObjected(db: Db, schema: Schema, roots: set<RowId>, dead: set<RowId>, id: RowId, name: string)
    requires Intact(db) && roots <= dead && ClosedUnderCascades(db, schema, dead)
    requires Objects(db, schema, roots, dead, id, name)
    ensures Restricted(db, schema, roots, dead) || Dangling(AfterDelete(db, schema, dead))
  {
    assert Hit(schema, id, db[id], name, dead) == ActionFor(schema, id.table, name);
    if ActionFor(schema, id.table, name) != Some(Restrict) {
      DetachedRefs(schema, id, db[id], dead, name);
      var after := AfterDelete(db, schema, dead);
      assert id in after && name in after[id].refs && after[id].refs[name] !in after;
    }
  }

  lemma ObjectedIfDangling(db: Db, schema: Schema, roots: set<RowId>, dead: set<RowId>, id: RowId, name: string)
    requires Intact(db) && roots <= dead && ClosedUnderCascades(db, schema, dead)
    requires id in AfterDelete(db, schema, dead) && name in AfterDelete(db, schema, dead)[id].refs
    requires AfterDelete(db, schema, dead)[id].refs[name] !in AfterDelete(db, schema, dead)
    ensures Objects(db, schema, roots, dead, id, name)
  {
    DetachedRefs(schema, id, db[id], dead, name);
    assert CascadesFrom(db, schema, id, name) <==> ActionFor(schema, id.table, name) == Some(Cascade);
  }

  /** A DELETE fails exactly if some reference objects to it. */
  lemma DeleteFailsExactly(db: Db, schema: Schema, roots: set<RowId>)
    requires Intact(db) && roots <= db.Keys
    ensures Delete(db, schema, roots).None? <==>
            exists id, name :: Objects(db, schema, roots, CascadeClosure(db, schema, roots), id, name)
  {
    var dead := CascadeClosure(db, schema, roots);
    ClosureIsLeast(db, schema, roots, dead);
    if id, name :| Objects(db, schema, roots, dead, id, name) {
      DanglesIfObjected(db, schema, roots, dead, id, name);
    } else if Restricted(db, schema, roots, dead) {
      var id, name :| id in db && name in db[id].refs && id !in roots && Hit(schema, id, db[id], name, dead) == Some(Restrict);
      assert Objects(db, schema, roots, dead, id, name);
    } else if Dangling(AfterDelete(db, schema, dead)) {
      var after := AfterDelete(db, schema, dead);
      var id, name :| id in after && name in after[id].refs && after[id].refs[name] !in after;
      ObjectedIfDangling(db, schema, roots, dead, id, name);
    }
  }

  // ---- What a delete step keeps ----------------------------------------------------------------------------

  /** `db` is `start` with some covered rows gone: kept rows are untouched, covered rows keep their columns. */
  ghost predicate OnlyCoveredGone(start: Db, db: Db) {
    && (forall id :: id in db ==> id in start && db[id].columns == start[id].columns)
    && (forall id :: id in start && !Covered(id, start[id]) ==> id in db && db[id] == start[id])
  }

  lemma {:induction false} CascadesStayCovered(start: Db, db: Db, schema: Schema, dead: set<RowId>)
    requires NoneUncovered(start) && Intact(start) && OnlyCoveredGone(start, db) && dead <= db.Keys
    requires forall id :: id in dead ==> Covered(id, start[id])
    ensures forall id :: id in CascadeClosure(db, schema, dead) ==> Covered(id, start[id])
    decreases |db.Keys - dead|
  {
    var next := CascadeOnce(db, schema, dead);
    if next != dead {
      forall id | id in next ensures Covered(id, start[id]) {
        if id !in dead {
          var name :| name in db[id].refs && Hit(schema, id, db[id], name, dead) == Some(Cascade);
          assert name in start[id].refs && start[id].refs[name] in dead ==> Covered(id, start[id]);
        }
      }
      ProperSubsetIsSmaller(db.Keys - next, db.Keys - dead);
      CascadesStayCovered(start, db, schema, next);
    }
  }

  /** Whatever the delete actions are, one DELETE of a cleanup table touches no kept row and empties its selection. */
  lemma DeleteTouchesOnlyCovered(start: Db, db: Db, schema: Schema, t: Table)
    requires NoneUncovered(start) && Intact(start) && OnlyCoveredGone(start, db)
    requires Delete(db, schema, CoveredIn(db, t)).Some?
    ensures var after := Delete(db, schema, CoveredIn(db, t)).value;
            OnlyCoveredGone(start, after) && CoveredIn(after, t) == {} && after.Keys <= db.Keys && Intact(after)
  {
    var roots := CoveredIn(db, t);
    var dead := CascadeClosure(db, schema, roots);
    var after := AfterDelete(db, schema, dead);
    CascadesStayCovered(start, db, schema, roots);
    forall id | id in start && !Covered(id, start[id]) ensures id in after && after[id] == start[id] {
      forall name | name in db[id].refs ensures db[id].refs[name] !in dead {
        assert name in start[id].refs;
      }
      assert after[id].refs == db[id].refs;
    }
  }

  /** A foreign key the closure query cannot see can cascade into a kept row. */
  lemma UnlistedCascadeDeletesKeptRow()
    ensures exists db: Db, schema: Schema ::
      && Intact(db) && Declared(db, schema)
      && ClosureIsCovered(ForeignKeyClosure(db, schema))
      && Delete(db, schema, CoveredIn(db, Shipments)).Some?
      && !OnlyCoveredGone(db, Delete(db, schema, CoveredIn(db, Shipments)).value)
  {
    var shipment, note := RowId(Shipments, 0), RowId(Other("notes"), 0);
    var db: Db := map[shipment := Row(Dated(0), map[]), note := Row(Dated(0), map["shipment" := shipment])];
    var fk := ForeignKey("shipment", Other("notes"), Shipments, Cascade, false);
    var schema := [fk];
    assert schema[1..] == [];
    assert ForeignKeyClosure(db, schema) == [];
    assert Declares(fk, "shipment", note.table, shipment.table);
    var roots := CoveredIn(db, Shipments);
    assert roots == {shipment};
    assert ActionFor(schema, Other("notes"), "shipment") == Some(Cascade);
    assert Hit(schema, note, db[note], "shipment", roots) == Some(Cascade);
    assert CascadeOnce(db, schema, roots) == {shipment, note};
    assert CascadeOnce(db, schema, {shipment, note}) == {shipment, note};
    assert CascadeClosure(db, schema, roots) == {shipment, note};
    assert AfterDelete(db, schema, {shipment, note}) == map[];
  }
}
