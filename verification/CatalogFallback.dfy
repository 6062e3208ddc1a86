/**
 The training fallbacks: a demo supplier for every live physical SKU that has none, and a synthetic
 master / version / variant / matching chain for every physical SKU no real chain makes usable.

 `WithTrainingFallbacks` grows a copy of the tables SKU by SKU. Its contract gives the plan row by row; the lemmas
 say what the plan is for, above all `PlanUsability`: the usable SKUs of the plan are exactly the usable SKUs of the
 source and the live physical SKUs that got a chain.
 */
module CatalogFallback {
  import opened CatalogSchema
  import opened CatalogNormalization
  import opened Sequences

  datatype ChainIds = ChainIds(master: string, version: string, variant: string, masterVariant: string, matching: string)

  /** The digest-derived ids of a chain, the id of the demo supplier, and the SKUs that may come up. */
  datatype Fixture = Fixture(idsOf: string -> ChainIds, supplier: string, skus: set<string>)

  datatype Link = Link(skuId: string, sourceDeleted: bool, group: Value)

  datatype Plan = Plan(tables: Tables, synthetic: seq<Link>, supplierFallbacks: seq<string>)

  // ---- What the source already covers ----------------------------------------------------------------------

  function Text(row: Row, c: Column): string {
    StringOf(Get(row, c))
  }

  predicate LiveMaster(row: Row) {
    Get(row, DeletedAt) == Null
  }

  function MastersOf(rows: seq<Row>): set<string> {
    set row | row in rows && LiveMaster(row) :: Text(row, Id)
  }

  function ActiveMasters(ts: Tables): set<string> {
    MastersOf(RowsOf(ts, ProductMasters))
  }

  predicate Active(row: Row) {
    Get(row, Status) == Str("active")
  }

  function VariantsOf(rows: seq<Row>): set<string> {
    set row | row in rows && Active(row) :: Text(row, Id)
  }

  function ActiveVariants(ts: Tables): set<string> {
    VariantsOf(RowsOf(ts, ProductVariants))
  }

  predicate LivePhysicalVersion(row: Row) {
    Active(row) && Get(row, FulfillmentKind) == Str("physical") && Get(row, DeletedAt) == Null
  }

  function VersionsOf(rows: seq<Row>, masters: set<string>): set<string> {
    set row | row in rows && LivePhysicalVersion(row) && Text(row, MasterId) in masters :: Text(row, Id)
  }

  function ActivePhysicalVersions(ts: Tables): set<string> {
    VersionsOf(RowsOf(ts, ProductMasterVersions), ActiveMasters(ts))
  }

  function PairsOf(rows: seq<Row>, versions: set<string>, masters: set<string>, variants: set<string>): set<(string, string)> {
    set row | row in rows && Text(row, VersionId) in versions && Text(row, MasterId) in masters
              && Text(row, VariantId) in variants :: (Text(row, MasterId), Text(row, VariantId))
  }

  function UsableMasterVariants(ts: Tables): set<(string, string)> {
    PairsOf(RowsOf(ts, ProductMasterVariants), ActivePhysicalVersions(ts), ActiveMasters(ts), ActiveVariants(ts))
  }

  predicate Resolved(row: Row) {
    Get(row, Status) == Str("matched") && Get(row, IsResolved) == Flag(true)
  }

  function MatchingsOf(rows: seq<Row>, pairs: set<(string, string)>): set<string> {
    set row | row in rows && Resolved(row) && (Text(row, MasterId), Text(row, VariantId)) in pairs :: Text(row, Id)
  }

  function UsableMatchings(ts: Tables): set<string> {
    MatchingsOf(RowsOf(ts, ProductMatchings), UsableMasterVariants(ts))
  }

  function SkusOf(rows: seq<Row>, matchings: set<string>): set<string> {
    set row | row in rows && Text(row, ProductMatchingId) in matchings :: Text(row, SkuId)
  }

  function UsableSkus(ts: Tables): set<string> {
    SkusOf(RowsOf(ts, ProductVariantSkuLinks), UsableMatchings(ts))
  }

  function SuppliedSkus(ts: Tables): set<string> {
    set row | row in RowsOf(ts, SkuSuppliers) :: Text(row, SkuId)
  }

  predicate Physical(sku: Row) {
    Get(sku, StockType) == Str("physical")
  }

  predicate IsDeletedSku(sku: Row) {
    Get(sku, IsDeleted) == Flag(true)
  }

  predicate NeedsSupplier(supplied: set<string>, sku: Row) {
    Physical(sku) && !IsDeletedSku(sku) && Text(sku, Id) !in supplied
  }

  predicate NeedsChain(usable: set<string>, sku: Row) {
    Physical(sku) && Text(sku, Id) !in usable
  }

  // ---- What a usable SKU is --------------------------------------------------------------------------------

  /** The rows a SKU sells through. The version's master and the master of the pair are looked up one by one. */
  datatype SalesPath = SalesPath(link: Row, matching: Row, pair: Row, version: Row, owner: Row, master: Row, variant: Row)

  /** A link, the resolved matching it names, the pair of that matching, and its live version, masters and variant. */
  predicate SellsThrough(ts: Tables, id: string, p: SalesPath) {
    && p.link in RowsOf(ts, ProductVariantSkuLinks) && Text(p.link, SkuId) == id
    && p.matching in RowsOf(ts, ProductMatchings) && Text(p.matching, Id) == Text(p.link, ProductMatchingId)
    && Get(p.matching, Status) == Str("matched") && Get(p.matching, IsResolved) == Flag(true)
    && p.pair in RowsOf(ts, ProductMasterVariants)
    && Text(p.pair, MasterId) == Text(p.matching, MasterId) && Text(p.pair, VariantId) == Text(p.matching, VariantId)
    && p.version in RowsOf(ts, ProductMasterVersions) && Text(p.version, Id) == Text(p.pair, VersionId)
    && Get(p.version, Status) == Str("active") && Get(p.version, FulfillmentKind) == Str("physical")
    && Get(p.version, DeletedAt) == Null
    && p.owner in RowsOf(ts, ProductMasters) && Text(p.owner, Id) == Text(p.version, MasterId)
    && Get(p.owner, DeletedAt) == Null
    && p.master in RowsOf(ts, ProductMasters) && Text(p.master, Id) == Text(p.pair, MasterId)
    && Get(p.master, DeletedAt) == Null
    && p.variant in RowsOf(ts, ProductVariants) && Text(p.variant, Id) == Text(p.pair, VariantId)
    && Get(p.variant, Status) == Str("active")
  }

  ghost predicate Sells(ts: Tables, id: string) {
    exists p :: SellsThrough(ts, id, p)
  }

  lemma MasterOf(ts: Tables, id: string) returns (master: Row)
    requires id in ActiveMasters(ts)
    ensures master in RowsOf(ts, ProductMasters) && Text(master, Id) == id && Get(master, DeletedAt) == Null
  {
    master :| master in RowsOf(ts, ProductMasters) && LiveMaster(master) && Text(master, Id) == id;
  }

  lemma PairOf(ts: Tables, p: (string, string)) returns (pair: Row)
    requires p in UsableMasterVariants(ts)
    ensures pair in RowsOf(ts, ProductMasterVariants) && Text(pair, MasterId) == p.0 && Text(pair, VariantId) == p.1
    ensures Text(pair, VersionId) in ActivePhysicalVersions(ts) && p.0 in ActiveMasters(ts) && p.1 in ActiveVariants(ts)
  {
    pair :| && pair in RowsOf(ts, ProductMasterVariants) && Text(pair, VersionId) in ActivePhysicalVersions(ts)
            && Text(pair, MasterId) in ActiveMasters(ts) && Text(pair, VariantId) in ActiveVariants(ts)
            && (Text(pair, MasterId), Text(pair, VariantId)) == p;
  }

  lemma UsableSells(ts: Tables, id: string)
    requires id in UsableSkus(ts)
    ensures Sells(ts, id)
  {
    var link :| && link in RowsOf(ts, ProductVariantSkuLinks) && Text(link, ProductMatchingId) in UsableMatchings(ts)
                && Text(link, SkuId) == id;
    var matching :| && matching in RowsOf(ts, ProductMatchings) && Resolved(matching)
                    && (Text(matching, MasterId), Text(matching, VariantId)) in UsableMasterVariants(ts)
                    && Text(matching, Id) == Text(link, ProductMatchingId);
    var pair := PairOf(ts, (Text(matching, MasterId), Text(matching, VariantId)));
    var version :| && version in RowsOf(ts, ProductMasterVersions) && LivePhysicalVersion(version)
                   && Text(version, MasterId) in ActiveMasters(ts) && Text(version, Id) == Text(pair, VersionId);
    var variant :| variant in RowsOf(ts, ProductVariants) && Active(variant) && Text(variant, Id) == Text(pair, VariantId);
    var owner := MasterOf(ts, Text(version, MasterId));
    var master := MasterOf(ts, Text(pair, MasterId));
    assert SellsThrough(ts, id, SalesPath(link, matching, pair, version, owner, master, variant));
  }

  lemma SellingIsUsable(ts: Tables, id: string, p: SalesPath)
    requires SellsThrough(ts, id, p)
    ensures id in UsableSkus(ts)
  {
    assert LiveMaster(p.owner) && Text(p.owner, Id) in ActiveMasters(ts);
    assert LiveMaster(p.master) && Text(p.master, Id) in ActiveMasters(ts);
    assert Active(p.variant) && Text(p.variant, Id) in ActiveVariants(ts);
    assert LivePhysicalVersion(p.version) && Text(p.version, Id) in ActivePhysicalVersions(ts);
    assert (Text(p.pair, MasterId), Text(p.pair, VariantId)) in UsableMasterVariants(ts);
    assert Resolved(p.matching) && Text(p.matching, Id) in UsableMatchings(ts);
  }

  /** The sets the planner builds one from the other come to this: a SKU is usable exactly if it has a path to sell. */
  lemma UsableExactly(ts: Tables, id: string)
    ensures id in UsableSkus(ts) <==> Sells(ts, id)
  {
    if id in UsableSkus(ts) {
      UsableSells(ts, id);
    } else if Sells(ts, id) {
      var p :| SellsThrough(ts, id, p);
      SellingIsUsable(ts, id, p);
    }
  }

  // ---- The rows a chain adds -------------------------------------------------------------------------------

  function LinkOf(sku: Row): Link {
    Link(Text(sku, Id), IsDeletedSku(sku), Get(sku, GroupId))
  }

  function SupplierRow(f: Fixture, skuId: string): Row {
    map[SkuId := Str(skuId), SupplierId := Str(f.supplier), Attributes := Str("DEMO-" + skuId)]
  }

  function StatusOf(l: Link): Value {
    if l.sourceDeleted then Str("inactive") else Str("active")
  }

  function DeletedAtOf(l: Link, createdAt: string): Value {
    if l.sourceDeleted then Str(createdAt) else Null
  }

  function MasterRow(f: Fixture, l: Link, createdAt: string): Row {
    map[Id := Str(f.idsOf(l.skuId).master), DeletedAt := DeletedAtOf(l, createdAt), Attributes := Str(createdAt)]
  }

  function VersionRow(f: Fixture, l: Link, createdAt: string): Row {
    map[Id := Str(f.idsOf(l.skuId).version), MasterId := Str(f.idsOf(l.skuId).master), ParentVersionId := Null,
        Status := StatusOf(l), FulfillmentKind := Str("physical"), DeletedAt := DeletedAtOf(l, createdAt),
        Attributes := Str("DEMO-" + l.skuId)]
  }

  function VariantRow(f: Fixture, l: Link): Row {
    map[Id := Str(f.idsOf(l.skuId).variant), Status := StatusOf(l), Attributes := Str("DEMO-" + l.skuId)]
  }

  function MasterVariantRow(f: Fixture, l: Link): Row {
    map[Id := Str(f.idsOf(l.skuId).masterVariant), MasterId := Str(f.idsOf(l.skuId).master),
        VariantId := Str(f.idsOf(l.skuId).variant), VersionId := Str(f.idsOf(l.skuId).version)]
  }

  function MatchingRow(f: Fixture, l: Link): Row {
    map[Id := Str(f.idsOf(l.skuId).matching), VariantId := Str(f.idsOf(l.skuId).variant),
        MasterId := Str(f.idsOf(l.skuId).master), SkuGroupId := l.group, Status := Str("matched"),
        IsResolved := Flag(true)]
  }

  function SkuLinkRow(f: Fixture, l: Link): Row {
    map[ProductMatchingId := Str(f.idsOf(l.skuId).matching), SkuId := Str(l.skuId)]
  }

  datatype SixRows = SixRows(master: Row, version: Row, variant: Row, masterVariant: Row, matching: Row, link: Row)

  function SixRowsOf(f: Fixture, l: Link, createdAt: string): SixRows {
    SixRows(MasterRow(f, l, createdAt), VersionRow(f, l, createdAt), VariantRow(f, l), MasterVariantRow(f, l),
            MatchingRow(f, l), SkuLinkRow(f, l))
  }

  function RowsFor(rows: SixRows, t: Table): seq<Row> {
    match t
    case ProductMasters => [rows.master]
    case ProductMasterVersions => [rows.version]
    case ProductVariants => [rows.variant]
    case ProductMasterVariants => [rows.masterVariant]
    case ProductMatchings => [rows.matching]
    case ProductVariantSkuLinks => [rows.link]
    case _ => []
  }

  /** The row a chain adds to a table, or none. */
  function ChainRows(f: Fixture, t: Table, l: Link, createdAt: string): seq<Row> {
    RowsFor(SixRowsOf(f, l, createdAt), t)
  }

  function Added(f: Fixture, t: Table, links: seq<Link>, supplied: seq<string>, createdAt: string): seq<Row> {
    if t == SkuSuppliers then seq(|supplied|, i requires 0 <= i < |supplied| => SupplierRow(f, supplied[i]))
    else AddedByChains(f, t, links, createdAt)
  }

  function AddedByChains(f: Fixture, t: Table, links: seq<Link>, createdAt: string): seq<Row> {
    if links == [] then []
    else AddedByChains(f, t, links[..|links| - 1], createdAt) + ChainRows(f, t, links[|links| - 1], createdAt)
  }

  /** The SKUs that get a chain, and those that get the demo supplier, in SKU order. */
  function Chained(usable: set<string>, skus: seq<Row>): seq<Link> {
    if skus == [] then []
    else
      var sku := skus[|skus| - 1];
      Chained(usable, skus[..|skus| - 1]) + (if NeedsChain(usable, sku) then [LinkOf(sku)] else [])
  }

  function Unsupplied(supplied: set<string>, skus: seq<Row>): seq<string> {
    if skus == [] then []
    else
      var sku := skus[|skus| - 1];
      Unsupplied(supplied, skus[..|skus| - 1]) + (if NeedsSupplier(supplied, sku) then [Text(sku, Id)] else [])
  }

  predicate EveryTable(ts: Tables) {
    forall t: Table :: t in ts
  }

  function Push(ts: Tables, t: Table, rows: seq<Row>): Tables
    requires t in ts
  {
    ts[t := ts[t] + rows]
  }

  /** The six rows were added to their tables, and nothing else. */
  ghost predicate GotRows(before: Tables, tables: Tables, rows: SixRows) {
    && EveryTable(before) && EveryTable(tables)
    && tables[ProductMasters] == before[ProductMasters] + [rows.master]
    && tables[ProductMasterVersions] == before[ProductMasterVersions] + [rows.version]
    && tables[ProductVariants] == before[ProductVariants] + [rows.variant]
    && tables[ProductMasterVariants] == before[ProductMasterVariants] + [rows.masterVariant]
    && tables[ProductMatchings] == before[ProductMatchings] + [rows.matching]
    && tables[ProductVariantSkuLinks] == before[ProductVariantSkuLinks] + [rows.link]
    && forall t: Table :: !ChainTable(t) ==> tables[t] == before[t]
  }

  ghost predicate GotChain(f: Fixture, before: Tables, tables: Tables, l: Link, createdAt: string) {
    GotRows(before, tables, SixRowsOf(f, l, createdAt))
  }

  lemma GotRowsAt(before: Tables, tables: Tables, rows: SixRows, t: Table)
    requires GotRows(before, tables, rows)
    ensures tables[t] == before[t] + RowsFor(rows, t)
  {
    if !ChainTable(t) {
      assert RowsFor(rows, t) == [];
    }
  }

  method PushSix(before: Tables, rows: SixRows) returns (tables: Tables)
    requires EveryTable(before)
    ensures GotRows(before, tables, rows)
  {
    tables := Push(before, ProductMasters, [rows.master]);
    tables := Push(tables, ProductMasterVersions, [rows.version]);
    tables := Push(tables, ProductVariants, [rows.variant]);
    tables := Push(tables, ProductMasterVariants, [rows.masterVariant]);
    tables := Push(tables, ProductMatchings, [rows.matching]);
    tables := Push(tables, ProductVariantSkuLinks, [rows.link]);
  }

  /** The rows of one chain, table by table. */
  method PushChain(f: Fixture, before: Tables, l: Link, createdAt: string) returns (tables: Tables)
    requires EveryTable(before)
    ensures GotChain(f, before, tables, l, createdAt)
  {
    tables := PushSix(before, SixRowsOf(f, l, createdAt));
  }

  lemma AddedSupplier(f: Fixture, t: Table, links: seq<Link>, supplied: seq<string>, skuId: string, createdAt: string)
    ensures Added(f, t, links, supplied + [skuId], createdAt) ==
            Added(f, t, links, supplied, createdAt) + (if t == SkuSuppliers then [SupplierRow(f, skuId)] else [])
  {
  }

  lemma AddedStep(f: Fixture, t: Table, links: seq<Link>, l: Link, createdAt: string)
    ensures AddedByChains(f, t, links + [l], createdAt) == AddedByChains(f, t, links, createdAt) + ChainRows(f, t, l, createdAt)
    ensures ChainRows(f, SkuSuppliers, l, createdAt) == []
  {
    assert (links + [l])[..|links|] == links;
  }

  ghost predicate Appended(f: Fixture, source: Tables, tables: Tables, links: seq<Link>, supplied: seq<string>, createdAt: string) {
    && EveryTable(source) && EveryTable(tables)
    && forall t: Table {:trigger tables[t]} :: tables[t] == source[t] + Added(f, t, links, supplied, createdAt)
  }

  lemma SupplierAppended(f: Fixture, source: Tables, tables: Tables, links: seq<Link>, supplied: seq<string>,
                         createdAt: string, skuId: string)
    requires Appended(f, source, tables, links, supplied, createdAt)
    ensures Appended(f, source, Push(tables, SkuSuppliers, [SupplierRow(f, skuId)]), links, supplied + [skuId], createdAt)
  {
    var after := Push(tables, SkuSuppliers, [SupplierRow(f, skuId)]);
    forall t: Table ensures after[t] == source[t] + Added(f, t, links, supplied + [skuId], createdAt) {
      AddedSupplier(f, t, links, supplied, skuId, createdAt);
    }
  }

  lemma ChainAppended(f: Fixture, source: Tables, tables: Tables, links: seq<Link>, supplied: seq<string>,
                      createdAt: string, l: Link, after: Tables)
    requires Appended(f, source, tables, links, supplied, createdAt) && EveryTable(after)
    requires GotChain(f, tables, after, l, createdAt)
    ensures Appended(f, source, after, links + [l], supplied, createdAt)
  {
    forall t: Table ensures after[t] == source[t] + Added(f, t, links + [l], supplied, createdAt) {
      ChainAppendedAt(f, source, tables, links, supplied, createdAt, l, after, t);
    }
  }

  lemma ChainAppendedAt(f: Fixture, source: Tables, tables: Tables, links: seq<Link>, supplied: seq<string>,
                        createdAt: string, l: Link, after: Tables, t: Table)
    requires Appended(f, source, tables, links, supplied, createdAt) && GotChain(f, tables, after, l, createdAt)
    ensures after[t] == source[t] + Added(f, t, links + [l], supplied, createdAt)
  {
    AddedStep(f, t, links, l, createdAt);
    GotRowsAt(tables, after, SixRowsOf(f, l, createdAt), t);
    Regroup(source[t], Added(f, t, links, supplied, createdAt), ChainRows(f, t, l, createdAt));
  }

  lemma NothingAppended(f: Fixture, source: Tables, createdAt: string)
    requires EveryTable(source)
    ensures Appended(f, source, source, [], [], createdAt)
  {
    forall t: Table ensures source[t] == source[t] + Added(f, t, [], [], createdAt) {
      assert Added(f, t, [], [], createdAt) == [];
    }
  }

  /** One SKU: the demo supplier first, then the chain. */
  method VisitSku(f: Fixture, ghost source: Tables, before: Plan, sku: Row, usable: set<string>, withSupplier: set<string>,
                  createdAt: string)
    returns (plan: Plan)
    requires Appended(f, source, before.tables, before.synthetic, before.supplierFallbacks, createdAt)
    ensures Appended(f, source, plan.tables, plan.synthetic, plan.supplierFallbacks, createdAt)
    ensures plan.synthetic == before.synthetic + (if NeedsChain(usable, sku) then [LinkOf(sku)] else [])
    ensures plan.supplierFallbacks == before.supplierFallbacks + (if NeedsSupplier(withSupplier, sku) then [Text(sku, Id)] else [])
  {
    plan := before;
    if NeedsSupplier(withSupplier, sku) {
      var skuId := Text(sku, Id);
      SupplierAppended(f, source, plan.tables, plan.synthetic, plan.supplierFallbacks, createdAt, skuId);
      plan := Plan(Push(plan.tables, SkuSuppliers, [SupplierRow(f, skuId)]), plan.synthetic,
                   plan.supplierFallbacks + [skuId]);
    }
    if NeedsChain(usable, sku) {
      var l := LinkOf(sku);
      var after := PushChain(f, plan.tables, l, createdAt);
      ChainAppended(f, source, plan.tables, plan.synthetic, plan.supplierFallbacks, createdAt, l, after);
      plan := Plan(after, plan.synthetic + [l], plan.supplierFallbacks);
    }
  }

  /** The loop over the SKUs, given what the source already covers. */
  method GrowPlan(f: Fixture, source: Tables, usable: set<string>, withSupplier: set<string>, createdAt: string)
    returns (plan: Plan)
    requires EveryTable(source)
    ensures plan.synthetic == Chained(usable, source[Skus])
    ensures plan.supplierFallbacks == Unsupplied(withSupplier, source[Skus])
    ensures Appended(f, source, plan.tables, plan.synthetic, plan.supplierFallbacks, createdAt)
  {
    var skus := source[Skus];
    NothingAppended(f, source, createdAt);
    plan := Plan(source, [], []);
    for i := 0 to |skus|
      invariant plan.synthetic == Chained(usable, skus[..i])
      invariant plan.supplierFallbacks == Unsupplied(withSupplier, skus[..i])
      invariant Appended(f, source, plan.tables, plan.synthetic, plan.supplierFallbacks, createdAt)
    {
      assert skus[..i + 1][..i] == skus[..i];
      plan := VisitSku(f, source, plan, skus[i], usable, withSupplier, createdAt);
    }
    assert skus[..|skus|] == skus;
  }

  /** The tables of the plan are the source's with the rows of its chains and suppliers appended. */
  ghost predicate Extends(f: Fixture, source: Tables, createdAt: string, plan: Plan) {
    Appended(f, source, plan.tables, plan.synthetic, plan.supplierFallbacks, createdAt)
  }

  /** `plan` is the source with its chains and demo suppliers appended. */
  ghost predicate IsPlanFor(f: Fixture, source: Tables, createdAt: string, plan: Plan) {
    && Extends(f, source, createdAt, plan)
    && plan.synthetic == Chained(UsableSkus(source), source[Skus])
    && plan.supplierFallbacks == Unsupplied(SuppliedSkus(source), source[Skus])
  }

  // ---- What the plan is for --------------------------------------------------------------------------------

  predicate ChainIdOf(f: Fixture, skuId: string, id: string) {
    var ids := f.idsOf(skuId);
    id == ids.master || id == ids.version || id == ids.variant || id == ids.masterVariant || id == ids.matching
  }

  function SkuIds(source: Tables): set<string> {
    set sku | sku in RowsOf(source, Skus) :: Text(sku, Id)
  }

  /** No two SKUs share a derived id. */
  ghost predicate DistinctChains(f: Fixture) {
    && (forall s, r :: s in f.skus && r in f.skus && f.idsOf(s).master == f.idsOf(r).master ==> s == r)
    && (forall s, r :: s in f.skus && r in f.skus && f.idsOf(s).version == f.idsOf(r).version ==> s == r)
    && (forall s, r :: s in f.skus && r in f.skus && f.idsOf(s).variant == f.idsOf(r).variant ==> s == r)
    && (forall s, r :: s in f.skus && r in f.skus && f.idsOf(s).masterVariant == f.idsOf(r).masterVariant ==> s == r)
    && (forall s, r :: s in f.skus && r in f.skus && f.idsOf(s).matching == f.idsOf(r).matching ==> s == r)
  }

  /** No cell of the rows is a derived id. */
  ghost predicate NamesNoChain(f: Fixture, rows: seq<Row>) {
    forall row, c, skuId :: row in rows && skuId in f.skus ==> !ChainIdOf(f, skuId, Text(row, c))
  }

  /** The derived ids are new to the source, and no two SKUs share one. */
  ghost predicate FreshIds(f: Fixture, source: Tables) {
    && SkuIds(source) <= f.skus && DistinctChains(f)
    && (forall t :: t in source ==> NamesNoChain(f, source[t]))
  }

  /** The chains belong to SKUs that ids are derived for. */
  predicate LinksOf(f: Fixture, links: seq<Link>) {
    forall l :: l in links ==> l.skuId in f.skus
  }

  lemma {:induction false} AddedExactly(f: Fixture, t: Table, links: seq<Link>, createdAt: string)
    ensures forall row :: row in AddedByChains(f, t, links, createdAt) <==>
                          exists l :: l in links && row in ChainRows(f, t, l, createdAt)
  {
    if links != [] {
      var rest, last := links[..|links| - 1], links[|links| - 1];
      AddedExactly(f, t, rest, createdAt);
      assert links == rest + [last];
    }
  }

  /** The cells that make a row one of the six rows of a chain. */
  predicate ChainRow(f: Fixture, t: Table, row: Row, l: Link) {
    var ids := f.idsOf(l.skuId);
    match t
    case ProductMasters => Text(row, Id) == ids.master && (LiveMaster(row) <==> !l.sourceDeleted)
    case ProductVariants => Text(row, Id) == ids.variant && (Active(row) <==> !l.sourceDeleted)
    case ProductMasterVersions =>
      Text(row, Id) == ids.version && Text(row, MasterId) == ids.master && Get(row, ParentVersionId) == Null
      && (LivePhysicalVersion(row) <==> !l.sourceDeleted)
    case ProductMasterVariants =>
      Text(row, Id) == ids.masterVariant && Text(row, MasterId) == ids.master && Text(row, VariantId) == ids.variant
      && Text(row, VersionId) == ids.version
    case ProductMatchings =>
      Text(row, Id) == ids.matching && Text(row, MasterId) == ids.master && Text(row, VariantId) == ids.variant
      && Resolved(row) && Get(row, SkuGroupId) == l.group
    case ProductVariantSkuLinks => Text(row, ProductMatchingId) == ids.matching && Text(row, SkuId) == l.skuId
    case _ => false
  }

  predicate ChainTable(t: Table) {
    || t == ProductMasters || t == ProductVariants || t == ProductMasterVersions || t == ProductMasterVariants
    || t == ProductMatchings || t == ProductVariantSkuLinks
  }

  /** A table of the plan: the source rows, one row for every chain, and nothing else. */
  ghost predicate Grown(f: Fixture, t: Table, rows: seq<Row>, planRows: seq<Row>, links: seq<Link>) {
    && (forall row :: row in rows ==> row in planRows)
    && (forall row :: row in planRows && row !in rows ==> exists l :: l in links && ChainRow(f, t, row, l))
    && (forall l :: l in links ==> exists row :: row in planRows && ChainRow(f, t, row, l))
  }

  lemma ActivityRows(f: Fixture, l: Link, createdAt: string)
    ensures ChainRow(f, ProductMasters, MasterRow(f, l, createdAt), l) && ChainRow(f, ProductVariants, VariantRow(f, l), l)
    ensures ChainRow(f, ProductMasterVersions, VersionRow(f, l, createdAt), l)
  {
    assert "active" != "inactive";
  }

  lemma RelationRows(f: Fixture, l: Link)
    ensures ChainRow(f, ProductMasterVariants, MasterVariantRow(f, l), l)
    ensures ChainRow(f, ProductMatchings, MatchingRow(f, l), l) && ChainRow(f, ProductVariantSkuLinks, SkuLinkRow(f, l), l)
  {
  }

  lemma ChainRowsAreChainRows(f: Fixture, t: Table, l: Link, createdAt: string)
    requires ChainTable(t)
    ensures |ChainRows(f, t, l, createdAt)| == 1 && ChainRow(f, t, ChainRows(f, t, l, createdAt)[0], l)
  {
    ActivityRows(f, l, createdAt);
    RelationRows(f, l);
  }

  lemma GrownByChains(f: Fixture, t: Table, rows: seq<Row>, links: seq<Link>, createdAt: string)
    requires ChainTable(t)
    ensures Grown(f, t, rows, rows + AddedByChains(f, t, links, createdAt), links)
  {
    var added := AddedByChains(f, t, links, createdAt);
    AddedExactly(f, t, links, createdAt);
    forall row | row in added ensures exists l :: l in links && ChainRow(f, t, row, l) {
      var l :| l in links && row in ChainRows(f, t, l, createdAt);
      ChainRowsAreChainRows(f, t, l, createdAt);
    }
    forall l | l in links ensures exists row :: row in rows + added && ChainRow(f, t, row, l) {
      ChainRowsAreChainRows(f, t, l, createdAt);
      var row := ChainRows(f, t, l, createdAt)[0];
      assert row in ChainRows(f, t, l, createdAt);
      assert row in added;
    }
  }

  // ---- One step of the chain at a time ---------------------------------------------------------------------

  function LiveLinks(links: seq<Link>): set<Link> {
    set l | l in links && !l.sourceDeleted
  }

  function LiveMasterIds(f: Fixture, links: seq<Link>): set<string> {
    set l | l in LiveLinks(links) :: f.idsOf(l.skuId).master
  }

  function LiveVariantIds(f: Fixture, links: seq<Link>): set<string> {
    set l | l in LiveLinks(links) :: f.idsOf(l.skuId).variant
  }

  function LiveVersionIds(f: Fixture, links: seq<Link>): set<string> {
    set l | l in LiveLinks(links) :: f.idsOf(l.skuId).version
  }

  function LivePairs(f: Fixture, links: seq<Link>): set<(string, string)> {
    set l | l in LiveLinks(links) :: (f.idsOf(l.skuId).master, f.idsOf(l.skuId).variant)
  }

  function LiveMatchingIds(f: Fixture, links: seq<Link>): set<string> {
    set l | l in LiveLinks(links) :: f.idsOf(l.skuId).matching
  }

  /** The live physical SKUs among those that got a chain. */
  function LiveSkuIds(links: seq<Link>): set<string> {
    set l | l in LiveLinks(links) :: l.skuId
  }

  lemma MastersStep(f: Fixture, rows: seq<Row>, planRows: seq<Row>, links: seq<Link>)
    requires Grown(f, ProductMasters, rows, planRows, links) && NamesNoChain(f, rows)
    ensures MastersOf(planRows) == MastersOf(rows) + LiveMasterIds(f, links)
    ensures forall skuId :: skuId in f.skus ==> f.idsOf(skuId).master !in MastersOf(rows)
  {
    forall id | id in MastersOf(planRows) ensures id in MastersOf(rows) + LiveMasterIds(f, links) {
      var row :| row in planRows && LiveMaster(row) && Text(row, Id) == id;
      if row !in rows {
        var l :| l in links && ChainRow(f, ProductMasters, row, l);
        assert l in LiveLinks(links);
      }
    }
    forall l | l in LiveLinks(links) ensures f.idsOf(l.skuId).master in MastersOf(planRows) {
      var row :| row in planRows && ChainRow(f, ProductMasters, row, l);
    }
    forall skuId, row | skuId in f.skus && row in rows ensures f.idsOf(skuId).master != Text(row, Id) {
      assert !ChainIdOf(f, skuId, Text(row, Id));
    }
  }

  lemma VariantsStep(f: Fixture, rows: seq<Row>, planRows: seq<Row>, links: seq<Link>)
    requires Grown(f, ProductVariants, rows, planRows, links)
    ensures VariantsOf(planRows) == VariantsOf(rows) + LiveVariantIds(f, links)
  {
    forall id | id in VariantsOf(planRows) ensures id in VariantsOf(rows) + LiveVariantIds(f, links) {
      var row :| row in planRows && Active(row) && Text(row, Id) == id;
      if row !in rows {
        var l :| l in links && ChainRow(f, ProductVariants, row, l);
        assert l in LiveLinks(links);
      }
    }
    forall l | l in LiveLinks(links) ensures f.idsOf(l.skuId).variant in VariantsOf(planRows) {
      var row :| row in planRows && ChainRow(f, ProductVariants, row, l);
    }
  }

  lemma VersionsStep(f: Fixture, rows: seq<Row>, planRows: seq<Row>, links: seq<Link>,
                     masters: set<string>)
    requires Grown(f, ProductMasterVersions, rows, planRows, links) && NamesNoChain(f, rows) && LinksOf(f, links)
    ensures VersionsOf(planRows, masters + LiveMasterIds(f, links)) == VersionsOf(rows, masters) + LiveVersionIds(f, links)
  {
    var all := masters + LiveMasterIds(f, links);
    forall id | id in VersionsOf(planRows, all) ensures id in VersionsOf(rows, masters) + LiveVersionIds(f, links) {
      var row :| row in planRows && LivePhysicalVersion(row) && Text(row, MasterId) in all && Text(row, Id) == id;
      if row in rows {
        forall skuId | skuId in f.skus ensures f.idsOf(skuId).master != Text(row, MasterId) {
          assert !ChainIdOf(f, skuId, Text(row, MasterId));
        }
      } else {
        var l :| l in links && ChainRow(f, ProductMasterVersions, row, l);
        assert l in LiveLinks(links);
      }
    }
    forall l | l in LiveLinks(links) ensures f.idsOf(l.skuId).version in VersionsOf(planRows, all) {
      var row :| row in planRows && ChainRow(f, ProductMasterVersions, row, l);
      assert Text(row, MasterId) in LiveMasterIds(f, links);
    }
  }

  /** A chain whose master is active belongs to a live SKU. */
  lemma ActiveChainIsLive(f: Fixture, links: seq<Link>, masters: set<string>, l: Link) returns (k: Link)
    requires DistinctChains(f) && LinksOf(f, links) && l.skuId in f.skus
    requires forall skuId :: skuId in f.skus ==> f.idsOf(skuId).master !in masters
    requires f.idsOf(l.skuId).master in masters + LiveMasterIds(f, links)
    ensures k in LiveLinks(links) && k.skuId == l.skuId
  {
    k :| k in LiveLinks(links) && f.idsOf(k.skuId).master == f.idsOf(l.skuId).master;
  }

  /** A source row that pairs an active master with its variant does so without the chains. */
  lemma SourcePair(f: Fixture, rows: seq<Row>, links: seq<Link>, versions: set<string>, masters: set<string>,
                   variants: set<string>, row: Row)
    requires NamesNoChain(f, rows) && LinksOf(f, links) && row in rows
    requires Text(row, VersionId) in versions + LiveVersionIds(f, links)
    requires Text(row, MasterId) in masters + LiveMasterIds(f, links)
    requires Text(row, VariantId) in variants + LiveVariantIds(f, links)
    ensures (Text(row, MasterId), Text(row, VariantId)) in PairsOf(rows, versions, masters, variants)
  {
    forall l | l in LiveLinks(links)
      ensures f.idsOf(l.skuId).master != Text(row, MasterId) && f.idsOf(l.skuId).variant != Text(row, VariantId)
      ensures f.idsOf(l.skuId).version != Text(row, VersionId)
    {
      assert !ChainIdOf(f, l.skuId, Text(row, MasterId)) && !ChainIdOf(f, l.skuId, Text(row, VariantId));
      assert !ChainIdOf(f, l.skuId, Text(row, VersionId));
    }
  }

  /** A chain row that pairs an active master with its variant belongs to a live chain. */
  lemma ChainPair(f: Fixture, links: seq<Link>, masters: set<string>, l: Link, row: Row)
    requires DistinctChains(f) && LinksOf(f, links) && l in links && ChainRow(f, ProductMasterVariants, row, l)
    requires forall skuId :: skuId in f.skus ==> f.idsOf(skuId).master !in masters
    requires Text(row, MasterId) in masters + LiveMasterIds(f, links)
    ensures (Text(row, MasterId), Text(row, VariantId)) in LivePairs(f, links)
  {
    var k := ActiveChainIsLive(f, links, masters, l);
    assert (Text(row, MasterId), Text(row, VariantId)) == (f.idsOf(k.skuId).master, f.idsOf(k.skuId).variant);
  }

  /** The pair of a live chain is usable in the plan. */
  lemma LivePair(f: Fixture, rows: seq<Row>, planRows: seq<Row>, links: seq<Link>, versions: set<string>,
                 masters: set<string>, variants: set<string>, l: Link)
    requires Grown(f, ProductMasterVariants, rows, planRows, links) && l in LiveLinks(links)
    ensures (f.idsOf(l.skuId).master, f.idsOf(l.skuId).variant)
         in PairsOf(planRows, versions + LiveVersionIds(f, links), masters + LiveMasterIds(f, links),
                    variants + LiveVariantIds(f, links))
  {
    var row :| row in planRows && ChainRow(f, ProductMasterVariants, row, l);
    assert Text(row, MasterId) in LiveMasterIds(f, links) && Text(row, VariantId) in LiveVariantIds(f, links);
    assert Text(row, VersionId) in LiveVersionIds(f, links);
  }

  lemma PairsStep(f: Fixture, rows: seq<Row>, planRows: seq<Row>, links: seq<Link>,
                  versions: set<string>, masters: set<string>, variants: set<string>)
    requires Grown(f, ProductMasterVariants, rows, planRows, links) && NamesNoChain(f, rows)
    requires DistinctChains(f) && LinksOf(f, links)
    requires forall skuId :: skuId in f.skus ==> f.idsOf(skuId).master !in masters
    ensures PairsOf(planRows, versions + LiveVersionIds(f, links), masters + LiveMasterIds(f, links),
                    variants + LiveVariantIds(f, links))
            == PairsOf(rows, versions, masters, variants) + LivePairs(f, links)
  {
    var ver, mas, vri := versions + LiveVersionIds(f, links), masters + LiveMasterIds(f, links),
                         variants + LiveVariantIds(f, links);
    forall p | p in PairsOf(planRows, ver, mas, vri)
      ensures p in PairsOf(rows, versions, masters, variants) + LivePairs(f, links)
    {
      var row :| row in planRows && Text(row, VersionId) in ver && Text(row, MasterId) in mas
                 && Text(row, VariantId) in vri && (Text(row, MasterId), Text(row, VariantId)) == p;
      if row in rows {
        SourcePair(f, rows, links, versions, masters, variants, row);
      } else {
        var l :| l in links && ChainRow(f, ProductMasterVariants, row, l);
        ChainPair(f, links, masters, l, row);
      }
    }
    forall l | l in LiveLinks(links)
      ensures (f.idsOf(l.skuId).master, f.idsOf(l.skuId).variant) in PairsOf(planRows, ver, mas, vri)
    {
      LivePair(f, rows, planRows, links, versions, masters, variants, l);
    }
  }

  lemma MatchingsStep(f: Fixture, rows: seq<Row>, planRows: seq<Row>, links: seq<Link>,
                      pairs: set<(string, string)>)
    requires Grown(f, ProductMatchings, rows, planRows, links) && NamesNoChain(f, rows)
    requires DistinctChains(f) && LinksOf(f, links)
    requires forall skuId, v :: skuId in f.skus ==> (f.idsOf(skuId).master, v) !in pairs
    ensures MatchingsOf(planRows, pairs + LivePairs(f, links)) == MatchingsOf(rows, pairs) + LiveMatchingIds(f, links)
  {
    var all := pairs + LivePairs(f, links);
    forall id | id in MatchingsOf(planRows, all) ensures id in MatchingsOf(rows, pairs) + LiveMatchingIds(f, links) {
      var row :| row in planRows && Resolved(row) && (Text(row, MasterId), Text(row, VariantId)) in all && Text(row, Id) == id;
      if row in rows {
        forall skuId | skuId in f.skus ensures f.idsOf(skuId).master != Text(row, MasterId) {
          assert !ChainIdOf(f, skuId, Text(row, MasterId));
        }
      } else {
        var l :| l in links && ChainRow(f, ProductMatchings, row, l);
        var k :| k in LiveLinks(links) && f.idsOf(k.skuId).master == f.idsOf(l.skuId).master;
        assert id == f.idsOf(k.skuId).matching;
      }
    }
    forall l | l in LiveLinks(links) ensures f.idsOf(l.skuId).matching in MatchingsOf(planRows, all) {
      var row :| row in planRows && ChainRow(f, ProductMatchings, row, l);
      assert (Text(row, MasterId), Text(row, VariantId)) in LivePairs(f, links);
    }
  }

  /** A source link to a usable matching is usable without the chains. */
  lemma SourceLink(f: Fixture, rows: seq<Row>, links: seq<Link>, matchings: set<string>, row: Row)
    requires NamesNoChain(f, rows) && LinksOf(f, links) && row in rows
    requires Text(row, ProductMatchingId) in matchings + LiveMatchingIds(f, links)
    ensures Text(row, SkuId) in SkusOf(rows, matchings)
  {
    forall l | l in LiveLinks(links) ensures f.idsOf(l.skuId).matching != Text(row, ProductMatchingId) {
      assert !ChainIdOf(f, l.skuId, Text(row, ProductMatchingId));
    }
  }

  /** A chain's link to a usable matching belongs to a live chain. */
  lemma ChainLink(f: Fixture, links: seq<Link>, matchings: set<string>, l: Link, row: Row)
    requires DistinctChains(f) && LinksOf(f, links) && l in links && ChainRow(f, ProductVariantSkuLinks, row, l)
    requires forall skuId :: skuId in f.skus ==> f.idsOf(skuId).matching !in matchings
    requires Text(row, ProductMatchingId) in matchings + LiveMatchingIds(f, links)
    ensures Text(row, SkuId) in LiveSkuIds(links)
  {
    var k :| k in LiveLinks(links) && f.idsOf(k.skuId).matching == f.idsOf(l.skuId).matching;
    assert k.skuId == l.skuId;
  }

  lemma SkusStep(f: Fixture, rows: seq<Row>, planRows: seq<Row>, links: seq<Link>, matchings: set<string>)
    requires Grown(f, ProductVariantSkuLinks, rows, planRows, links) && NamesNoChain(f, rows)
    requires DistinctChains(f) && LinksOf(f, links)
    requires forall skuId :: skuId in f.skus ==> f.idsOf(skuId).matching !in matchings
    ensures SkusOf(planRows, matchings + LiveMatchingIds(f, links)) == SkusOf(rows, matchings) + LiveSkuIds(links)
  {
    var all := matchings + LiveMatchingIds(f, links);
    forall id | id in SkusOf(planRows, all) ensures id in SkusOf(rows, matchings) + LiveSkuIds(links) {
      var row :| row in planRows && Text(row, ProductMatchingId) in all && Text(row, SkuId) == id;
      if row in rows {
        SourceLink(f, rows, links, matchings, row);
      } else {
        var l :| l in links && ChainRow(f, ProductVariantSkuLinks, row, l);
        ChainLink(f, links, matchings, l, row);
      }
    }
    forall l | l in LiveLinks(links) ensures l.skuId in SkusOf(planRows, all) {
      var row :| row in planRows && ChainRow(f, ProductVariantSkuLinks, row, l);
      assert Text(row, ProductMatchingId) in LiveMatchingIds(f, links);
    }
  }

  lemma NewPairsAndMatchings(f: Fixture, source: Tables)
    requires EveryTable(source) && FreshIds(f, source)
    ensures forall skuId, v :: skuId in f.skus ==> (f.idsOf(skuId).master, v) !in UsableMasterVariants(source)
    ensures forall skuId :: skuId in f.skus ==> f.idsOf(skuId).matching !in UsableMatchings(source)
  {
    forall skuId, row | skuId in f.skus && row in source[ProductMasterVariants]
      ensures f.idsOf(skuId).master != Text(row, MasterId)
    {
      assert !ChainIdOf(f, skuId, Text(row, MasterId));
    }
    forall skuId, row | skuId in f.skus && row in source[ProductMatchings]
      ensures f.idsOf(skuId).matching != Text(row, Id)
    {
      assert !ChainIdOf(f, skuId, Text(row, Id));
    }
  }

  /** Only SKUs of the source get chains. */
  lemma ChainsAreOfTheSource(f: Fixture, usable: set<string>, source: Tables)
    requires Skus in source && SkuIds(source) <= f.skus
    ensures LinksOf(f, Chained(usable, source[Skus]))
  {
    ChainedExactly(usable, source[Skus]);
  }

  lemma PlanGrows(f: Fixture, source: Tables, createdAt: string, plan: Plan, t: Table)
    requires Extends(f, source, createdAt, plan) && ChainTable(t)
    ensures Grown(f, t, source[t], plan.tables[t], plan.synthetic)
  {
    GrownByChains(f, t, source[t], plan.synthetic, createdAt);
  }

  /**
   The usable SKUs of the plan are those of the source and the live ones among the SKUs that got a chain: no chain
   of a deleted SKU becomes usable, and no real link is lost.
   */
  lemma PlanUsability(f: Fixture, source: Tables, createdAt: string, plan: Plan)
    requires IsPlanFor(f, source, createdAt, plan) && FreshIds(f, source)
    ensures UsableSkus(plan.tables) == UsableSkus(source) + LiveSkuIds(plan.synthetic)
  {
    var links, after := plan.synthetic, plan.tables;
    ChainsAreOfTheSource(f, UsableSkus(source), source);
    forall t: Table | ChainTable(t) ensures Grown(f, t, source[t], after[t], links) {
      PlanGrows(f, source, createdAt, plan, t);
    }
    MastersStep(f, source[ProductMasters], after[ProductMasters], links);
    VariantsStep(f, source[ProductVariants], after[ProductVariants], links);
    VersionsStep(f, source[ProductMasterVersions], after[ProductMasterVersions], links, ActiveMasters(source));
    PairsStep(f, source[ProductMasterVariants], after[ProductMasterVariants], links,
              ActivePhysicalVersions(source), ActiveMasters(source), ActiveVariants(source));
    NewPairsAndMatchings(f, source);
    MatchingsStep(f, source[ProductMatchings], after[ProductMatchings], links, UsableMasterVariants(source));
    SkusStep(f, source[ProductVariantSkuLinks], after[ProductVariantSkuLinks], links, UsableMatchings(source));
  }

  lemma {:induction false} ChainedExactly(usable: set<string>, skus: seq<Row>)
    ensures forall l :: l in Chained(usable, skus) <==> exists sku :: sku in skus && NeedsChain(usable, sku) && l == LinkOf(sku)
  {
    if skus != [] {
      var rest, sku := skus[..|skus| - 1], skus[|skus| - 1];
      ChainedExactly(usable, rest);
      assert skus == rest + [sku];
    }
  }

  lemma {:induction false} UnsuppliedExactly(supplied: set<string>, skus: seq<Row>)
    ensures forall id :: id in Unsupplied(supplied, skus) <==>
                         exists sku :: sku in skus && NeedsSupplier(supplied, sku) && id == Text(sku, Id)
  {
    if skus != [] {
      var rest, sku := skus[..|skus| - 1], skus[|skus| - 1];
      UnsuppliedExactly(supplied, rest);
      assert skus == rest + [sku];
    }
  }

  lemma ChainedSkuIsLive(usable: set<string>, skus: seq<Row>, sku: Row)
    requires sku in skus && Physical(sku) && !IsDeletedSku(sku)
    ensures Text(sku, Id) in usable + LiveSkuIds(Chained(usable, skus))
  {
    ChainedExactly(usable, skus);
    if Text(sku, Id) !in usable {
      assert LinkOf(sku) in LiveLinks(Chained(usable, skus));
    }
  }

  lemma SuppliedByFallback(f: Fixture, rows: seq<Row>, supplied: seq<string>, id: string)
    requires id in supplied
    ensures exists row :: row in rows + seq(|supplied|, i requires 0 <= i < |supplied| => SupplierRow(f, supplied[i]))
                          && Text(row, SkuId) == id
  {
    var added := seq(|supplied|, i requires 0 <= i < |supplied| => SupplierRow(f, supplied[i]));
    var i :| 0 <= i < |supplied| && supplied[i] == id;
    assert added[i] in rows + added && Text(added[i], SkuId) == id;
  }

  lemma LivePhysicalSkuIsSupplied(f: Fixture, source: Tables, createdAt: string, plan: Plan, sku: Row)
    requires Extends(f, source, createdAt, plan)
    requires plan.supplierFallbacks == Unsupplied(SuppliedSkus(source), source[Skus])
    requires sku in source[Skus] && Physical(sku) && !IsDeletedSku(sku)
    ensures Text(sku, Id) in SuppliedSkus(plan.tables)
  {
    UnsuppliedExactly(SuppliedSkus(source), source[Skus]);
    SupplierTableRows(f, source, createdAt, plan);
    if Text(sku, Id) !in SuppliedSkus(source) {
      SuppliedByFallback(f, source[SkuSuppliers], plan.supplierFallbacks, Text(sku, Id));
    }
  }

  ghost predicate Supplied(ts: Tables, id: string) {
    exists row :: row in RowsOf(ts, SkuSuppliers) && Text(row, SkuId) == id
  }

  /** In the plan every live physical SKU has a path to sell and a supplier. */
  lemma LivePhysicalSkusAreCovered(f: Fixture, source: Tables, createdAt: string, plan: Plan, sku: Row)
    requires IsPlanFor(f, source, createdAt, plan) && FreshIds(f, source)
    requires sku in source[Skus] && Get(sku, StockType) == Str("physical") && Get(sku, IsDeleted) != Flag(true)
    ensures Sells(plan.tables, Text(sku, Id)) && Supplied(plan.tables, Text(sku, Id))
  {
    PlanUsability(f, source, createdAt, plan);
    ChainedSkuIsLive(UsableSkus(source), source[Skus], sku);
    LivePhysicalSkuIsSupplied(f, source, createdAt, plan, sku);
    UsableExactly(plan.tables, Text(sku, Id));
  }

  /** A SKU the source marks as deleted has a path to sell in the plan only if the source already gives it one. */
  lemma DeletedSkusGainNothing(f: Fixture, source: Tables, createdAt: string, plan: Plan, sku: Row)
    requires IsPlanFor(f, source, createdAt, plan) && FreshIds(f, source)
    requires forall a, b :: a in source[Skus] && b in source[Skus] && Text(a, Id) == Text(b, Id) ==> a == b
    requires sku in source[Skus] && Get(sku, IsDeleted) == Flag(true)
    ensures Sells(plan.tables, Text(sku, Id)) <==> Sells(source, Text(sku, Id))
  {
    PlanUsability(f, source, createdAt, plan);
    ChainedExactly(UsableSkus(source), source[Skus]);
    UsableExactly(plan.tables, Text(sku, Id));
    UsableExactly(source, Text(sku, Id));
  }

  /** A SKU of the source that needs a chain, and what the plan remembers of it. */
  ghost predicate GetsChain(source: Tables, sku: Row, l: Link) {
    && sku in RowsOf(source, Skus) && Get(sku, StockType) == Str("physical") && !Sells(source, Text(sku, Id))
    && l == Link(Text(sku, Id), Get(sku, IsDeleted) == Flag(true), Get(sku, GroupId))
  }

  /** A live physical SKU of the source that no supplier row of the source names. */
  ghost predicate LacksSupplier(source: Tables, sku: Row) {
    && sku in RowsOf(source, Skus) && Get(sku, StockType) == Str("physical") && Get(sku, IsDeleted) != Flag(true)
    && !Supplied(source, Text(sku, Id))
  }

  lemma SuppliedExactly(ts: Tables, id: string)
    ensures id in SuppliedSkus(ts) <==> Supplied(ts, id)
  {
  }

  /** Chains go exactly to the physical SKUs without a path to sell. */
  lemma ChainsExactly(f: Fixture, source: Tables, createdAt: string, plan: Plan, l: Link)
    requires IsPlanFor(f, source, createdAt, plan)
    ensures l in plan.synthetic <==> exists sku :: GetsChain(source, sku, l)
  {
    var usable := UsableSkus(source);
    ChainedExactly(usable, source[Skus]);
    if sku :| GetsChain(source, sku, l) {
      UsableExactly(source, Text(sku, Id));
      assert NeedsChain(usable, sku) && l == LinkOf(sku);
    } else if l in plan.synthetic {
      var sku :| sku in source[Skus] && NeedsChain(usable, sku) && l == LinkOf(sku);
      UsableExactly(source, Text(sku, Id));
      assert GetsChain(source, sku, l);
    }
  }

  /** Demo suppliers go exactly to the live physical SKUs without a supplier. */
  lemma SupplierFallbacksExactly(f: Fixture, source: Tables, createdAt: string, plan: Plan, id: string)
    requires IsPlanFor(f, source, createdAt, plan)
    ensures id in plan.supplierFallbacks <==> exists sku :: LacksSupplier(source, sku) && Text(sku, Id) == id
  {
    var supplied := SuppliedSkus(source);
    UnsuppliedExactly(supplied, source[Skus]);
    SuppliedExactly(source, id);
    if sku :| LacksSupplier(source, sku) && Text(sku, Id) == id {
      assert NeedsSupplier(supplied, sku) && sku in source[Skus];
    }
  }

  /** The plan of a snapshot: its tables, and who gets a chain or a supplier, in the order of the SKUs. */
  method WithTrainingFallbacks(f: Fixture, source: Tables, createdAt: string) returns (plan: Plan)
    requires EveryTable(source)
    ensures IsPlanFor(f, source, createdAt, plan)
    ensures forall l :: l in plan.synthetic <==> exists sku :: GetsChain(source, sku, l)
    ensures forall id :: id in plan.supplierFallbacks <==> exists sku :: LacksSupplier(source, sku) && Text(sku, Id) == id
  {
    plan := GrowPlan(f, source, UsableSkus(source), SuppliedSkus(source), createdAt);
    forall l { ChainsExactly(f, source, createdAt, plan, l); }
    forall id { SupplierFallbacksExactly(f, source, createdAt, plan, id); }
  }

  /** The master and the version of a deleted SKU's chain carry the date of the snapshot, those of a live one none. */
  lemma ChainsAreDated(f: Fixture, source: Tables, createdAt: string, plan: Plan, l: Link, t: Table) returns (row: Row)
    requires Extends(f, source, createdAt, plan) && l in plan.synthetic && t in {ProductMasters, ProductMasterVersions}
    ensures row in plan.tables[t] && ChainRow(f, t, row, l)
    ensures Get(row, DeletedAt) == if l.sourceDeleted then Str(createdAt) else Null
  {
    AddedExactly(f, t, plan.synthetic, createdAt);
    ChainRowsAreChainRows(f, t, l, createdAt);
    row := if t == ProductMasters then MasterRow(f, l, createdAt) else VersionRow(f, l, createdAt);
    assert ChainRows(f, t, l, createdAt) == [row] && row in ChainRows(f, t, l, createdAt);
    assert row in AddedByChains(f, t, plan.synthetic, createdAt);
  }

  // ---- Keys and active versions ----------------------------------------------------------------------------

  predicate DistinctSkuIds(skus: seq<Row>) {
    forall i, j :: 0 <= i < j < |skus| ==> Text(skus[i], Id) != Text(skus[j], Id)
  }

  predicate DistinctLinks(links: seq<Link>) {
    forall i, j :: 0 <= i < j < |links| ==> links[i].skuId != links[j].skuId
  }

  predicate DistinctIds(ids: seq<string>) {
    forall i, j :: 0 <= i < j < |ids| ==> ids[i] != ids[j]
  }

  lemma {:induction false} ChainsAreDistinct(usable: set<string>, supplied: set<string>, skus: seq<Row>)
    requires DistinctSkuIds(skus)
    ensures DistinctLinks(Chained(usable, skus)) && DistinctIds(Unsupplied(supplied, skus))
  {
    if skus != [] {
      var rest, sku := skus[..|skus| - 1], skus[|skus| - 1];
      ChainsAreDistinct(usable, supplied, rest);
      ChainedExactly(usable, rest);
      UnsuppliedExactly(supplied, rest);
      forall other | other in rest ensures Text(other, Id) != Text(sku, Id) {
        var i :| 0 <= i < |rest| && rest[i] == other;
        assert skus[i] == other;
      }
      var links, ids := Chained(usable, rest), Unsupplied(supplied, rest);
      forall i | 0 <= i < |links| ensures links[i].skuId != Text(sku, Id) {
        assert links[i] in links;
      }
      forall i | 0 <= i < |ids| ensures ids[i] != Text(sku, Id) {
        assert ids[i] in ids;
      }
    }
  }

  lemma {:induction false} AddedAt(f: Fixture, t: Table, links: seq<Link>, createdAt: string, i: nat)
    requires ChainTable(t) && i < |links|
    ensures |AddedByChains(f, t, links, createdAt)| == |links|
    ensures ChainRow(f, t, AddedByChains(f, t, links, createdAt)[i], links[i])
    decreases |links|
  {
    var n := |links| - 1;
    ChainRowsAreChainRows(f, t, links[n], createdAt);
    assert AddedByChains(f, t, links, createdAt)
        == AddedByChains(f, t, links[..n], createdAt) + ChainRows(f, t, links[n], createdAt);
    if n > 0 {
      AddedAt(f, t, links[..n], createdAt, if i < n then i else 0);
      assert i < n ==> links[..n][i] == links[i];
    } else {
      assert AddedByChains(f, t, links[..n], createdAt) == [];
    }
  }

  /** The text of a chain row's key column, for the tables keyed by their `id` or by their matching. */
  function ChainKey(f: Fixture, t: Table, l: Link): (Column, string) {
    var ids := f.idsOf(l.skuId);
    match t
    case ProductMasters => (Id, ids.master)
    case ProductMasterVersions => (Id, ids.version)
    case ProductVariants => (Id, ids.variant)
    case ProductMasterVariants => (Id, ids.masterVariant)
    case ProductMatchings => (Id, ids.matching)
    case _ => (ProductMatchingId, ids.matching)
  }

  lemma ChainKeyDecides(f: Fixture, t: Table, l: Link, row: Row, other: Row)
    requires ChainTable(t) && ChainRow(f, t, row, l)
    ensures Text(row, ChainKey(f, t, l).0) == ChainKey(f, t, l).1
    ensures KeyOf(t, row) == KeyOf(t, other) ==> Text(other, ChainKey(f, t, l).0) == ChainKey(f, t, l).1
  {
    var c := ChainKey(f, t, l).0;
    assert KeyColumns(t)[0] == c;
    assert KeyOf(t, row)[0] == Get(row, c) && KeyOf(t, other)[0] == Get(other, c);
  }

  /** The rows appended to a chain table, one for each link. */
  ghost predicate OneRowEach(f: Fixture, t: Table, added: seq<Row>, links: seq<Link>) {
    |added| == |links| && forall i :: 0 <= i < |links| ==> ChainRow(f, t, added[i], links[i])
  }

  lemma ChainsAddOneRowEach(f: Fixture, t: Table, links: seq<Link>, createdAt: string)
    requires ChainTable(t)
    ensures OneRowEach(f, t, AddedByChains(f, t, links, createdAt), links)
  {
    var added := AddedByChains(f, t, links, createdAt);
    forall i | 0 <= i < |links| ensures |added| == |links| && ChainRow(f, t, added[i], links[i]) {
      AddedAt(f, t, links, createdAt, i);
    }
  }

  lemma ChainTableRows(f: Fixture, source: Tables, createdAt: string, plan: Plan, t: Table) returns (added: seq<Row>)
    requires Extends(f, source, createdAt, plan) && ChainTable(t)
    ensures plan.tables[t] == source[t] + added && OneRowEach(f, t, added, plan.synthetic)
  {
    added := AddedByChains(f, t, plan.synthetic, createdAt);
    ChainsAddOneRowEach(f, t, plan.synthetic, createdAt);
  }

  lemma FreshKeysDiffer(f: Fixture, t: Table, l: Link, k: Link)
    requires DistinctChains(f) && l.skuId in f.skus && k.skuId in f.skus && l.skuId != k.skuId
    ensures ChainKey(f, t, l).1 != ChainKey(f, t, k).1
  {
  }

  lemma ChainKeysAreNew(f: Fixture, t: Table, rows: seq<Row>, added: seq<Row>, links: seq<Link>)
    requires ChainTable(t) && OneRowEach(f, t, added, links) && DistinctLinks(links) && NamesNoChain(f, rows)
    requires DistinctChains(f) && LinksOf(f, links)
    requires UniqueKeys(t, rows)
    ensures UniqueKeys(t, rows + added)
  {
    var all := rows + added;
    forall i, j | 0 <= i < j < |all| ensures KeyOf(t, all[i]) != KeyOf(t, all[j]) {
      if |rows| <= j {
        var l := links[j - |rows|];
        ChainKeyDecides(f, t, l, all[j], all[i]);
        if i < |rows| {
          assert all[i] in rows;
          assert !ChainIdOf(f, l.skuId, Text(all[i], ChainKey(f, t, l).0));
        } else {
          var k := links[i - |rows|];
          ChainKeyDecides(f, t, k, all[i], all[j]);
          FreshKeysDiffer(f, t, l, k);
        }
      }
    }
  }

  lemma SupplierKeysAreNew(f: Fixture, rows: seq<Row>, ids: seq<string>)
    requires DistinctIds(ids) && UniqueKeys(SkuSuppliers, rows)
    requires forall row :: row in rows ==> Text(row, SkuId) !in ids
    ensures UniqueKeys(SkuSuppliers, rows + seq(|ids|, i requires 0 <= i < |ids| => SupplierRow(f, ids[i])))
  {
    var all := rows + seq(|ids|, i requires 0 <= i < |ids| => SupplierRow(f, ids[i]));
    forall i, j | 0 <= i < j < |all| ensures KeyOf(SkuSuppliers, all[i]) != KeyOf(SkuSuppliers, all[j]) {
      assert KeyOf(SkuSuppliers, all[i])[0] == Get(all[i], SkuId) && KeyOf(SkuSuppliers, all[j])[0] == Get(all[j], SkuId);
      if |rows| <= j {
        assert Get(all[j], SkuId) == Str(ids[j - |rows|]);
        if i < |rows| {
          assert all[i] in rows && ids[j - |rows|] in ids;
        } else {
          assert Get(all[i], SkuId) == Str(ids[i - |rows|]);
        }
      }
    }
  }

  lemma UnsuppliedHaveNoRow(source: Tables)
    requires EveryTable(source)
    ensures forall row :: row in source[SkuSuppliers] ==> Text(row, SkuId) !in Unsupplied(SuppliedSkus(source), source[Skus])
  {
    UnsuppliedExactly(SuppliedSkus(source), source[Skus]);
    forall row | row in source[SkuSuppliers] ensures Text(row, SkuId) in SuppliedSkus(source) {
    }
  }

  lemma OtherTablesAreKept(f: Fixture, source: Tables, createdAt: string, plan: Plan, t: Table)
    requires Extends(f, source, createdAt, plan) && !ChainTable(t) && t != SkuSuppliers
    ensures plan.tables[t] == source[t]
  {
    AddedOnlyToChainTables(f, t, plan.synthetic, createdAt);
  }

  lemma SupplierTableRows(f: Fixture, source: Tables, createdAt: string, plan: Plan)
    requires Extends(f, source, createdAt, plan)
    ensures plan.tables[SkuSuppliers] == source[SkuSuppliers]
              + seq(|plan.supplierFallbacks|, i requires 0 <= i < |plan.supplierFallbacks| => SupplierRow(f, plan.supplierFallbacks[i]))
  {
  }

  /** Chains and demo suppliers keep the keys of every table unique. */
  lemma PlanKeepsKeysUnique(f: Fixture, source: Tables, createdAt: string, plan: Plan, t: Table)
    requires IsPlanFor(f, source, createdAt, plan) && FreshIds(f, source)
    requires DistinctSkuIds(source[Skus]) && UniqueKeys(t, source[t])
    ensures UniqueKeys(t, plan.tables[t])
  {
    ChainsAreDistinct(UsableSkus(source), SuppliedSkus(source), source[Skus]);
    if ChainTable(t) {
      var added := ChainTableRows(f, source, createdAt, plan, t);
      ChainsAreOfTheSource(f, UsableSkus(source), source);
      ChainKeysAreNew(f, t, source[t], added, plan.synthetic);
    } else if t == SkuSuppliers {
      UnsuppliedHaveNoRow(source);
      SupplierTableRows(f, source, createdAt, plan);
      SupplierKeysAreNew(f, source[SkuSuppliers], plan.supplierFallbacks);
    } else {
      OtherTablesAreKept(f, source, createdAt, plan, t);
    }
  }

  lemma {:induction false} AddedOnlyToChainTables(f: Fixture, t: Table, links: seq<Link>, createdAt: string)
    ensures AddedByChains(f, t, links, createdAt) != [] ==> ChainTable(t)
  {
    if links != [] { AddedOnlyToChainTables(f, t, links[..|links| - 1], createdAt); }
  }

  /** No master has two active versions. */
  predicate OneActiveVersionPerMaster(rows: seq<Row>) {
    forall i, j :: 0 <= i < j < |rows| && Active(rows[i]) && Active(rows[j]) ==>
      Text(rows[i], MasterId) != Text(rows[j], MasterId)
  }

  lemma NewVersionsHaveNewMasters(f: Fixture, rows: seq<Row>, added: seq<Row>, links: seq<Link>)
    requires OneRowEach(f, ProductMasterVersions, added, links) && DistinctLinks(links) && NamesNoChain(f, rows)
    requires DistinctChains(f) && LinksOf(f, links)
    requires OneActiveVersionPerMaster(rows)
    ensures OneActiveVersionPerMaster(rows + added)
  {
    var all := rows + added;
    forall i, j | 0 <= i < j < |all| && Active(all[i]) && Active(all[j])
      ensures Text(all[i], MasterId) != Text(all[j], MasterId)
    {
      if |rows| <= j {
        assert ChainRow(f, ProductMasterVersions, all[j], links[j - |rows|]);
        if i < |rows| {
          assert all[i] in rows;
          assert !ChainIdOf(f, links[j - |rows|].skuId, Text(all[i], MasterId));
        } else {
          assert ChainRow(f, ProductMasterVersions, all[i], links[i - |rows|]);
        }
      }
    }
  }

  lemma PlanKeepsOneActiveVersion(f: Fixture, source: Tables, createdAt: string, plan: Plan)
    requires IsPlanFor(f, source, createdAt, plan) && FreshIds(f, source)
    requires DistinctSkuIds(source[Skus]) && OneActiveVersionPerMaster(source[ProductMasterVersions])
    ensures OneActiveVersionPerMaster(plan.tables[ProductMasterVersions])
  {
    ChainsAreDistinct(UsableSkus(source), SuppliedSkus(source), source[Skus]);
    var added := ChainTableRows(f, source, createdAt, plan, ProductMasterVersions);
    ChainsAreOfTheSource(f, UsableSkus(source), source);
    NewVersionsHaveNewMasters(f, source[ProductMasterVersions], added, plan.synthetic);
  }

  // ---- References ------------------------------------------------------------------------------------------

  ghost predicate RowWithId(rows: seq<Row>, id: Value) {
    exists row :: row in rows && Get(row, Id) == id
  }

  /** A reference cell is NULL where it may be, names a row of the tables, or names the demo supplier. */
  ghost predicate CellResolves(f: Fixture, ts: Tables, t: Table, c: Column, value: Value)
    requires References(t, c).Reference?
  {
    || (References(t, c).nullable && value == Null)
    || (value.Str? && RowWithId(RowsOf(ts, References(t, c).parent), value))
    || (References(t, c).parent == Suppliers && value == Str(f.supplier))
  }

  ghost predicate Closed(f: Fixture, ts: Tables) {
    forall t, row, c :: row in RowsOf(ts, t) && References(t, c).Reference? ==> CellResolves(f, ts, t, c, Get(row, c))
  }

  lemma KeptRowWithId(f: Fixture, source: Tables, createdAt: string, plan: Plan, t: Table, id: Value)
    requires Extends(f, source, createdAt, plan)
    ensures RowWithId(source[t], id) ==> RowWithId(plan.tables[t], id)
  {
    if RowWithId(source[t], id) {
      var row :| row in source[t] && Get(row, Id) == id;
      assert row in plan.tables[t];
    }
  }

  /** Every row a chain may refer to is in the tables. */
  ghost predicate ChainIsThere(f: Fixture, ts: Tables, l: Link) {
    var ids := f.idsOf(l.skuId);
    && RowWithId(RowsOf(ts, ProductMasters), Str(ids.master)) && RowWithId(RowsOf(ts, ProductMasterVersions), Str(ids.version))
    && RowWithId(RowsOf(ts, ProductVariants), Str(ids.variant)) && RowWithId(RowsOf(ts, ProductMatchings), Str(ids.matching))
    && RowWithId(RowsOf(ts, Skus), Str(l.skuId))
    && (l.group == Null || (l.group.Str? && RowWithId(RowsOf(ts, SkuGroups), l.group)))
  }

  lemma ChainRowId(f: Fixture, t: Table, l: Link, createdAt: string)
    requires t in {ProductMasters, ProductMasterVersions, ProductVariants, ProductMatchings}
    ensures |ChainRows(f, t, l, createdAt)| == 1 && Get(ChainRows(f, t, l, createdAt)[0], Id) == Str(ChainKey(f, t, l).1)
  {
  }

  lemma ChainIdRowExists(f: Fixture, source: Tables, createdAt: string, plan: Plan, t: Table, l: Link)
    requires Extends(f, source, createdAt, plan) && l in plan.synthetic
    requires t in {ProductMasters, ProductMasterVersions, ProductVariants, ProductMatchings}
    ensures RowWithId(plan.tables[t], Str(ChainKey(f, t, l).1))
  {
    ChainRowId(f, t, l, createdAt);
    AddedRowWithId(f, t, source[t], plan.synthetic, l, createdAt);
  }

  lemma AddedRowWithId(f: Fixture, t: Table, rows: seq<Row>, links: seq<Link>, l: Link, createdAt: string)
    requires l in links && |ChainRows(f, t, l, createdAt)| == 1
    ensures RowWithId(rows + AddedByChains(f, t, links, createdAt), Get(ChainRows(f, t, l, createdAt)[0], Id))
  {
    AddedExactly(f, t, links, createdAt);
    var row := ChainRows(f, t, l, createdAt)[0];
    assert row in ChainRows(f, t, l, createdAt);
    assert row in rows + AddedByChains(f, t, links, createdAt);
  }

  lemma ActivityRowsResolve(f: Fixture, ts: Tables, t: Table, l: Link, createdAt: string, row: Row, c: Column)
    requires t in {ProductMasters, ProductMasterVersions, ProductVariants} && ChainIsThere(f, ts, l)
    requires row in ChainRows(f, t, l, createdAt) && References(t, c).Reference?
    ensures CellResolves(f, ts, t, c, Get(row, c))
  {
  }

  lemma RelationRowsResolve(f: Fixture, ts: Tables, t: Table, l: Link, createdAt: string, row: Row, c: Column)
    requires t in {ProductMasterVariants, ProductMatchings, ProductVariantSkuLinks} && ChainIsThere(f, ts, l)
    requires row in ChainRows(f, t, l, createdAt) && References(t, c).Reference?
    ensures CellResolves(f, ts, t, c, Get(row, c))
  {
  }

  /** The references of a chain's rows resolve among the rows of the same chain and its SKU. */
  lemma ChainResolves(f: Fixture, ts: Tables, t: Table, l: Link, createdAt: string, row: Row, c: Column)
    requires ChainTable(t) && ChainIsThere(f, ts, l)
    requires row in ChainRows(f, t, l, createdAt) && References(t, c).Reference?
    ensures CellResolves(f, ts, t, c, Get(row, c))
  {
    if t in {ProductMasters, ProductMasterVersions, ProductVariants} {
      ActivityRowsResolve(f, ts, t, l, createdAt, row, c);
    } else {
      RelationRowsResolve(f, ts, t, l, createdAt, row, c);
    }
  }

  lemma SupplierResolves(f: Fixture, ts: Tables, id: string, c: Column)
    requires RowWithId(RowsOf(ts, Skus), Str(id)) && References(SkuSuppliers, c).Reference?
    ensures CellResolves(f, ts, SkuSuppliers, c, Get(SupplierRow(f, id), c))
  {
  }

  predicate SkuResolves(skus: seq<Row>, groups: seq<Row>, l: Link) {
    && (exists row :: row in skus && Get(row, Id) == Str(l.skuId))
    && (l.group == Null || (l.group.Str? && exists row :: row in groups && Get(row, Id) == l.group))
  }

  /** The SKU and the group of every chain are in the source. */
  lemma SkuOfClosedSource(f: Fixture, source: Tables, sku: Row)
    requires EveryTable(source) && Closed(f, source) && sku in source[Skus] && Get(sku, Id).Str?
    ensures SkuResolves(source[Skus], source[SkuGroups], LinkOf(sku))
  {
    assert sku in RowsOf(source, Skus);
    assert CellResolves(f, source, Skus, GroupId, Get(sku, GroupId));
  }

  lemma LinkedSkuResolves(usable: set<string>, skus: seq<Row>, groups: seq<Row>, l: Link)
    requires l in Chained(usable, skus)
    requires forall sku :: sku in skus ==> SkuResolves(skus, groups, LinkOf(sku))
    ensures SkuResolves(skus, groups, l)
  {
    ChainedExactly(usable, skus);
  }

  lemma PlannedChainIsThere(f: Fixture, source: Tables, createdAt: string, plan: Plan, l: Link)
    requires Extends(f, source, createdAt, plan) && l in plan.synthetic
    requires SkuResolves(source[Skus], source[SkuGroups], l)
    ensures ChainIsThere(f, plan.tables, l)
  {
    KeptRowWithId(f, source, createdAt, plan, Skus, Str(l.skuId));
    KeptRowWithId(f, source, createdAt, plan, SkuGroups, l.group);
    ChainIdRowExists(f, source, createdAt, plan, ProductMasters, l);
    ChainIdRowExists(f, source, createdAt, plan, ProductMasterVersions, l);
    ChainIdRowExists(f, source, createdAt, plan, ProductVariants, l);
    ChainIdRowExists(f, source, createdAt, plan, ProductMatchings, l);
  }

  lemma PlannedSupplierSku(f: Fixture, source: Tables, createdAt: string, plan: Plan, supplied: set<string>, id: string)
    requires Extends(f, source, createdAt, plan) && id in plan.supplierFallbacks
    requires plan.supplierFallbacks == Unsupplied(supplied, source[Skus])
    requires forall sku :: sku in source[Skus] ==> Get(sku, Id).Str?
    ensures RowWithId(plan.tables[Skus], Str(id))
  {
    UnsuppliedExactly(supplied, source[Skus]);
    var sku :| sku in source[Skus] && id == Text(sku, Id);
    KeptRowWithId(f, source, createdAt, plan, Skus, Str(id));
  }

  lemma SourceCellResolves(f: Fixture, source: Tables, createdAt: string, plan: Plan, t: Table, row: Row, c: Column)
    requires Extends(f, source, createdAt, plan) && Closed(f, source)
    requires row in source[t] && References(t, c).Reference?
    ensures CellResolves(f, plan.tables, t, c, Get(row, c))
  {
    assert CellResolves(f, source, t, c, Get(row, c));
    KeptRowWithId(f, source, createdAt, plan, References(t, c).parent, Get(row, c));
  }

  lemma NewRowOrigin(f: Fixture, source: Tables, createdAt: string, plan: Plan, t: Table, row: Row)
    requires Extends(f, source, createdAt, plan) && row in plan.tables[t] && row !in source[t]
    ensures t == SkuSuppliers ==> exists id :: id in plan.supplierFallbacks && row == SupplierRow(f, id)
    ensures t != SkuSuppliers ==> ChainTable(t) && exists l :: l in plan.synthetic && row in ChainRows(f, t, l, createdAt)
  {
    if t == SkuSuppliers {
      var ids := plan.supplierFallbacks;
      SupplierTableRows(f, source, createdAt, plan);
      var i :| 0 <= i < |ids| && row == SupplierRow(f, ids[i]);
      assert ids[i] in ids;
    } else {
      AddedExactly(f, t, plan.synthetic, createdAt);
      AddedOnlyToChainTables(f, t, plan.synthetic, createdAt);
    }
  }

  /** The plan is closed under its references, up to the demo supplier, whenever the source is. */
  lemma PlanIsClosed(f: Fixture, source: Tables, createdAt: string, plan: Plan)
    requires IsPlanFor(f, source, createdAt, plan) && Closed(f, source)
    requires forall sku :: sku in source[Skus] ==> Get(sku, Id).Str?
    ensures Closed(f, plan.tables)
  {
    forall sku | sku in source[Skus] ensures SkuResolves(source[Skus], source[SkuGroups], LinkOf(sku)) {
      SkuOfClosedSource(f, source, sku);
    }
    forall t, row, c | row in plan.tables[t] && References(t, c).Reference?
      ensures CellResolves(f, plan.tables, t, c, Get(row, c))
    {
      if row in source[t] {
        SourceCellResolves(f, source, createdAt, plan, t, row, c);
      } else {
        NewRowOrigin(f, source, createdAt, plan, t, row);
        if t == SkuSuppliers {
          var id :| id in plan.supplierFallbacks && row == SupplierRow(f, id);
          PlannedSupplierSku(f, source, createdAt, plan, SuppliedSkus(source), id);
          SupplierResolves(f, plan.tables, id, c);
        } else {
          var l :| l in plan.synthetic && row in ChainRows(f, t, l, createdAt);
          LinkedSkuResolves(UsableSkus(source), source[Skus], source[SkuGroups], l);
          PlannedChainIsThere(f, source, createdAt, plan, l);
          ChainResolves(f, plan.tables, t, l, createdAt, row, c);
        }
      }
    }
  }
}
