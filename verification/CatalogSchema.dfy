/**
 The catalogue tables in import order, their keys, their deferred columns and their foreign keys.

 A row maps column names to values; a missing column is NULL. Columns that take part in a key, a reference or the
 fallback rules are named; all others of a table travel together as `Attributes`.
 */
module CatalogSchema {
  datatype Table =
    | Suppliers | SupplierLeadTimeProfiles | ReplenishmentSupplierRules | SkuGroups | Categories | ProductCategories
    | ProductMasters | ProductOptionGroups | ProductOptionValues | ProductVariants | ProductMasterVersions | Skus
    | SkuSuppliers | SkuBarcodes | SkuImages | SkuCategories | ProductMasterCategories | ProductMasterOptionGroups
    | ProductMasterVariants | ProductOptionGroupDisplays | ProductOptionValueDisplays | VariantOptionValues | PricingRules
    | ProductMasterPricingRules | ProductVariantPriceCache | ProductImages | ProductPurchaseConstraints
    | ProductMasterPurchaseConstraints | ProductMatchings | ProductVariantSkuLinks

  const TABLE_COUNT: nat := 30

  /** The position of a table in the import order. */
  function Rank(t: Table): (r: nat)
    ensures r < TABLE_COUNT
  {
    match t
    case Suppliers => 0 case SupplierLeadTimeProfiles => 1 case ReplenishmentSupplierRules => 2 case SkuGroups => 3
    case Categories => 4 case ProductCategories => 5 case ProductMasters => 6 case ProductOptionGroups => 7
    case ProductOptionValues => 8 case ProductVariants => 9 case ProductMasterVersions => 10 case Skus => 11
    case SkuSuppliers => 12 case SkuBarcodes => 13 case SkuImages => 14 case SkuCategories => 15
    case ProductMasterCategories => 16 case ProductMasterOptionGroups => 17 case ProductMasterVariants => 18
    case ProductOptionGroupDisplays => 19 case ProductOptionValueDisplays => 20 case VariantOptionValues => 21
    case PricingRules => 22 case ProductMasterPricingRules => 23 case ProductVariantPriceCache => 24
    case ProductImages => 25 case ProductPurchaseConstraints => 26 case ProductMasterPurchaseConstraints => 27
    case ProductMatchings => 28 case ProductVariantSkuLinks => 29
  }

  function MasterTableAt(n: nat): (t: Table)
    requires n < 16
    ensures Rank(t) == n
  {
    match n
    case 0 => Suppliers case 1 => SupplierLeadTimeProfiles case 2 => ReplenishmentSupplierRules case 3 => SkuGroups
    case 4 => Categories case 5 => ProductCategories case 6 => ProductMasters case 7 => ProductOptionGroups
    case 8 => ProductOptionValues case 9 => ProductVariants case 10 => ProductMasterVersions case 11 => Skus
    case 12 => SkuSuppliers case 13 => SkuBarcodes case 14 => SkuImages case 15 => SkuCategories
  }

  function SalesTableAt(n: nat): (t: Table)
    requires 16 <= n < TABLE_COUNT
    ensures Rank(t) == n
  {
    match n
    case 16 => ProductMasterCategories case 17 => ProductMasterOptionGroups case 18 => ProductMasterVariants
    case 19 => ProductOptionGroupDisplays case 20 => ProductOptionValueDisplays case 21 => VariantOptionValues
    case 22 => PricingRules case 23 => ProductMasterPricingRules case 24 => ProductVariantPriceCache
    case 25 => ProductImages case 26 => ProductPurchaseConstraints case 27 => ProductMasterPurchaseConstraints
    case 28 => ProductMatchings case 29 => ProductVariantSkuLinks
  }

  /** The import order. */
  function TableAt(n: nat): (t: Table)
    requires n < TABLE_COUNT
    ensures Rank(t) == n
  {
    if n < 16 then MasterTableAt(n) else SalesTableAt(n)
  }

  lemma TableAtRank(t: Table)
    ensures TableAt(Rank(t)) == t
  {
  }

  datatype Column =
    | Id | SupplierId | SkuId | CategoryId | GroupId | LogisticsPartnerId | ParentId | OptionGroupId | MasterId
    | ParentVersionId | VersionId | VariantId | OptionValueId | PricingRuleId | PurchaseConstraintId | SkuGroupId
    | ProductMatchingId | Barcode | Status | FulfillmentKind | DeletedAt | StockType | IsDeleted | IsResolved
    | Attributes

  datatype Value = Null | Str(s: string) | Flag(b: bool)

  type Row = map<Column, Value>

  function Get(row: Row, c: Column): Value {
    if c in row then row[c] else Null
  }

  type Key = seq<Value>

  function KeyColumns(t: Table): seq<Column> {
    match t
    case SupplierLeadTimeProfiles => [SupplierId]
    case ReplenishmentSupplierRules => [SupplierId]
    case SkuSuppliers => [SkuId, SupplierId]
    case ProductVariantSkuLinks => [ProductMatchingId, SkuId]
    case _ => [Id]
  }

  function KeyOf(t: Table, row: Row): Key {
    var columns := KeyColumns(t);
    seq(|columns|, i requires 0 <= i < |columns| => Get(row, columns[i]))
  }

  /** Columns inserted as NULL and restored once every row exists. */
  predicate Deferred(t: Table, c: Column) {
    (t == ProductCategories && c == ParentId) || (t == ProductMasterVersions && c == ParentVersionId)
  }

  datatype Reference = NoReference | Reference(parent: Table, nullable: bool)

  /** The foreign keys a snapshot is checked against; every one refers to the parent's `id`. */
  function References(t: Table, c: Column): Reference {
    match (t, c)
    case (SkuSuppliers, SkuId) => Reference(Skus, false)
    case (SkuSuppliers, SupplierId) => Reference(Suppliers, false)
    case (SupplierLeadTimeProfiles, SupplierId) => Reference(Suppliers, false)
    case (ReplenishmentSupplierRules, SupplierId) => Reference(Suppliers, false)
    case (SkuBarcodes, SkuId) => Reference(Skus, false)
    case (SkuImages, SkuId) => Reference(Skus, false)
    case (SkuCategories, SkuId) => Reference(Skus, false)
    case (SkuCategories, CategoryId) => Reference(Categories, false)
    case (Skus, GroupId) => Reference(SkuGroups, true)
    case (Skus, LogisticsPartnerId) => Reference(Suppliers, true)
    case (ProductCategories, ParentId) => Reference(ProductCategories, true)
    case (ProductOptionValues, OptionGroupId) => Reference(ProductOptionGroups, false)
    case (ProductMasterVersions, MasterId) => Reference(ProductMasters, false)
    case (ProductMasterVersions, ParentVersionId) => Reference(ProductMasterVersions, true)
    case (ProductMasterCategories, MasterId) => Reference(ProductMasters, false)
    case (ProductMasterCategories, CategoryId) => Reference(ProductCategories, false)
    case (ProductMasterCategories, VersionId) => Reference(ProductMasterVersions, false)
    case (ProductMasterOptionGroups, MasterId) => Reference(ProductMasters, false)
    case (ProductMasterOptionGroups, OptionGroupId) => Reference(ProductOptionGroups, false)
    case (ProductMasterOptionGroups, VersionId) => Reference(ProductMasterVersions, false)
    case (ProductMasterVariants, MasterId) => Reference(ProductMasters, false)
    case (ProductMasterVariants, VariantId) => Reference(ProductVariants, false)
    case (ProductMasterVariants, VersionId) => Reference(ProductMasterVersions, false)
    case (ProductOptionGroupDisplays, OptionGroupId) => Reference(ProductOptionGroups, false)
    case (ProductOptionGroupDisplays, MasterId) => Reference(ProductMasters, false)
    case (ProductOptionGroupDisplays, VersionId) => Reference(ProductMasterVersions, false)
    case (ProductOptionValueDisplays, OptionValueId) => Reference(ProductOptionValues, false)
    case (ProductOptionValueDisplays, MasterId) => Reference(ProductMasters, false)
    case (ProductOptionValueDisplays, VersionId) => Reference(ProductMasterVersions, false)
    case (VariantOptionValues, VariantId) => Reference(ProductVariants, false)
    case (VariantOptionValues, OptionValueId) => Reference(ProductOptionValues, false)
    case (ProductMasterPricingRules, MasterId) => Reference(ProductMasters, false)
    case (ProductMasterPricingRules, PricingRuleId) => Reference(PricingRules, false)
    case (ProductMasterPricingRules, VersionId) => Reference(ProductMasterVersions, false)
    case (ProductVariantPriceCache, VersionId) => Reference(ProductMasterVersions, false)
    case (ProductVariantPriceCache, VariantId) => Reference(ProductVariants, false)
    case (ProductImages, VersionId) => Reference(ProductMasterVersions, false)
    case (ProductMasterPurchaseConstraints, MasterId) => Reference(ProductMasters, false)
    case (ProductMasterPurchaseConstraints, VersionId) => Reference(ProductMasterVersions, false)
    case (ProductMasterPurchaseConstraints, PurchaseConstraintId) => Reference(ProductPurchaseConstraints, false)
    case (ProductMatchings, VariantId) => Reference(ProductVariants, false)
    case (ProductMatchings, MasterId) => Reference(ProductMasters, true)
    case (ProductMatchings, SkuGroupId) => Reference(SkuGroups, true)
    case (ProductVariantSkuLinks, ProductMatchingId) => Reference(ProductMatchings, false)
    case (ProductVariantSkuLinks, SkuId) => Reference(Skus, false)
    case _ => NoReference
  }

  /** The columns the snapshot may carry for a table. */
  predicate Declared(t: Table, c: Column) {
    || c in KeyColumns(t)
    || References(t, c).Reference?
    || c == Attributes
    || (c == Barcode && t == SkuBarcodes)
    || (c == Status && t in {ProductVariants, ProductMasterVersions, ProductMatchings})
    || (c == FulfillmentKind && t == ProductMasterVersions)
    || (c == DeletedAt && t in {ProductMasters, ProductMasterVersions, Skus})
    || (c == StockType && t == Skus)
    || (c == IsDeleted && t == Skus)
    || (c == IsResolved && t == ProductMatchings)
    || (c == SupplierId && t == ProductMasterVersions)
  }

  /** Relation tables whose rows are removed once the source drops them. */
  predicate Reconciled(t: Table) {
    t in {SkuSuppliers, SkuCategories, ProductMasterCategories, ProductMasterOptionGroups, ProductMasterVariants,
          VariantOptionValues, ProductMasterPricingRules, ProductVariantSkuLinks}
  }

  /** What the import order owes to one reference. */
  predicate ParentIsReady(t: Table, c: Column)
    requires References(t, c).Reference?
  {
    && (Deferred(t, c) || Rank(References(t, c).parent) < Rank(t))
    && (Deferred(t, c) ==> References(t, c) == Reference(t, true) && c !in KeyColumns(t))
    && !Reconciled(References(t, c).parent) && KeyColumns(References(t, c).parent) == [Id]
  }

  lemma MasterDataParents(t: Table, c: Column)
    requires References(t, c).Reference? && Rank(t) < 12
    ensures ParentIsReady(t, c)
  {
  }

  lemma RelationParents(t: Table, c: Column)
    requires References(t, c).Reference? && 12 <= Rank(t) < 19
    ensures ParentIsReady(t, c)
  {
  }

  lemma DisplayParents(t: Table, c: Column)
    requires References(t, c).Reference? && 19 <= Rank(t) < 24
    ensures ParentIsReady(t, c)
  {
  }

  lemma SalesParents(t: Table, c: Column)
    requires References(t, c).Reference? && 24 <= Rank(t)
    ensures ParentIsReady(t, c)
  {
  }

  /** The table list is a topological order once the deferred columns are left out. */
  lemma ParentsComeFirst(t: Table, c: Column)
    requires References(t, c).Reference?
    ensures Deferred(t, c) || Rank(References(t, c).parent) < Rank(t)
    ensures Deferred(t, c) ==> References(t, c) == Reference(t, true) && c !in KeyColumns(t)
    ensures !Reconciled(References(t, c).parent)
    ensures KeyColumns(References(t, c).parent) == [Id]
  {
    assert ParentIsReady(t, c) by {
      if Rank(t) < 12 { MasterDataParents(t, c); }
      else if Rank(t) < 19 { RelationParents(t, c); }
      else if Rank(t) < 24 { DisplayParents(t, c); }
      else { SalesParents(t, c); }
    }
  }
}
