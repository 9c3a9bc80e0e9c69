/**
 * The Spree side of the sync: the taxonomies and taxons the store already holds,
 * the product attributes built from a stock record, the `"stock_id=N"` string that
 * ties a store product back to its stock record, and the rule that hides a product
 * whose quantity drops to zero.
 */
module Catalog {
  import opened Wrappers
  import opened RubyText
  import opened Stock

  // ---------------------------------------------------------------------------
  // Array#find_taxonomy_id_by_dept and Array#find_taxon_id_by_cat_and_taxonomy
  // ---------------------------------------------------------------------------

  /** A Spree taxonomy (one per MYOB department) as `TaxonomySync.find(:all)` lists it. */
  datatype Taxonomy = Taxonomy(id: int, myobDeptId: Option<int>)

  /** A Spree taxon (a category inside a taxonomy). */
  datatype Taxon = Taxon(id: int, myobCatId: Option<int>, taxonomyId: Option<int>)

  /** The early-return search the three finders share: the index of the first
      element from `from` on that satisfies `p`, or nil when none does. */
  function FindFirst<T>(xs: seq<T>, p: T -> bool, from: nat := 0): (r: Option<nat>)
    requires from <= |xs|
    ensures r.None? <==> forall i :: from <= i < |xs| ==> !p(xs[i])
    ensures r.Some? ==> (from <= r.value < |xs| && p(xs[r.value])
      && forall j :: from <= j < r.value ==> !p(xs[j]))
    decreases |xs| - from
  {
    if from == |xs| then None
    else if p(xs[from]) then Some(from)
    else FindFirst(xs, p, from + 1)
  }

  /** `find_taxonomy_id_by_dept(dept_id)`: the id of the first taxonomy whose
      `myob_dept_id` equals `dept_id` (nil equals nil). */
  function FindTaxonomyIdByDept(ts: seq<Taxonomy>, deptId: Option<int>): (r: Option<int>)
    ensures r.None? <==> forall i :: 0 <= i < |ts| ==> ts[i].myobDeptId != deptId
    ensures r.Some? ==> exists i :: (0 <= i < |ts| && ts[i].myobDeptId == deptId && ts[i].id == r.value
      && forall j :: 0 <= j < i ==> ts[j].myobDeptId != deptId)
  {
    match FindFirst(ts, (t: Taxonomy) => t.myobDeptId == deptId)
    case None => None
    case Some(i) => Some(ts[i].id)
  }

  /** `find_taxon_id_by_cat_and_taxonomy(cat_id, taxonomy_id)`: the id of the first
      taxon with both that category and that taxonomy. */
  function FindTaxonIdByCatAndTaxonomy(ts: seq<Taxon>, catId: Option<int>, taxonomyId: Option<int>): (r: Option<int>)
    ensures r.None? <==> forall i :: 0 <= i < |ts| ==> !(ts[i].myobCatId == catId && ts[i].taxonomyId == taxonomyId)
    ensures r.Some? ==> exists i :: (0 <= i < |ts| && ts[i].myobCatId == catId && ts[i].taxonomyId == taxonomyId
      && ts[i].id == r.value
      && forall j :: 0 <= j < i ==> !(ts[j].myobCatId == catId && ts[j].taxonomyId == taxonomyId))
  {
    match FindFirst(ts, (t: Taxon) => t.myobCatId == catId && t.taxonomyId == taxonomyId)
    case None => None
    case Some(i) => Some(ts[i].id)
  }

  // ---------------------------------------------------------------------------
  // get_product_data
  // ---------------------------------------------------------------------------

  /** The attribute Hash sent to the store for a product. `available_on` (a clock
      reading) is not part of this model. */
  datatype ProductData = ProductData(
    name: Option<string>,
    description: Option<string>,
    sku: string,
    price: Option<string>,
    metaDescription: string,
    onHand: Option<string>,
    weight: Option<real>,
    taxonId: Option<int>)

  /** The correlation string written into a product: `"stock_id=#{stock_id}"`. */
  function MetaDescription(stockId: int): string
  {
    "stock_id=" + IntToS(stockId)
  }

  /** The weight rule: a weight is kept only strictly between 0 and 10. */
  function FeasibleWeight(w: real): (r: Option<real>)
    ensures r.Some? <==> 0.0 < w < 10.0
    ensures r.Some? ==> r.value == w
  {
    if 0.0 < w && w < 10.0 then Some(w) else None
  }

  /** `get_product_data(stock_id, stock_records)`; `toReal` gives `x.to_f` for the text
      of `x`. The record and its `Barcode` must be present (`nil.strip` raises). */
  function GetProductData(stockId: int, records: map<int, Record>, toReal: string -> real): (r: ProductData)
    requires stockId in records && "Barcode" in records[stockId]
    ensures r.metaDescription == MetaDescription(stockId)
    ensures r.weight.Some? <==> 0.0 < toReal(FieldText(records[stockId], "custom2")) < 10.0
    ensures r.taxonId.None? && r.sku == Strip(records[stockId]["Barcode"])
  {
    var rec := records[stockId];
    ProductData(
      Lookup(rec, "description"),
      Lookup(rec, "longdesc"),
      Strip(rec["Barcode"]),
      Lookup(rec, "sell"),
      MetaDescription(stockId),
      Lookup(rec, "quantity"),
      FeasibleWeight(toReal(FieldText(rec, "custom2"))),
      None)
  }

  // ---------------------------------------------------------------------------
  // ProductSync.find_by_stock_id
  // ---------------------------------------------------------------------------

  /** A product as `ProductSync.find(:all)` lists it. */
  datatype RemoteProduct = RemoteProduct(id: int, metaDescription: Option<string>, permalink: string, deletedAt: Option<int>)

  /** `meta_desc.split("=")[1].to_i`. */
  function MetaStockId(meta: string): int
  {
    ToI(SplitSecond(meta, '='))
  }

  /** Whether a listed product answers to a stock id: it has a meta description
      and that parses to the id. */
  predicate AnswersTo(p: RemoteProduct, stockId: int)
  {
    p.metaDescription.Some? && MetaStockId(p.metaDescription.value) == stockId
  }

  /** `find_by_stock_id(stock_id)` over the listed products: the index of the first
      product that answers to the id, or nil. */
  function FindByStockId(products: seq<RemoteProduct>, stockId: int): (r: Option<nat>)
    ensures r.None? <==> forall i :: 0 <= i < |products| ==> !AnswersTo(products[i], stockId)
    ensures r.Some? ==> (r.value < |products| && AnswersTo(products[r.value], stockId)
      && forall j :: 0 <= j < r.value ==> !AnswersTo(products[j], stockId))
  {
    FindFirst(products, (p: RemoteProduct) => AnswersTo(p, stockId))
  }

  /** The correlation string reads back as the id it was written from. */
  lemma MetaDescriptionRoundTrip(stockId: int)
    ensures MetaStockId(MetaDescription(stockId)) == stockId
  {
    IntToSChars(stockId, '=');
    assert MetaDescription(stockId) == "stock_id" + ['='] + IntToS(stockId);
    SplitSecondOf("stock_id", IntToS(stockId), '=');
    ToIOfIntToS(stockId);
  }

  /** A product created from a stock record is found again by its id: the search
      stops at it or at an earlier product that also answers to the id. */
  lemma CreatedProductFound(products: seq<RemoteProduct>, stockId: int, k: nat)
    requires k < |products| && products[k].metaDescription == Some(MetaDescription(stockId))
    ensures FindByStockId(products, stockId).Some? && FindByStockId(products, stockId).value <= k
  {
    MetaDescriptionRoundTrip(stockId);
    assert AnswersTo(products[k], stockId);
  }

  // ---------------------------------------------------------------------------
  // The soft-delete rule of update_spree_product
  // ---------------------------------------------------------------------------

  /** The product's `deleted_at` after an update that moves its quantity from `oldQ` to
      `newQ`: set to `now` when stock runs out, cleared when it comes back, else kept. */
  function DeletedAtAfter(deletedAt: Option<int>, oldQ: int, newQ: int, now: int): Option<int>
  {
    if oldQ > 0 && newQ == 0 then Some(now)
    else if oldQ == 0 && newQ > 0 then None
    else deletedAt
  }

  /** `deleted_at` moves only when the quantity crosses zero, toward hidden exactly
      when the stock runs out and toward visible exactly when it comes back. */
  lemma SoftDeleteOnlyAtZero(deletedAt: Option<int>, oldQ: int, newQ: int, now: int)
    requires deletedAt != Some(now) && deletedAt != None
    ensures DeletedAtAfter(deletedAt, oldQ, newQ, now) == Some(now) <==> oldQ > 0 && newQ == 0
    ensures DeletedAtAfter(deletedAt, oldQ, newQ, now) == None <==> oldQ == 0 && newQ > 0
    ensures DeletedAtAfter(deletedAt, oldQ, newQ, now) == deletedAt <==> !(oldQ > 0 && newQ == 0) && !(oldQ == 0 && newQ > 0)
  {
  }

  /** A product whose quantity stays positive, or stays at zero (or below), keeps its
      `deleted_at`; one that sells out is hidden whatever it held before. */
  lemma SoftDeleteStable(deletedAt: Option<int>, oldQ: int, newQ: int, now: int)
    ensures (oldQ > 0) == (newQ > 0) && (oldQ == 0) == (newQ == 0) ==> DeletedAtAfter(deletedAt, oldQ, newQ, now) == deletedAt
    ensures oldQ > 0 && newQ == 0 ==> DeletedAtAfter(deletedAt, oldQ, newQ, now).Some?
    ensures newQ < 0 ==> DeletedAtAfter(deletedAt, oldQ, newQ, now) == deletedAt
  {
  }
}
