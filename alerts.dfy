/** The low-stock alert list and its count, computed from the company's product rows. */
module Alerts {
  import opened Entities
  import opened Seqs

  /** `getLowStockProducts`: the company's products strictly below their minimum, in table order. */
  function LowStockProducts(rows: seq<Product>, companyId: string): (r: seq<Product>)
    ensures forall p :: p in r <==> p in rows && p.companyId == companyId && p.currentStock < p.minStock
    ensures forall p :: multiset(r)[p] == if p.companyId == companyId && IsLowStock(p) then multiset(rows)[p] else 0
    ensures |r| <= |rows|
  {
    FilterCounts(CompanyProducts(rows, companyId), IsLowStock);
    Filter(CompanyProducts(rows, companyId), IsLowStock)
  }

  /** `getLowStockCount`: the same filter over the same rows, counted. */
  function LowStockCount(rows: seq<Product>, companyId: string): nat
  {
    |Filter(CompanyProducts(rows, companyId), IsLowStock)|
  }

  /** The count is the length of the list. */
  lemma LowStockCountIsLength(rows: seq<Product>, companyId: string)
    ensures LowStockCount(rows, companyId) == |LowStockProducts(rows, companyId)|
  {
  }

  /** A product exactly at its minimum is not reported. */
  lemma AtMinimumIsNotLow(rows: seq<Product>, companyId: string, p: Product)
    requires p.currentStock == p.minStock
    ensures p !in LowStockProducts(rows, companyId)
  {
  }

  /**
   * The list keeps the relative order of the rows: the alerts of two stretches of the
   * table are the alerts of the first followed by those of the second.
   */
  lemma {:induction false} LowStockKeepsOrder(a: seq<Product>, b: seq<Product>, companyId: string)
    ensures LowStockProducts(a + b, companyId) == LowStockProducts(a, companyId) + LowStockProducts(b, companyId)
  {
    FilterDistributes(a, b, (p: Product) => p.companyId == companyId);
    FilterDistributes(CompanyProducts(a, companyId), CompanyProducts(b, companyId), IsLowStock);
  }

  /** Rows of other companies change neither the list nor the count. */
  lemma {:induction false} LowStockIsolated(rows: seq<Product>, others: seq<Product>, companyId: string)
    requires forall i :: 0 <= i < |others| ==> others[i].companyId != companyId
    ensures LowStockProducts(rows + others, companyId) == LowStockProducts(rows, companyId)
    ensures LowStockCount(rows + others, companyId) == LowStockCount(rows, companyId)
  {
    LowStockKeepsOrder(rows, others, companyId);
    LowStockCountIsLength(rows + others, companyId);
    LowStockCountIsLength(rows, companyId);
  }
}
