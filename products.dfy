/**
 * The tenant-scoped product catalogue: the filtered and searched list, one product with
 * its newest movements, and create, update and delete, the last two behind a check that
 * the caller's company owns the product.
 */
module Products {
  import opened Base
  import opened Entities
  import opened Store
  import opened Seqs
  import ProductSchema

  const CreateFailed := "Failed to create product"
  const UpdateFailed := "Failed to update product"
  const ProductNotFound := "Product not found"
  const LowStockFilter := "low-stock"
  const DetailMovements: nat := 10

  /** The optional parameters of the product list. */
  datatype ProductQuery = ProductQuery(filter: Option<string>, search: Option<string>)

  /** A search term takes effect only when it is truthy, i.e. present and non-empty. */
  predicate Searching(q: ProductQuery)
  {
    q.search.Some? && q.search.value != ""
  }

  /** The name, or a sku that is set, contains the term regardless of letter case. */
  predicate MatchesSearch(p: Product, term: string)
  {
    ContainsIgnoringCase(p.name, term) || (p.sku.Some? && ContainsIgnoringCase(p.sku.value, term))
  }

  /** The database-side `where`: the company, and the search term when there is one. */
  predicate Fetched(q: ProductQuery, companyId: string, p: Product)
  {
    p.companyId == companyId && (Searching(q) ==> MatchesSearch(p, q.search.value))
  }

  /**
   * `getProducts`: the company's products matching the search, newest first; with the
   * "low-stock" filter, only those strictly below their minimum.
   */
  function GetProducts(rows: seq<Product>, companyId: string, q: ProductQuery): (r: seq<Product>)
    ensures forall p :: p in r <==>
      && p in rows
      && p.companyId == companyId
      && (Searching(q) ==> MatchesSearch(p, q.search.value))
      && (q.filter == Some(LowStockFilter) ==> IsLowStock(p))
    ensures forall p :: multiset(r)[p] ==
               if Fetched(q, companyId, p) && (q.filter == Some(LowStockFilter) ==> IsLowStock(p)) then multiset(rows)[p] else 0
    ensures SortedDesc(r, ProductCreatedAt)
    ensures |r| <= |rows|
  {
    var matching := Filter(rows, (p: Product) => Fetched(q, companyId, p));
    var fetched := SortDesc(matching, ProductCreatedAt);
    SortDescKeeps(matching, ProductCreatedAt);
    FilterCounts(rows, (p: Product) => Fetched(q, companyId, p));
    if q.filter == Some(LowStockFilter) then
      FilterKeepsSorted(fetched, IsLowStock, ProductCreatedAt);
      FilterCounts(fetched, IsLowStock);
      Filter(fetched, IsLowStock)
    else
      fetched
  }

  /** A product together with its most recent movements. */
  datatype ProductDetails = ProductDetails(product: Product, stockMovements: seq<Movement>)

  /** The movements of one product, newest first. */
  function MovementsOf(movements: seq<Movement>, productId: string): (r: seq<Movement>)
    ensures forall m :: m in r <==> m in movements && m.productId == productId
    ensures forall m :: multiset(r)[m] == if m.productId == productId then multiset(movements)[m] else 0
    ensures SortedDesc(r, MovementCreatedAt)
  {
    var own := Filter(movements, (m: Movement) => m.productId == productId);
    FilterCounts(movements, (m: Movement) => m.productId == productId);
    SortDescKeeps(own, MovementCreatedAt);
    SortDesc(own, MovementCreatedAt)
  }

  /**
   * `getProduct`: nothing unless the company owns a product with that id; otherwise the
   * product with at most its 10 newest movements, newest first.
   */
  function GetProduct(rows: seq<Product>, movements: seq<Movement>, id: string, companyId: string)
    : (r: Option<ProductDetails>)
    ensures r.None? <==> forall i :: 0 <= i < |rows| ==> !(rows[i].id == id && rows[i].companyId == companyId)
    ensures r.Some? ==>
      && r.value.product in rows
      && r.value.product.id == id
      && r.value.product.companyId == companyId
      && |r.value.stockMovements| <= DetailMovements
      && SortedDesc(r.value.stockMovements, MovementCreatedAt)
      && forall m :: m in r.value.stockMovements ==> m in movements && m.productId == id
    ensures r.Some? ==> multiset(r.value.stockMovements) <= multiset(MovementsOf(movements, id))
  {
    match FindOwnedProduct(rows, id, companyId)
    case None => None
    case Some(i) =>
      var recent := Take(MovementsOf(movements, id), DetailMovements);
      TakeWithin(MovementsOf(movements, id), DetailMovements);
      TakeSorted(MovementsOf(movements, id), MovementCreatedAt, DetailMovements);
      Some(ProductDetails(rows[i], recent))
  }

  /**
   * The movements shown are the newest: a movement of the product that is left out is no
   * newer than any shown, and one is left out only when 10 are shown.
   */
  lemma GetProductKeepsNewest(rows: seq<Product>, movements: seq<Movement>, id: string, companyId: string, m: Movement)
    requires GetProduct(rows, movements, id, companyId).Some?
    requires m in movements && m.productId == id
    requires m !in GetProduct(rows, movements, id, companyId).value.stockMovements
    ensures |GetProduct(rows, movements, id, companyId).value.stockMovements| == DetailMovements
    ensures forall y :: y in GetProduct(rows, movements, id, companyId).value.stockMovements ==>
      y.createdAt >= m.createdAt
  {
    var own := Filter(movements, (m: Movement) => m.productId == id);
    TakeSortedKeepsNewest(own, MovementCreatedAt, DetailMovements, m);
  }

  /** The row `createProduct` writes: the validated fields, the caller's company, absent or null optionals stored as null. */
  function NewProduct(id: string, companyId: string, v: ProductSchema.ProductInput, now: int): Product
  {
    Product(id, companyId, v.name, Stored(v.description), Stored(v.sku), Stored(v.price),
            v.minStock, v.currentStock, now)
  }

  /**
   * `createProduct`. The payload must pass the full schema (defaults filled in), the
   * company must exist and the generated id be free; otherwise the generic failure and
   * nothing is written. `productId` and `now` stand for the id and timestamp the
   * database assigns.
   */
  method CreateProduct(db: Database, companyId: string, data: ProductSchema.ProductPayload, productId: string, now: int)
    returns (r: Result<Product>)
    requires db.Valid()
    modifies db
    ensures db.Valid()
    ensures db.companies == old(db.companies) && db.users == old(db.users) && db.movements == old(db.movements)
    ensures r.Ok? <==>
      && ProductSchema.Parse(data).Some?
      && FindCompany(old(db.companies), companyId).Some?
      && FindProduct(old(db.products), productId).None?
    ensures !r.Ok? ==> r == Err(CreateFailed) && db.products == old(db.products) && db.openings == old(db.openings)
    ensures r.Ok? ==> db.openings == old(db.openings)[productId := Opening(r.value.currentStock, |old(db.movements)|)]
    ensures r.Ok? ==>
      && r.value == NewProduct(productId, companyId, ProductSchema.Parse(data).value, now)
      && db.products == old(db.products) + [r.value]
  {
    var parsed := ProductSchema.Parse(data);
    if parsed.None? || FindCompany(db.companies, companyId).None? || FindProduct(db.products, productId).Some? {
      return Err(CreateFailed);
    }
    var p := NewProduct(productId, companyId, parsed.value, now);
    AddKeepsBalanced(db.products, db.movements, db.openings, p);
    db.openings := db.openings[productId := Opening(p.currentStock, |db.movements|)];
    db.products := db.products + [p];
    r := Ok(p);
  }

  /**
   * The row after `updateProduct`: name, description, sku, price and minimum take the
   * supplied values (a null clears an optional column); `currentStock`, even when
   * supplied, is not written, and neither are id, company and creation time.
   */
  function ApplyPatch(p: Product, w: ProductSchema.ProductPatch): (r: Product)
    ensures r.id == p.id && r.companyId == p.companyId && r.createdAt == p.createdAt
    ensures r.currentStock == p.currentStock
    ensures r.name == if w.name.Value? then w.name.value else p.name
    ensures r.minStock == if w.minStock.Value? then w.minStock.value else p.minStock
    ensures w.description.Undefined? ==> r.description == p.description
    ensures !w.description.Undefined? ==> r.description == Stored(w.description)
    ensures w.sku.Undefined? ==> r.sku == p.sku
    ensures !w.sku.Undefined? ==> r.sku == Stored(w.sku)
    ensures w.price.Undefined? ==> r.price == p.price
    ensures !w.price.Undefined? ==> r.price == Stored(w.price)
    ensures (&& w.name.Undefined? && w.description.Undefined? && w.sku.Undefined?
             && w.price.Undefined? && w.minStock.Undefined?) ==> r == p
  {
    p.(name := if w.name.Value? then w.name.value else p.name,
       description := Patched(p.description, w.description),
       sku := Patched(p.sku, w.sku),
       price := Patched(p.price, w.price),
       minStock := if w.minStock.Value? then w.minStock.value else p.minStock)
  }

  /**
   * In payload terms, `updateProduct` changes exactly the fields the request carries, except
   * `currentStock`, which it never writes: a field left out keeps its column, a null clears
   * an optional one, a value replaces it.
   */
  lemma PatchFromPayload(p: Product, d: ProductSchema.ProductPayload)
    requires ProductSchema.ParsePartial(d).Some?
    ensures var r := ApplyPatch(p, ProductSchema.ParsePartial(d).value);
      && r.currentStock == p.currentStock
      && r.name == (if d.name.JUndefined? then p.name else d.name.s)
      && r.description == (if d.description.JUndefined? then p.description
                           else if d.description.JNull? then None else Some(d.description.s))
      && r.sku == (if d.sku.JUndefined? then p.sku else if d.sku.JNull? then None else Some(d.sku.s))
      && r.price == (if d.price.JUndefined? then p.price else if d.price.JNull? then None else Some(d.price.x))
      && r.minStock == (if d.minStock.JUndefined? then p.minStock else d.minStock.x.Floor)
  {
    var w := ProductSchema.ParsePartial(d).value;
    if w.minStock.Value? {
      assert (w.minStock.value as real).Floor == w.minStock.value;
    }
  }

  /** Applying the same patch twice is the same as applying it once. */
  lemma ApplyPatchIdempotent(p: Product, w: ProductSchema.ProductPatch)
    ensures ApplyPatch(ApplyPatch(p, w), w) == ApplyPatch(p, w)
  {
  }

  /**
   * `updateProduct`. A payload the partial schema rejects gives the generic failure; a
   * product the company does not own gives "Product not found"; in both cases nothing
   * changes. Otherwise only that row changes, as `ApplyPatch` says.
   */
  method UpdateProduct(db: Database, id: string, companyId: string, data: ProductSchema.ProductPayload)
    returns (r: Result<Product>)
    requires db.Valid()
    modifies db
    ensures db.Valid()
    ensures db.companies == old(db.companies) && db.users == old(db.users) && db.movements == old(db.movements)
    ensures db.openings == old(db.openings)
    ensures !r.Ok? ==> db.products == old(db.products)
    ensures ProductSchema.ParsePartial(data).None? ==> r == Err(UpdateFailed)
    ensures ProductSchema.ParsePartial(data).Some? ==>
      match FindOwnedProduct(old(db.products), id, companyId)
      case None => r == Err(ProductNotFound)
      case Some(i) =>
        var p := ApplyPatch(old(db.products)[i], ProductSchema.ParsePartial(data).value);
        r == Ok(p) && db.products == old(db.products)[i := p]
  {
    var patch := ProductSchema.ParsePartial(data);
    if patch.None? {
      return Err(UpdateFailed);
    }
    var found := FindOwnedProduct(db.products, id, companyId);
    if found.None? {
      return Err(ProductNotFound);
    }
    var i := found.value;
    var p := ApplyPatch(db.products[i], patch.value);
    ReplaceKeepsBalanced(db.products, db.movements, db.openings, i, p);
    db.products := db.products[i := p];
    r := Ok(p);
  }

  /**
   * `deleteProduct`. A product the company does not own gives "Product not found" and
   * nothing changes; otherwise exactly that row is removed. Its movements stay.
   */
  method DeleteProduct(db: Database, id: string, companyId: string) returns (r: Result<()>)
    requires db.Valid()
    modifies db
    ensures db.Valid()
    ensures db.companies == old(db.companies) && db.users == old(db.users) && db.movements == old(db.movements)
    ensures db.openings == old(db.openings)
    ensures match FindOwnedProduct(old(db.products), id, companyId)
      case None => r == Err(ProductNotFound) && db.products == old(db.products)
      case Some(i) => r == Ok(()) && db.products == old(db.products)[..i] + old(db.products)[i + 1..]
  {
    var found := FindOwnedProduct(db.products, id, companyId);
    if found.None? {
      return Err(ProductNotFound);
    }
    var i := found.value;
    RemoveKeepsBalanced(db.products, db.movements, db.openings, i);
    db.products := db.products[..i] + db.products[i + 1..];
    r := Ok(());
  }

  /** Deletion removes every row with that id and keeps all others. */
  lemma DeleteRemovesOnlyThatId(products: seq<Product>, i: nat, q: Product)
    requires DistinctProductIds(products) && i < |products|
    ensures q in products[..i] + products[i + 1..] <==> q in products && q.id != products[i].id
  {
    var rest := products[..i] + products[i + 1..];
    if q in rest {
      var k :| 0 <= k < |rest| && rest[k] == q;
      if k < i { assert products[k] == q; } else { assert products[k + 1] == q; }
    }
    if q in products && q.id != products[i].id {
      var k :| 0 <= k < |products| && products[k] == q;
      if k < i { assert rest[k] == q; } else { assert rest[k - 1] == q; }
    }
  }
}
