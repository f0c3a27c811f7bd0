/**
 * Stock movements: the filtered, newest-first movement list of a company, and the
 * posting of one movement, which checks the payload, the product and the available
 * stock, then appends the movement and writes the product's new stock together.
 */
module Movements {
  import opened Base
  import opened Entities
  import opened Ledger
  import opened Store
  import opened Seqs
  import MovementSchema
  import Calendar

  const RegisterFailed := "Failed to register movement"
  const ProductNotFound := "Product not found"

  function InsufficientStock(available: int): string
  {
    "Insufficient stock. Available: " + IntString(available)
  }

  /**
   * The optional filters of the movement list. Dates are day numbers (days since
   * 1970-01-01); an empty product id filters nothing, as an empty string is falsy.
   */
  datatype MovementQuery = MovementQuery(
    kind: Option<MovementType>,
    productId: Option<string>,
    startDate: Option<int>,
    endDate: Option<int>)

  /** 23:59:59 into the day: the inclusive upper bound the end date stands for. */
  const EndOfDayMs: int := (23 * 60 * 60 + 59 * 60 + 59) * 1000

  predicate MatchesQuery(q: MovementQuery, m: Movement)
  {
    && (q.kind.Some? ==> m.kind == q.kind.value)
    && (q.productId.Some? && q.productId.value != "" ==> m.productId == q.productId.value)
    && (q.startDate.Some? ==> m.createdAt >= q.startDate.value * Calendar.DayMs)
    && (q.endDate.Some? ==> m.createdAt <= q.endDate.value * Calendar.DayMs + EndOfDayMs)
  }

  /** `getMovements`: the company's movements that pass every supplied filter, newest first. */
  function GetMovements(products: seq<Product>, movements: seq<Movement>, companyId: string, q: MovementQuery)
    : (r: seq<Movement>)
    ensures forall m :: m in r <==> m in movements && OfCompany(products, companyId, m) && MatchesQuery(q, m)
    ensures forall m :: multiset(r)[m] ==
               if OfCompany(products, companyId, m) && MatchesQuery(q, m) then multiset(movements)[m] else 0
    ensures SortedDesc(r, MovementCreatedAt)
    ensures |r| <= |movements|
  {
    var matching := Filter(movements, (m: Movement) => OfCompany(products, companyId, m) && MatchesQuery(q, m));
    FilterCounts(movements, (m: Movement) => OfCompany(products, companyId, m) && MatchesQuery(q, m));
    SortDescKeeps(matching, MovementCreatedAt);
    SortDesc(matching, MovementCreatedAt)
  }

  /**
   * `createMovement`. A payload the schema rejects gives the generic failure; an unknown
   * product gives "Product not found"; an OUT above the current stock is refused with the
   * available stock. Otherwise the movement and the new stock are written together, or,
   * if the database refuses the insert (unknown user, id already taken), neither is.
   * `movementId` and `now` stand for the id and timestamp the database assigns.
   */
  method CreateMovement(db: Database, data: MovementSchema.MovementPayload, userId: string, movementId: string, now: int)
    returns (r: Result<Movement>)
    requires db.Valid()
    modifies db
    ensures db.Valid()
    ensures db.companies == old(db.companies) && db.users == old(db.users) && db.openings == old(db.openings)
    ensures !r.Ok? ==> db.products == old(db.products) && db.movements == old(db.movements)
    ensures MovementSchema.Parse(data).None? ==> r == Err(RegisterFailed)
    ensures MovementSchema.Parse(data).Some? ==>
      var v := MovementSchema.Parse(data).value;
      match FindProduct(old(db.products), v.productId)
      case None => r == Err(ProductNotFound)
      case Some(i) =>
        var p := old(db.products)[i];
        match ApplyMovement(p.currentStock, v.kind, v.quantity)
        case None => r == Err(InsufficientStock(p.currentStock))
        case Some(n) =>
          if FindUserById(old(db.users), userId).None? || MovementIdTaken(old(db.movements), movementId)
          then r == Err(RegisterFailed)
          else
            var m := Movement(movementId, v.productId, userId, v.kind, v.quantity, Stored(v.reason), now);
            && r == Ok(m)
            && db.movements == old(db.movements) + [m]
            && db.products == old(db.products)[i := p.(currentStock := n)]
  {
    var parsed := MovementSchema.Parse(data);
    if parsed.None? {
      return Err(RegisterFailed);
    }
    var v := parsed.value;
    var found := FindProduct(db.products, v.productId);
    if found.None? {
      return Err(ProductNotFound);
    }
    var i := found.value;
    var product := db.products[i];
    if v.kind == Out && product.currentStock < v.quantity {
      return Err(InsufficientStock(product.currentStock));
    }
    var newStock := if v.kind == In then product.currentStock + v.quantity else product.currentStock - v.quantity;
    assert ApplyMovement(product.currentStock, v.kind, v.quantity) == Some(newStock);

    // The transaction: the insert fails on an unknown user or a taken id, and then nothing is written.
    if FindUserById(db.users, userId).None? || MovementIdTaken(db.movements, movementId) {
      return Err(RegisterFailed);
    }
    var m := Movement(movementId, v.productId, userId, v.kind, v.quantity, Stored(v.reason), now);
    PostKeepsBalanced(db.products, db.movements, db.openings, i, m, newStock);
    db.movements := db.movements + [m];
    db.products := db.products[i := product.(currentStock := newStock)];
    r := Ok(m);
  }
}
