/**
 * The rows of the four tables (Company, User, Product, StockMovement) and the lookups
 * the actions perform on them (`findUnique` by key, `findFirst` by id and owner, the
 * `product: { companyId }` relation filter).
 */
module Entities {
  import opened Base
  import Seqs

  datatype MovementType = In | Out

  datatype Company = Company(
    id: string,
    name: string,
    document: Option<string>,
    phone: Option<string>,
    address: Option<string>)

  datatype User = User(
    id: string,
    email: string,
    name: Option<string>,
    avatarUrl: Option<string>,
    companyId: Option<string>)

  /** `price` is the exact decimal as a rational number; timestamps are milliseconds. */
  datatype Product = Product(
    id: string,
    companyId: string,
    name: string,
    description: Option<string>,
    sku: Option<string>,
    price: Option<real>,
    minStock: int,
    currentStock: int,
    createdAt: int)

  datatype Movement = Movement(
    id: string,
    productId: string,
    userId: string,
    kind: MovementType,
    quantity: int,
    reason: Option<string>,
    createdAt: int)

  function ProductCreatedAt(p: Product): int { p.createdAt }

  function MovementCreatedAt(m: Movement): int { m.createdAt }

  /** The low-stock test: strictly below the minimum. */
  predicate IsLowStock(p: Product)
  {
    p.currentStock < p.minStock
  }

  /** `findMany({ where: { companyId } })`, in table order. */
  function CompanyProducts(rows: seq<Product>, companyId: string): (r: seq<Product>)
    ensures forall p :: p in r <==> p in rows && p.companyId == companyId
    ensures forall p :: multiset(r)[p] == if p.companyId == companyId then multiset(rows)[p] else 0
    ensures |r| <= |rows|
  {
    Seqs.FilterCounts(rows, (p: Product) => p.companyId == companyId);
    Seqs.Filter(rows, (p: Product) => p.companyId == companyId)
  }

  /** The relation filter `product: { companyId }`: the movement's product belongs to the company. */
  predicate OfCompany(rows: seq<Product>, companyId: string, m: Movement)
  {
    exists i :: 0 <= i < |rows| && rows[i].id == m.productId && rows[i].companyId == companyId
  }

  /** A `findFirst` with a `where` condition: the index of the first row that satisfies `cond`. */
  function FindWhere<T>(rows: seq<T>, cond: T -> bool): (r: Option<nat>)
    ensures r.Some? ==> r.value < |rows| && cond(rows[r.value])
    ensures r.Some? ==> forall i :: 0 <= i < r.value ==> !cond(rows[i])
    ensures r.None? <==> forall i :: 0 <= i < |rows| ==> !cond(rows[i])
    decreases |rows|
  {
    if |rows| == 0 then None
    else if cond(rows[0]) then Some(0)
    else match FindWhere(rows[1..], cond)
      case None => None
      case Some(i) => Some(i + 1)
  }

  /** A `findUnique` on a unique column: the index of the first row whose `key` is `k`. */
  function FindBy<T>(rows: seq<T>, key: T -> string, k: string): (r: Option<nat>)
    ensures r.Some? ==> r.value < |rows| && key(rows[r.value]) == k
    ensures r.None? <==> forall i :: 0 <= i < |rows| ==> key(rows[i]) != k
  {
    FindWhere(rows, (x: T) => key(x) == k)
  }

  /** `findUnique({ where: { id } })` on products: the index of the row with that id. */
  function FindProduct(rows: seq<Product>, id: string): (r: Option<nat>)
    ensures r.Some? ==> r.value < |rows| && rows[r.value].id == id
    ensures r.None? <==> forall i :: 0 <= i < |rows| ==> rows[i].id != id
  {
    FindBy(rows, (p: Product) => p.id, id)
  }

  /** `findFirst({ where: { id, companyId } })`: the row with that id, only if the company owns it. */
  function FindOwnedProduct(rows: seq<Product>, id: string, companyId: string): (r: Option<nat>)
    ensures r.Some? ==> r.value < |rows| && rows[r.value].id == id && rows[r.value].companyId == companyId
    ensures r.None? <==> forall i :: 0 <= i < |rows| ==> !(rows[i].id == id && rows[i].companyId == companyId)
  {
    FindWhere(rows, (p: Product) => p.id == id && p.companyId == companyId)
  }

  /** `findUnique({ where: { email } })` on users. */
  function FindUserByEmail(users: seq<User>, email: string): (r: Option<nat>)
    ensures r.Some? ==> r.value < |users| && users[r.value].email == email
    ensures r.None? <==> forall i :: 0 <= i < |users| ==> users[i].email != email
  {
    FindBy(users, (u: User) => u.email, email)
  }

  /** `findUnique({ where: { id } })` on users. */
  function FindUserById(users: seq<User>, id: string): (r: Option<nat>)
    ensures r.Some? ==> r.value < |users| && users[r.value].id == id
    ensures r.None? <==> forall i :: 0 <= i < |users| ==> users[i].id != id
  {
    FindBy(users, (u: User) => u.id, id)
  }

  /** `update({ where: { id } })` on companies finds the row with that id. */
  function FindCompany(companies: seq<Company>, id: string): (r: Option<nat>)
    ensures r.Some? ==> r.value < |companies| && companies[r.value].id == id
    ensures r.None? <==> forall i :: 0 <= i < |companies| ==> companies[i].id != id
  {
    FindBy(companies, (c: Company) => c.id, id)
  }

  predicate MovementIdTaken(movements: seq<Movement>, id: string)
  {
    exists i :: 0 <= i < |movements| && movements[i].id == id
  }

  ghost predicate DistinctProductIds(rows: seq<Product>)
  {
    forall i, j :: 0 <= i < j < |rows| ==> rows[i].id != rows[j].id
  }

  ghost predicate DistinctMovementIds(movements: seq<Movement>)
  {
    forall i, j :: 0 <= i < j < |movements| ==> movements[i].id != movements[j].id
  }

  ghost predicate DistinctUsers(users: seq<User>)
  {
    forall i, j :: 0 <= i < j < |users| ==> users[i].id != users[j].id && users[i].email != users[j].email
  }

  ghost predicate DistinctCompanyIds(companies: seq<Company>)
  {
    forall i, j :: 0 <= i < j < |companies| ==> companies[i].id != companies[j].id
  }
}
