/**
 * The database behind the server actions, as one object holding the four tables.
 * Rows are values; the actions replace whole tables. `openings` is bookkeeping for the
 * proof only: for each product, the stock it was created with and the position in the
 * movement table from which its own movements start.
 */
module Store {
  import opened Base
  import opened Entities
  import opened Ledger

  datatype Opening = Opening(stock: int, from: nat)

  /** The product's stock is its opening stock replayed through the movements posted since it was created. */
  ghost predicate Ledgered(p: Product, movements: seq<Movement>, openings: map<string, Opening>)
  {
    && p.id in openings
    && openings[p.id].stock >= 0
    && openings[p.id].from <= |movements|
    && Replay(openings[p.id].stock, movements[openings[p.id].from..], p.id) == Some(p.currentStock)
  }

  /** Every product has a non-negative minimum and is ledgered; every movement has a positive quantity. */
  ghost predicate Balanced(products: seq<Product>, movements: seq<Movement>, openings: map<string, Opening>)
  {
    && DistinctProductIds(products)
    && DistinctMovementIds(movements)
    && (forall i :: 0 <= i < |movements| ==> movements[i].quantity > 0)
    && (forall i :: 0 <= i < |products| ==> products[i].minStock >= 0 && Ledgered(products[i], movements, openings))
  }

  /**
   * Posting a movement for product `i` whose replay step gives `n`, and writing `n` as
   * its stock, keeps the product table and the ledger balanced.
   */
  lemma {:induction false} PostKeepsBalanced(products: seq<Product>, movements: seq<Movement>,
                                             openings: map<string, Opening>, i: nat, m: Movement, n: int)
    requires Balanced(products, movements, openings)
    requires i < |products| && m.productId == products[i].id && m.quantity > 0
    requires !MovementIdTaken(movements, m.id)
    requires ApplyMovement(products[i].currentStock, m.kind, m.quantity) == Some(n)
    ensures Balanced(products[i := products[i].(currentStock := n)], movements + [m], openings)
  {
    var ps := products[i := products[i].(currentStock := n)];
    var ms := movements + [m];
    forall j | 0 <= j < |ps|
      ensures ps[j].minStock >= 0 && Ledgered(ps[j], ms, openings)
    {
      var q := products[j];
      assert Ledgered(q, movements, openings);
      var o := openings[q.id];
      assert movements[o.from..] + [m] == ms[o.from..];
      ReplaySnoc(o.stock, movements[o.from..], m, q.id);
      if j != i {
        assert q.id != m.productId;
      }
    }
    forall a, b | 0 <= a < b < |ms| ensures ms[a].id != ms[b].id {
      if b == |movements| {
        assert ms[a] == movements[a];
      }
    }
  }

  /** Adding a product whose id is new, with its own opening, keeps the store balanced. */
  lemma {:induction false} AddKeepsBalanced(products: seq<Product>, movements: seq<Movement>,
                                            openings: map<string, Opening>, p: Product)
    requires Balanced(products, movements, openings)
    requires forall j :: 0 <= j < |products| ==> products[j].id != p.id
    requires p.minStock >= 0 && p.currentStock >= 0
    ensures Balanced(products + [p], movements, openings[p.id := Opening(p.currentStock, |movements|)])
  {
    var os := openings[p.id := Opening(p.currentStock, |movements|)];
    var ps := products + [p];
    forall j | 0 <= j < |ps| ensures ps[j].minStock >= 0 && Ledgered(ps[j], movements, os) {
      if j < |products| {
        assert ps[j] == products[j];
        assert Ledgered(products[j], movements, openings);
      } else {
        assert movements[|movements|..] == [];
      }
    }
  }

  /** Rewriting a product's descriptive fields, with its id and stock unchanged, keeps the store balanced. */
  lemma {:induction false} ReplaceKeepsBalanced(products: seq<Product>, movements: seq<Movement>,
                                                openings: map<string, Opening>, i: nat, p: Product)
    requires Balanced(products, movements, openings)
    requires i < |products| && p.id == products[i].id && p.currentStock == products[i].currentStock
    requires p.minStock >= 0
    ensures Balanced(products[i := p], movements, openings)
  {
    var ps := products[i := p];
    forall j | 0 <= j < |ps| ensures ps[j].minStock >= 0 && Ledgered(ps[j], movements, openings) {
      assert Ledgered(products[j], movements, openings);
    }
  }

  /** Removing a product keeps the rest balanced. */
  lemma {:induction false} RemoveKeepsBalanced(products: seq<Product>, movements: seq<Movement>,
                                               openings: map<string, Opening>, i: nat)
    requires Balanced(products, movements, openings)
    requires i < |products|
    ensures Balanced(products[..i] + products[i + 1..], movements, openings)
  {
    var ps := products[..i] + products[i + 1..];
    forall j | 0 <= j < |ps| ensures ps[j].minStock >= 0 && Ledgered(ps[j], movements, openings) {
      if j < i {
        assert ps[j] == products[j];
      } else {
        assert ps[j] == products[j + 1];
      }
    }
    forall a, b | 0 <= a < b < |ps| ensures ps[a].id != ps[b].id {
      var a' := if a < i then a else a + 1;
      var b' := if b < i then b else b + 1;
      assert ps[a] == products[a'] && ps[b] == products[b'];
    }
  }

  class Database {
    var companies: seq<Company>
    var users: seq<User>
    var products: seq<Product>
    var movements: seq<Movement>
    ghost var openings: map<string, Opening>

    /** Keys are unique (ids everywhere, emails for users) and the stock ledger is balanced. */
    ghost predicate Valid()
      reads this
    {
      && DistinctCompanyIds(companies)
      && DistinctUsers(users)
      && Balanced(products, movements, openings)
    }

    constructor ()
      ensures Valid()
      ensures companies == [] && users == [] && products == [] && movements == []
      ensures openings == map[]
    {
      companies, users, products, movements := [], [], [], [];
      openings := map[];
    }

    /**
     * The central invariant: in a valid store every product's stock is non-negative and
     * equals its opening stock plus the IN quantities minus the OUT quantities posted for it.
     */
    lemma StockBalances()
      requires Valid()
      ensures forall i :: 0 <= i < |products| ==>
        && products[i].currentStock >= 0
        && products[i].currentStock ==
             openings[products[i].id].stock
             + Total(movements[openings[products[i].id].from..], products[i].id, In)
             - Total(movements[openings[products[i].id].from..], products[i].id, Out)
    {
      forall i | 0 <= i < |products|
        ensures products[i].currentStock >= 0
        ensures products[i].currentStock ==
             openings[products[i].id].stock
             + Total(movements[openings[products[i].id].from..], products[i].id, In)
             - Total(movements[openings[products[i].id].from..], products[i].id, Out)
      {
        var p := products[i];
        var o := openings[p.id];
        assert Ledgered(p, movements, openings);
        ReplayBalances(o.stock, movements[o.from..], p.id);
      }
    }
  }
}
