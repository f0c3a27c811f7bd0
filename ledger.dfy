/**
 * The stock arithmetic of `createMovement` and the ledger it maintains: a product's
 * stock is its opening stock replayed through the movements posted for it, each IN
 * adding its quantity and each OUT subtracting it, an OUT larger than the stock at
 * that point being refused.
 */
module Ledger {
  import opened Base
  import opened Entities

  /**
   * The stock check and new-stock computation of `createMovement`: `None` is the
   * insufficient-stock refusal, `Some(n)` the stock after the movement.
   */
  function ApplyMovement(stock: int, kind: MovementType, quantity: int): (r: Option<int>)
    ensures r.None? <==> kind == Out && stock < quantity
    ensures r.Some? ==> r.value == if kind == In then stock + quantity else stock - quantity
    ensures r.Some? && stock >= 0 && quantity > 0 ==> r.value >= 0
    ensures kind == Out && quantity == stock ==> r == Some(0)
  {
    match kind
    case In => Some(stock + quantity)
    case Out => if stock < quantity then None else Some(stock - quantity)
  }

  /** The summed quantity of the movements of `kind` posted for `productId`. */
  function Total(ms: seq<Movement>, productId: string, kind: MovementType): int
    decreases |ms|
  {
    if |ms| == 0 then 0
    else
      var m := ms[|ms| - 1];
      Total(ms[..|ms| - 1], productId, kind) + (if m.productId == productId && m.kind == kind then m.quantity else 0)
  }

  /**
   * The stock reached from `opening` by posting `ms` in order, counting only the
   * movements of `productId`; `None` if one of them is an OUT larger than the stock.
   */
  function Replay(opening: int, ms: seq<Movement>, productId: string): Option<int>
    decreases |ms|
  {
    if |ms| == 0 then Some(opening)
    else
      var m := ms[|ms| - 1];
      match Replay(opening, ms[..|ms| - 1], productId)
      case None => None
      case Some(s) => if m.productId == productId then ApplyMovement(s, m.kind, m.quantity) else Some(s)
  }

  /** Posting one more movement extends the replay by one step. */
  lemma {:induction false} ReplaySnoc(opening: int, ms: seq<Movement>, m: Movement, productId: string)
    ensures Replay(opening, ms + [m], productId) ==
      match Replay(opening, ms, productId)
      case None => None
      case Some(s) => if m.productId == productId then ApplyMovement(s, m.kind, m.quantity) else Some(s)
  {
    assert (ms + [m])[..|ms|] == ms;
  }

  /**
   * The ledger invariant over any sequence of postings: starting from a non-negative
   * stock with positive quantities, a replay that is not refused ends at a non-negative
   * stock equal to the opening stock plus the IN quantities minus the OUT quantities.
   */
  lemma {:induction false} ReplayBalances(opening: int, ms: seq<Movement>, productId: string)
    requires opening >= 0
    requires forall i :: 0 <= i < |ms| ==> ms[i].quantity > 0
    requires Replay(opening, ms, productId).Some?
    ensures Replay(opening, ms, productId).value >= 0
    ensures Replay(opening, ms, productId).value ==
      opening + Total(ms, productId, In) - Total(ms, productId, Out)
    decreases |ms|
  {
    if |ms| > 0 {
      ReplayBalances(opening, ms[..|ms| - 1], productId);
    }
  }
}
