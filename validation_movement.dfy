/** The movement payload schema: `type`, `quantity`, `reason`, `productId`. */
module MovementSchema {
  import opened Base
  import opened Entities
  import opened Schema

  const ReasonMax: nat := 200

  datatype MovementPayload = MovementPayload(kind: Json, quantity: Json, reason: Json, productId: Json)

  datatype MovementInput = MovementInput(
    kind: MovementType,
    quantity: int,
    reason: Nullable<string>,
    productId: string)
  {
    /** What the schema promises of a parsed movement. */
    predicate Valid()
    {
      quantity > 0 && FitsIn(reason, ReasonMax) && IsUuid(productId)
    }
  }

  /** `z.enum(['IN', 'OUT'])`. */
  function ParseKind(j: Json): (r: Option<MovementType>)
    ensures r.Some? <==> j == JString("IN") || j == JString("OUT")
    ensures r.Some? ==> j == EncodeKind(r.value)
  {
    match j
    case JString(s) => if s == "IN" then Some(In) else if s == "OUT" then Some(Out) else None
    case _ => None
  }

  function EncodeKind(k: MovementType): Json
  {
    match k
    case In => JString("IN")
    case Out => JString("OUT")
  }

  /** `z.string().uuid()`. */
  function ParseProductId(j: Json): (r: Option<string>)
    ensures r.Some? <==> j.JString? && IsUuid(j.s)
    ensures r.Some? ==> j == JString(r.value)
  {
    match j
    case JString(s) => if IsUuid(s) then Some(s) else None
    case _ => None
  }

  /** `movementSchema.parse`: the typed movement, or `None` when any field is rejected. */
  function Parse(p: MovementPayload): (r: Option<MovementInput>)
    ensures r.Some? ==> r.value.Valid()
  {
    match (ParseKind(p.kind), PositiveInt(p.quantity), NullableString(p.reason, ReasonMax), ParseProductId(p.productId))
    case (Some(k), Some(q), Some(reason), Some(id)) => Some(MovementInput(k, q, reason, id))
    case _ => None
  }

  function Encode(v: MovementInput): MovementPayload
  {
    MovementPayload(EncodeKind(v.kind), JNumber(v.quantity as real), EncodeString(v.reason), JString(v.productId))
  }

  /**
   * A payload is accepted exactly when the type is "IN" or "OUT", the quantity an integer
   * above 0, the reason absent, null or at most 200 characters, and the product id a UUID.
   */
  lemma ParseAccepts(p: MovementPayload)
    ensures Parse(p).Some? <==>
      && (p.kind == JString("IN") || p.kind == JString("OUT"))
      && (p.quantity.JNumber? && IsInteger(p.quantity.x) && p.quantity.x > 0.0)
      && (p.reason.JUndefined? || p.reason.JNull? || (p.reason.JString? && |p.reason.s| <= ReasonMax))
      && (p.productId.JString? && IsUuid(p.productId.s))
  {
  }

  /** Every valid movement is accepted back from its own encoding. */
  lemma ParseEncode(v: MovementInput)
    requires v.Valid()
    ensures Parse(Encode(v)) == Some(v)
  {
    assert (v.quantity as real).Floor == v.quantity;
  }

  /** Parsing loses nothing: an accepted payload is the encoding of what it parsed to. */
  lemma EncodeParse(p: MovementPayload)
    requires Parse(p).Some?
    ensures Encode(Parse(p).value) == p
  {
  }
}
