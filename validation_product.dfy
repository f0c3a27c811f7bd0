/**
 * The product payload schema, both as a whole (`productSchema`, used on create) and
 * with every field optional (`productSchema.partial()`, used on update).
 */
module ProductSchema {
  import opened Base
  import opened Schema

  const NameMax: nat := 100
  const DescriptionMax: nat := 500
  const SkuMax: nat := 50

  datatype ProductPayload = ProductPayload(
    name: Json, description: Json, sku: Json, price: Json, minStock: Json, currentStock: Json)

  datatype ProductInput = ProductInput(
    name: string,
    description: Nullable<string>,
    sku: Nullable<string>,
    price: Nullable<real>,
    minStock: int,
    currentStock: int)
  {
    /** What the schema promises of a parsed product. */
    predicate Valid()
    {
      && 1 <= |name| <= NameMax
      && FitsIn(description, DescriptionMax)
      && FitsIn(sku, SkuMax)
      && (price.Value? ==> price.value > 0.0)
      && minStock >= 0
      && currentStock >= 0
    }
  }

  /** The fields a partial payload supplies; `Undefined` marks a field that was left out. */
  datatype ProductPatch = ProductPatch(
    name: Nullable<string>,
    description: Nullable<string>,
    sku: Nullable<string>,
    price: Nullable<real>,
    minStock: Nullable<int>,
    currentStock: Nullable<int>)

  /** `productSchema.parse`: absent `minStock` and `currentStock` default to 0. */
  function Parse(p: ProductPayload): (r: Option<ProductInput>)
    ensures r.Some? ==> r.value.Valid()
    ensures r.Some? ==>
      && p.name == JString(r.value.name)
      && p.description == EncodeString(r.value.description)
      && p.sku == EncodeString(r.value.sku)
      && p.price == EncodeNumber(r.value.price)
    ensures r.Some? && p.minStock.JUndefined? ==> r.value.minStock == 0
    ensures r.Some? && p.currentStock.JUndefined? ==> r.value.currentStock == 0
    ensures r.Some? ==> p.minStock.JUndefined? || p.minStock == JNumber(r.value.minStock as real)
    ensures r.Some? ==> p.currentStock.JUndefined? || p.currentStock == JNumber(r.value.currentStock as real)
  {
    match (RequiredString(p.name, 1, NameMax), NullableString(p.description, DescriptionMax),
           NullableString(p.sku, SkuMax), NullablePositive(p.price),
           NonNegativeIntOrZero(p.minStock), NonNegativeIntOrZero(p.currentStock))
    case (Some(name), Some(description), Some(sku), Some(price), Some(minStock), Some(currentStock)) =>
      Some(ProductInput(name, description, sku, price, minStock, currentStock))
    case _ => None
  }

  /** `productSchema.partial().parse`: every field may be absent, and a field that is present must pass its own check. */
  function ParsePartial(p: ProductPayload): (r: Option<ProductPatch>)
    ensures r.Some? ==>
      && (r.value.name.Value? ==> 1 <= |r.value.name.value| <= NameMax)
      && !r.value.name.Null?
      && FitsIn(r.value.description, DescriptionMax)
      && FitsIn(r.value.sku, SkuMax)
      && (r.value.price.Value? ==> r.value.price.value > 0.0)
      && (r.value.minStock.Value? ==> r.value.minStock.value >= 0)
      && !r.value.minStock.Null?
    ensures r.Some? ==>
      && p.name == EncodeString(r.value.name)
      && p.description == EncodeString(r.value.description)
      && p.sku == EncodeString(r.value.sku)
      && p.price == EncodeNumber(r.value.price)
      && p.minStock == EncodeCount(r.value.minStock)
      && p.currentStock == EncodeCount(r.value.currentStock)
  {
    match (PartialOf(p.name, RequiredString(p.name, 1, NameMax)), NullableString(p.description, DescriptionMax),
           NullableString(p.sku, SkuMax), NullablePositive(p.price),
           PartialOf(p.minStock, NonNegativeInt(p.minStock)), PartialOf(p.currentStock, NonNegativeInt(p.currentStock)))
    case (Some(name), Some(description), Some(sku), Some(price), Some(minStock), Some(currentStock)) =>
      Some(ProductPatch(name, description, sku, price, minStock, currentStock))
    case _ => None
  }

  function Encode(v: ProductInput): ProductPayload
  {
    ProductPayload(JString(v.name), EncodeString(v.description), EncodeString(v.sku), EncodeNumber(v.price),
                   JNumber(v.minStock as real), JNumber(v.currentStock as real))
  }

  /**
   * A payload is accepted exactly when the name has 1 to 100 characters, the description
   * (at most 500) and sku (at most 50) are absent, null or short enough, the price is
   * absent, null or above 0, and each stock figure is absent or an integer of at least 0.
   */
  lemma ParseAccepts(p: ProductPayload)
    ensures Parse(p).Some? <==>
      && (p.name.JString? && 1 <= |p.name.s| <= NameMax)
      && (p.description.JUndefined? || p.description.JNull? || (p.description.JString? && |p.description.s| <= DescriptionMax))
      && (p.sku.JUndefined? || p.sku.JNull? || (p.sku.JString? && |p.sku.s| <= SkuMax))
      && (p.price.JUndefined? || p.price.JNull? || (p.price.JNumber? && p.price.x > 0.0))
      && (p.minStock.JUndefined? || (p.minStock.JNumber? && IsInteger(p.minStock.x) && p.minStock.x >= 0.0))
      && (p.currentStock.JUndefined? || (p.currentStock.JNumber? && IsInteger(p.currentStock.x) && p.currentStock.x >= 0.0))
  {
  }

  /**
   * A partial payload is accepted exactly when every field that is present passes its own
   * rule: a present name must have 1 to 100 characters (null is refused), and a present
   * stock figure must be an integer of at least 0 (null is refused); the optional text
   * fields and the price take null as before.
   */
  lemma ParsePartialAccepts(p: ProductPayload)
    ensures ParsePartial(p).Some? <==>
      && (p.name.JUndefined? || (p.name.JString? && 1 <= |p.name.s| <= NameMax))
      && (p.description.JUndefined? || p.description.JNull? || (p.description.JString? && |p.description.s| <= DescriptionMax))
      && (p.sku.JUndefined? || p.sku.JNull? || (p.sku.JString? && |p.sku.s| <= SkuMax))
      && (p.price.JUndefined? || p.price.JNull? || (p.price.JNumber? && p.price.x > 0.0))
      && (p.minStock.JUndefined? || (p.minStock.JNumber? && IsInteger(p.minStock.x) && p.minStock.x >= 0.0))
      && (p.currentStock.JUndefined? || (p.currentStock.JNumber? && IsInteger(p.currentStock.x) && p.currentStock.x >= 0.0))
  {
  }

  /** Every valid product is accepted back from its own encoding. */
  lemma ParseEncode(v: ProductInput)
    requires v.Valid()
    ensures Parse(Encode(v)) == Some(v)
  {
    assert (v.minStock as real).Floor == v.minStock;
    assert (v.currentStock as real).Floor == v.currentStock;
  }

  /** An absent stock figure, filled in with the schema default 0. */
  function DefaultZero(j: Json): Json
  {
    if j.JUndefined? then JNumber(0.0) else j
  }

  /** Parsing only fills in defaults: the encoding of a parsed product is the payload with its absent stock figures set to 0. */
  lemma EncodeParse(p: ProductPayload)
    requires Parse(p).Some?
    ensures Encode(Parse(p).value) == p.(minStock := DefaultZero(p.minStock), currentStock := DefaultZero(p.currentStock))
  {
  }

  /**
   * Whatever the full schema accepts, the partial schema accepts too, with the same
   * field values; only the two defaults are not filled in.
   */
  lemma PartialAcceptsFull(p: ProductPayload)
    requires Parse(p).Some?
    ensures ParsePartial(p).Some?
    ensures var v, w := Parse(p).value, ParsePartial(p).value;
      && w.name == Value(v.name)
      && w.description == v.description && w.sku == v.sku && w.price == v.price
      && w.minStock == (if p.minStock.JUndefined? then Undefined else Value(v.minStock))
      && w.currentStock == (if p.currentStock.JUndefined? then Undefined else Value(v.currentStock))
  {
  }
}
