/**
 * The field validators the three payload schemas are built from, each one a parse of a
 * raw payload field that either yields the typed value or rejects the payload, and the
 * encoding of a typed value back into a payload field.
 */
module Schema {
  import opened Base

  /** A number with no fractional part (`.int()`). */
  predicate IsInteger(x: real)
  {
    x.Floor as real == x
  }

  /** `z.string().min(min).max(max)`. */
  function RequiredString(j: Json, min: nat, max: nat): (r: Option<string>)
    ensures r.Some? <==> j.JString? && min <= |j.s| <= max
    ensures r.Some? ==> r.value == j.s
  {
    match j
    case JString(s) => if min <= |s| <= max then Some(s) else None
    case _ => None
  }

  /** `z.string().max(max).optional().nullable()`: absent, `null`, or a string of at most `max` characters. */
  function NullableString(j: Json, max: nat): (r: Option<Nullable<string>>)
    ensures r.Some? <==> j.JUndefined? || j.JNull? || (j.JString? && |j.s| <= max)
    ensures r.Some? ==> EncodeString(r.value) == j
  {
    match j
    case JUndefined => Some(Undefined)
    case JNull => Some(Null)
    case JString(s) => if |s| <= max then Some(Value(s)) else None
    case _ => None
  }

  /** `z.number().int().positive()`. */
  function PositiveInt(j: Json): (r: Option<int>)
    ensures r.Some? <==> j.JNumber? && IsInteger(j.x) && j.x > 0.0
    ensures r.Some? ==> r.value > 0 && j == JNumber(r.value as real)
  {
    match j
    case JNumber(x) => if IsInteger(x) && x > 0.0 then Some(x.Floor) else None
    case _ => None
  }

  /** `z.number().int().min(0)`. */
  function NonNegativeInt(j: Json): (r: Option<int>)
    ensures r.Some? <==> j.JNumber? && IsInteger(j.x) && j.x >= 0.0
    ensures r.Some? ==> r.value >= 0 && j == JNumber(r.value as real)
  {
    match j
    case JNumber(x) => if IsInteger(x) && x >= 0.0 then Some(x.Floor) else None
    case _ => None
  }

  /** `z.number().int().min(0).default(0)`: an absent field becomes 0. */
  function NonNegativeIntOrZero(j: Json): (r: Option<int>)
    ensures j.JUndefined? ==> r == Some(0)
    ensures !j.JUndefined? ==> r == NonNegativeInt(j)
  {
    if j.JUndefined? then Some(0) else NonNegativeInt(j)
  }

  /** `z.number().positive().optional().nullable()`. */
  function NullablePositive(j: Json): (r: Option<Nullable<real>>)
    ensures r.Some? <==> j.JUndefined? || j.JNull? || (j.JNumber? && j.x > 0.0)
    ensures r.Some? ==> EncodeNumber(r.value) == j
  {
    match j
    case JUndefined => Some(Undefined)
    case JNull => Some(Null)
    case JNumber(x) => if x > 0.0 then Some(Value(x)) else None
    case _ => None
  }

  /** A field of a `.partial()` schema: absent stays absent, anything else goes to the field's own parse. */
  function PartialOf<T>(j: Json, parsed: Option<T>): (r: Option<Nullable<T>>)
    ensures j.JUndefined? ==> r == Some(Undefined)
    ensures !j.JUndefined? ==> (r.Some? <==> parsed.Some?)
    ensures !j.JUndefined? && parsed.Some? ==> r == Some(Value(parsed.value))
  {
    if j.JUndefined? then Some(Undefined)
    else match parsed
      case None => None
      case Some(v) => Some(Value(v))
  }

  function EncodeString(n: Nullable<string>): Json
  {
    match n
    case Undefined => JUndefined
    case Null => JNull
    case Value(s) => JString(s)
  }

  function EncodeNumber(n: Nullable<real>): Json
  {
    match n
    case Undefined => JUndefined
    case Null => JNull
    case Value(x) => JNumber(x)
  }

  /** A whole-number field of a partial payload, written back. */
  function EncodeCount(n: Nullable<int>): Json
  {
    match n
    case Undefined => JUndefined
    case Null => JNull
    case Value(k) => JNumber(k as real)
  }

  predicate FitsIn(n: Nullable<string>, max: nat)
  {
    n.Value? ==> |n.value| <= max
  }
}
