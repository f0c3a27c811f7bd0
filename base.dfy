/**
 * Value types shared by the inventory model: optional values, the three states of a
 * field of a validated JavaScript object (absent, null, present), the untyped fields of
 * a request payload, the tagged outcome of a server action, and the string helpers the
 * actions rely on (prefix and substring tests, ASCII case folding, decimal rendering,
 * the UUID shape).
 */
module Base {

  datatype Option<T> = None | Some(value: T)

  /** A field of a validated object: absent (`undefined`), explicitly `null`, or a value. */
  datatype Nullable<T> = Undefined | Null | Value(value: T)

  /** One field of an untyped request payload. Booleans, objects and arrays are `JOther`. */
  datatype Json = JUndefined | JNull | JString(s: string) | JNumber(x: real) | JOther

  /**
   * What a server action hands back: a value, an `{ error }` object carrying its message,
   * or an exception that escapes the action.
   */
  datatype Result<T> = Ok(value: T) | Err(message: string) | Thrown

  /** The column a create writes for a validated field: `undefined` and `null` both store null. */
  function Stored<T>(n: Nullable<T>): (r: Option<T>)
    ensures r.Some? <==> n.Value?
  {
    if n.Value? then Some(n.value) else None
  }

  /** The column after an update with a validated field: `undefined` keeps it, `null` clears it. */
  function Patched<T>(prev: Option<T>, n: Nullable<T>): (r: Option<T>)
    ensures n.Undefined? ==> r == prev
    ensures !n.Undefined? ==> r == Stored(n)
  {
    match n
    case Undefined => prev
    case Null => None
    case Value(v) => Some(v)
  }

  /** A nullable column read back as a JavaScript value. */
  function FromColumn<T>(o: Option<T>): Nullable<T>
  {
    match o
    case None => Null
    case Some(v) => Value(v)
  }

  /** JavaScript truthiness of a string-valued field: `undefined`, `null` and `""` are falsy. */
  predicate Truthy(n: Nullable<string>)
  {
    n.Value? && n.value != ""
  }

  /** The value of JavaScript's `a || b` on string-valued fields. */
  function OrElse(a: Nullable<string>, b: Nullable<string>): (r: Nullable<string>)
    ensures Truthy(a) ==> r == a
    ensures !Truthy(a) ==> r == b
    ensures Truthy(r) <==> Truthy(a) || Truthy(b)
  {
    if Truthy(a) then a else b
  }

  predicate StartsWith(s: string, prefix: string)
  {
    |prefix| <= |s| && s[..|prefix|] == prefix
  }

  /** `part` occurs in `s` at some position. */
  predicate Contains(s: string, part: string)
    decreases |s|
  {
    StartsWith(s, part) || (|s| > 0 && Contains(s[1..], part))
  }

  function LowerChar(c: char): char
  {
    if 'A' <= c <= 'Z' then (c as int + 32) as char else c
  }

  function Lower(s: string): (r: string)
    ensures |r| == |s|
  {
    seq(|s|, i requires 0 <= i < |s| => LowerChar(s[i]))
  }

  /** Substring test that ignores the case of ASCII letters. */
  predicate ContainsIgnoringCase(s: string, part: string)
  {
    Contains(Lower(s), Lower(part))
  }

  function DigitChar(d: nat): char
    requires d < 10
  {
    "0123456789"[d]
  }

  function NatString(n: nat): (r: string)
    ensures |r| >= 1
    decreases n
  {
    if n < 10 then [DigitChar(n)] else NatString(n / 10) + [DigitChar(n % 10)]
  }

  /** An integer as a JavaScript template literal renders it. */
  function IntString(i: int): string
  {
    if i < 0 then "-" + NatString(-i) else NatString(i)
  }

  predicate IsHexDigit(c: char)
  {
    '0' <= c <= '9' || 'a' <= c <= 'f' || 'A' <= c <= 'F'
  }

  /** The 8-4-4-4-12 hexadecimal shape of a UUID. */
  predicate IsUuid(s: string)
  {
    |s| == 36 &&
    forall i :: 0 <= i < 36 ==>
      if i == 8 || i == 13 || i == 18 || i == 23 then s[i] == '-' else IsHexDigit(s[i])
  }
}
