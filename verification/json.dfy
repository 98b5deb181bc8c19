/** Python values as a JSON request payload delivers them, their
    truthiness, and what `int()` makes of them. */
module Json {
  import opened Wrappers
  import opened Text

  /** A value as `request.data.get(...)` returns it from a JSON payload, or
      as a caller hands it to a helper. */
  datatype JsonValue =
    | Missing
    | JsonNull
    | JsonBool(flag: bool)
    | JsonInt(i: int)
    | JsonFloat(x: real)
    | JsonString(s: string)
    | JsonContainer(size: nat)   // a list or an object, with its number of entries

  /** Python truthiness. */
  predicate JsonTruthy(v: JsonValue) {
    match v
    case Missing => false
    case JsonNull => false
    case JsonBool(flag) => flag
    case JsonInt(i) => i != 0
    case JsonFloat(x) => x != 0.0
    case JsonString(s) => s != []
    case JsonContainer(size) => size != 0
  }

  /** `int(x)` on a float: truncation toward zero. */
  function Truncate(x: real): (n: int)
    ensures x >= 0.0 ==> 0 <= n && n as real <= x < n as real + 1.0
    ensures x < 0.0 ==> n <= 0 && n as real - 1.0 < x <= n as real
  {
    if x >= 0.0 then x.Floor else -((-x).Floor)
  }

  /** Python's `int(v)`; `None` where it raises (a malformed string, a list,
      an object, or no value at all). */
  function PyInt(v: JsonValue): (r: Option<int>)
    ensures v.JsonInt? ==> r == Some(v.i)
    ensures v.JsonBool? ==> r == Some(if v.flag then 1 else 0)
    ensures v.JsonFloat? ==> r == Some(Truncate(v.x))
    ensures v.JsonString? ==> r == ParseInt(v.s)
    ensures v.Missing? || v.JsonNull? || v.JsonContainer? ==> r.None?
  {
    match v
    case JsonBool(flag) => Some(if flag then 1 else 0)
    case JsonInt(i) => Some(i)
    case JsonFloat(x) => Some(Truncate(x))
    case JsonString(s) => ParseInt(s)
    case Missing => None
    case JsonNull => None
    case JsonContainer(_) => None
  }

  /** The number Python sees when it compares `v` with a number: booleans
      are 0 and 1; anything that is not a number has none, because the
      comparison raises `TypeError`. */
  function PyNumber(v: JsonValue): (r: Option<real>)
    ensures r.Some? <==> v.JsonInt? || v.JsonBool? || v.JsonFloat?
    ensures r.Some? ==> PyInt(v) == Some(Truncate(r.value))
    ensures r.Some? && !v.JsonFloat? ==> r.value == PyInt(v).value as real
    ensures r.Some? ==> (JsonTruthy(v) <==> r.value != 0.0)
  {
    match v
    case JsonBool(flag) => Some(if flag then 1.0 else 0.0)
    case JsonInt(i) => Some(i as real)
    case JsonFloat(x) => Some(x)
    case _ => None
  }

  /** A number sent as its decimal text reads as that number. */
  lemma PyIntOfRendered(n: nat)
    ensures JsonTruthy(JsonString(NatToString(n)))
    ensures PyInt(JsonString(NatToString(n))) == Some(n as int)
  {
    ParseIntOfNatToString(n);
  }
}
