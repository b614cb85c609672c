/** The decoded JSON values the session engine inspects and builds.

    Foundation's `JSONSerialization` produces untyped `[String: Any]`
    dictionaries; here they are a tagged variant, and each Swift dynamic cast
    (`as? String`, `as? [String: Any]`, `as? Int`) is a fallible accessor. */
module JsonValues {
  import opened Wrappers

  /** A JSON value. Numbers are kept as exact reals: both `1` and `1.0` are
      the number one, as they are once Foundation has parsed them. */
  datatype Json =
    | JNull
    | JBool(b: bool)
    | JNumber(n: real)
    | JString(s: string)
    | JArray(items: seq<Json>)
    | JObject(fields: map<string, Json>)

  /** Bounds of Swift's `Int` on the 64-bit platforms the program runs on. */
  const IntMin: int := -0x8000_0000_0000_0000
  const IntMax: int := 0x7FFF_FFFF_FFFF_FFFF

  predicate InIntRange(i: int)
  {
    IntMin <= i <= IntMax
  }

  /** The JSON number for a Swift integer. */
  function FromInt(i: int): Json
  {
    JNumber(i as real)
  }

  /** `value as? String`. */
  function AsString(j: Json): (r: Option<string>)
    ensures r.Some? <==> j.JString?
    ensures r.Some? ==> j == JString(r.value)
  {
    match j
    case JString(s) => Some(s)
    case _ => None
  }

  /** `value as? [String: Any]`. */
  function AsObject(j: Json): (r: Option<map<string, Json>>)
    ensures r.Some? <==> j.JObject?
    ensures r.Some? ==> j == JObject(r.value)
  {
    match j
    case JObject(o) => Some(o)
    case _ => None
  }

  /** The integer a JSON number denotes, if it is integral. */
  function AsInteger(j: Json): (r: Option<int>)
    ensures r.Some? ==> j == FromInt(r.value)
    ensures r.None? ==> forall i :: j != FromInt(i)
  {
    match j
    case JNumber(n) => if n.Floor as real == n then Some(n.Floor) else None
    case _ => None
  }

  /** `value as? Int`: succeeds exactly on integral numbers that fit in a Swift `Int`. */
  function AsInt(j: Json): (r: Option<int>)
    ensures r.Some? ==> j == FromInt(r.value) && InIntRange(r.value)
    ensures r.None? ==> forall i :: InIntRange(i) ==> j != FromInt(i)
  {
    var i := AsInteger(j);
    if i.Some? && InIntRange(i.value) then i else None
  }

  /** `dict[key]`: the value stored under `key`, or None when the key is absent. */
  function Field(o: map<string, Json>, key: string): (r: Option<Json>)
    ensures r.Some? <==> key in o
    ensures r.Some? ==> o[key] == r.value
  {
    if key in o then Some(o[key]) else None
  }

  /** Reading back an integer written as a JSON number gives the same integer. */
  lemma IntRoundTrip(i: int)
    ensures AsInteger(FromInt(i)) == Some(i)
    ensures InIntRange(i) ==> AsInt(FromInt(i)) == Some(i)
  {
    assert (i as real).Floor == i;
  }
}
