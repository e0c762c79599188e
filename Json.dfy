/**
 * The value `JSON.parse` returns, and the few JavaScript operations the
 * fetchers apply to it: truthiness, property access and object spread.
 * `JSON.parse` itself is not modelled; its result is an input.
 */
module Json {
  import opened Wrappers
  import opened Text

  datatype Json =
    | JNull
    | JBool(b: bool)
    | JNumber(n: real)
    | JString(s: string)
    | JArray(items: seq<Json>)
    | JObject(fields: map<string, Json>)

  /** A JavaScript object as a map from property names to values */
  type Object = map<string, Json>

  /** JavaScript truthiness of a parsed value (JSON has no NaN) */
  predicate Truthy(v: Json) {
    match v
    case JNull => false
    case JBool(b) => b
    case JNumber(n) => n != 0.0
    case JString(s) => s != []
    case JArray(_) => true
    case JObject(_) => true
  }

  /** Truthiness of `obj.key`, where a missing property reads as `undefined` */
  predicate TruthyMember(m: Option<Json>) {
    m.Some? && Truthy(m.value)
  }

  /**
   * `v.key` for a value that is not `null`: an own property of an object, and
   * `undefined` (None) on every other value for the keys read here.
   */
  function Member(v: Json, key: string): (r: Option<Json>)
    requires !v.JNull?
    ensures r.Some? <==> v.JObject? && key in v.fields
  {
    match v
    case JObject(fields) => if key in fields then Some(fields[key]) else None
    case _ => None
  }

  /** `a || b` on an optional property */
  function Or(m: Option<Json>, fallback: Json): (r: Json)
    ensures TruthyMember(m) ==> r == m.value
    ensures !TruthyMember(m) ==> r == fallback
  {
    if TruthyMember(m) then m.value else fallback
  }

  /**
   * `{...v}`: an object contributes its own properties, an array or a string
   * its indices (as decimal strings), and every other value nothing.
   */
  function Spread(v: Json): (r: Object)
    ensures v.JObject? ==> r == v.fields
    ensures v.JArray? ==> forall i :: 0 <= i < |v.items| ==> NatToString(i) in r && r[NatToString(i)] == v.items[i]
    ensures v.JString? ==> forall i :: 0 <= i < |v.s| ==> NatToString(i) in r && r[NatToString(i)] == JString([v.s[i]])
    ensures !v.JObject? && !v.JArray? && !v.JString? ==> r == map[]
  {
    match v
    case JObject(fields) => fields
    case JArray(items) => Indexed(items)
    case JString(s) => Indexed(seq(|s|, i requires 0 <= i < |s| => JString([s[i]])))
    case _ => map[]
  }

  /** The index properties of an array-like value: `"0"`, `"1"`, … to its elements */
  function Indexed(items: seq<Json>): (r: Object)
    ensures forall i :: 0 <= i < |items| ==> NatToString(i) in r && r[NatToString(i)] == items[i]
    ensures forall k :: k in r ==> AllIn(k, Digit) && DecimalValue(k) < |items| && k == NatToString(DecimalValue(k))
  {
    if items == [] then map[]
    else
      var n := |items| - 1;
      var init := Indexed(items[..n]);
      DecimalValueOfNatToString(n);
      init[NatToString(n) := items[n]]
  }

}
