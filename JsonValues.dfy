/**
 * JSON values as `JSON.parse` produces them and `JSON.stringify` consumes
 * them, with the JavaScript property-access and truthiness rules the
 * message handlers rely on.
 */
module JsonValues {
  import opened Base

  datatype Json =
    | JNull
    | JBool(b: bool)
    | JNumber(n: real)
    | JString(s: string)
    | JArray(items: seq<Json>)
    | JObject(fields: map<string, Json>)

  /**
   * `value.key` on a parsed value that is not `null`: the property of an
   * object, `undefined` (None) for a missing key or any non-object.
   */
  function Property(value: Json, key: string): (r: Option<Json>)
    ensures r.Some? <==> value.JObject? && key in value.fields
    ensures r.Some? ==> r.value == value.fields[key]
  {
    if value.JObject? && key in value.fields then Some(value.fields[key]) else None
  }

  /** JavaScript truthiness of a parsed value (`undefined` is None). */
  predicate Truthy(value: Option<Json>)
  {
    match value
    case None => false
    case Some(JNull) => false
    case Some(JBool(b)) => b
    case Some(JNumber(n)) => n != 0.0
    case Some(JString(s)) => s != []
    case Some(_) => true
  }

  /** The string `type` of a message object, if it has one. */
  function TypeOf(value: Json): (r: Option<string>)
    ensures r.Some? ==> Property(value, "type") == Some(JString(r.value))
    ensures Property(value, "type").Some? && Property(value, "type").value.JString? ==> r.Some?
  {
    match Property(value, "type")
    case Some(JString(t)) => Some(t)
    case _ => None
  }
}
