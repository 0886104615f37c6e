/** Values that reach the routers from JSON request bodies, decoded JWT
    payloads and the Flask config, with the two Python behaviours the code
    depends on: truthiness (`x or default`) and `int(x)`. */
module Json {
  import opened Wrappers
  import opened Text

  datatype JsonValue =
    | JNull                  // JSON null, and a key that `dict.get` does not find
    | JBool(b: bool)
    | JInt(i: int)
    | JStr(s: string)
    | JCompound(nonEmpty: bool)   // a JSON array or object

  /** Python truthiness of a decoded value. */
  predicate Truthy(v: JsonValue)
  {
    match v
    case JNull => false
    case JBool(b) => b
    case JInt(i) => i != 0
    case JStr(s) => s != ""
    case JCompound(nonEmpty) => nonEmpty
  }

  /** Python's `int(v)`; `None` stands for the `TypeError` or `ValueError` it raises. */
  function PyInt(v: JsonValue): Option<int>
  {
    match v
    case JNull => None
    case JBool(b) => Some(if b then 1 else 0)
    case JInt(i) => Some(i)
    case JStr(s) => ParseInt(s)
    case JCompound(_) => None
  }

  /** What `request.get_json(silent=True)` yields: nothing (no or unparsable
      JSON, or a top-level null), an object, or another top-level value. */
  datatype Body = NoJson | Object(fields: map<string, JsonValue>) | NonObject(value: JsonValue)

  /** `(request.get_json(silent=True) or {}).get(key)`. A falsy body becomes `{}`;
      a truthy body that is not an object has no `.get` (`None`: AttributeError);
      a missing key reads as `JNull`. */
  function BodyGet(body: Body, key: string): Option<JsonValue>
  {
    match body
    case NoJson => Some(JNull)
    case Object(f) => Some(if key in f then f[key] else JNull)
    case NonObject(v) => if Truthy(v) then None else Some(JNull)
  }
}
