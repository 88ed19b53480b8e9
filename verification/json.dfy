/** The decoded JSON document (`serde_json::Value`) and the accessors the
    connection channel uses on it. Text encoding and decoding are not modelled:
    a document is either already decoded or its decoding failed (see
    `Messages.Text`).
 */
module Json {
  import opened Wrappers

  /** A JSON value. An object maps each key to one value, as serde_json's
      `Map` does; numbers are kept as reals (serde_json numbers are finite
      integers or floats). */
  datatype Value =
    | Null
    | Bool(b: bool)
    | Number(n: real)
    | Str(s: string)
    | Array(items: seq<Value>)
    | Object(fields: map<string, Value>)

  /** `Value::as_object`. */
  function AsObject(v: Value): Option<map<string, Value>> {
    match v
    case Object(fields) => Some(fields)
    case _ => None
  }

  /** `Map::get`. */
  function Get(fields: map<string, Value>, key: string): Option<Value> {
    if key in fields then Some(fields[key]) else None
  }

  /** `Value::as_str`. */
  function AsStr(v: Value): Option<string> {
    match v
    case Str(s) => Some(s)
    case _ => None
  }

  /** True when `v` is an object whose field `key` holds a string. */
  predicate HasStringField(v: Value, key: string) {
    v.Object? && key in v.fields && v.fields[key].Str?
  }
}
