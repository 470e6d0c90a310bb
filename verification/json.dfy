/**
 * A parsed JSON or YAML document as the Python code sees it after
 * `json.load` / `yaml.safe_load`: `None`, booleans, integers, strings,
 * lists and dicts with string keys. Dict key order is not modelled.
 */
module JsonValue {
  import opened Maybe
  import opened Text

  datatype Json =
    | JNull
    | JBool(b: bool)
    | JInt(i: int)
    | JStr(s: string)
    | JArr(items: seq<Json>)
    | JObj(fields: map<string, Json>)

  /** A Python dict with string keys. */
  type Object = map<string, Json>

  /** Python truthiness: `None`, `False`, `0` and empty strings, lists and
      dicts are false, everything else is true. */
  predicate Truthy(j: Json) {
    match j
    case JNull => false
    case JBool(b) => b
    case JInt(i) => i != 0
    case JStr(s) => s != []
    case JArr(items) => items != []
    case JObj(fields) => fields != map[]
  }

  /** `d.get(key, default)`. */
  function Get(d: Object, key: string, default: Json): Json {
    if key in d then d[key] else default
  }

  /** `str(v)`, also what an f-string inserts for `v`. A list or a dict would
      be rendered by Python's `repr`, which is not modelled: such values
      render as a fixed placeholder. */
  function PyStr(j: Json): string {
    match j
    case JNull => "None"
    case JBool(b) => if b then "True" else "False"
    case JInt(i) => IntToString(i)
    case JStr(s) => s
    case JArr(_) => "[...]"
    case JObj(_) => "{...}"
  }
}
