/** The Python values the authorization pipeline handles: `None`, and the
    JSON documents produced by `json.loads` (token headers, claims payloads,
    the key-set document). */
module PyValues {

  /** Python's optional value: `None` or a value. */
  datatype Option<+T> = None | Some(value: T)

  /** A decoded JSON value. Objects are Python dicts with string keys;
      `null` is Python's `None`. */
  datatype Json =
    | JNull
    | JBool(b: bool)
    | JNum(n: int)
    | JStr(s: string)
    | JArr(items: seq<Json>)
    | JObj(fields: map<string, Json>)

  /** A JSON object, the type of token headers, claims payloads and keys. */
  type Object = map<string, Json>

  /** `d.get(k)`: the member, or `None` (JSON null) when absent. */
  function Get(d: Object, k: string): Json
  {
    if k in d then d[k] else JNull
  }

  /** `d.get(k, default)`: the member, or `default` when absent. */
  function GetOr(d: Object, k: string, default: Json): Json
  {
    if k in d then d[k] else default
  }
}
