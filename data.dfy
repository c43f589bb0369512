/**
 * The JSON values the pipeline handles, the Python dictionary operations it uses on
 * them, and the Python exceptions the core can raise.
 */
module Data {

  /**
   * A decoded JSON value. Numbers are reals, so `1` and `1.0` compare equal as they
   * do in Python. Objects are maps from key to value.
   */
  datatype Value =
    | JNull
    | JBool(b: bool)
    | JNum(n: real)
    | JStr(s: string)
    | JArr(items: seq<Value>)
    | JObj(fields: map<string, Value>)

  /** A decoded JSON object: a region, a data center, a service or a metric record. */
  type Dict = map<string, Value>

  /** `d.get(key)`: the value under `key`, or None when the key is missing. */
  function Get(d: Dict, key: string): Value {
    if key in d then d[key] else JNull
  }

  /** Python truthiness: None, False, 0, "" and empty containers are falsy. */
  predicate Truthy(v: Value) {
    match v
    case JNull => false
    case JBool(b) => b
    case JNum(n) => n != 0.0
    case JStr(s) => s != ""
    case JArr(items) => items != []
    case JObj(fields) => fields != map[]
  }

  /** Lists and dicts cannot be dictionary keys in Python; every other JSON value can. */
  predicate Hashable(v: Value) {
    !v.JArr? && !v.JObj?
  }

  /** The exceptions the modelled core raises. */
  datatype Error =
    | KeyError(key: string)        // `g['geo_region_name']` on a record without that key
    | Unhashable(value: Value)     // TypeError: a list or dict used as a dictionary key
    | IndexError                   // `output_data[0]` on an empty list of rows
}
