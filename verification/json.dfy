/**
  The JSON values the service reads from request bodies and writes into
  responses, in the shape Python's `json` module gives them: `null`, booleans,
  numbers, strings, lists and objects (dicts).
 */
module Json {

  datatype Value =
    | Null
    | Bool(b: bool)
    | Num(n: int)
    | Str(s: string)
    | Arr(items: seq<Value>)
    | Obj(fields: map<string, Value>)

  /** `fields.get(key)`: the value under `key`, or null when the key is absent. */
  function Get(fields: map<string, Value>, key: string): (v: Value)
    ensures key in fields ==> v == fields[key]
    ensures v != Null ==> key in fields
  {
    if key in fields then fields[key] else Null
  }
}
