/**
 * Dynamic values crossing the HTTP boundary: the JSON body Flask parses for
 * `/predict` and the objects the React components receive from the client.
 * One datatype serves both languages; what differs is truthiness.
 */
module Values {

  /** A JSON / JavaScript value. Numbers are reals (no NaN, no infinities). */
  datatype Value =
    | Undefined
    | Null
    | Bool(b: bool)
    | Num(n: real)
    | Str(s: string)
    | Arr(items: seq<Value>)
    | Obj(fields: map<string, Value>)

  /** Python truthiness of the value `json.loads` produced (None for null). */
  predicate PyTruthy(v: Value) {
    match v
    case Undefined => false
    case Null => false
    case Bool(b) => b
    case Num(n) => n != 0.0
    case Str(s) => s != []
    case Arr(items) => items != []
    case Obj(fields) => fields != map[]
  }

  /** JavaScript truthiness: every array and object is truthy. */
  predicate JsTruthy(v: Value) {
    match v
    case Undefined => false
    case Null => false
    case Bool(b) => b
    case Num(n) => n != 0.0
    case Str(s) => s != []
    case Arr(_) => true
    case Obj(_) => true
  }

  /** JavaScript `v?.[key]` on a value: a field of an object, otherwise undefined. */
  function Get(v: Value, key: string): (r: Value)
    ensures !v.Obj? ==> r == Undefined
    ensures v.Obj? && key !in v.fields ==> r == Undefined
  {
    if v.Obj? && key in v.fields then v.fields[key] else Undefined
  }

  /** Python `dict.get(key)` on an object, with `None` for a missing key. */
  function PyGet(fields: map<string, Value>, key: string): (r: Value)
    ensures key !in fields ==> r == Null
  {
    if key in fields then fields[key] else Null
  }
}
