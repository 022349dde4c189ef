/** JavaScript values as the form view and the dropdown menu see them.

    Plain JavaScript objects (parameter bags, contexts, arch attributes) are
    modelled as `map<string, Value>`: reading a missing property gives
    `undefined`, and `'key' in obj` is map membership, so a key that is present
    with the value `undefined` is told apart from an absent one.
 */
module JsValues {

  datatype Option<+T> = None | Some(value: T)

  /** The JavaScript values the modelled code inspects. Numbers are integers
      here (no fractional values are ever produced by the modelled code);
      `NaN` is its own case. */
  datatype Value =
    | Undefined
    | Null
    | Bool(b: bool)
    | Num(n: int)
    | NaN
    | Str(s: string)
    | Arr(elems: seq<Value>)
    | Obj

  /** JavaScript truthiness: `false`, `0`, `NaN`, `""`, `null` and
      `undefined` are falsy; every other value is truthy. */
  predicate Truthy(v: Value) {
    match v
    case Bool(b) => b
    case Num(n) => n != 0
    case Str(s) => s != ""
    case Arr(_) => true
    case Obj => true
    case _ => false
  }

  /** `a || b`: the first operand when it is truthy, else the second. */
  function Or(a: Value, b: Value): Value {
    if Truthy(a) then a else b
  }

  /** Property read `obj.key`: `undefined` when the key is absent. */
  function Get(obj: map<string, Value>, key: string): Value {
    if key in obj then obj[key] else Undefined
  }
}
