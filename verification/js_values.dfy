/** A small model of the JavaScript values that reach the option handling of the server. */
module JsValues {

  /**
    The JavaScript values the server distinguishes. Numbers are modelled by their integer
    values only; `Func` is any value whose `typeof` is 'function' and `Obj` any other object.
   */
  datatype JsValue =
    | Undefined
    | Null
    | Bool(b: bool)
    | Num(n: int)
    | Str(s: string)
    | Func
    | Obj

  /** JavaScript truthiness: `undefined`, `null`, `false`, `0` and `''` are falsy. */
  predicate Truthy(v: JsValue) {
    match v
    case Undefined => false
    case Null => false
    case Bool(b) => b
    case Num(n) => n != 0
    case Str(s) => s != ""
    case Func => true
    case Obj => true
  }

  /** A plain object as its own enumerable properties. */
  type Object = map<string, JsValue>

  /** Property read `o.key`: an absent property reads as `undefined`. */
  function Get(o: Object, key: string): JsValue {
    if key in o then o[key] else Undefined
  }
}
