/**
 * A request-body field whose JavaScript type the handlers test (`typeof`,
 * `Array.isArray`, `===`). Fields the handlers only read as strings are
 * modelled as strings, with "" for a missing one.
 */
module Request {

  /**
   * `Obj` is a plain object; only its `email` property is ever read, and "" stands
   * for a missing or falsy one. `List` is an array of strings.
   */
  datatype Value =
    | Missing
    | Null
    | Bool(b: bool)
    | Num(n: int)
    | Str(s: string)
    | List(items: seq<string>)
    | Obj(email: string)

  /** `typeof v === "object"`: objects, arrays, and `null`. */
  predicate IsObjectType(v: Value) {
    v.Null? || v.List? || v.Obj?
  }

  /** JavaScript truthiness. */
  predicate Truthy(v: Value) {
    match v
    case Missing => false
    case Null => false
    case Bool(b) => b
    case Num(n) => n != 0
    case Str(s) => s != ""
    case List(_) => true
    case Obj(_) => true
  }
}
