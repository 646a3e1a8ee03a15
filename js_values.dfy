/**
 * The slice of JavaScript values the connector handles: service responses,
 * thrown errors and query parameters. Numbers are integers here.
 */
module JsValues {
  datatype JsValue =
    | Undefined
    | Null
    | Bool(b: bool)
    | Number(n: int)
    | Str(s: string)
    | Arr(items: seq<JsValue>)
    | Obj(fields: map<string, JsValue>)

  /** The literal `{}`. */
  const EmptyObject: JsValue := Obj(map[])

  /** JavaScript truthiness: `undefined`, `null`, `false`, `0` and `""` are falsy. */
  predicate Truthy(v: JsValue)
  {
    match v
    case Undefined => false
    case Null => false
    case Bool(b) => b
    case Number(n) => n != 0
    case Str(s) => s != ""
    case Arr(_) => true
    case Obj(_) => true
  }

  /** `params == null` holds for both `null` and `undefined`; such parameters become `{}`. */
  function DefaultParams(params: JsValue): (r: JsValue)
    ensures r != Null && r != Undefined
    ensures params != Null && params != Undefined ==> r == params
    ensures params == Null || params == Undefined ==> r == EmptyObject
  {
    if params == Null || params == Undefined then EmptyObject else params
  }
}
