/**
 * The JavaScript values that props, styles and attributes carry. Functions
 * (event handlers) are identity tokens: two handlers are the same exactly when
 * their tokens are equal, as with JavaScript's reference equality.
 */
module Values {

  /** Identity of a handler function (an event listener or a command handler). */
  type Handler = nat

  datatype Value =
    | Null
    | Undefined
    | Bool(b: bool)
    | Num(n: int)
    | Str(s: string)
    | StrList(items: seq<string>)
    | Obj(entries: seq<(string, Value)>)
    | Func(handler: Handler)

  /** JavaScript truthiness of a value, as an `if (v)` test sees it. */
  predicate Truthy(v: Value)
  {
    match v
    case Null => false
    case Undefined => false
    case Bool(b) => b
    case Num(n) => n != 0
    case Str(s) => s != ""
    case _ => true
  }
}
