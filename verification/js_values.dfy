/** The JavaScript values a schema field can be handed. */
module JsValues {

  /** A JavaScript number; `Finite(0.0)` covers both `0` and `-0`. */
  datatype JsNumber = Finite(v: real) | NaN | Infinity(negative: bool)

  datatype Value =
    | Null
    | Undefined
    | Bool(b: bool)
    | Num(n: JsNumber)
    | Str(s: string)
    | Big(d: real)              // an instance of the decimal library's class
    | Array(items: seq<Value>)
    | Object                    // any other object: plain objects, dates, functions, ...

  /** JavaScript truthiness: `null`, `undefined`, `false`, `0`, `NaN` and `''` are falsy. */
  predicate Truthy(v: Value)
    ensures !Truthy(v) <==> v in {Null, Undefined, Bool(false), Num(Finite(0.0)), Num(NaN), Str("")}
  {
    match v
    case Null | Undefined => false
    case Bool(b) => b
    case Num(n) => n.Infinity? || (n.Finite? && n.v != 0.0)
    case Str(s) => s != ""
    case Big(_) | Array(_) | Object => true
  }
}
