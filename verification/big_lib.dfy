/**
  The decimal library (big.js) as the field kind uses it. Its parsing grammar,
  string form and number conversion are not modelled: they are the fields of a
  `Library` record, so every result below holds for every library behaviour.
  Comparison of decimals is exact comparison of `real`s.
 */
module BigLib {
  import opened Wrappers
  import opened JsValues

  datatype Library = Library(
    parse: string -> Option<real>,        // `new Big(s)`; `None` when the constructor throws
    numberToString: JsNumber -> string,   // `String(n)`, applied by the constructor to a number
    toString: real -> string,             // `Big.prototype.toString`
    valueOf: real -> JsNumber)            // the overridden `valueOf`: `Number(big.toString())`

  /** `new Big(v)` for a string or a number; `None` where the constructor throws. */
  function Construct(lib: Library, v: Value): (r: Option<real>)
    ensures r.Some? ==> v.Str? || v.Num?
    ensures v.Str? ==> r == lib.parse(v.s)
  {
    match v
    case Str(s) => lib.parse(s)
    case Num(n) => lib.parse(lib.numberToString(n))
    case _ => None
  }

  /** A number is constructed exactly as its `String(n)` form would be. */
  lemma NumberConstructedViaString(lib: Library, n: JsNumber)
    ensures Construct(lib, Num(n)) == Construct(lib, Str(lib.numberToString(n)))
  {
  }
}
