/**
  Casting query conditions (`castForQuery`): a fixed table maps each supported operator
  to a single-value or an array handler; the handler's result then has `valueOf()`
  called on it.
 */
module Query {
  import opened Wrappers
  import opened JsValues
  import opened BigLib
  import opened Casting

  datatype Handler = Single | ArrayCoerce

  /** `$conditionalHandlers`. */
  const ConditionalHandlers: map<string, Handler> := map[
    "$lt" := Single, "$lte" := Single, "$gt" := Single, "$gte" := Single, "$ne" := Single,
    "$in" := ArrayCoerce, "$nin" := ArrayCoerce, "$mod" := ArrayCoerce, "$all" := ArrayCoerce]

  /** The operators whose operand is one value, and those whose operand is a list. */
  const SingleOperators: set<string> := set op | op in ConditionalHandlers && ConditionalHandlers[op] == Single
  const ArrayOperators: set<string> := set op | op in ConditionalHandlers && ConditionalHandlers[op] == ArrayCoerce

  /** A handler's result: one cast value, or the list `handleArray` builds. */
  datatype Handled = One(o: Option<real>) | Many(os: seq<Option<real>>)

  /** What `castForQuery` returns: a JavaScript number, or an array of decimals (or nulls). */
  datatype QueryValue = Number(n: JsNumber) | Decimals(items: seq<Option<real>>) | NullValue

  datatype QueryError =
    | CastFailed(cause: CastError)
    | UnsupportedOperator(message: string)
    | NullDereference               // the TypeError of `null.valueOf()`

  /** The error message for an operator outside the table. */
  function UnsupportedMessage(op: string): string {
    "Can't use " + op + " with BigDecimal."
  }

  /** The elements `handleArray` casts: the array's items, or the lone scalar. */
  function Operands(v: Value): seq<Value> {
    if v.Array? then v.items else [v]
  }

  /**
    Every table entry is either a single-value or an array operator, and the table holds
    exactly `$lt $lte $gt $gte $ne` as single-value and `$in $nin $mod $all` as array operators.
   */
  lemma HandlerTable(op: string)
    ensures op in ConditionalHandlers <==> op in SingleOperators + ArrayOperators
    ensures op in ConditionalHandlers ==> (ConditionalHandlers[op] == Single <==> op in SingleOperators)
    ensures op in SingleOperators <==> op in {"$lt", "$lte", "$gt", "$gte", "$ne"}
    ensures op in ArrayOperators <==> op in {"$in", "$nin", "$mod", "$all"}
  {
  }

  /**
    `val.map(m => this.cast(m))`: every element cast in order; the first element that
    fails throws its CastError.
   */
  function CastAll(lib: Library, path: string, items: seq<Value>): (r: Result<seq<Option<real>>, CastError>)
    ensures r.Success? <==> forall i :: 0 <= i < |items| ==> Cast(lib, path, items[i]).Success?
    ensures r.Success? ==> |r.value| == |items|
    ensures r.Success? ==> forall i :: 0 <= i < |items| ==> Cast(lib, path, items[i]) == Success(r.value[i])
    ensures r.Failure? ==> exists k :: 0 <= k < |items| && Cast(lib, path, items[k]) == Failure(r.error)
                                        && forall j :: 0 <= j < k ==> Cast(lib, path, items[j]).Success?
  {
    if items == [] then Success([])
    else
      match Cast(lib, path, items[0])
      case Failure(e) => Failure(e)
      case Success(o) =>
        match CastAll(lib, path, items[1..])
        case Failure(e) =>
          assert forall j :: 1 <= j < |items| ==> items[j] == items[1..][j - 1];
          Failure(e)
        case Success(os) =>
          assert forall j :: 1 <= j < |items| ==> items[j] == items[1..][j - 1];
          Success([o] + os)
  }

  /** `handleSingle`. */
  function HandleSingle(lib: Library, path: string, v: Value): (r: Result<Handled, CastError>)
    ensures r.Success? ==> r.value.One? && Cast(lib, path, v) == Success(r.value.o)
    ensures r.Failure? ==> Cast(lib, path, v) == Failure(r.error)
  {
    match Cast(lib, path, v)
    case Success(o) => Success(One(o))
    case Failure(e) => Failure(e)
  }

  /** `handleArray`: a non-array operand is wrapped into a one-element list first. */
  function HandleArray(lib: Library, path: string, v: Value): (r: Result<Handled, CastError>)
    ensures r.Success? ==> r.value.Many? && |r.value.os| == |Operands(v)|
    ensures r.Success? ==> forall i :: 0 <= i < |Operands(v)| ==> Cast(lib, path, Operands(v)[i]) == Success(r.value.os[i])
    ensures r.Success? <==> forall i :: 0 <= i < |Operands(v)| ==> Cast(lib, path, Operands(v)[i]).Success?
    ensures r.Failure? ==> exists k :: 0 <= k < |Operands(v)| && Cast(lib, path, Operands(v)[k]) == Failure(r.error)
                                        && forall j :: 0 <= j < k ==> Cast(lib, path, Operands(v)[j]).Success?
  {
    if !v.Array? then
      assert Operands(v)[0] == v;
      match Cast(lib, path, v)
      case Success(o) => Success(Many([o]))
      case Failure(e) => Failure(e)
    else
      assert Operands(v) == v.items;
      match CastAll(lib, path, v.items)
      case Success(os) => Success(Many(os))
      case Failure(e) => Failure(e)
  }

  /**
    `.valueOf()` on a handler's result. A decimal becomes a number through the library;
    an array is returned as it is; `null` has no `valueOf` and throws.
   */
  function ValueOf(lib: Library, h: Handled): (r: Result<QueryValue, QueryError>)
    ensures r.Failure? <==> h == One(None)
    ensures r.Failure? ==> r.error == NullDereference
    ensures h.Many? ==> r == Success(Decimals(h.os))
    ensures h.One? && h.o.Some? ==> r == Success(Number(lib.valueOf(h.o.value)))
  {
    match h
    case One(None) => Failure(NullDereference)
    case One(Some(d)) => Success(Number(lib.valueOf(d)))
    case Many(os) => Success(Decimals(os))
  }

  function Dispatch(lib: Library, path: string, handler: Handler, v: Value): Result<Handled, CastError> {
    match handler
    case Single => HandleSingle(lib, path, v)
    case ArrayCoerce => HandleArray(lib, path, v)
  }

  /**
    `castForQuery($conditional, val)` when `op` is `Some`, `castForQuery(val)` when it is
    `None`, as written.
   */
  function CastForQuery(lib: Library, path: string, op: Option<string>, v: Value): (r: Result<QueryValue, QueryError>)
    ensures op.Some? && op.value !in SingleOperators + ArrayOperators ==>
              r == Failure(UnsupportedOperator(UnsupportedMessage(op.value)))
    ensures op.Some? && op.value in ArrayOperators ==>
              (r.Success? <==> forall i :: 0 <= i < |Operands(v)| ==> Cast(lib, path, Operands(v)[i]).Success?)
    ensures op.Some? && op.value in ArrayOperators && r.Success? ==>
              && r.value.Decimals?
              && |r.value.items| == (if v.Array? then |v.items| else 1)
              && forall i :: 0 <= i < |Operands(v)| ==> Cast(lib, path, Operands(v)[i]) == Success(r.value.items[i])
    ensures op.Some? && op.value in ArrayOperators && r.Failure? ==>
              && r.error.CastFailed?
              && exists k :: 0 <= k < |Operands(v)| && Cast(lib, path, Operands(v)[k]) == Failure(r.error.cause)
                             && forall j :: 0 <= j < k ==> Cast(lib, path, Operands(v)[j]).Success?
    ensures op.None? || (op.Some? && op.value in SingleOperators) ==>
              && (forall d :: Cast(lib, path, v) == Success(Some(d)) ==> r == Success(Number(lib.valueOf(d))))
              && (Cast(lib, path, v) == Success(None) ==> r == Failure(NullDereference))
              && (Cast(lib, path, v).Failure? ==> r == Failure(CastFailed(Cast(lib, path, v).error)))
  {
    match op
    case None =>
      (match Cast(lib, path, v)
       case Success(o) => ValueOf(lib, One(o))
       case Failure(e) => Failure(CastFailed(e)))
    case Some(c) =>
      HandlerTable(c);
      if c !in ConditionalHandlers then Failure(UnsupportedOperator(UnsupportedMessage(c)))
      else
        match Dispatch(lib, path, ConditionalHandlers[c], v)
        case Success(h) => ValueOf(lib, h)
        case Failure(e) => Failure(CastFailed(e))
  }

  /** `.valueOf()` as evidently intended: a `null` operand stays `null`. */
  function ValueOfNullSafe(lib: Library, h: Handled): Result<QueryValue, QueryError> {
    match h
    case One(None) => Success(NullValue)
    case One(Some(d)) => Success(Number(lib.valueOf(d)))
    case Many(os) => Success(Decimals(os))
  }

  /**
    `castForQuery` with the unwrap guarded against `null`: it fails only for an
    unsupported operator or a cast error, and otherwise agrees with `CastForQuery`.
   */
  function CastForQueryNullSafe(lib: Library, path: string, op: Option<string>, v: Value): (r: Result<QueryValue, QueryError>)
    ensures r.Failure? ==> r.error.CastFailed? || r.error.UnsupportedOperator?
    ensures op.Some? && op.value !in SingleOperators + ArrayOperators ==>
              r == Failure(UnsupportedOperator(UnsupportedMessage(op.value)))
    ensures CastForQuery(lib, path, op, v) != Failure(NullDereference) ==> r == CastForQuery(lib, path, op, v)
    ensures CastForQuery(lib, path, op, v) == Failure(NullDereference) ==> r == Success(NullValue)
  {
    match op
    case None =>
      (match Cast(lib, path, v)
       case Success(o) => ValueOfNullSafe(lib, One(o))
       case Failure(e) => Failure(CastFailed(e)))
    case Some(c) =>
      HandlerTable(c);
      if c !in ConditionalHandlers then Failure(UnsupportedOperator(UnsupportedMessage(c)))
      else
        match Dispatch(lib, path, ConditionalHandlers[c], v)
        case Success(h) => ValueOfNullSafe(lib, h)
        case Failure(e) => Failure(CastFailed(e))
  }

  /**
    As written, a single-value condition on `null` or `''` (for instance `{$ne: null}`)
    and the one-argument form on either throw a TypeError, though both operands cast
    without error; the null-safe version returns `null`.
   */
  lemma NullOperandThrows(lib: Library, path: string, v: Value)
    requires v == Null || v == Str("")
    ensures Cast(lib, path, v) == Success(None)
    ensures CastForQuery(lib, path, Some("$ne"), v) == Failure(NullDereference)
    ensures CastForQuery(lib, path, None, v) == Failure(NullDereference)
    ensures CastForQueryNullSafe(lib, path, Some("$ne"), v) == Success(NullValue)
    ensures CastForQueryNullSafe(lib, path, None, v) == Success(NullValue)
  {
    assert "$ne" in SingleOperators;
  }

  /**
    Array operators never throw the TypeError, since `valueOf` on an array is the array
    itself: an operand that casts to `null` stays `null` in the list.
   */
  lemma ArrayOperandsKeepNulls(lib: Library, path: string, op: string)
    requires op in ArrayOperators
    ensures forall v :: CastForQuery(lib, path, Some(op), v) != Failure(NullDereference)
    ensures forall v, i :: CastForQuery(lib, path, Some(op), v).Success? && 0 <= i < |Operands(v)|
                           && Cast(lib, path, Operands(v)[i]) == Success(None) ==>
                           CastForQuery(lib, path, Some(op), v).value.items[i] == None
    ensures CastForQuery(lib, path, Some(op), Null) == Success(Decimals([None]))
  {
    HandlerTable(op);
    assert Operands(Null) == [Null];
  }

}
