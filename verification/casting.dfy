/**
  Casting raw input to the decimal field's stored form (`SchemaBigDecimal.prototype.cast`)
  and the required check (`checkRequired`).
 */
module Casting {
  import opened Wrappers
  import opened JsValues
  import opened BigLib

  /** The kind name the field reports (`SchemaBigDecimal.schemaName`). */
  const SchemaName: string := "BigDecimal"

  /** The mapper's CastError: kind name, offending raw value and field path. */
  datatype CastError = CastError(kind: string, value: Value, path: string)

  /** A truthy string or number: the only inputs handed to the decimal constructor. */
  predicate Parsable(v: Value) {
    Truthy(v) && (v.Str? || v.Num?)
  }

  /** What a cast result is as a JavaScript value: `null` or a decimal instance. */
  function Stored(o: Option<real>): Value {
    match o
    case None => Null
    case Some(d) => Big(d)
  }

  /**
    `cast(value)`: `null` and `''` give `null`, a decimal comes back unchanged, a truthy
    string or number goes through the constructor, and everything else is a CastError.
   */
  function Cast(lib: Library, path: string, v: Value): (r: Result<Option<real>, CastError>)
    ensures r == Success(None) <==> v == Null || v == Str("")
    ensures v.Big? ==> r == Success(Some(v.d))
    ensures Parsable(v) ==> (r.Success? <==> Construct(lib, v).Some?)
    ensures Parsable(v) && r.Success? ==> r.value == Construct(lib, v)
    ensures r.Failure? <==> !(v == Null || v == Str("") || v.Big? || (Parsable(v) && Construct(lib, v).Some?))
    ensures r.Failure? ==> r.error == CastError(SchemaName, v, path)
  {
    if v == Null then Success(None)
    else if v == Str("") then Success(None)
    else if v.Big? then Success(Some(v.d))
    else if Parsable(v) then
      match Construct(lib, v)
      case Some(d) => Success(Some(d))
      case None => Failure(CastError(SchemaName, v, path))
    else Failure(CastError(SchemaName, v, path))
  }

  /** `checkRequired(value)`: the value is a non-null decimal instance. */
  function CheckRequired(v: Value): (r: bool)
    ensures r ==> v != Null && Truthy(v)
    ensures r <==> exists d :: v == Big(d)
  {
    v != Null && v.Big?
  }

  /** Inputs other than truthy strings and numbers never reach the parser: the library is irrelevant. */
  lemma CastOthersWithoutParsing(lib1: Library, lib2: Library, path: string, v: Value)
    requires !Parsable(v)
    ensures Cast(lib1, path, v) == Cast(lib2, path, v)
    ensures v != Null && v != Str("") && !v.Big? ==> Cast(lib1, path, v).Failure?
  {
  }

  /** The falsy inputs other than `null` and `''` fail: `0`, `NaN`, `undefined`, `false`. */
  lemma FalsyInputsFail(lib: Library, path: string, v: Value)
    requires !Truthy(v) && v != Null && v != Str("")
    ensures Cast(lib, path, v) == Failure(CastError(SchemaName, v, path))
  {
  }

  /** Concrete cases of the truthiness guard: zero, NaN and `undefined` are cast errors. */
  lemma ZeroIsACastError(lib: Library, path: string)
    ensures Cast(lib, path, Num(Finite(0.0))).Failure?
    ensures Cast(lib, path, Num(NaN)).Failure?
    ensures Cast(lib, path, Undefined).Failure?
    ensures Cast(lib, path, Bool(false)).Failure? && Cast(lib, path, Bool(true)).Failure?
  {
  }

  /** Casting the stored result again changes nothing: `null` stays `null`, a decimal is returned as is. */
  lemma CastIsIdempotent(lib: Library, path: string, v: Value, o: Option<real>)
    requires Cast(lib, path, v) == Success(o)
    ensures Cast(lib, path, Stored(o)) == Success(o)
  {
  }

  /** Every successful cast satisfies the required check exactly when it is non-null. */
  lemma CastSatisfiesCheckRequired(lib: Library, path: string, v: Value, o: Option<real>)
    requires Cast(lib, path, v) == Success(o)
    ensures CheckRequired(Stored(o)) <==> o.Some?
    ensures CheckRequired(Stored(o)) <==> v != Null && v != Str("")
  {
  }
}
