/**
  Attaching the field kind to the mapper's two registries (`mongoose.Schema.Types`
  and `mongoose.Types`) under the name `BigDecimal`, only where no truthy entry exists.
 */
module Registration {
  import opened Wrappers

  /** What a registry entry holds: this field kind or someone else's implementation. */
  datatype SchemaType = SchemaBigDecimal | OtherType(name: string)

  /** A registry; a key bound to `None` holds a falsy value such as `undefined`. */
  type Registry = map<string, Option<SchemaType>>

  const TypeName: string := "BigDecimal"

  /** `registry[name]` is truthy: the name is bound to an implementation. */
  predicate Occupied(reg: Registry, name: string)
    ensures Occupied(reg, name) <==> exists t :: name in reg && reg[name] == Some(t)
    ensures name !in reg ==> !Occupied(reg, name)
  {
    name in reg && reg[name].Some?
  }

  /** `if (!registry[name]) registry[name] = t`. */
  function AttachType(reg: Registry, name: string, t: SchemaType): (r: Registry)
    ensures r.Keys == reg.Keys + {name}
    ensures Occupied(r, name)
    ensures Occupied(reg, name) ==> r == reg
    ensures !Occupied(reg, name) ==> r[name] == Some(t)
    ensures forall k :: k in reg && k != name ==> r[k] == reg[k]
  {
    if Occupied(reg, name) then reg else reg[name := Some(t)]
  }

  /** Module initialisation: both registries get the field kind unless they already hold one. */
  function Attach(schemaTypes: Registry, types: Registry): (r: (Registry, Registry))
    ensures Occupied(r.0, TypeName) && Occupied(r.1, TypeName)
    ensures Occupied(schemaTypes, TypeName) ==> r.0 == schemaTypes
    ensures Occupied(types, TypeName) ==> r.1 == types
    ensures !Occupied(schemaTypes, TypeName) ==> r.0[TypeName] == Some(SchemaBigDecimal)
    ensures !Occupied(types, TypeName) ==> r.1[TypeName] == Some(SchemaBigDecimal)
    ensures forall k :: k in schemaTypes && k != TypeName ==> k in r.0 && r.0[k] == schemaTypes[k]
    ensures forall k :: k in types && k != TypeName ==> k in r.1 && r.1[k] == types[k]
    ensures r.0.Keys == schemaTypes.Keys + {TypeName} && r.1.Keys == types.Keys + {TypeName}
  {
    (AttachType(schemaTypes, TypeName, SchemaBigDecimal), AttachType(types, TypeName, SchemaBigDecimal))
  }

  /** Loading the module twice is the same as loading it once. */
  lemma AttachIsIdempotent(schemaTypes: Registry, types: Registry)
    ensures var once := Attach(schemaTypes, types);
      Attach(once.0, once.1) == once
  {
  }

  /** An existing implementation, possibly customised, is never replaced. */
  lemma AttachNeverOverwrites(reg: Registry, name: string, t: SchemaType, other: SchemaType)
    requires name in reg && reg[name] == Some(other)
    ensures AttachType(reg, name, t) == reg
    ensures AttachType(reg, name, t)[name] == Some(other)
  {
  }
}
