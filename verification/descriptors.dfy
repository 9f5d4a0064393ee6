/** Declarative descriptions of the Go types, struct fields and values that
    the bring-up engine inspects by reflection, and the live component
    objects whose fields it writes. */
module Descriptors {
  import opened Base
  import Strconv

  /** Identity of a Go type: two descriptors with the same id are the same type. */
  type TypeId = nat

  /** The reflect.Kind values the resolver distinguishes. Sized integer
      kinds carry their bit size (reflect's Type.Bits). */
  datatype Kind =
    | StringKind
    | IntKind(bits: Strconv.BitSize)
    | UintKind(bits: Strconv.BitSize)
    | BoolKind
    | FloatKind(floatBits: nat)
    | StructKind
    | InterfaceKind
    | OtherKind

  /** A Go type as reflect reports it: identity, package path (empty for
      predeclared and unnamed types), name (empty for unnamed types), kind. */
  datatype GoType = GoType(id: TypeId, pkgPath: string, name: string, kind: Kind)

  /** The declared type of a struct field: a base type, possibly behind one
      level of pointer. */
  datatype FieldType = FieldType(isPointer: bool, base: GoType)

  /** A struct field with the struct tags the resolver reads: `value:"…"`,
      `name:"…"` and the presence of `wire`. */
  datatype Field = Field(
    name: string,
    ty: FieldType,
    valueTag: Option<string>,
    nameTag: Option<string>,
    wireTag: bool)

  /** A value in the value store: a plain Go string, or a value of some
      other (non-string) type, whose payload the model does not interpret. */
  datatype Val = StrVal(s: string) | TypedVal(ty: GoType, payload: int)

  /** Contents of one field of a live struct. */
  datatype FieldVal =
    | Zero                                  // the zero value it was created with
    | StrV(s: string)
    | IntV(i: int)
    | UintV(u: nat)
    | BoolV(b: bool)
    | FloatV(x: real)
    | ConvertedV(v: Val, to: FieldType)     // reflect's Convert of a non-string value
    | RefV(obj: Obj)                        // a pointer to another component
    | CopyV(contents: seq<FieldVal>)        // a copy of another component's struct value

  /** A live struct, identified by its address (the pointer that was
      registered). Its type and field layout never change; its field
      contents live in the engine's object memory, where the resolver writes
      them in place, so every holder of the pointer sees the writes. */
  datatype Obj = Obj(addr: nat, ty: GoType, layout: seq<Field>)

  /** What registration receives: a pointer to a struct together with the
      struct's field contents at that moment, or a value that is not a
      pointer (which registration rejects). */
  datatype Instance = Pointer(obj: Obj, init: seq<FieldVal>) | NonPointer(ty: GoType)

  /** Answers of the Go type system and runtime that the model takes as
      given rather than defines, as finite tables: interface satisfaction
      (reflect's Type.Implements, as pairs of a concrete type and an
      interface), convertibility (Type.ConvertibleTo), the spellings
      strconv.ParseFloat accepts at each bit size with their values, and
      the types whose pointers have an Init or an InitLast method. */
  datatype Universe = Universe(
    implements: set<(GoType, GoType)>,
    convertible: set<(GoType, FieldType)>,
    floats: map<(string, nat), real>,
    withInit: set<GoType>,
    withInitLast: set<GoType>)
}
