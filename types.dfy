/** The type descriptors the checker passes around: the parser's
    `BasicTypeTree`, the five `PrimitiveType` constants, `NullsafeType`,
    `ArrayType` and the checker's private `NullableType`. All of them answer
    the `TypeTree` questions `name()`, `isNullable()`, `getGenerics()` and
    `getLocation()`. */
module Types {
  import opened Wrappers
  import opened Diags

  /** The five `PrimitiveType` constants. */
  datatype Prim = NULL | INTEGER | FLOAT | BOOL | STRING

  datatype Ty =
    | /** `Trees.BasicTypeTree`, as written in the program. */
      Basic(name: string, nullable: bool, generics: seq<Ty>, loc: Loc)
    | /** One of the `PrimitiveType` constants; told apart from a user-written
          type of the same name by the constructor, as Java tells them apart
          by identity. */
      Primitive(prim: Prim)
    | /** `NullsafeType(type)`. */
      Nullsafe(inner: Ty)
    | /** `ArrayType(generic)`; the element type may be Java `null`. */
      ArrayOf(elem: Option<Ty>)
    | /** `TypeChecker.NullableType(type)`. */
      NullableOf(inner: Ty)

  const VoidType: Ty := Primitive(NULL)
  const IntType: Ty := Primitive(INTEGER)
  const FloatType: Ty := Primitive(FLOAT)
  const BoolType: Ty := Primitive(BOOL)
  const StrType: Ty := Primitive(STRING)

  function PrimName(p: Prim): string {
    match p
    case NULL => "void"
    case INTEGER => "int"
    case FLOAT => "float"
    case BOOL => "bool"
    case STRING => "str"
  }

  /** `TypeTree.name()` */
  function Name(t: Ty): string {
    match t
    case Basic(n, _, _, _) => n
    case Primitive(p) => PrimName(p)
    case Nullsafe(inner) => Name(inner)
    case ArrayOf(_) => "arr"
    case NullableOf(inner) => Name(inner)
  }

  /** `TypeTree.isNullable()` */
  function IsNullable(t: Ty): bool {
    match t
    case Basic(_, nullable, _, _) => nullable
    case Primitive(_) => false
    case Nullsafe(_) => false
    case ArrayOf(_) => false
    case NullableOf(_) => true
  }

  /** `TypeTree.getGenerics()`. `List.of(generic)` throws when the array's
      element type is `null`. */
  function Generics(t: Ty): (r: Result<seq<Ty>>)
    ensures r.Ok? ==> forall g :: g in r.value ==> g < t
  {
    match t
    case Basic(_, _, gs, _) => Ok(gs)
    case Primitive(_) => Ok([])
    case Nullsafe(inner) => Generics(inner)
    case ArrayOf(e) =>
      if e.Some? then Ok([e.value]) else Fail(Thrown("NullPointerException"))
    case NullableOf(inner) => Generics(inner)
  }

  /** `TypeTree.getLocation()`; an array of `null` throws. */
  function Location(t: Ty): Result<Loc> {
    match t
    case Basic(_, _, _, loc) => Ok(loc)
    case Primitive(_) => Ok(NoLoc)
    case Nullsafe(inner) => Location(inner)
    case ArrayOf(e) =>
      if e.Some? then Location(e.value) else Fail(Thrown("NullPointerException"))
    case NullableOf(inner) => Location(inner)
  }

  /** The primitive constants: their names, never nullable, no generics and
      no location. */
  lemma PrimitiveConstants(p: Prim)
    ensures Name(Primitive(p)) in ["void", "int", "float", "bool", "str"]
    ensures !IsNullable(Primitive(p))
    ensures Generics(Primitive(p)) == Ok([]) && Location(Primitive(p)) == Ok(NoLoc)
    ensures Name(Primitive(p)) == "void" <==> p == NULL
  {
  }

  /** `NullsafeType` delegates everything to the wrapped type except
      nullability, which it always denies. */
  lemma NullsafeDelegates(t: Ty)
    ensures Name(Nullsafe(t)) == Name(t) && !IsNullable(Nullsafe(t))
    ensures Generics(Nullsafe(t)) == Generics(t) && Location(Nullsafe(t)) == Location(t)
  {
  }

  /** `NullableType` delegates everything except nullability, which it always
      claims; wrapping a nullsafe view back keeps the name and generics. */
  lemma NullableDelegates(t: Ty)
    ensures Name(NullableOf(t)) == Name(t) && IsNullable(NullableOf(t))
    ensures Generics(NullableOf(t)) == Generics(t)
    ensures Name(NullableOf(Nullsafe(t))) == Name(t) && Generics(NullableOf(Nullsafe(t))) == Generics(t)
  {
  }

  /** `ArrayType` is named "arr", never nullable, and its generics are exactly
      the element type (or an exception when there is none). */
  lemma ArrayShape(e: Option<Ty>)
    ensures Name(ArrayOf(e)) == "arr" && !IsNullable(ArrayOf(e))
    ensures e.Some? ==> Generics(ArrayOf(e)) == Ok([e.value]) && Location(ArrayOf(e)) == Location(e.value)
    ensures e.None? <==> Generics(ArrayOf(e)).Fail?
  {
  }
}
