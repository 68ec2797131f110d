/**
 * Java objects as the registry and shared-property code sees them: a value
 * with a runtime class. A null reference is Option's None where one can occur.
 */
module JavaValues {
  /** The runtime class of a value, as `getClass()` reports it. */
  datatype JavaClass =
    | BooleanClass
    | IntegerClass
    | StringClass
    | EnumClass(enumName: string)
    | OtherClass(className: string)

  /** A non-null object: boxed primitives, strings, enum constants, or an instance known by its identity. */
  datatype Value =
    | Boolean(b: bool)
    | Integer(i: int)
    | Str(s: string)
    | EnumConstant(enumName: string, constant: string)
    | Instance(className: string, identity: nat)

  /** getClass(): only a Boolean has the Boolean class, and so on for each kind. */
  function ClassOf(v: Value): (c: JavaClass)
    ensures c == BooleanClass <==> v.Boolean?
    ensures c == IntegerClass <==> v.Integer?
    ensures c == StringClass <==> v.Str?
  {
    match v
    case Boolean(_) => BooleanClass
    case Integer(_) => IntegerClass
    case Str(_) => StringClass
    case EnumConstant(e, _) => EnumClass(e)
    case Instance(n, _) => OtherClass(n)
  }
}
