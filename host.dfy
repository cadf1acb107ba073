/**
 * The host (.NET) side as the repository sees it through reflection.
 *
 * A host value is a finite tree: an object value lists the public instance
 * methods and properties that reflection enumerates for its runtime type, in
 * enumeration order, and each property descriptor carries the value the
 * property holds at the moment it is read. Finiteness is an assumption of the
 * model: the repository itself has no guard against a property graph with a
 * cycle or an unbounded chain of values.
 */
module Host {

  /** What reflection reports about a declared (return or property) type. */
  datatype DeclaredType =
    | TypeDescriptor   // `System.Type`
    | PrimitiveType    // a type with `IsPrimitive`
    | StringType       // `System.String`
    | OtherType        // anything else (classes, structs, enums, void)

  datatype HostValue =
    | Null
      /** A boxed value whose runtime type has `IsPrimitive`. */
    | Prim(primitiveType: string, bits: int)
    | Str(text: string)
      /** Any other object: its runtime type name and its public instance members. */
    | Obj(typeName: string, methods: seq<MethodInfo>, properties: seq<PropertyInfo>)

  /** A reflected public instance method; overloads share a name and differ in parameters. */
  datatype MethodInfo = MethodInfo(
    name: string,
    isSpecialName: bool,
    parameterTypes: seq<string>,
    returnType: DeclaredType)

  /**
   * A reflected public instance property of one instance. `value` is what the
   * property of that instance holds when it is read during analysis; it is not
   * part of the reflected member, so the same property of two instances of one
   * type gives two different records (and two different descriptor accessors).
   */
  datatype PropertyInfo = PropertyInfo(
    name: string,
    isSpecialName: bool,
    propertyType: DeclaredType,
    value: HostValue)

  const StringTypeName: string := "System.String"

  /** `GetType()` of a non-null value, by name. */
  function TypeName(v: HostValue): string
    requires !v.Null?
  {
    match v
    case Prim(t, _) => t
    case Str(_) => StringTypeName
    case Obj(t, _, _) => t
  }

  /** Invoking a reflected method on a target with positional arguments (`MethodInfo.Invoke`). */
  type Invoker = (MethodInfo, HostValue, seq<HostValue>) -> HostValue

  /** Reading a reflected property of a target (`PropertyInfo.GetValue`). */
  type Getter = (PropertyInfo, HostValue) -> HostValue
}
