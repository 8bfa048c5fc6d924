/**
 * Descriptor table standing in for runtime reflection: classes, types, fields and
 * constructor parameters, with the injection markers (@Autowired, @Value) that the
 * annotation lookup would find on them.
 */
module Reflection {
  import opened Wrappers

  /** A Java class, compared by identity; identity is its fully qualified name. */
  datatype BeanClass = BeanClass(name: string)

  /** A possibly generic type (TypeInfo): its raw class and its type arguments. */
  datatype TypeDescriptor = TypeDescriptor(rawClass: BeanClass, typeArguments: seq<TypeDescriptor>)

  /** An opaque object reference: a bean, or a converted configuration value. */
  datatype Object = Object(identity: nat)

  datatype AccessModifier = Public | Protected | PackagePrivate | Private

  /** An @Autowired marker; `realName` is the annotation value after
      AnnotationValues.getRealValue, absent when no bean name was given. */
  datatype AutowiredMark = AutowiredMark(realName: Option<string>)

  /** A @Value marker naming a configuration key. */
  datatype ValueMark = ValueMark(key: string)

  /** A field of a class (FieldInfo). The declaring class keeps an inherited field
      apart from a field of the same name declared further down the hierarchy. */
  datatype FieldInfo = FieldInfo(
    declaringClass: BeanClass,
    name: string,
    access: AccessModifier,
    isFinal: bool,
    fieldType: TypeDescriptor,     // fieldType()
    autowired: Option<AutowiredMark>,
    value: Option<ValueMark>)
  {
    /** rawField().getType(): the erasure of the declared type. */
    function RawType(): BeanClass {
      fieldType.rawClass
    }
  }

  /** A constructor parameter (ParameterInfo). */
  datatype ParameterInfo = ParameterInfo(
    name: string,
    parameterType: TypeDescriptor, // parameterType()
    autowired: Option<AutowiredMark>,
    value: Option<ValueMark>)
  {
    /** rawParameter().getType(): the erasure of the declared type. */
    function RawType(): BeanClass {
      parameterType.rawClass
    }
  }

  /** A constructor (ConstructorInfo): its declaring class and its parameters. */
  datatype ConstructorInfo = ConstructorInfo(declaringClass: BeanClass, parameters: seq<ParameterInfo>)

  /** What ScxReflect.typeOf yields: a ClassInfo listing all fields (declared and
      inherited), or some other kind of type that has no field list. */
  datatype TypeInfo = ClassInfo(allFields: seq<FieldInfo>) | OtherTypeInfo
}
