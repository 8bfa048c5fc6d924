/**
 * The dependency resolvers (BeanDependencyResolver and its two implementations):
 * which factory lookup an @Autowired parameter or field leads to, and how a @Value
 * key is read from the configuration map and converted.
 */
module Resolvers {
  import opened Wrappers
  import opened Reflection
  import opened BeanResolution
  import opened Exceptions

  /** What a resolver hands back: a value, `None` for Java null, or an exception. */
  type Answer = Result<Option<Object>, BeanError>

  /** The two BeanFactory.getBean lookups: by bean name and type, or by type alone. */
  datatype Lookup = ByName(name: string, beanType: BeanClass) | ByType(beanType: BeanClass)

  /** BeanFactory.getBean, given the lookup and the resolution context's chain at the
      moment of the call (the factory may recurse into further bean requests). */
  type BeanLookup = (Lookup, Chain) -> Answer

  /** ScxObject.convertValue: a raw configuration value converted to a target type. */
  type Converter = (Object, TypeDescriptor) -> Answer

  /** The resolver variants, each with the collaborators it was built with. */
  datatype Resolver =
    | AutowiredResolver(factory: BeanLookup)
    | ValueResolver(values: map<string, Object>, convert: Converter)

  /*
   * AutowiredAnnotationDependencyResolver.
   */

  /** The lookup for a constructor parameter: by the @Autowired bean name when there is
      one, otherwise by the parameter's declared type, marker or not. */
  function ConstructorArgumentLookup(parameter: ParameterInfo): (l: Lookup)
    ensures l.beanType == parameter.RawType()
    ensures l.ByName? <==> parameter.autowired.Some? && parameter.autowired.value.realName.Some?
    ensures l.ByName? ==> l.name == parameter.autowired.value.realName.value
  {
    var name := if parameter.autowired.None? then None else parameter.autowired.value.realName;
    match name
    case Some(n) => ByName(n, parameter.RawType())
    case None => ByType(parameter.RawType())
  }

  /** The lookup for a field: none without @Autowired, otherwise by the bean name when
      the marker gives one, else by the field's declared type. */
  function FieldLookup(field: FieldInfo): (l: Option<Lookup>)
    ensures l.None? <==> field.autowired.None?
    ensures l.Some? ==> l.value.beanType == field.RawType()
    ensures l.Some? ==> (l.value.ByName? <==> field.autowired.value.realName.Some?)
    ensures l.Some? && l.value.ByName? ==> l.value.name == field.autowired.value.realName.value
  {
    match field.autowired
    case None => None
    case Some(mark) =>
      match mark.realName
      case Some(n) => Some(ByName(n, field.RawType()))
      case None => Some(ByType(field.RawType()))
  }

  /** The constructor rule is the field rule with "no marker" read as "no name": the
      two agree whenever the marker is present, and an unmarked parameter is still
      looked up by type where an unmarked field is skipped. */
  lemma ConstructorRuleExtendsFieldRule(parameter: ParameterInfo, field: FieldInfo)
    requires parameter.autowired == field.autowired && parameter.RawType() == field.RawType()
    ensures field.autowired.Some? ==> FieldLookup(field) == Some(ConstructorArgumentLookup(parameter))
    ensures field.autowired.None? ==> FieldLookup(field).None? && ConstructorArgumentLookup(parameter) == ByType(parameter.RawType())
  {
  }

  /*
   * ValueAnnotationDependencyResolver.
   */

  /** resolveValue: null without @Value; MissingValueException when the key has no
      value (a key mapped to null reads the same as an absent key); otherwise the
      converted value. The map is only read. */
  function ResolveValue(values: map<string, Object>, convert: Converter, mark: Option<ValueMark>, target: TypeDescriptor): (r: Answer)
    ensures mark.None? ==> r == Ok(None)
    ensures mark.Some? && mark.value.key !in values ==> r == Err(MissingValue(mark.value.key))
    ensures mark.Some? && mark.value.key in values ==> r == convert(values[mark.value.key], target)
  {
    match mark
    case None => Ok(None)
    case Some(m) =>
      if m.key !in values then Err(MissingValue(m.key))
      else convert(values[m.key], target)
  }

  /*
   * Dispatch over the variants (the two BeanDependencyResolver methods).
   */

  /** resolveConstructorArgument: the @Autowired resolver always asks the factory, with
      the context passed through unchanged; the @Value resolver targets the
      parameter's declared type. */
  function ResolveConstructorArgument(resolver: Resolver, parameter: ParameterInfo, chain: Chain): (r: Answer)
    ensures resolver.AutowiredResolver? ==> r == resolver.factory(ConstructorArgumentLookup(parameter), chain)
    ensures resolver.ValueResolver? ==>
      r == ResolveValue(resolver.values, resolver.convert, parameter.value, parameter.parameterType)
  {
    match resolver
    case AutowiredResolver(factory) => factory(ConstructorArgumentLookup(parameter), chain)
    case ValueResolver(values, convert) => ResolveValue(values, convert, parameter.value, parameter.parameterType)
  }

  /** resolveFieldValue: the @Autowired resolver returns null without consulting the
      factory when the field has no marker, and otherwise exactly the factory's
      answer; the @Value resolver targets the field's declared type. */
  function ResolveFieldValue(resolver: Resolver, field: FieldInfo, chain: Chain): (r: Answer)
    ensures resolver.AutowiredResolver? && field.autowired.None? ==> r == Ok(None)
    ensures resolver.AutowiredResolver? && field.autowired.Some? ==> r == resolver.factory(FieldLookup(field).value, chain)
    ensures resolver.ValueResolver? ==> r == ResolveValue(resolver.values, resolver.convert, field.value, field.fieldType)
  {
    match resolver
    case AutowiredResolver(factory) =>
      (match FieldLookup(field)
       case None => Ok(None)
       case Some(lookup) => factory(lookup, chain))
    case ValueResolver(values, convert) => ResolveValue(values, convert, field.value, field.fieldType)
  }

  /** A field carrying neither marker gets null from every resolver. */
  lemma UnmarkedFieldGetsNull(resolver: Resolver, field: FieldInfo, chain: Chain)
    requires field.autowired.None? && field.value.None?
    ensures ResolveFieldValue(resolver, field, chain) == Ok(None)
  {
  }
}
