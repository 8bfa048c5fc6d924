/**
 * InjectingBeanProvider: a provider that writes resolved values into the public,
 * non-final fields of the bean its underlying provider produces, pushes one
 * Field edge per such field on the resolution context, and keeps a singleton's
 * injection status (NULL, INJECTING, READY) so that a half-injected singleton can
 * be handed out early exactly when the chain is non-empty and its class either does
 * not occur on the chain or closes a solvable cycle there.
 */
module Provider {
  import opened Wrappers
  import opened Reflection
  import opened BeanResolution
  import opened Exceptions
  import R = Resolvers

  /** BeanStatus: injection not started, in progress, complete. */
  datatype BeanStatus = Null | Injecting | Ready

  function Rank(s: BeanStatus): nat {
    match s
    case Null => 0
    case Injecting => 1
    case Ready => 2
  }

  /** The status only moves forward: never back to Null, never out of Ready. */
  predicate Advances(before: BeanStatus, after: BeanStatus) {
    Rank(before) <= Rank(after)
  }

  /** A bean instance: the values held by its fields. */
  class Bean {
    var fields: map<FieldInfo, Object>
  }

  /*
   * resolveFieldValue: the first non-null answer of the resolvers, in order.
   */

  /** The answer of the first resolver that throws or returns non-null; null when all
      return null. Later resolvers are not consulted. */
  function FirstNonNull(resolvers: seq<R.Resolver>, field: FieldInfo, chain: Chain): R.Answer
    decreases |resolvers|
  {
    if resolvers == [] then Ok(None)
    else
      var answer := R.ResolveFieldValue(resolvers[0], field, chain);
      if answer.Err? || answer.value.Some? then answer
      else FirstNonNull(resolvers[1..], field, chain)
  }

  method ResolveFieldValue(resolvers: seq<R.Resolver>, field: FieldInfo, chain: Chain) returns (r: R.Answer)
    ensures r == FirstNonNull(resolvers, field, chain)
  {
    for i := 0 to |resolvers|
      invariant FirstNonNull(resolvers[i..], field, chain) == FirstNonNull(resolvers, field, chain)
    {
      assert resolvers[i..][0] == resolvers[i] && resolvers[i..][1..] == resolvers[i + 1..];
      var value := R.ResolveFieldValue(resolvers[i], field, chain);
      if value.Err? || value.value.Some? {
        return value;
      }
    }
    return Ok(None);
  }

  /** The answer is the first resolver's answer that is not null, and every resolver
      before it returned null. */
  lemma {:induction false} FirstNonNullIsFirstAnswer(resolvers: seq<R.Resolver>, field: FieldInfo, chain: Chain, i: nat)
    requires i < |resolvers|
    requires forall j | 0 <= j < i :: R.ResolveFieldValue(resolvers[j], field, chain) == Ok(None)
    requires R.ResolveFieldValue(resolvers[i], field, chain) != Ok(None)
    ensures FirstNonNull(resolvers, field, chain) == R.ResolveFieldValue(resolvers[i], field, chain)
    ensures FirstNonNull(resolvers, field, chain) == FirstNonNull(resolvers[..i + 1], field, chain)
    decreases i
  {
    if i > 0 {
      FirstNonNullIsFirstAnswer(resolvers[1..], field, chain, i - 1);
      assert resolvers[..i + 1][1..] == resolvers[1..][..i];
    }
  }

  /** Null comes back exactly when every resolver returns null. */
  lemma {:induction false} FirstNonNullIsNullIff(resolvers: seq<R.Resolver>, field: FieldInfo, chain: Chain)
    ensures FirstNonNull(resolvers, field, chain) == Ok(None) <==>
      forall j | 0 <= j < |resolvers| :: R.ResolveFieldValue(resolvers[j], field, chain) == Ok(None)
    decreases |resolvers|
  {
    if resolvers != [] {
      FirstNonNullIsNullIff(resolvers[1..], field, chain);
      assert forall j | 1 <= j < |resolvers| :: resolvers[1..][j - 1] == resolvers[j];
    }
  }

  /** A field with neither marker is left null by any resolver list. */
  lemma UnmarkedFieldIsNeverResolved(resolvers: seq<R.Resolver>, field: FieldInfo, chain: Chain)
    requires field.autowired.None? && field.value.None?
    ensures FirstNonNull(resolvers, field, chain) == Ok(None)
  {
    forall j | 0 <= j < |resolvers|
      ensures R.ResolveFieldValue(resolvers[j], field, chain) == Ok(None)
    {
      R.UnmarkedFieldGetsNull(resolvers[j], field, chain);
    }
    FirstNonNullIsNullIff(resolvers, field, chain);
  }

  /** With the @Autowired resolver registered before the @Value resolver, a field
      carrying both markers takes the bean the factory returns whenever that is not
      null, and the configuration map is never read. */
  lemma AutowiredTakesPrecedence(factory: R.BeanLookup, values: map<string, Object>, convert: R.Converter,
                                 field: FieldInfo, chain: Chain, bean: Object)
    requires field.autowired.Some?
    requires factory(R.FieldLookup(field).value, chain) == Ok(Some(bean))
    ensures FirstNonNull([R.AutowiredResolver(factory), R.ValueResolver(values, convert)], field, chain) == Ok(Some(bean))
  {
  }

  /*
   * injectField, specified over the field list.
   */

  /** Only public, non-final fields are injected. */
  predicate Eligible(field: FieldInfo) {
    field.access == Public && !field.isFinal
  }

  /** The resolvers' answer for `field`, asked with the field's edge on top of `chain`. */
  function FieldAnswer(owner: BeanClass, singleton: bool, field: FieldInfo, chain: Chain, resolvers: seq<R.Resolver>): R.Answer {
    FirstNonNull(resolvers, field, chain + [Field(owner, singleton, field)])
  }

  /** Why injection stopped: the cycle check refused a field's edge, or resolving the
      field threw. */
  datatype Failure =
    | Refused(field: FieldInfo, kind: UnsolvableCycleType)
    | ResolutionFailed(field: FieldInfo, cause: BeanError)

  /** The outcome of injecting a list of fields: the failure, if any, and the field
      values afterwards (writes made before a failure stay). */
  datatype Injection = Injection(failure: Option<Failure>, fields: map<FieldInfo, Object>)

  /** Field injection over `fields` in declaration order, with the context's chain
      back at `chain` between fields. */
  function InjectFields(owner: BeanClass, singleton: bool, fields: seq<FieldInfo>, chain: Chain,
                        resolvers: seq<R.Resolver>, values: map<FieldInfo, Object>): Injection
    decreases |fields|
  {
    if fields == [] then Injection(None, values)
    else
      var field := fields[0];
      if !Eligible(field) then InjectFields(owner, singleton, fields[1..], chain, resolvers, values)
      else
        match Rejection(chain, Field(owner, singleton, field))
        case Some(kind) => Injection(Some(Refused(field, kind)), values)
        case None =>
          match FieldAnswer(owner, singleton, field, chain, resolvers)
          case Err(e) => Injection(Some(ResolutionFailed(field, e)), values)
          case Ok(None) => InjectFields(owner, singleton, fields[1..], chain, resolvers, values)
          case Ok(Some(v)) => InjectFields(owner, singleton, fields[1..], chain, resolvers, values[field := v])
  }

  /** The exception injectField throws for a failure: the cycle check's exception as
      is, or a BeanCreationException naming the class and the field around the cause. */
  function ThrownBy(owner: BeanClass, singleton: bool, chain: Chain, failure: Failure): BeanError {
    match failure
    case Refused(field, kind) =>
      UnsolvableCycle(CycleError(kind, owner, CycleDiagram(chain, Field(owner, singleton, field))))
    case ResolutionFailed(field, cause) => FieldInjectionFailed(owner, field.name, cause)
  }

  /** A field's value changes only when the field is eligible and the resolvers
      answered it with that very value; no field value is dropped. */
  lemma {:induction false} InjectionWritesOnlyResolvedValues(owner: BeanClass, singleton: bool, fields: seq<FieldInfo>,
                                                             chain: Chain, resolvers: seq<R.Resolver>, values: map<FieldInfo, Object>)
    ensures var inj := InjectFields(owner, singleton, fields, chain, resolvers, values);
      && values.Keys <= inj.fields.Keys
      && forall f | f in inj.fields && (f !in values || inj.fields[f] != values[f]) ::
           f in fields && Eligible(f) && FieldAnswer(owner, singleton, f, chain, resolvers) == Ok(Some(inj.fields[f]))
    decreases |fields|
  {
    if fields != [] {
      var field := fields[0];
      var rest := fields[1..];
      assert forall f | f in rest :: f in fields;
      if !Eligible(field) {
        InjectionWritesOnlyResolvedValues(owner, singleton, rest, chain, resolvers, values);
      } else if Rejection(chain, Field(owner, singleton, field)).None? {
        match FieldAnswer(owner, singleton, field, chain, resolvers)
        case Err(_) =>
        case Ok(None) =>
          InjectionWritesOnlyResolvedValues(owner, singleton, rest, chain, resolvers, values);
        case Ok(Some(v)) =>
          InjectionWritesOnlyResolvedValues(owner, singleton, rest, chain, resolvers, values[field := v]);
      }
    }
  }

  /** Injection succeeds exactly when every eligible field's edge is admitted and no
      resolver throws for it. */
  lemma {:induction false} InjectionSucceedsIff(owner: BeanClass, singleton: bool, fields: seq<FieldInfo>,
                                                chain: Chain, resolvers: seq<R.Resolver>, values: map<FieldInfo, Object>)
    ensures InjectFields(owner, singleton, fields, chain, resolvers, values).failure.None? <==>
      forall f | f in fields && Eligible(f) ::
        Admits(chain, Field(owner, singleton, f)) && FieldAnswer(owner, singleton, f, chain, resolvers).Ok?
    decreases |fields|
  {
    if fields != [] {
      var field := fields[0];
      var rest := fields[1..];
      assert forall f | f in fields :: f == field || f in rest;
      if !Eligible(field) {
        InjectionSucceedsIff(owner, singleton, rest, chain, resolvers, values);
      } else if Rejection(chain, Field(owner, singleton, field)).None? {
        match FieldAnswer(owner, singleton, field, chain, resolvers)
        case Err(_) =>
        case Ok(None) =>
          InjectionSucceedsIff(owner, singleton, rest, chain, resolvers, values);
        case Ok(Some(v)) =>
          InjectionSucceedsIff(owner, singleton, rest, chain, resolvers, values[field := v]);
      }
    }
  }

  /** After a successful injection every eligible field the resolvers answered holds
      that answer. */
  lemma {:induction false} SuccessfulInjectionWritesEveryAnswer(owner: BeanClass, singleton: bool, fields: seq<FieldInfo>,
                                                                chain: Chain, resolvers: seq<R.Resolver>, values: map<FieldInfo, Object>)
    ensures var inj := InjectFields(owner, singleton, fields, chain, resolvers, values);
      inj.failure.None? ==>
        forall f | f in fields && Eligible(f) && FieldAnswer(owner, singleton, f, chain, resolvers).Ok?
                   && FieldAnswer(owner, singleton, f, chain, resolvers).value.Some? ::
          f in inj.fields && inj.fields[f] == FieldAnswer(owner, singleton, f, chain, resolvers).value.value
    decreases |fields|
  {
    if fields != [] {
      var field := fields[0];
      var rest := fields[1..];
      assert forall f | f in fields :: f == field || f in rest;
      if !Eligible(field) {
        SuccessfulInjectionWritesEveryAnswer(owner, singleton, rest, chain, resolvers, values);
      } else if Rejection(chain, Field(owner, singleton, field)).None? {
        match FieldAnswer(owner, singleton, field, chain, resolvers)
        case Err(_) =>
        case Ok(None) =>
          SuccessfulInjectionWritesEveryAnswer(owner, singleton, rest, chain, resolvers, values);
        case Ok(Some(v)) =>
          SuccessfulInjectionWritesEveryAnswer(owner, singleton, rest, chain, resolvers, values[field := v]);
          InjectionWritesOnlyResolvedValues(owner, singleton, rest, chain, resolvers, values[field := v]);
      }
    }
  }

  /** A failure names an eligible field of the list, and says truthfully why it
      failed: the cycle check's classification, or the resolvers' exception. */
  lemma {:induction false} FailureNamesTheCulprit(owner: BeanClass, singleton: bool, fields: seq<FieldInfo>,
                                                  chain: Chain, resolvers: seq<R.Resolver>, values: map<FieldInfo, Object>)
    ensures var inj := InjectFields(owner, singleton, fields, chain, resolvers, values);
      inj.failure.Some? ==>
        var f := inj.failure.value.field;
        && f in fields && Eligible(f)
        && (inj.failure.value.Refused? ==>
              Rejection(chain, Field(owner, singleton, f)) == Some(inj.failure.value.kind))
        && (inj.failure.value.ResolutionFailed? ==>
              Admits(chain, Field(owner, singleton, f))
              && FieldAnswer(owner, singleton, f, chain, resolvers) == Err(inj.failure.value.cause))
    decreases |fields|
  {
    if fields != [] {
      var field := fields[0];
      var rest := fields[1..];
      assert forall f | f in rest :: f in fields;
      if !Eligible(field) {
        FailureNamesTheCulprit(owner, singleton, rest, chain, resolvers, values);
      } else if Rejection(chain, Field(owner, singleton, field)).None? {
        match FieldAnswer(owner, singleton, field, chain, resolvers)
        case Err(_) =>
        case Ok(None) =>
          FailureNamesTheCulprit(owner, singleton, rest, chain, resolvers, values);
        case Ok(Some(v)) =>
          FailureNamesTheCulprit(owner, singleton, rest, chain, resolvers, values[field := v]);
      }
    }
  }

  /*
   * shouldReturnEarly.
   */

  /** A half-injected bean of class `c` may be handed out when the chain is not empty
      and the cycle it closes, if any, is solvable. */
  predicate MayExposeEarly(chain: Chain, c: BeanClass) {
    && chain != []
    && match CycleOf(chain, c)
       case None => true
       case Some(cycle) => Classify(cycle).None?
  }

  method ShouldReturnEarly(c: BeanClass, ctx: BeanResolutionContext) returns (early: bool)
    ensures early == MayExposeEarly(ctx.chain, c)
  {
    var chain := ctx.chain;
    if chain == [] {
      return false;
    }
    var cycle := ExtractCircularDependencyChain(chain, c);
    if cycle.Some? {
      var kind := IsUnsolvableCycle(cycle.value);
      if kind.Some? {
        return false;
      }
    }
    return true;
  }

  /** On a non-empty chain the early-exposure rule is the cycle check's rule: the bean
      is handed out exactly when an edge of its class would be admitted. */
  lemma EarlyExposureIsAdmission(chain: Chain, edge: DependencyContext)
    requires chain != []
    ensures MayExposeEarly(chain, edge.beanClass) <==> Admits(chain, edge)
  {
  }

  /** An early exposure never completes a cycle through a constructor or one made of
      prototypes only: every edge from the bean's first occurrence up is a field edge,
      and one of them belongs to a singleton. */
  lemma EarlyExposureIsSafe(chain: Chain, c: BeanClass)
    requires MayExposeEarly(chain, c)
    ensures var k := CycleStart(chain, c);
      k != -1 ==>
        && (forall j | k <= j < |chain| :: chain[j].Field?)
        && (exists j | k <= j < |chain| :: chain[j].singleton)
  {
    var edge := chain[0].(beanClass := c);
    RejectionIff(chain, edge, CycleStart(chain, c));
  }

  /*
   * The provider.
   */

  class InjectingBeanProvider {
    /** beanClass() and singleton(), as the underlying provider reports them. */
    const beanClass: BeanClass
    const singleton: bool
    /** ScxReflect.typeOf(beanClass()). */
    const typeInfo: TypeInfo
    var status: BeanStatus

    /** A prototype provider never leaves NULL. */
    ghost predicate Valid()
      reads this
    {
      !singleton ==> status == Null
    }

    constructor (beanClass: BeanClass, singleton: bool, typeInfo: TypeInfo)
      ensures this.beanClass == beanClass && this.singleton == singleton && this.typeInfo == typeInfo
      ensures status == Null && Valid()
    {
      this.beanClass := beanClass;
      this.singleton := singleton;
      this.typeInfo := typeInfo;
      status := Null;
    }

    /** The injection of this class's fields (none when the type is not a class). */
    function Injected(chain: Chain, resolvers: seq<R.Resolver>, values: map<FieldInfo, Object>): Injection {
      match typeInfo
      case ClassInfo(fields) => InjectFields(beanClass, singleton, fields, chain, resolvers, values)
      case OtherTypeInfo => Injection(None, values)
    }

    /** The exception injectField throws for a failure, if any. */
    function Thrown(chain: Chain, failure: Option<Failure>): Option<BeanError> {
      match failure
      case None => None
      case Some(f) => Some(ThrownBy(beanClass, singleton, chain, f))
    }

    /** getBean hands the bean back without injecting: a READY singleton, or an
        INJECTING one whose early exposure is allowed. */
    predicate ReturnsAsIs(status: BeanStatus, chain: Chain) {
      && singleton
      && (status == Ready || (status == Injecting && MayExposeEarly(chain, beanClass)))
    }

    /** injectField. A singleton's status is INJECTING for the whole injection: set by
        getBean before the call, and not changed by it. */
    method InjectField(bean: Bean, resolvers: seq<R.Resolver>, ctx: BeanResolutionContext) returns (thrown: Option<BeanError>)
      requires singleton ==> status == Injecting
      requires ctx.Valid()
      modifies bean, ctx
      ensures ctx.Valid() && ctx.chain == old(ctx.chain)
      ensures var inj := Injected(old(ctx.chain), resolvers, old(bean.fields));
        bean.fields == inj.fields && thrown == Thrown(old(ctx.chain), inj.failure)
    {
      if typeInfo.OtherTypeInfo? {
        return None;
      }
      var fields := typeInfo.allFields;
      ghost var chain := ctx.chain;
      ghost var goal := InjectFields(beanClass, singleton, fields, chain, resolvers, bean.fields);
      for i := 0 to |fields|
        invariant ctx.Valid() && ctx.chain == chain
        invariant InjectFields(beanClass, singleton, fields[i..], chain, resolvers, bean.fields) == goal
      {
        var field := fields[i];
        assert fields[i..][0] == field && fields[i..][1..] == fields[i + 1..];
        if field.access != Public || field.isFinal {
          continue;
        }
        var refused := ctx.StartDependencyCheck(Field(beanClass, singleton, field));
        if refused.Some? {
          return Some(UnsolvableCycle(refused.value));
        }
        var value := ResolveFieldValue(resolvers, field, ctx.chain);
        if value.Err? {
          var _ := ctx.EndDependencyCheck();
          return Some(FieldInjectionFailed(beanClass, field.name, value.error));
        }
        if value.value.Some? {
          bean.fields := bean.fields[field := value.value.value];
        }
        var _ := ctx.EndDependencyCheck();
      }
      return None;
    }

    /** getBean, given what the underlying provider's getBean produced. */
    method GetBean(produced: Result<Bean, BeanError>, resolvers: seq<R.Resolver>, ctx: BeanResolutionContext)
      returns (r: Result<Bean, BeanError>)
      requires Valid() && ctx.Valid()
      modifies this, ctx, if produced.Ok? then {produced.value} else {}
      ensures Valid() && ctx.Valid() && ctx.chain == old(ctx.chain)
      ensures Advances(old(status), status)
      ensures produced.Err? ==> r == produced && status == old(status)
      ensures produced.Ok? && ReturnsAsIs(old(status), old(ctx.chain)) ==>
        r == produced && produced.value.fields == old(produced.value.fields) && status == old(status)
      ensures produced.Ok? && !ReturnsAsIs(old(status), old(ctx.chain)) ==>
        var inj := Injected(old(ctx.chain), resolvers, old(produced.value.fields));
        && produced.value.fields == inj.fields
        && r == (if inj.failure.None? then produced else Err(Thrown(old(ctx.chain), inj.failure).value))
        && status == (if !singleton then Null else if inj.failure.None? then Ready else Injecting)
    {
      if produced.Err? {
        return produced;
      }
      var bean := produced.value;
      if singleton {
        if status == Ready {
          return produced;
        }
        if status == Injecting {
          var early := ShouldReturnEarly(beanClass, ctx);
          if early {
            return produced;
          }
        }
        status := Injecting;
        var thrown := InjectField(bean, resolvers, ctx);
        if thrown.Some? {
          return Err(thrown.value);
        }
        status := Ready;
      } else {
        var thrown := InjectField(bean, resolvers, ctx);
        if thrown.Some? {
          return Err(thrown.value);
        }
      }
      return produced;
    }
  }
}
