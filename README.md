# scx-bean dependency-injection core, modelled in Dafny

This project models the cycle-aware core of the scx-bean container.

- **Chain tracker** (`BeanResolutionContext`). It keeps the stack of in-flight dependency edges of one construction request. Each edge is a constructor parameter or a field of some bean class.
- **Cycle check.** Before pushing an edge, the tracker looks for the first earlier edge of the same class. It classifies the segment from there to the top:
  - any constructor edge makes the cycle unsolvable;
  - otherwise a singleton makes it solvable;
  - otherwise it is an all-prototype cycle.
- **Refusal.** An unsolvable cycle is refused with a box-drawing diagram of the chain. A solvable one is pushed, and the matching pop removes it again.
- **Injecting provider** (`InjectingBeanProvider`). It walks the public, non-final fields of the bean its underlying provider produced. For each field it:
  - pushes a field edge;
  - asks the resolvers in order for the first non-null value;
  - writes that value;
  - pops the edge again.
- **Provider status.** For a singleton the provider keeps a NULL → INJECTING → READY status. A half-injected singleton is handed out early exactly when the chain is non-empty and its class either does not occur on the chain or closes a solvable cycle there.
- **Resolvers.**
  - The `@Autowired` resolver chooses a factory lookup: by name, by type, or none for an unmarked field.
  - The `@Value` resolver reads a configuration key, fails on a missing key, and converts the value.

Modules, one per file:

- `wrappers.dfy` (`Wrappers`): `Option` (Java null) and `Result` (a returned value or a thrown exception).
- `reflection.dfy` (`Reflection`): a descriptor table in place of runtime reflection. It holds classes, types, fields with access, finality and markers, and constructor parameters.
- `bean_resolution.dfy` (`BeanResolution`): `BeanResolutionContext.java`. It has:
  - the search, extraction and classification functions, plus the loop methods proved equal to them;
  - the diagram renderer;
  - the class `BeanResolutionContext`. Its invariant `Valid()` says every entry on the chain was admitted by the cycle check against the entries below it.
- `exceptions.dfy` (`Exceptions`): the exceptions as a datatype.
- `resolvers.dfy` (`Resolvers`): the two resolver implementations as the variants of one datatype.
- `provider.dfy` (`Provider`): `InjectingBeanProvider.java`. It has:
  - the first-non-null scan;
  - field injection, specified by `InjectFields` over the field list and implemented by a loop that pushes and pops through the context;
  - `shouldReturnEarly`;
  - the status machine of `getBean`.
- `scenarios.dfy` (`Scenarios`): one- and two-class cycles, each with the outcome the classifier's rules give.

Design decisions:

- **Class identity.** Bean classes are compared by name. This stands for Java's `==` on `Class` objects within one class loader.
- **Factory and converter.** `BeanFactory.getBean` and `ScxObject.convertValue` are function values carried by the resolver variants. The factory receives the chain as it stands when the resolver is called.
- **Exceptions.** Thrown exceptions become `Err` results or `Option` error out-parameters.
- **Which errors are wrapped.** `injectField` calls `startDependencyCheck` before its `try` (`InjectingBeanProvider.java:118-120`). A cycle refused for the field's own edge therefore propagates unwrapped. Only exceptions from resolving or writing the field are wrapped with the class and field name (`InjectingBeanProvider.java:120-127`); the model never raises a write failure (see "## Left out"). `ThrownBy` models exactly this.

## Model

| member | source | states |
|---|---|---|
| BeanResolution.CycleStart | src/main/java/cool/scx/bean/BeanResolutionContext.java:54-70 | -1 exactly when no entry has the class; otherwise an index whose entry has the class and before which no entry has it |
| BeanResolution.FindCycleStartIndex | src/main/java/cool/scx/bean/BeanResolutionContext.java:63-70 | the early-return loop computes the first matching index (or -1) |
| BeanResolution.FindCycleStartIndexOf | src/main/java/cool/scx/bean/BeanResolutionContext.java:54-61 | the context overload returns the same index as the class overload for the context's class |
| BeanResolution.CycleOf | src/main/java/cool/scx/bean/BeanResolutionContext.java:34-52 | null exactly when no entry has the class; otherwise a non-empty suffix of the chain (the new edge not appended) opening at the first entry of the class |
| BeanResolution.ExtractCircularDependencyChain | src/main/java/cool/scx/bean/BeanResolutionContext.java:44-52 | the method returns that suffix or null |
| BeanResolution.ExtractCircularDependencyChainOf | src/main/java/cool/scx/bean/BeanResolutionContext.java:34-42 | the context overload agrees with the class overload |
| BeanResolution.Classify | src/main/java/cool/scx/bean/BeanResolutionContext.java:73-98 | CONSTRUCTOR iff some entry is a constructor edge, wherever it is; solvable iff all entries are field edges and one is singleton; ALL_PROTOTYPE iff all are prototype field edges (so the empty segment is ALL_PROTOTYPE) |
| BeanResolution.IsUnsolvableCycle | src/main/java/cool/scx/bean/BeanResolutionContext.java:80-97 | the two early-return scans compute that classification |
| BeanResolution.ClassifyConcat | src/main/java/cool/scx/bean/BeanResolutionContext.java:80-97 | the classification of two joined segments is determined by the classifications of the parts |
| BeanResolution.ClassifyIgnoresOrder | src/main/java/cool/scx/bean/BeanResolutionContext.java:80-97 | the classification depends only on which edges the segment holds, not on their order |
| BeanResolution.Blocks | src/main/java/cool/scx/bean/BeanResolutionContext.java:107-127 | one rendered block per chain entry |
| BeanResolution.BuildCycleMessage | src/main/java/cool/scx/bean/BeanResolutionContext.java:101-130 | the string-builder loop produces the concatenation of the entry blocks, with markers chosen from the first-occurrence index |
| BeanResolution.AppendEntry | src/main/java/cool/scx/bean/BeanResolutionContext.java:108-137 | the loop body appends, for entry i, exactly that entry's block: marker by position, the entry's line, then the trailer (arrow, self-reference loop or nothing); the entry's line carries the parameter name of a constructor edge or the field name of a field edge (getDependencyDescription) |
| BeanResolution.MarkerIdentifiesPosition | src/main/java/cool/scx/bean/BeanResolutionContext.java:111-126 | each entry's 4-character marker is "    " exactly before the cycle start, "╭─➤ " exactly at it, "\|   " exactly strictly inside, "╰── " exactly at the last entry after the start |
| BeanResolution.DiagramShowsEntry | src/main/java/cool/scx/bean/BeanResolutionContext.java:107-127 | every entry's marker and line (class name, description, newline) appear in the diagram, in chain order, right after the blocks of the entries before it |
| BeanResolution.SelfReferenceIffStartIsLast | src/main/java/cool/scx/bean/BeanResolutionContext.java:114-120 | the diagram ends with the "(自我引用)" line exactly when the cycle starts at the top entry |
| BeanResolution.SelfReferenceWhenOpensAtTop | src/main/java/cool/scx/bean/BeanResolutionContext.java:114-120 | when the cycle opens at the top entry, its block ends with the self-reference line |
| BeanResolution.NoSelfReferenceBelowTop | src/main/java/cool/scx/bean/BeanResolutionContext.java:121-126 | when the cycle opens below the top entry (or not at all), the text ends with the top entry's closing line, not the self-reference line |
| BeanResolution.RejectionIff | src/main/java/cool/scx/bean/BeanResolutionContext.java:144-157 | the push is refused as a constructor cycle iff a constructor edge lies at or above the first entry of the class, refused as all-prototype iff all such edges are prototype field edges, and admitted iff the class is absent or those edges are field edges with a singleton among them |
| BeanResolution.AcceptedPush | src/main/java/cool/scx/bean/BeanResolutionContext.java:160-161 | appending an admitted edge keeps every entry admitted against the entries below it |
| BeanResolution.AcceptedPrefix | src/main/java/cool/scx/bean/BeanResolutionContext.java:165-167 | popping keeps that invariant |
| BeanResolution.AcceptedCyclesAreSolvable | src/main/java/cool/scx/bean/BeanResolutionContext.java:140-161 | on any chain the check admitted, wherever a class recurs, the edges from its first occurrence up to the recurrence are all field edges and include a singleton |
| BeanResolution.NoConstructorEdgeInsideCycle | src/main/java/cool/scx/bean/BeanResolutionContext.java:140-161 | on an admitted chain, no constructor edge lies between two entries of the same class |
| BeanResolution.BeanResolutionContext.constructor | src/main/java/cool/scx/bean/BeanResolutionContext.java:21-23 | a new context has the empty chain |
| BeanResolution.BeanResolutionContext.StartDependencyCheck | src/main/java/cool/scx/bean/BeanResolutionContext.java:140-163 | nothing is thrown iff the cycle check admits the edge, and then exactly that edge is appended; otherwise the thrown error carries the kind, the requested class and the rendered diagram, and the chain is unchanged |
| BeanResolution.BeanResolutionContext.EndDependencyCheck | src/main/java/cool/scx/bean/BeanResolutionContext.java:165-167 | removes exactly the top entry (so a successful push followed by a pop restores the chain); fails without change on an empty chain |
| Resolvers.ConstructorArgumentLookup | src/main/java/cool/scx/bean/dependency_resolver/AutowiredAnnotationDependencyResolver.java:26-35 | a parameter is always looked up by its declared type, by name as well exactly when it carries a named @Autowired |
| Resolvers.FieldLookup | src/main/java/cool/scx/bean/dependency_resolver/AutowiredAnnotationDependencyResolver.java:38-50 | no lookup exactly when the field has no @Autowired; otherwise by declared type, by name as well exactly when the marker names a bean |
| Resolvers.ConstructorRuleExtendsFieldRule | src/main/java/cool/scx/bean/dependency_resolver/AutowiredAnnotationDependencyResolver.java:27-48 | with the same marker, parameter and field make the same lookup; an unmarked parameter is still looked up by type where an unmarked field is skipped |
| Resolvers.ResolveValue | src/main/java/cool/scx/bean/dependency_resolver/ValueAnnotationDependencyResolver.java:27-37 | null without @Value; MissingValue with the key when the key has no value; otherwise the converter's answer for the raw value and the target type |
| Resolvers.ResolveConstructorArgument | src/main/java/cool/scx/bean/dependency_resolver/AutowiredAnnotationDependencyResolver.java:26-35 | the @Autowired variant returns exactly the factory's answer for the parameter's lookup with the chain passed through; the @Value variant targets the parameter's declared type |
| Resolvers.ResolveFieldValue | src/main/java/cool/scx/bean/dependency_resolver/AutowiredAnnotationDependencyResolver.java:38-50 | the @Autowired variant returns null without a lookup for an unmarked field and otherwise exactly the factory's answer; the @Value variant targets the field's declared type |
| Resolvers.UnmarkedFieldGetsNull | src/main/java/cool/scx/bean/dependency_resolver/AutowiredAnnotationDependencyResolver.java:40-43 | a field with neither marker gets null from either variant |
| Provider.ResolveFieldValue | src/main/java/cool/scx/bean/provider/InjectingBeanProvider.java:31-39 | the early-return loop computes the first non-null answer over the resolvers in order |
| Provider.FirstNonNullIsFirstAnswer | src/main/java/cool/scx/bean/provider/InjectingBeanProvider.java:31-39 | when resolver i is the first not to return null, its answer is the result, and the resolvers after i do not affect it |
| Provider.FirstNonNullIsNullIff | src/main/java/cool/scx/bean/provider/InjectingBeanProvider.java:31-39 | the result is null exactly when every resolver returns null |
| Provider.UnmarkedFieldIsNeverResolved | src/main/java/cool/scx/bean/provider/InjectingBeanProvider.java:31-39 | a field with neither marker stays null for any resolver list |
| Provider.AutowiredTakesPrecedence | src/main/java/cool/scx/bean/provider/InjectingBeanProvider.java:32-36 | with @Autowired listed before @Value, a non-null factory answer wins over the configured value |
| Provider.InjectionWritesOnlyResolvedValues | src/main/java/cool/scx/bean/provider/InjectingBeanProvider.java:111-131 | injection drops no field; a field's value changes only if the field is public and non-final and the resolvers, asked with its edge pushed, answered exactly that value |
| Provider.InjectionSucceedsIff | src/main/java/cool/scx/bean/provider/InjectingBeanProvider.java:111-131 | injection completes iff for every public non-final field the edge is admitted and no resolver throws |
| Provider.SuccessfulInjectionWritesEveryAnswer | src/main/java/cool/scx/bean/provider/InjectingBeanProvider.java:120-125 | after a complete injection, every eligible field with a non-null answer holds that answer |
| Provider.FailureNamesTheCulprit | src/main/java/cool/scx/bean/provider/InjectingBeanProvider.java:113-131 | a failure names a public non-final field of the class, and its cause is that field's refusal kind or that field's resolver exception |
| Provider.ShouldReturnEarly | src/main/java/cool/scx/bean/provider/InjectingBeanProvider.java:43-62 | false on an empty chain, false when the cycle closed by the class is unsolvable, true otherwise (including when the class is absent) |
| Provider.EarlyExposureIsAdmission | src/main/java/cool/scx/bean/provider/InjectingBeanProvider.java:41-62 | on a non-empty chain, early exposure is allowed exactly when the cycle check would admit an edge of that class |
| Provider.EarlyExposureIsSafe | src/main/java/cool/scx/bean/provider/InjectingBeanProvider.java:43-62 | when early exposure is allowed, every edge from the class's first occurrence up is a field edge and one of them is a singleton |
| Provider.InjectingBeanProvider.constructor | src/main/java/cool/scx/bean/provider/InjectingBeanProvider.java:25-28 | a new provider starts in NULL |
| Provider.InjectingBeanProvider.InjectField | src/main/java/cool/scx/bean/provider/InjectingBeanProvider.java:98-134 | called only once a singleton's status is INJECTING, which it leaves unchanged; nothing happens for a non-class type; otherwise the bean's fields and the thrown error are those of the field-list specification (unwrapped cycle error for a refused edge, wrapped error naming class and field for a resolver exception), and the chain on every exit equals the chain on entry |
| Provider.InjectingBeanProvider.GetBean | src/main/java/cool/scx/bean/provider/InjectingBeanProvider.java:64-86 | an underlying failure propagates; a READY singleton, or an INJECTING one allowed early exposure, is returned untouched; otherwise injection runs, and a singleton's status is INJECTING during it (the precondition of `InjectField`) and becomes READY only on success; a prototype stays NULL; the status never moves back; the chain is restored |
| Scenarios.SingletonFieldCycleExposesEarly | src/main/java/cool/scx/bean/provider/InjectingBeanProvider.java:74-76 | singletons A and B with fields of each other's type: both field edges are admitted and the half-injected A is handed out to B |
| Scenarios.PrototypeFieldCycleIsRefused | src/main/java/cool/scx/bean/BeanResolutionContext.java:90-97 | prototypes A and B with fields of each other's type: A's second field edge is refused as an all-prototype cycle |
| Scenarios.ConstructorCycleIsRefused | src/main/java/cool/scx/bean/BeanResolutionContext.java:140-157 | singletons A and B with constructor parameters of each other's type: A's second constructor edge is refused as a constructor cycle, with a diagram opening at A and closing at B |
| Scenarios.SelfReferenceIsRefused | src/main/java/cool/scx/bean/BeanResolutionContext.java:114-120 | a constructor parameter of the class's own type is refused, and the diagram shows the self-reference loop |

## Left out

- Reflection is not modelled (`ScxReflect.typeOf`, `ClassInfo.allFields`, `findAnnotation`, `rawField().getType()`, `rawParameter().getType()`). A descriptor table in `Reflection` stands in for it. It lists each class's fields with access, finality and markers.
- `FieldInfo.set` is modelled as a map update that always succeeds.
- Provider.InjectingBeanProvider.InjectField: does not model an exception thrown by `FieldInfo.set` itself (illegal access, type mismatch). The descriptor table carries no runtime types that could produce one.
- `BeanFactory.getBean` and `ScxObject.convertValue` are function values, because they live outside these files.
  - The factory's recursive bean requests are therefore not unfolded. This includes requests that re-enter the same provider.
  - Their effect on other providers' status and on the fields of an early-exposed bean is not captured.
  - The factory is assumed to leave the chain as it found it.
- `AnnotationValues.getRealValue` is reduced to an optional bean name.
- `BeanDependencyResolver.java` is an interface without behaviour. It becomes the `Resolver` datatype.
- The wrapped `BeanProvider` (construction and singleton caching) is out of scope. `GetBean` receives its result, a bean or an exception, as a parameter. `beanClass()` and `singleton()` are constants of the provider.
- `beanDependencyResolvers()` is passed in as the resolver list.
- Exception message wording is not modelled (`BeanResolutionContext.java:152-156`, `InjectingBeanProvider.java:127`, the MissingValueException text). Errors are structured values carrying the cycle kind, the class, the field name, the key and the rendered diagram. The diagram itself is modelled exactly.
- A configuration value mapped to null is indistinguishable from an absent key: both raise MissingValue. The map type has no null.
- `getCurrentDependencyChain` is modelled as a read of the `chain` field. Java returns the live mutable list itself, not a read-only view. Writes a caller makes through that list bypass the cycle check, and the model does not capture them.
- BeanResolution.BeanResolutionContext.StartDependencyCheck: requires the context invariant `Valid()`. The constructor establishes it, and both chain operations preserve it. It holds as long as the chain is changed only through `startDependencyCheck` and `endDependencyCheck`. No code in these files writes through `getCurrentDependencyChain`: `shouldReturnEarly` only reads it.
- Thread safety is out of scope: `beanStatus` and the chain are unsynchronised. The model is single-threaded, with one context per request.
