/** The exceptions the core raises or lets through, in structured form. */
module Exceptions {
  import opened Reflection
  import opened BeanResolution

  datatype BeanError =
      /** BeanCreationException from startDependencyCheck: an unsolvable cycle. */
    | UnsolvableCycle(cycle: CycleError)
      /** BeanCreationException from field injection: the owning class, the field
          and the exception raised while resolving or writing it. */
    | FieldInjectionFailed(owner: BeanClass, fieldName: string, cause: BeanError)
      /** MissingValueException: a @Value key with no configured value. */
    | MissingValue(key: string)
      /** An exception raised by a collaborator outside this model (no such bean,
          no unique bean, a failed value conversion, ...). */
    | CollaboratorFailure(reason: string)
}
