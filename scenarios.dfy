/**
 * One- and two-class scenarios: which requests the cycle check admits, which it refuses,
 * and the diagram it renders for the refused ones.
 */
module Scenarios {
  import opened Wrappers
  import opened Reflection
  import opened BeanResolution
  import opened Provider

  const A := BeanClass("A")
  const B := BeanClass("B")

  /** A public, non-final @Autowired field of class `c`, declared by `owner`. */
  function AutowiredField(owner: BeanClass, name: string, c: BeanClass): FieldInfo {
    FieldInfo(owner, name, Public, false, TypeDescriptor(c, []), Some(AutowiredMark(None)), None)
  }

  /** An unmarked constructor parameter of class `c`. */
  function Parameter(name: string, c: BeanClass): ParameterInfo {
    ParameterInfo(name, TypeDescriptor(c, []), None, None)
  }

  function ConstructorEdge(owner: BeanClass, parameter: ParameterInfo): DependencyContext {
    ConstructorParameter(owner, true, ConstructorInfo(owner, [parameter]), parameter)
  }

  /** Singletons A and B with a field of each other's type: both field edges are
      admitted, and when B's field asks for A again the half-injected A is handed out. */
  lemma SingletonFieldCycleExposesEarly()
    ensures var aToB := Field(A, true, AutowiredField(A, "b", B));
      var bToA := Field(B, true, AutowiredField(B, "a", A));
      && Admits([], aToB)
      && Admits([aToB], bToA)
      && MayExposeEarly([aToB, bToA], A)
  {
  }

  /** Prototypes A and B with a field of each other's type: the second field edge of A
      is refused as an all-prototype cycle. */
  lemma PrototypeFieldCycleIsRefused()
    ensures var aToB := Field(A, false, AutowiredField(A, "b", B));
      var bToA := Field(B, false, AutowiredField(B, "a", A));
      && Admits([], aToB)
      && Admits([aToB], bToA)
      && Rejection([aToB, bToA], aToB) == Some(AllPrototypeCycle)
  {
  }

  /** Singletons A and B with a constructor parameter of each other's type: the second
      constructor edge of A is refused, and the diagram names both classes, opening
      the cycle at A and closing it at B. */
  lemma ConstructorCycleIsRefused()
    ensures var aToB := ConstructorEdge(A, Parameter("b", B));
      var bToA := ConstructorEdge(B, Parameter("a", A));
      && Admits([aToB], bToA)
      && !Admits([aToB, bToA], aToB)
      && RejectionError([aToB, bToA], aToB) ==
         CycleError(ConstructorCycle, A,
           OpenMarker + "A (构造参数: b)\n" + InsideArrow + CloseMarker + "B (构造参数: a)\n")
  {
    var aToB := ConstructorEdge(A, Parameter("b", B));
    var bToA := ConstructorEdge(B, Parameter("a", A));
    var chain := [aToB, bToA];
    assert CycleStart(chain, A) == 0;
    var blocks := Blocks(chain, 0);
    assert blocks[0] == OpenMarker + "A (构造参数: b)\n" + InsideArrow;
    assert blocks[1] == CloseMarker + "B (构造参数: a)\n";
    assert blocks == [blocks[0], blocks[1]];
    ConcatSmall(blocks[0], blocks[1]);
  }

  /** A singleton A with a constructor parameter of its own type: the diagram shows the
      single entry looping back on itself. */
  lemma SelfReferenceIsRefused()
    ensures var aToA := ConstructorEdge(A, Parameter("a", A));
      && !Admits([aToA], aToA)
      && RejectionError([aToA], aToA) ==
         CycleError(ConstructorCycle, A, OpenMarker + "A (构造参数: a)\n" + InsideArrow + SelfReferenceLine)
  {
    var aToA := ConstructorEdge(A, Parameter("a", A));
    assert CycleStart([aToA], A) == 0;
    var blocks := Blocks([aToA], 0);
    assert blocks[0] == OpenMarker + "A (构造参数: a)\n" + InsideArrow + SelfReferenceLine;
    assert blocks == [blocks[0]];
    ConcatSmall(blocks[0], "");
  }
}
