/**
 * The dependency-chain tracker (BeanResolutionContext): the stack of in-flight
 * dependency edges of one construction request, the search for an earlier edge of
 * the same bean class, the cycle classifier, the box-drawing cycle diagram, and the
 * push (with cycle check) and pop operations on the chain.
 */
module BeanResolution {
  import opened Wrappers
  import opened Reflection

  /** One in-flight dependency edge (DependencyContext). The two constructors are the
      record's two convenience constructors: the edge kind fixes which payload exists. */
  datatype DependencyContext =
    | ConstructorParameter(beanClass: BeanClass, singleton: bool, constructorInfo: ConstructorInfo, parameter: ParameterInfo)
    | Field(beanClass: BeanClass, singleton: bool, fieldInfo: FieldInfo)

  /** Why a cycle cannot be broken (UnsolvableCycleType); `None` of it means solvable. */
  datatype UnsolvableCycleType = ConstructorCycle | AllPrototypeCycle

  /** The BeanCreationException thrown by startDependencyCheck, in structured form:
      the kind of cycle, the class being requested and the rendered chain diagram. */
  datatype CycleError = CycleError(kind: UnsolvableCycleType, beanClass: BeanClass, diagram: string)

  type Chain = seq<DependencyContext>

  /*
   * Cycle start: the first entry whose class is the requested one.
   */

  /** Index of the first entry of `chain` with class `c`, or -1 when there is none. */
  function CycleStart(chain: Chain, c: BeanClass): (r: int)
    ensures -1 <= r < |chain|
    ensures r == -1 <==> forall i | 0 <= i < |chain| :: chain[i].beanClass != c
    ensures 0 <= r ==> chain[r].beanClass == c && forall i | 0 <= i < r :: chain[i].beanClass != c
  {
    if chain == [] then -1
    else if chain[0].beanClass == c then 0
    else
      var k := CycleStart(chain[1..], c);
      if k == -1 then -1 else k + 1
  }

  /** findCycleStartIndex(creatingList, beanClass): a scan from the front. */
  method FindCycleStartIndex(chain: Chain, c: BeanClass) returns (r: int)
    ensures r == CycleStart(chain, c)
  {
    for i := 0 to |chain|
      invariant forall j | 0 <= j < i :: chain[j].beanClass != c
    {
      if chain[i].beanClass == c {
        return i;
      }
    }
    return -1;
  }

  /** findCycleStartIndex(creatingList, context): the same scan, keyed by the
      context's class only (not by the whole context). */
  method FindCycleStartIndexOf(chain: Chain, context: DependencyContext) returns (r: int)
    ensures r == CycleStart(chain, context.beanClass)
  {
    r := FindCycleStartIndex(chain, context.beanClass);
  }

  /*
   * Cycle extraction.
   */

  /** The candidate cycle for class `c`: the suffix of `chain` from the first entry of
      class `c`, or `None` (Java null) when no entry has that class. */
  function CycleOf(chain: Chain, c: BeanClass): (r: Option<Chain>)
    ensures r.None? <==> forall i | 0 <= i < |chain| :: chain[i].beanClass != c
    ensures r.Some? ==>
      && 0 < |r.value| <= |chain|
      && r.value == chain[|chain| - |r.value|..]
      && r.value[0].beanClass == c
      && forall i | 0 <= i < |chain| - |r.value| :: chain[i].beanClass != c
  {
    var k := CycleStart(chain, c);
    if k == -1 then None else Some(chain[k..])
  }

  /** extractCircularDependencyChain(creatingList, beanClass). */
  method ExtractCircularDependencyChain(chain: Chain, c: BeanClass) returns (r: Option<Chain>)
    ensures r == CycleOf(chain, c)
  {
    var start := FindCycleStartIndex(chain, c);
    if start == -1 {
      return None;
    }
    return Some(chain[start..]);
  }

  /** extractCircularDependencyChain(creatingList, context): the new context itself is
      not appended to the extracted cycle. */
  method ExtractCircularDependencyChainOf(chain: Chain, context: DependencyContext) returns (r: Option<Chain>)
    ensures r == CycleOf(chain, context.beanClass)
  {
    var start := FindCycleStartIndexOf(chain, context);
    if start == -1 {
      return None;
    }
    return Some(chain[start..]);
  }

  /*
   * Cycle classification.
   */

  predicate HasConstructorEdge(cycle: Chain) {
    exists i | 0 <= i < |cycle| :: cycle[i].ConstructorParameter?
  }

  predicate HasSingleton(cycle: Chain) {
    exists i | 0 <= i < |cycle| :: cycle[i].singleton
  }

  /** The classification rule, in order: any constructor edge makes the cycle fatal;
      otherwise one singleton anchors it (solvable, `None`); otherwise every entry is a
      prototype and the cycle is fatal. */
  function Classify(cycle: Chain): (r: Option<UnsolvableCycleType>)
    ensures r == Some(ConstructorCycle) <==> exists i | 0 <= i < |cycle| :: cycle[i].ConstructorParameter?
    ensures r.None? <==>
      (forall i | 0 <= i < |cycle| :: cycle[i].Field?) && (exists i | 0 <= i < |cycle| :: cycle[i].singleton)
    ensures r == Some(AllPrototypeCycle) <==>
      (forall i | 0 <= i < |cycle| :: cycle[i].Field?) && (forall i | 0 <= i < |cycle| :: !cycle[i].singleton)
  {
    if HasConstructorEdge(cycle) then Some(ConstructorCycle)
    else if HasSingleton(cycle) then None
    else Some(AllPrototypeCycle)
  }

  /** isUnsolvableCycle: two scans with early return. */
  method IsUnsolvableCycle(cycle: Chain) returns (r: Option<UnsolvableCycleType>)
    ensures r == Classify(cycle)
  {
    for i := 0 to |cycle|
      invariant forall j | 0 <= j < i :: !cycle[j].ConstructorParameter?
    {
      if cycle[i].ConstructorParameter? {
        return Some(ConstructorCycle);
      }
    }
    for i := 0 to |cycle|
      invariant forall j | 0 <= j < i :: !cycle[j].singleton
    {
      if cycle[i].singleton {
        return None;
      }
    }
    return Some(AllPrototypeCycle);
  }

  /** How classifications combine when two chain segments are joined: a constructor
      edge anywhere wins, then a singleton anywhere, then all-prototype. */
  function JoinClassification(a: Option<UnsolvableCycleType>, b: Option<UnsolvableCycleType>): Option<UnsolvableCycleType> {
    if a == Some(ConstructorCycle) || b == Some(ConstructorCycle) then Some(ConstructorCycle)
    else if a.None? || b.None? then None
    else Some(AllPrototypeCycle)
  }

  /** The classification of a joined segment is determined by the parts' classifications. */
  lemma ClassifyConcat(s: Chain, t: Chain)
    ensures Classify(s + t) == JoinClassification(Classify(s), Classify(t))
  {
    var st := s + t;
    if HasConstructorEdge(s) {
      var i :| 0 <= i < |s| && s[i].ConstructorParameter?;
      assert st[i] == s[i];
    } else if HasConstructorEdge(t) {
      var i :| 0 <= i < |t| && t[i].ConstructorParameter?;
      assert st[|s| + i] == t[i];
    } else {
      assert !HasConstructorEdge(st) by {
        forall i | 0 <= i < |st| ensures !st[i].ConstructorParameter? {
          if i < |s| { assert st[i] == s[i]; } else { assert st[i] == t[i - |s|]; }
        }
      }
      if HasSingleton(s) {
        var i :| 0 <= i < |s| && s[i].singleton;
        assert st[i] == s[i];
      } else if HasSingleton(t) {
        var i :| 0 <= i < |t| && t[i].singleton;
        assert st[|s| + i] == t[i];
      } else {
        forall i | 0 <= i < |st| ensures !st[i].singleton {
          if i < |s| { assert st[i] == s[i]; } else { assert st[i] == t[i - |s|]; }
        }
      }
    }
  }

  /** The classification looks at which edges occur, not at their positions: any
      reordering of a segment is classified the same way. */
  lemma ClassifyIgnoresOrder(s: Chain, t: Chain)
    requires multiset(s) == multiset(t)
    ensures Classify(s) == Classify(t)
  {
    forall u: Chain, v: Chain | multiset(u) == multiset(v) && HasConstructorEdge(u)
      ensures HasConstructorEdge(v)
    {
      var i :| 0 <= i < |u| && u[i].ConstructorParameter?;
      assert u[i] in multiset(v);
      var j :| 0 <= j < |v| && v[j] == u[i];
    }
    forall u: Chain, v: Chain | multiset(u) == multiset(v) && HasSingleton(u)
      ensures HasSingleton(v)
    {
      var i :| 0 <= i < |u| && u[i].singleton;
      assert u[i] in multiset(v);
      var j :| 0 <= j < |v| && v[j] == u[i];
    }
  }

  /*
   * The cycle diagram (buildCycleMessage / getDependencyDescription).
   */

  const OutsideMarker := "    "
  const OpenMarker := "╭─➤ "
  const InsideMarker := "|   "
  const CloseMarker := "╰── "
  const OutsideArrow := "              🡻\n"
  const InsideArrow := "|             🡻\n"
  const SelfReferenceLine := "╰───────── (自我引用) \n"

  /** getDependencyDescription: the parameter name for a constructor edge, the field
      name for a field edge. */
  function Description(context: DependencyContext): string {
    match context
    case ConstructorParameter(_, _, _, parameter) => "(构造参数: " + parameter.name + ")"
    case Field(_, _, fieldInfo) => "[字段: " + fieldInfo.name + "]"
  }

  /** The line describing one entry: class name, description, newline. */
  function BaseInfo(context: DependencyContext): string {
    context.beanClass.name + " " + Description(context) + "\n"
  }

  /** The four-character marker in front of entry `i` of `n`, given the cycle start. */
  function Marker(i: int, start: int, n: int): string {
    if i < start then OutsideMarker
    else if i == start then OpenMarker
    else if i < n - 1 then InsideMarker
    else CloseMarker
  }

  /** What follows the line of entry `i` of `n`: a down arrow, except after the last
      entry; the self-reference loop when the cycle starts at the last entry. */
  function Trailer(i: int, start: int, n: int): string {
    if i < start then OutsideArrow
    else if i == start then InsideArrow + (if i == n - 1 then SelfReferenceLine else "")
    else if i < n - 1 then InsideArrow
    else ""
  }

  /** The block rendered for entry `i`, given the cycle start index `start`. */
  function EntryBlock(chain: Chain, i: int, start: int): string
    requires 0 <= i < |chain|
  {
    Marker(i, start, |chain|) + BaseInfo(chain[i]) + Trailer(i, start, |chain|)
  }

  /** One block per entry, in chain order. */
  function Blocks(chain: Chain, start: int): (blocks: seq<string>)
    ensures |blocks| == |chain|
  {
    seq(|chain|, i requires 0 <= i < |chain| => EntryBlock(chain, i, start))
  }

  /** The text of a sequence of blocks written one after the other. */
  function Concat(parts: seq<string>): string {
    if parts == [] then "" else Concat(parts[..|parts| - 1]) + parts[|parts| - 1]
  }

  /** A single block, and two blocks, written out. */
  lemma ConcatSmall(x: string, y: string)
    ensures Concat([x]) == x
    ensures Concat([x, y]) == x + y
  {
    assert [x, y][..1] == [x];
    assert [x][..0] == [];
  }

  /** The text of non-empty blocks is that of all but the last, then the last. */
  lemma ConcatLast(parts: seq<string>)
    requires parts != []
    ensures Concat(parts) == Concat(parts[..|parts| - 1]) + parts[|parts| - 1]
  {
  }

  /** Writing out one more block extends the text by that block. */
  lemma ConcatStep(parts: seq<string>, i: nat)
    requires i < |parts|
    ensures Concat(parts[..i + 1]) == Concat(parts[..i]) + parts[i]
  {
    assert parts[..i + 1][..i] == parts[..i];
  }

  /** Writing out a prefix of the blocks yields a prefix of the text, and the next
      block follows it directly. */
  lemma {:induction false} ConcatPrefix(parts: seq<string>, k: nat)
    requires k < |parts|
    ensures Concat(parts[..k]) + parts[k] <= Concat(parts)
  {
    if k + 1 < |parts| {
      ConcatPrefix(parts[..|parts| - 1], k);
      assert parts[..|parts| - 1][..k] == parts[..k];
    } else {
      assert parts[..|parts| - 1] == parts[..k];
    }
  }

  /** The whole diagram for a request of `context`'s class on `chain`. */
  function CycleDiagram(chain: Chain, context: DependencyContext): string {
    Concat(Blocks(chain, CycleStart(chain, context.beanClass)))
  }

  /** buildCycleMessage: appends one block per entry into a buffer. */
  method BuildCycleMessage(chain: Chain, context: DependencyContext) returns (message: string)
    ensures message == CycleDiagram(chain, context)
  {
    var start := FindCycleStartIndexOf(chain, context);
    ghost var blocks := Blocks(chain, start);
    var sb := "";
    for i := 0 to |chain|
      invariant sb == Concat(blocks[..i])
    {
      var block := AppendEntry(chain, i, start);
      ConcatStep(blocks, i);
      sb := sb + block;
    }
    assert blocks[..|chain|] == blocks;
    message := sb;
  }

  /** One pass of buildCycleMessage's loop body: the text appended for entry `i`. */
  method AppendEntry(chain: Chain, i: int, start: int) returns (block: string)
    requires 0 <= i < |chain|
    ensures block == EntryBlock(chain, i, start)
  {
    var ctx := chain[i];
    var baseInfo := ctx.beanClass.name + " " + Description(ctx) + "\n";
    if i < start {
      block := OutsideMarker + baseInfo + OutsideArrow;
    } else if i == start {
      block := OpenMarker + baseInfo + (InsideArrow + if i == |chain| - 1 then SelfReferenceLine else "");
    } else if i < |chain| - 1 {
      block := InsideMarker + baseInfo + InsideArrow;
    } else {
      block := CloseMarker + baseInfo + "";
    }
  }

  /** The four markers are told apart by their first character, so a marker says
      where its entry stands: before the cycle, at its start, inside it, or closing it. */
  lemma MarkerIdentifiesPosition(i: int, start: int, n: int)
    requires i < n
    ensures |Marker(i, start, n)| == 4
    ensures Marker(i, start, n) == OutsideMarker <==> i < start
    ensures Marker(i, start, n) == OpenMarker <==> i == start
    ensures Marker(i, start, n) == InsideMarker <==> start < i < n - 1
    ensures Marker(i, start, n) == CloseMarker <==> start < i == n - 1
  {
    assert OutsideMarker[0] == ' ' && OpenMarker[0] == '╭' && InsideMarker[0] == '|' && CloseMarker[0] == '╰';
  }

  /** Every entry of the chain appears in the diagram, in chain order: the text is the
      blocks of the entries before it, then its marker, then its own line. */
  lemma DiagramShowsEntry(chain: Chain, context: DependencyContext, i: nat)
    requires i < |chain|
    ensures var start := CycleStart(chain, context.beanClass);
            Concat(Blocks(chain, start)[..i]) + (Marker(i, start, |chain|) + BaseInfo(chain[i]))
              <= CycleDiagram(chain, context)
  {
    var start := CycleStart(chain, context.beanClass);
    var blocks := Blocks(chain, start);
    var before := Concat(blocks[..i]);
    var head := Marker(i, start, |chain|) + BaseInfo(chain[i]);
    var tail := Trailer(i, start, |chain|);
    ConcatPrefix(blocks, i);
    assert blocks[i] == head + tail;
    Prefix3(before, head, tail, Concat(blocks));
  }

  /** A prefix of a prefix is a prefix. */
  lemma Prefix3(a: string, b: string, c: string, d: string)
    requires a + (b + c) <= d
    ensures a + b <= d
  {
    assert a + (b + c) == (a + b) + c;
  }

  /** Whether `d` ends with `s`. */
  predicate EndsWith(d: string, s: string) {
    |d| >= |s| && d[|d| - |s|..] == s
  }

  /** Text whose last part is `s` ends with `s`. */
  lemma EndsWithAppended(a: string, b: string, s: string)
    ensures EndsWith(a + (b + s), s)
  {
    assert a + (b + s) == (a + b) + s;
    assert (a + b + s)[|a + b|..] == s;
  }

  /** Two texts ending in the same suffix agree on its last-but-one character. */
  lemma EndsWithLastButOne(d: string, s: string)
    requires |s| >= 2 && EndsWith(d, s)
    ensures d[|d| - 2] == s[|s| - 2]
  {
    assert d[|d| - 2] == d[|d| - |s|..][|s| - 2];
  }

  /** The last-but-one character of `a + b` is that of `b`. */
  lemma LastButOneOfAppended(a: string, b: string)
    requires |b| >= 2
    ensures (a + b)[|a + b| - 2] == b[|b| - 2]
  {
  }

  /** An entry's line ends with the closing bracket of its description and a newline. */
  lemma BaseInfoEnding(context: DependencyContext)
    ensures |BaseInfo(context)| >= 2
    ensures BaseInfo(context)[|BaseInfo(context)| - 2] == ')' || BaseInfo(context)[|BaseInfo(context)| - 2] == ']'
  {
    var description := Description(context);
    assert BaseInfo(context) == (context.beanClass.name + " " + description) + "\n";
    assert description[|description| - 1] == ')' || description[|description| - 1] == ']';
  }

  /** Rendered with the cycle opening at the top entry, the text ends with the
      self-reference loop. */
  lemma SelfReferenceWhenOpensAtTop(chain: Chain, start: int)
    requires chain != [] && start == |chain| - 1
    ensures EndsWith(Concat(Blocks(chain, start)), SelfReferenceLine)
  {
    var n := |chain|;
    var blocks := Blocks(chain, start);
    var info := BaseInfo(chain[n - 1]);
    ConcatLast(blocks);
    assert blocks[n - 1] == OpenMarker + info + InsideArrow + SelfReferenceLine;
    EndsWithAppended(Concat(blocks[..n - 1]), OpenMarker + info + InsideArrow, SelfReferenceLine);
  }

  /** Rendered with the cycle opening below the top entry (or not at all), the text
      ends with the top entry's own line instead. */
  lemma NoSelfReferenceBelowTop(chain: Chain, start: int)
    requires chain != [] && start < |chain| - 1
    ensures EndsWith(Concat(Blocks(chain, start)), CloseMarker + BaseInfo(chain[|chain| - 1]))
    ensures !EndsWith(Concat(Blocks(chain, start)), SelfReferenceLine)
  {
    var n := |chain|;
    var blocks := Blocks(chain, start);
    var before := Concat(blocks[..n - 1]);
    var info := BaseInfo(chain[n - 1]);
    ConcatLast(blocks);
    assert blocks[n - 1] == CloseMarker + info + "";
    EndsWithAppended(before, "", CloseMarker + info);
    var d := before + (CloseMarker + info + "");
    BaseInfoEnding(chain[n - 1]);
    LastButOneOfAppended(before, CloseMarker + info + "");
    LastButOneOfAppended(CloseMarker, info);
    if EndsWith(d, SelfReferenceLine) {
      EndsWithLastButOne(d, SelfReferenceLine);
    }
  }

  /** The diagram ends with the self-reference loop exactly when the cycle starts at
      the last entry (the requested class is the one on top of the chain). */
  lemma SelfReferenceIffStartIsLast(chain: Chain, context: DependencyContext)
    requires chain != []
    ensures EndsWith(CycleDiagram(chain, context), SelfReferenceLine)
            <==> CycleStart(chain, context.beanClass) == |chain| - 1
  {
    var start := CycleStart(chain, context.beanClass);
    if start == |chain| - 1 {
      SelfReferenceWhenOpensAtTop(chain, start);
    } else {
      NoSelfReferenceBelowTop(chain, start);
    }
  }

  /*
   * The cycle check and the chain it guards.
   */

  /** The classification of the cycle `context` would close on `chain`: `None` when its
      class does not occur or the cycle is solvable (startDependencyCheck pushes). */
  function Rejection(chain: Chain, context: DependencyContext): Option<UnsolvableCycleType> {
    match CycleOf(chain, context.beanClass)
    case None => None
    case Some(cycle) => Classify(cycle)
  }

  /** Whether startDependencyCheck pushes `context` onto `chain`. */
  predicate Admits(chain: Chain, context: DependencyContext) {
    Rejection(chain, context).None?
  }

  /** The exception startDependencyCheck throws when it refuses `context`. */
  function RejectionError(chain: Chain, context: DependencyContext): CycleError
    requires !Admits(chain, context)
  {
    CycleError(Rejection(chain, context).value, context.beanClass, CycleDiagram(chain, context))
  }

  /** A constructor edge in a suffix is a constructor edge of the chain at or past its start. */
  lemma ConstructorEdgeInSuffix(chain: Chain, k: nat)
    requires k <= |chain|
    ensures HasConstructorEdge(chain[k..]) <==> exists j | k <= j < |chain| :: chain[j].ConstructorParameter?
  {
    var cycle := chain[k..];
    if HasConstructorEdge(cycle) {
      var j :| 0 <= j < |cycle| && cycle[j].ConstructorParameter?;
      assert chain[k + j] == cycle[j];
    }
    if exists j | k <= j < |chain| :: chain[j].ConstructorParameter? {
      var j :| k <= j < |chain| && chain[j].ConstructorParameter?;
      assert cycle[j - k] == chain[j];
    }
  }

  /** A singleton in a suffix is a singleton of the chain at or past its start. */
  lemma SingletonInSuffix(chain: Chain, k: nat)
    requires k <= |chain|
    ensures HasSingleton(chain[k..]) <==> exists j | k <= j < |chain| :: chain[j].singleton
  {
    var cycle := chain[k..];
    if HasSingleton(cycle) {
      var j :| 0 <= j < |cycle| && cycle[j].singleton;
      assert chain[k + j] == cycle[j];
    }
    if exists j | k <= j < |chain| :: chain[j].singleton {
      var j :| k <= j < |chain| && chain[j].singleton;
      assert cycle[j - k] == chain[j];
    }
  }

  /** The admission rule spelled out on the chain itself: a request is refused exactly
      when its class already occurs and the segment from the first occurrence to the
      top holds a constructor edge (a constructor cycle) or holds no singleton (an
      all-prototype cycle). */
  lemma RejectionIff(chain: Chain, context: DependencyContext, k: int)
    requires k == CycleStart(chain, context.beanClass)
    ensures Rejection(chain, context) == Some(ConstructorCycle) <==>
      k != -1 && exists j | k <= j < |chain| :: chain[j].ConstructorParameter?
    ensures Rejection(chain, context) == Some(AllPrototypeCycle) <==>
      && k != -1
      && (forall j | k <= j < |chain| :: chain[j].Field?)
      && (forall j | k <= j < |chain| :: !chain[j].singleton)
    ensures Admits(chain, context) <==>
      k == -1 || ((forall j | k <= j < |chain| :: chain[j].Field?) && (exists j | k <= j < |chain| :: chain[j].singleton))
  {
    if k != -1 {
      assert CycleOf(chain, context.beanClass) == Some(chain[k..]);
      ConstructorEdgeInSuffix(chain, k);
      SingletonInSuffix(chain, k);
    }
  }

  /** Every entry of the chain was admitted by the cycle check against the entries
      below it: the invariant that push (with check) and pop preserve. */
  ghost predicate Accepted(chain: Chain) {
    forall j {:trigger Admits(chain[..j], chain[j])} | 0 <= j < |chain| :: Admits(chain[..j], chain[j])
  }

  lemma AcceptedPush(chain: Chain, context: DependencyContext)
    requires Accepted(chain) && Admits(chain, context)
    ensures Accepted(chain + [context])
  {
    var longer := chain + [context];
    assert longer[..|chain|] == chain;
    forall j | 0 <= j < |chain| ensures longer[..j] == chain[..j] && longer[j] == chain[j] { }
  }

  lemma AcceptedPrefix(chain: Chain, n: nat)
    requires Accepted(chain) && n <= |chain|
    ensures Accepted(chain[..n])
  {
    var shorter := chain[..n];
    forall j | 0 <= j < n ensures shorter[..j] == chain[..j] && shorter[j] == chain[j] { }
  }

  /** The safety property the cycle check exists for: on any chain built by admitted
      pushes and pops, whenever a class recurs, the segment from its first occurrence
      up to the recurrence holds no constructor edge (no constructor can be handed a
      half-built object) and holds a singleton that can be exposed early. */
  lemma {:induction false} AcceptedCyclesAreSolvable(chain: Chain, j: nat)
    requires Accepted(chain) && j < |chain|
    ensures var k := CycleStart(chain[..j], chain[j].beanClass);
            k != -1 ==>
              && (forall m | k <= m < j :: chain[m].Field?)
              && (exists m | k <= m < j :: chain[m].singleton)
  {
    var prefix := chain[..j];
    var k := CycleStart(prefix, chain[j].beanClass);
    assert Admits(prefix, chain[j]);
    RejectionIff(prefix, chain[j], k);
    if k != -1 {
      assert forall m | k <= m < j :: chain[m] == prefix[m];
    }
  }

  /** The same property for any two entries of one class: every edge between them,
      from the earlier one on, is a field edge. */
  lemma NoConstructorEdgeInsideCycle(chain: Chain, i: nat, m: nat, j: nat)
    requires Accepted(chain)
    requires i <= m < j < |chain| && chain[i].beanClass == chain[j].beanClass
    ensures chain[m].Field?
  {
    AcceptedCyclesAreSolvable(chain, j);
    var k := CycleStart(chain[..j], chain[j].beanClass);
    assert chain[..j][i].beanClass == chain[j].beanClass;
  }

  /** The live chain of one construction request (BeanResolutionContext). */
  class BeanResolutionContext {
    var chain: Chain

    ghost predicate Valid()
      reads this
    {
      Accepted(chain)
    }

    constructor ()
      ensures Valid() && chain == []
    {
      chain := [];
    }

    /** startDependencyCheck: pushes `context` unless it closes an unsolvable cycle,
        in which case the error is returned (thrown, in Java) and the chain is left as
        it was. */
    method StartDependencyCheck(context: DependencyContext) returns (thrown: Option<CycleError>)
      requires Valid()
      modifies this
      ensures Valid()
      ensures thrown.None? <==> Admits(old(chain), context)
      ensures thrown.None? ==> chain == old(chain) + [context]
      ensures thrown.Some? ==> thrown.value == RejectionError(old(chain), context) && chain == old(chain)
    {
      var cycle := ExtractCircularDependencyChainOf(chain, context);
      if cycle.Some? {
        var kind := IsUnsolvableCycle(cycle.value);
        if kind.Some? {
          var message := BuildCycleMessage(chain, context);
          return Some(CycleError(kind.value, context.beanClass, message));
        }
      }
      AcceptedPush(chain, context);
      chain := chain + [context];
      return None;
    }

    /** endDependencyCheck: pops the top entry. On an empty chain Java's removeLast
        throws NoSuchElementException; that is reported as `empty`, with the chain
        left as it was. */
    method EndDependencyCheck() returns (empty: bool)
      requires Valid()
      modifies this
      ensures Valid()
      ensures empty <==> old(chain) == []
      ensures empty ==> chain == old(chain)
      ensures !empty ==> chain == old(chain)[..|old(chain)| - 1]
    {
      if chain == [] {
        return true;
      }
      var top := |chain| - 1;
      AcceptedPrefix(chain, top);
      chain := chain[..top];
      return false;
    }
  }
}
