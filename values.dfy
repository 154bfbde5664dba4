// The typed-value overlay: the value a ValueNode<T> yields when its Value
// property is read, for each kind of value rule that can create it
// (ConstantValueRule, ConvertToValueRule, FirstValueRule, AccumulateRule,
// EvaluateLeafsRule, RangeValueRule), and the left fold the accumulating
// rules run over the typed values below the node.
//
// A read can fail (an exception in the library): Result.Err.  A
// RangeValueRule re-parses the node's text with its own child rule, so the
// evaluation of a node can parse, and that parse can produce nodes to
// evaluate; the fuel parameter bounds this, as it bounds matching.
module Values {
  import opened Outcomes
  import opened Rules
  import opened Nodes
  import opened Traversal
  import opened Definitions
  import opened Matching

  /**
   * What evaluation needs beyond the tree: the lazy references of the
   * grammar (for the re-parse of RangeValueRule), the node converters of
   * ConvertToValueRule by id, and default(T).
   */
  datatype Context<!V> = Context(refs: Refs<V>, convert: (ConverterId, Node<V>) -> V, zero: V)

  /** NodeExtensions.IsValueNode<T> as a predicate value, for the tree searches. */
  function IsValueNodeOf<V>(ty: TypeName): Node<V> -> bool
  {
    n => IsValueNode(n, ty)
  }

  const AccumulateEmptyMessage := "The AccumulateRule did not yield any results"
  const RangeMessage := "The value doesn't meet the expected range."
  const ValueNodeNotFound := "ValueNode not found"

  /**
   * The ValueNode<T>s below a list of sibling subtrees that lie under no
   * other ValueNode<T> of that list: pre-order, a typed node is collected
   * and its own subtree is not searched further (AccumulateRule's `set`).
   */
  function Frontier<V>(ns: seq<Node<V>>, ty: TypeName): (r: seq<Node<V>>)
    ensures forall i :: 0 <= i < |r| ==> IsValueNode(r[i], ty) && Size(r[i]) <= SizeOf(ns)
    decreases ns
  {
    if ns == [] then []
    else
      var head := if IsValueNode(ns[0], ty) then [ns[0]] else Frontier(ns[0].children, ty);
      var rest := Frontier(ns[1..], ty);
      assert forall i :: 0 <= i < |head| ==> Size(head[i]) <= SizeOf(ns);
      head + rest
  }

  /** The nodes of ns are all below parent. */
  ghost predicate Below<V>(parent: Node<V>, ns: seq<Node<V>>)
  {
    forall j :: 0 <= j < |ns| ==> Size(ns[j]) < Size(parent)
  }

  /** ValueNode<T>.Value: the value a typed node yields when read. */
  function Value<V>(ctx: Context<V>, n: Node<V>, fuel: nat): Result<V>
    requires n.kind.Valued?
    decreases fuel, Size(n), 1, 0
  {
    var ty := n.kind.ty;
    match n.kind.eval
    case Constant(value) => Ok(value)
    case ConvertToValue(converter) =>
      (match converter
       case FromText(parse) => var text :- Text(n); Ok(parse(text))
       case FromNode(id) => Ok(ctx.convert(id, n)))
    case FirstValue =>
      var found := WhereLeafsAll(n.children, IsValueNodeOf(ty));
      if |found| == 0 then Err(NoElements) else Value(ctx, found[0], fuel)
    case Accumulate(accumulator) =>
      FoldFrom(ctx, n, Frontier(n.children, ty), 0, accumulator, None, EvaluatorError(AccumulateEmptyMessage), fuel)
    case EvaluateLeafs(accumulator) =>
      FoldFrom(ctx, n, WhereLeafsAll(n.children, IsValueNodeOf(ty)), 0, accumulator, None, NotImplemented, fuel)
    case RangeValue(minimum, maximum, comparer) =>
      var text :- Text(n);
      if fuel == 0 then Err(Diverged)
      else
        var root :- ParseTreeSpec(ctx.refs, n.kind.inner, text, fuel - 1);
        var value :- NodeFirstValue(ctx, root, ty, fuel - 1);
        if comparer(minimum, value) > 0 || comparer(maximum, value) < 0 then Err(EvaluatorError(RangeMessage))
        else Ok(value)
  }

  /**
   * The foreach of AccumulateRule and EvaluateLeafsRule from leaf i on:
   * the first value read is the seed (current is None until then), each
   * later one is combined as accumulator(current, value); no value at all
   * is the error none.  A failing read ends the loop with its error.
   */
  function FoldFrom<V>(ctx: Context<V>, parent: Node<V>, leafs: seq<Node<V>>, i: nat, accumulator: (V, V) -> V,
                       current: Option<V>, none: Error, fuel: nat): Result<V>
    requires i <= |leafs| && Below(parent, leafs)
    requires forall j :: 0 <= j < |leafs| ==> leafs[j].kind.Valued?
    decreases fuel, Size(parent), 0, |leafs| - i
  {
    if i == |leafs| then
      if current.None? then Err(none) else Ok(current.value)
    else
      var value :- Value(ctx, leafs[i], fuel);
      FoldFrom(ctx, parent, leafs, i + 1, accumulator,
               Some(if current.None? then value else accumulator(current.value, value)), none, fuel)
  }

  /** NodeExtensions.FirstValue<T>: the value of the first ValueNode<T> in pre-order, root included. */
  function NodeFirstValue<V>(ctx: Context<V>, root: Node<V>, ty: TypeName, fuel: nat): Result<V>
    decreases fuel, Size(root), 2, 0
  {
    match FirstWhere(root, IsValueNodeOf(ty))
    case None => Err(EvaluatorError(ValueNodeNotFound))
    case Some(found) => Value(ctx, found, fuel)
  }

  // ---------------------------------------------------------------------
  // The fold as a reference: the values read, then a plain left fold.
  // ---------------------------------------------------------------------

  /** accumulator(...accumulator(accumulator(seed, vs[0]), vs[1])..., vs[|vs|-1]). */
  function FoldLeft<V>(accumulator: (V, V) -> V, seed: V, vs: seq<V>): V
    decreases |vs|
  {
    if vs == [] then seed else accumulator(FoldLeft(accumulator, seed, vs[..|vs| - 1]), vs[|vs| - 1])
  }

  /** The values of leafs i onwards, read in order; the first failing read's error. */
  ghost function ReadValues<V>(ctx: Context<V>, parent: Node<V>, leafs: seq<Node<V>>, i: nat, fuel: nat)
    : Result<seq<V>>
    requires i <= |leafs| && Below(parent, leafs)
    requires forall j :: 0 <= j < |leafs| ==> leafs[j].kind.Valued?
    decreases |leafs| - i
  {
    if i == |leafs| then Ok([])
    else
      var value :- Value(ctx, leafs[i], fuel);
      var rest :- ReadValues(ctx, parent, leafs, i + 1, fuel);
      Ok([value] + rest)
  }

  lemma {:induction false} FoldLeftStep<V>(accumulator: (V, V) -> V, seed: V, v: V, vs: seq<V>)
    ensures FoldLeft(accumulator, accumulator(seed, v), vs) == FoldLeft(accumulator, seed, [v] + vs)
    decreases |vs|
  {
    if vs != [] {
      var w := [v] + vs;
      assert w[..|w| - 1] == [v] + vs[..|vs| - 1];
      FoldLeftStep(accumulator, seed, v, vs[..|vs| - 1]);
    } else {
      assert ([v] + vs)[..0] == [];
    }
  }

  /**
   * The loop computes the left fold of the values it reads, seeded with the
   * first, and fails with the first failing read.
   */
  lemma {:induction false} FoldFromIsFoldLeft<V>(ctx: Context<V>, parent: Node<V>, leafs: seq<Node<V>>, i: nat,
                                                 accumulator: (V, V) -> V, current: Option<V>, none: Error, fuel: nat)
    requires i <= |leafs| && Below(parent, leafs)
    requires forall j :: 0 <= j < |leafs| ==> leafs[j].kind.Valued?
    ensures var read := ReadValues(ctx, parent, leafs, i, fuel);
      var fold := FoldFrom(ctx, parent, leafs, i, accumulator, current, none, fuel);
      && (read.Err? ==> fold == Err(read.error))
      && (read.Ok? && current.Some? ==> fold == Ok(FoldLeft(accumulator, current.value, read.value)))
      && (read.Ok? && current.None? && read.value == [] ==> fold == Err(none))
      && (read.Ok? && current.None? && read.value != [] ==>
            fold == Ok(FoldLeft(accumulator, read.value[0], read.value[1..])))
    decreases |leafs| - i
  {
    if i < |leafs| {
      var value := Value(ctx, leafs[i], fuel);
      if value.Ok? {
        var next := Some(if current.None? then value.value else accumulator(current.value, value.value));
        FoldFromIsFoldLeft(ctx, parent, leafs, i + 1, accumulator, next, none, fuel);
        var read := ReadValues(ctx, parent, leafs, i + 1, fuel);
        if read.Ok? {
          if current.Some? {
            FoldLeftStep(accumulator, current.value, value.value, read.value);
          } else {
            assert ([value.value] + read.value)[1..] == read.value;
          }
        }
      }
    }
  }

  /**
   * The loop of AccumulateRule.GetValue and EvaluateLeafsRule.GetValue:
   * `current` and `first` updated per leaf, each leaf's Value read in turn.
   */
  method FoldLeafValues<V>(ctx: Context<V>, parent: Node<V>, leafs: seq<Node<V>>, accumulator: (V, V) -> V,
                           none: Error, fuel: nat) returns (r: Result<V>)
    requires Below(parent, leafs)
    requires forall j :: 0 <= j < |leafs| ==> leafs[j].kind.Valued?
    ensures r == FoldFrom(ctx, parent, leafs, 0, accumulator, None, none, fuel)
  {
    var current := ctx.zero;
    var first := true;
    var i := 0;
    while i < |leafs|
      invariant 0 <= i <= |leafs|
      invariant first <==> i == 0
      invariant FoldFrom(ctx, parent, leafs, 0, accumulator, None, none, fuel) ==
                FoldFrom(ctx, parent, leafs, i, accumulator, if first then None else Some(current), none, fuel)
    {
      var value := Value(ctx, leafs[i], fuel);
      if value.Err? {
        return Err(value.error);
      }
      current := if first then value.value else accumulator(current, value.value);
      first := false;
      i := i + 1;
    }
    if first {
      return Err(none);
    }
    return Ok(current);
  }

  /** AccumulateRule.GetValue: the fold over the outermost typed values below the node. */
  method AccumulateGetValue<V>(ctx: Context<V>, n: Node<V>, fuel: nat) returns (r: Result<V>)
    requires n.kind.Valued? && n.kind.eval.Accumulate?
    ensures r == Value(ctx, n, fuel)
  {
    var leafs := Frontier(n.children, n.kind.ty);
    r := FoldLeafValues(ctx, n, leafs, n.kind.eval.accumulator, EvaluatorError(AccumulateEmptyMessage), fuel);
  }

  /** EvaluateLeafsRule.GetValue: the fold over every typed value below the node, in pre-order. */
  method EvaluateLeafsGetValue<V>(ctx: Context<V>, n: Node<V>, fuel: nat) returns (r: Result<V>)
    requires n.kind.Valued? && n.kind.eval.EvaluateLeafs?
    ensures r == Value(ctx, n, fuel)
  {
    var leafs := WhereLeafsAll(n.children, IsValueNodeOf(n.kind.ty));
    r := FoldLeafValues(ctx, n, leafs, n.kind.eval.accumulator, NotImplemented, fuel);
  }

  // ---------------------------------------------------------------------
  // What each value rule promises.
  // ---------------------------------------------------------------------

  /** ConstantValueRule: the value is the constant, whatever text and children the node has. */
  lemma ConstantIgnoresMatch<V>(ctx: Context<V>, n: Node<V>, m: Node<V>, fuel: nat)
    requires n.kind.Valued? && n.kind.eval.Constant?
    requires m.kind == n.kind
    ensures Value(ctx, n, fuel) == Value(ctx, m, fuel) == Ok(n.kind.eval.value)
  {
  }

  /**
   * FirstValueRule: the value of the first ValueNode<T> in pre-order over
   * the children's subtrees, the node itself excluded; NoElements when
   * there is none.
   */
  lemma FirstValueIsFirstTypedDescendant<V>(ctx: Context<V>, n: Node<V>, fuel: nat)
    requires n.kind.Valued? && n.kind.eval.FirstValue?
    ensures var below := PreOrderAll(n.children);
      && ((forall k :: 0 <= k < |below| ==> !IsValueNode(below[k], n.kind.ty)) ==> Value(ctx, n, fuel) == Err(NoElements))
      && ((exists k :: 0 <= k < |below| && IsValueNode(below[k], n.kind.ty)) ==>
            exists k :: 0 <= k < |below| && IsValueNode(below[k], n.kind.ty) &&
                        (forall j :: 0 <= j < k ==> !IsValueNode(below[j], n.kind.ty)) &&
                        Value(ctx, n, fuel) == Value(ctx, below[k], fuel))
  {
    var p := IsValueNodeOf<V>(n.kind.ty);
    var below := PreOrderAll(n.children);
    WhereLeafsAllIsFilteredPreOrder(n.children, p);
    FilterHead(below, p);
    var found := WhereLeafsAll(n.children, p);
    if |found| > 0 {
      var k :| 0 <= k < |below| && below[k] == Filter(below, p)[0] && p(below[k]) && forall j :: 0 <= j < k ==> !p(below[j]);
      assert Value(ctx, n, fuel) == Value(ctx, below[k], fuel);
    }
  }

  /**
   * AccumulateRule: when the outermost typed values below the node read as
   * vs, the value is vs[0] combined left to right with the rest; a single
   * value is returned as is; none is an EvaluatorException.
   */
  lemma AccumulateFolds<V>(ctx: Context<V>, n: Node<V>, fuel: nat)
    requires n.kind.Valued? && n.kind.eval.Accumulate?
    ensures var leafs := Frontier(n.children, n.kind.ty);
      var read := ReadValues(ctx, n, leafs, 0, fuel);
      && (read.Err? ==> Value(ctx, n, fuel) == Err(read.error))
      && (read == Ok([]) ==> Value(ctx, n, fuel) == Err(EvaluatorError(AccumulateEmptyMessage)))
      && (read.Ok? && |read.value| == 1 ==> Value(ctx, n, fuel) == Ok(read.value[0]))
      && (read.Ok? && read.value != [] ==>
            Value(ctx, n, fuel) == Ok(FoldLeft(n.kind.eval.accumulator, read.value[0], read.value[1..])))
  {
    var leafs := Frontier(n.children, n.kind.ty);
    var none := EvaluatorError(AccumulateEmptyMessage);
    assert Value(ctx, n, fuel) == FoldFrom(ctx, n, leafs, 0, n.kind.eval.accumulator, None, none, fuel);
    FoldFromIsFoldLeft(ctx, n, leafs, 0, n.kind.eval.accumulator, None, none, fuel);
  }

  /** EvaluateLeafsRule: the same fold over every typed value below the node, in pre-order. */
  lemma EvaluateLeafsFolds<V>(ctx: Context<V>, n: Node<V>, fuel: nat)
    requires n.kind.Valued? && n.kind.eval.EvaluateLeafs?
    ensures var leafs := WhereLeafsAll(n.children, IsValueNodeOf(n.kind.ty));
      var read := ReadValues(ctx, n, leafs, 0, fuel);
      && (read.Err? ==> Value(ctx, n, fuel) == Err(read.error))
      && (read == Ok([]) ==> Value(ctx, n, fuel) == Err(NotImplemented))
      && (read.Ok? && read.value != [] ==>
            Value(ctx, n, fuel) == Ok(FoldLeft(n.kind.eval.accumulator, read.value[0], read.value[1..])))
  {
    var leafs := WhereLeafsAll(n.children, IsValueNodeOf(n.kind.ty));
    assert Value(ctx, n, fuel) == FoldFrom(ctx, n, leafs, 0, n.kind.eval.accumulator, None, NotImplemented, fuel);
    FoldFromIsFoldLeft(ctx, n, leafs, 0, n.kind.eval.accumulator, None, NotImplemented, fuel);
  }

  /**
   * RangeValueRule: the value is the first typed value of the re-parsed
   * text, accepted exactly when minimum <= value <= maximum under the
   * comparer (both bounds inclusive) and returned unchanged.
   */
  lemma RangeChecksBounds<V>(ctx: Context<V>, n: Node<V>, fuel: nat)
    requires n.kind.Valued? && n.kind.eval.RangeValue?
    requires fuel > 0 && Text(n).Ok? && ParseTreeSpec(ctx.refs, n.kind.inner, Text(n).value, fuel - 1).Ok?
    ensures var e := n.kind.eval;
      var root := ParseTreeSpec(ctx.refs, n.kind.inner, Text(n).value, fuel - 1).value;
      var candidate := NodeFirstValue(ctx, root, n.kind.ty, fuel - 1);
      && (candidate.Err? ==> Value(ctx, n, fuel) == candidate)
      && (candidate.Ok? ==>
            (Value(ctx, n, fuel) == Ok(candidate.value) <==>
               e.comparer(e.minimum, candidate.value) <= 0 && e.comparer(e.maximum, candidate.value) >= 0))
      && (candidate.Ok? && Value(ctx, n, fuel).Err? ==> Value(ctx, n, fuel) == Err(EvaluatorError(RangeMessage)))
  {
  }

  /** A value the range rule yields lies within its bounds. */
  lemma RangeResultWithinBounds<V>(ctx: Context<V>, n: Node<V>, fuel: nat)
    requires n.kind.Valued? && n.kind.eval.RangeValue? && Value(ctx, n, fuel).Ok?
    ensures var e := n.kind.eval;
      e.comparer(e.minimum, Value(ctx, n, fuel).value) <= 0 && e.comparer(e.maximum, Value(ctx, n, fuel).value) >= 0
  {
  }

  // ---------------------------------------------------------------------
  // The two accumulating rules agree when typed values do not nest.
  // ---------------------------------------------------------------------

  /** No ValueNode<T> of these subtrees has another ValueNode<T> below it. */
  ghost predicate Unnested<V>(ns: seq<Node<V>>, ty: TypeName)
    decreases ns
  {
    ns != [] ==>
      (IsValueNode(ns[0], ty) ==> WhereLeafsAll(ns[0].children, IsValueNodeOf(ty)) == []) &&
      Unnested(ns[0].children, ty) && Unnested(ns[1..], ty)
  }

  /** Without nesting, the outermost typed values are all the typed values, in pre-order. */
  lemma {:induction false} FrontierWithoutNesting<V>(ns: seq<Node<V>>, ty: TypeName)
    requires Unnested(ns, ty)
    ensures Frontier(ns, ty) == WhereLeafsAll(ns, IsValueNodeOf(ty))
    decreases ns
  {
    if ns != [] {
      FrontierWithoutNesting(ns[1..], ty);
      if !IsValueNode(ns[0], ty) {
        FrontierWithoutNesting(ns[0].children, ty);
      }
    }
  }

  /** Only the outermost typed values count: typed siblings are collected as they are. */
  lemma {:induction false} FrontierOfTypedSiblings<V>(ns: seq<Node<V>>, ty: TypeName)
    requires forall i :: 0 <= i < |ns| ==> IsValueNode(ns[i], ty)
    ensures Frontier(ns, ty) == ns
    decreases ns
  {
    if ns != [] {
      FrontierOfTypedSiblings(ns[1..], ty);
    }
  }

  /** With no nested values, AccumulateRule and EvaluateLeafsRule compute the same fold. */
  lemma AccumulateAgreesWithEvaluateLeafs<V>(ctx: Context<V>, n: Node<V>, m: Node<V>, fuel: nat)
    requires n.kind.Valued? && n.kind.eval.Accumulate? && Unnested(n.children, n.kind.ty)
    requires m == n.(kind := n.kind.(eval := EvaluateLeafs(n.kind.eval.accumulator)))
    ensures Value(ctx, n, fuel).Ok? <==> Value(ctx, m, fuel).Ok?
    ensures Value(ctx, n, fuel).Ok? ==> Value(ctx, n, fuel) == Value(ctx, m, fuel)
  {
    FrontierWithoutNesting(n.children, n.kind.ty);
    var leafs := Frontier(n.children, n.kind.ty);
    FoldFromIsFoldLeft(ctx, n, leafs, 0, n.kind.eval.accumulator, None, EvaluatorError(AccumulateEmptyMessage), fuel);
    FoldFromIsFoldLeft(ctx, m, leafs, 0, n.kind.eval.accumulator, None, NotImplemented, fuel);
    assert ReadValues(ctx, n, leafs, 0, fuel) == ReadValues(ctx, m, leafs, 0, fuel) by {
      ReadValuesParent(ctx, n, m, leafs, 0, fuel);
    }
  }

  /** The values read do not depend on which node the leafs are below. */
  lemma {:induction false} ReadValuesParent<V>(ctx: Context<V>, p: Node<V>, q: Node<V>, leafs: seq<Node<V>>, i: nat, fuel: nat)
    requires i <= |leafs| && Below(p, leafs) && Below(q, leafs)
    requires forall j :: 0 <= j < |leafs| ==> leafs[j].kind.Valued?
    ensures ReadValues(ctx, p, leafs, i, fuel) == ReadValues(ctx, q, leafs, i, fuel)
    decreases |leafs| - i
  {
    if i < |leafs| {
      ReadValuesParent(ctx, p, q, leafs, i + 1, fuel);
    }
  }
}
