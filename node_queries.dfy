// The queries NodeExtensions offers on a parse tree: the first typed value,
// by type and by name, with an error or a default when there is none;
// whether a tree holds a typed node; a node's own value (TryGetValue); and
// Process, which folds the tree's values with an accumulator.
module NodeQueries {
  import opened Outcomes
  import opened Rules
  import opened Nodes
  import opened Traversal
  import opened Values

  /** The node is a ValueNode<T> named name. */
  function IsNamedValueNodeOf<V>(ty: TypeName, name: string): Node<V> -> bool
  {
    (n: Node<V>) => IsValueNode(n, ty) && n.name == Some(name)
  }

  /** The node is named name. */
  function IsNamed<V>(name: string): Node<V> -> bool
  {
    (n: Node<V>) => n.name == Some(name)
  }

  /** FirstValueNodeOrDefault<T>: the first ValueNode<T> in pre-order, root included, or none. */
  function FirstValueNodeOrDefault<V>(root: Node<V>, ty: TypeName): (r: Option<Node<V>>)
    ensures r.Some? ==> IsValueNode(r.value, ty)
    ensures r.None? <==> forall k :: 0 <= k < |PreOrder(root)| ==> !IsValueNode(PreOrder(root)[k], ty)
    ensures r.Some? ==> exists k :: 0 <= k < |PreOrder(root)| && PreOrder(root)[k] == r.value &&
                                    forall j :: 0 <= j < k ==> !IsValueNode(PreOrder(root)[j], ty)
  {
    FirstWhereIsFirstInPreOrder(root, IsValueNodeOf(ty));
    FirstWhere(root, IsValueNodeOf(ty))
  }

  /** FirstValueNode<T>: as above, but First() throws when there is none. */
  function FirstValueNode<V>(root: Node<V>, ty: TypeName): (r: Result<Node<V>>)
    ensures r.Ok? <==> FirstValueNodeOrDefault(root, ty).Some?
    ensures r.Ok? ==> r.value == FirstValueNodeOrDefault(root, ty).value && IsValueNode(r.value, ty)
    ensures r.Err? ==> r.error == NoElements
  {
    match FirstValueNodeOrDefault(root, ty)
    case None => Err(NoElements)
    case Some(n) => Ok(n)
  }

  /** FirstValue<T>: the value of the first ValueNode<T>; an EvaluatorException when there is none. */
  lemma FirstValueReadsFirstValueNode<V>(ctx: Context<V>, root: Node<V>, ty: TypeName, fuel: nat)
    ensures FirstValueNodeOrDefault(root, ty).None? ==>
              NodeFirstValue(ctx, root, ty, fuel) == Err(EvaluatorError(ValueNodeNotFound))
    ensures FirstValueNodeOrDefault(root, ty).Some? ==>
              NodeFirstValue(ctx, root, ty, fuel) == Value(ctx, FirstValueNodeOrDefault(root, ty).value, fuel)
  {
  }

  /** FirstValueOrDefault<T>: default(T) where FirstValue would throw for want of a node. */
  function FirstValueOrDefault<V>(ctx: Context<V>, root: Node<V>, ty: TypeName, fuel: nat): (r: Result<V>)
    ensures FirstValueNodeOrDefault(root, ty).None? ==> r == Ok(ctx.zero)
    ensures FirstValueNodeOrDefault(root, ty).Some? ==> r == NodeFirstValue(ctx, root, ty, fuel)
  {
    match FirstValueNodeOrDefault(root, ty)
    case None => Ok(ctx.zero)
    case Some(n) => Value(ctx, n, fuel)
  }

  /** The first ValueNode<T> named name, in pre-order. */
  function FirstValueNodeByName<V>(root: Node<V>, ty: TypeName, name: string): (r: Option<Node<V>>)
    ensures r.Some? ==> IsValueNode(r.value, ty) && r.value.name == Some(name)
    ensures r.None? <==> forall k :: 0 <= k < |PreOrder(root)| ==>
              !(IsValueNode(PreOrder(root)[k], ty) && PreOrder(root)[k].name == Some(name))
    ensures r.Some? ==> exists k :: 0 <= k < |PreOrder(root)| && PreOrder(root)[k] == r.value &&
                                    forall j :: 0 <= j < k ==>
                                      !(IsValueNode(PreOrder(root)[j], ty) && PreOrder(root)[j].name == Some(name))
  {
    FirstWhereIsFirstInPreOrder(root, IsNamedValueNodeOf(ty, name));
    FirstWhere(root, IsNamedValueNodeOf(ty, name))
  }

  /** FirstValueByName<T>: type and name must both match; an EvaluatorException when none does. */
  function FirstValueByName<V>(ctx: Context<V>, root: Node<V>, ty: TypeName, name: string, fuel: nat): (r: Result<V>)
    ensures FirstValueNodeByName(root, ty, name).None? ==>
              r == Err(EvaluatorError("ValueNode with name '" + name + "' not found"))
    ensures FirstValueNodeByName(root, ty, name).Some? ==> r == Value(ctx, FirstValueNodeByName(root, ty, name).value, fuel)
  {
    match FirstValueNodeByName(root, ty, name)
    case None => Err(EvaluatorError("ValueNode with name '" + name + "' not found"))
    case Some(n) => Value(ctx, n, fuel)
  }

  /** FirstValueByNameOrDefault<T>: default(T) instead of the EvaluatorException. */
  function FirstValueByNameOrDefault<V>(ctx: Context<V>, root: Node<V>, ty: TypeName, name: string, fuel: nat)
    : (r: Result<V>)
    ensures FirstValueNodeByName(root, ty, name).None? ==> r == Ok(ctx.zero)
    ensures FirstValueNodeByName(root, ty, name).Some? ==> r == FirstValueByName(ctx, root, ty, name, fuel)
  {
    match FirstValueNodeByName(root, ty, name)
    case None => Ok(ctx.zero)
    case Some(n) => Value(ctx, n, fuel)
  }

  /** FirstNodeByNameOrDefault: the first node named name, typed or not, in pre-order. */
  function FirstNodeByNameOrDefault<V>(root: Node<V>, name: string): (r: Option<Node<V>>)
    ensures r.Some? ==> r.value.name == Some(name)
    ensures r.None? <==> forall k :: 0 <= k < |PreOrder(root)| ==> PreOrder(root)[k].name != Some(name)
    ensures r.Some? ==> exists k :: 0 <= k < |PreOrder(root)| && PreOrder(root)[k] == r.value &&
                                    forall j :: 0 <= j < k ==> PreOrder(root)[j].name != Some(name)
  {
    FirstWhereIsFirstInPreOrder(root, IsNamed(name));
    FirstWhere(root, IsNamed(name))
  }

  /** FirstNodeByName: as above, with an EvaluatorException when there is none. */
  function FirstNodeByName<V>(root: Node<V>, name: string): (r: Result<Node<V>>)
    ensures r.Ok? <==> FirstNodeByNameOrDefault(root, name).Some?
    ensures r.Ok? ==> r.value.name == Some(name) && r.value == FirstNodeByNameOrDefault(root, name).value
    ensures r.Err? ==> r.error == EvaluatorError("Node with name '" + name + "' not found")
  {
    match FirstNodeByNameOrDefault(root, name)
    case None => Err(EvaluatorError("Node with name '" + name + "' not found"))
    case Some(n) => Ok(n)
  }

  /** ContainsValueNode: some node of the tree, root included, is a ValueNode of any type. */
  function ContainsValueNode<V>(root: Node<V>): (r: bool)
    ensures r <==> exists k :: 0 <= k < |PreOrder(root)| && IsAnyValueNode(PreOrder(root)[k])
  {
    var p := (n: Node<V>) => IsAnyValueNode(n);
    FirstWhereIsFirstInPreOrder(root, p);
    FirstWhere(root, p).Some?
  }

  /** ContainsValueNode<T>: some node of the tree, root included, is a ValueNode<T>. */
  function ContainsValueNodeOf<V>(root: Node<V>, ty: TypeName): (r: bool)
    ensures r <==> exists k :: 0 <= k < |PreOrder(root)| && IsValueNode(PreOrder(root)[k], ty)
  {
    FirstValueNodeOrDefault(root, ty).Some?
  }

  /** A typed tree holds a typed node; a tree holding a ValueNode<T> holds a value node. */
  lemma ContainsValueNodeOfImplies<V>(root: Node<V>, ty: TypeName)
    ensures ContainsValueNodeOf(root, ty) ==> ContainsValueNode(root)
    ensures IsAnyValueNode(root) ==> ContainsValueNode(root) && ContainsValueNodeOf(root, root.kind.ty)
  {
    if ContainsValueNodeOf(root, ty) {
      var k :| 0 <= k < |PreOrder(root)| && IsValueNode(PreOrder(root)[k], ty);
      assert IsAnyValueNode(PreOrder(root)[k]);
    }
    if IsAnyValueNode(root) {
      assert PreOrder(root)[0] == root;
    }
  }

  /**
   * TryGetValue<T>: the node's own value when it is a ValueNode<T>, and
   * (false, default(T)) otherwise; the descendants are never looked at.
   */
  function TryGetValue<V>(ctx: Context<V>, n: Node<V>, ty: TypeName, fuel: nat): (r: Result<(bool, V)>)
    ensures !IsValueNode(n, ty) ==> r == Ok((false, ctx.zero))
    ensures IsValueNode(n, ty) ==> (r.Ok? <==> Value(ctx, n, fuel).Ok?)
    ensures IsValueNode(n, ty) && r.Ok? ==> r.value == (true, Value(ctx, n, fuel).value)
  {
    if IsValueNode(n, ty) then
      var value :- Value(ctx, n, fuel);
      Ok((true, value))
    else
      Ok((false, ctx.zero))
  }

  // ---------------------------------------------------------------------
  // Process.
  // ---------------------------------------------------------------------

  /**
   * ProcessImpl: a ValueNode<T> yields accumulator(current, its value) and
   * is not descended into; any other node runs `current :=
   * accumulator(current, ProcessImpl(child, current))` over its children.
   */
  function ProcessNode<V>(ctx: Context<V>, ty: TypeName, accumulator: (V, V) -> V, n: Node<V>, current: V,
                          fuel: nat): Result<V>
    decreases n, 1
  {
    if IsValueNode(n, ty) then
      var value :- Value(ctx, n, fuel);
      Ok(accumulator(current, value))
    else
      ProcessChildren(ctx, ty, accumulator, n.children, current, fuel)
  }

  function ProcessChildren<V>(ctx: Context<V>, ty: TypeName, accumulator: (V, V) -> V, ns: seq<Node<V>>, current: V,
                              fuel: nat): Result<V>
    decreases ns, 0
  {
    if ns == [] then Ok(current)
    else
      var sub :- ProcessNode(ctx, ty, accumulator, ns[0], current, fuel);
      ProcessChildren(ctx, ty, accumulator, ns[1..], accumulator(current, sub), fuel)
  }

  /** ProcessImpl as the library writes it: a foreach reassigning current. */
  method ProcessImpl<V>(ctx: Context<V>, ty: TypeName, accumulator: (V, V) -> V, node: Node<V>, current: V,
                        fuel: nat) returns (r: Result<V>)
    ensures r == ProcessNode(ctx, ty, accumulator, node, current, fuel)
    decreases node
  {
    if IsValueNode(node, ty) {
      var value := Value(ctx, node, fuel);
      if value.Err? {
        return Err(value.error);
      }
      return Ok(accumulator(current, value.value));
    }
    var acc := current;
    var i := 0;
    while i < |node.children|
      invariant 0 <= i <= |node.children|
      invariant ProcessChildren(ctx, ty, accumulator, node.children, current, fuel) ==
                ProcessChildren(ctx, ty, accumulator, node.children[i..], acc, fuel)
    {
      assert node.children[i..][1..] == node.children[i + 1..];
      var sub := ProcessImpl(ctx, ty, accumulator, node.children[i], acc, fuel);
      if sub.Err? {
        return Err(sub.error);
      }
      acc := accumulator(acc, sub.value);
      i := i + 1;
    }
    assert node.children[i..] == [];
    return Ok(acc);
  }

  /** Process: ProcessImpl from the root, seeded with default(T). */
  method Process<V>(ctx: Context<V>, ty: TypeName, accumulator: (V, V) -> V, root: Node<V>, fuel: nat)
    returns (r: Result<V>)
    ensures r == ProcessNode(ctx, ty, accumulator, root, ctx.zero, fuel)
  {
    r := ProcessImpl(ctx, ty, accumulator, root, ctx.zero, fuel);
  }

  /**
   * A tree whose typed nodes are exactly its children, each read as vs[i]:
   * Process gives the children's values combined as current :=
   * accumulator(current, accumulator(current, vs[i])), not a plain fold.
   */
  function Twice<V>(accumulator: (V, V) -> V, current: V, vs: seq<V>): V
    decreases |vs|
  {
    if vs == [] then current else Twice(accumulator, accumulator(current, accumulator(current, vs[0])), vs[1..])
  }

  lemma {:induction false} ProcessTypedChildren<V>(ctx: Context<V>, ty: TypeName, accumulator: (V, V) -> V,
                                                   ns: seq<Node<V>>, vs: seq<V>, current: V, fuel: nat)
    requires |ns| == |vs|
    requires forall i :: 0 <= i < |ns| ==> IsValueNode(ns[i], ty) && Value(ctx, ns[i], fuel) == Ok(vs[i])
    ensures ProcessChildren(ctx, ty, accumulator, ns, current, fuel) == Ok(Twice(accumulator, current, vs))
    decreases |ns|
  {
    if ns != [] {
      ProcessTypedChildren(ctx, ty, accumulator, ns[1..], vs[1..], accumulator(current, accumulator(current, vs[0])), fuel);
    }
  }
}
