// Parse-tree nodes (Node, and the ValueNode<T> family of the typed-value
// overlay).  A node is filled once by the capturing rule before anyone can
// see it, so it is a value here.  Which ValueNode<T> subclass a node is, and
// the T it carries, is recorded in its kind instead of being discovered by
// reflection.
module Nodes {
  import opened Outcomes
  import opened Rules

  /**
   * Plain: a Node.  Valued: a ValueNode<T> with T = ty, produced by a value
   * rule whose evaluation is eval and whose own child rule is inner.
   */
  datatype NodeKind<!V> = Plain | Valued(ty: TypeName, eval: Evaluation<V>, inner: Rule<V>)

  datatype Node<!V> = Node(
    name: Option<string>,
    input: string,
    begin: int,
    end: int,
    children: seq<Node<V>>,
    kind: NodeKind<V>)

  /** The Node constructor: end defaults to 0 and the children to none. */
  function MakeNode<V>(name: Option<string>, input: string, begin: int, end: int := 0,
                       children: seq<Node<V>> := []): (n: Node<V>)
    ensures n.name == name && n.input == input && n.begin == begin
    ensures n.end == end && n.children == children && n.kind.Plain?
  {
    Node(name, input, begin, end, children, Plain)
  }

  /**
   * The node a capturing rule creates when it starts to match at begin
   * (NodeRule.CreateNode, overridden by ValueRule.CreateNode to build the
   * ValueNode<T> of its kind).  Its end and children are filled in after the
   * child rule has matched.
   */
  function CreateNode<V>(kind: Capturing<V>, name: Option<string>, input: string,
                         begin: int, matchedRule: Rule<V>): (n: Node<V>)
    ensures n.name == name && n.input == input && n.begin == begin
    ensures n.end == 0 && n.children == []
    ensures kind.PlainNode? <==> n.kind.Plain?
    ensures kind.ValueOf? ==> n.kind.ty == kind.ty && n.kind.eval == kind.eval && n.kind.inner == matchedRule
  {
    match kind
    case PlainNode => MakeNode(name, input, begin)
    case ValueOf(ty, eval) => Node(name, input, begin, 0, [], Valued(ty, eval, matchedRule))
  }

  /** IsValueNode<T>: the node is a ValueNode<T> for T = ty. */
  predicate IsValueNode<V>(n: Node<V>, ty: TypeName)
  {
    n.kind.Valued? && n.kind.ty == ty
  }

  /** IsValueNode: the node is a ValueNode<T> for some T. */
  predicate IsAnyValueNode<V>(n: Node<V>)
  {
    n.kind.Valued?
  }

  function Length<V>(n: Node<V>): (len: int)
    ensures len >= 0
    ensures n.end <= n.begin ==> len == 0
    ensures n.begin <= n.end ==> n.begin + len == n.end
  {
    if n.end > n.begin then n.end - n.begin else 0
  }

  /** Input.Substring(Begin, Length), which throws outside the input. */
  function Text<V>(n: Node<V>): (r: Result<string>)
    ensures r.Ok? <==> 0 <= n.begin && n.begin + Length(n) <= |n.input|
    ensures r.Ok? ==> |r.value| == Length(n)
    ensures r.Ok? ==> forall i :: 0 <= i < |r.value| ==> r.value[i] == n.input[n.begin + i]
    ensures r.Err? ==> r.error == ArgumentOutOfRange
  {
    if 0 <= n.begin && n.begin + Length(n) <= |n.input| then
      Ok(n.input[n.begin..n.begin + Length(n)])
    else
      Err(ArgumentOutOfRange)
  }

  function IsLeaf<V>(n: Node<V>): (leaf: bool)
    ensures leaf <==> n.children == []
  {
    |n.children| == 0
  }

  function ChildCount<V>(n: Node<V>): (count: nat)
    ensures count == 0 <==> IsLeaf(n)
  {
    |n.children|
  }

  /** "{Name}: {Text}", where a missing name prints as nothing. */
  function ToString<V>(n: Node<V>): (r: Result<string>)
    ensures r.Ok? <==> Text(n).Ok?
    ensures r.Ok? ==> exists prefix :: r.value == prefix + ": " + Text(n).value &&
                                       (n.name.Some? ==> prefix == n.name.value) &&
                                       (n.name.None? ==> prefix == "")
  {
    var text :- Text(n);
    var prefix := if n.name.Some? then n.name.value else "";
    Ok(prefix + ": " + text)
  }
}
