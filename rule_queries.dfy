// RuleExtensions: the node queries applied to the tree a rule parses from an
// input.  The plain variants call ParseTree and so surface its
// ParserException when the rule does not match; the OrDefault variants,
// TryGetValue and ContainsValueNode call Match first and give the default
// (or false) when it answers false.  Match and ParseTree each run the rule
// on a fresh state; the lazy references they share resolve to the same
// rules in both runs (Engine.MatchImpl keeps Effective unchanged), so both
// are read here against the same references.  The overloads taking a
// ValueRule<T> behave exactly as those taking a Rule.
module RuleQueries {
  import opened Outcomes
  import opened Rules
  import opened Nodes
  import opened Traversal
  import opened Matching
  import opened Values
  import opened NodeQueries

  /** Match, then ParseTree when it matched: None when the rule does not match. */
  function MatchedTree<V>(ctx: Context<V>, r: Rule<V>, input: string, fuel: nat): (t: Result<Option<Node<V>>>)
    ensures MatchSpec(ctx.refs, r, input, fuel).Err? ==> t == Err(MatchSpec(ctx.refs, r, input, fuel).error)
    ensures MatchSpec(ctx.refs, r, input, fuel) == Ok(false) ==> t == Ok(None)
    ensures MatchSpec(ctx.refs, r, input, fuel) == Ok(true) ==>
              (t.Ok? <==> ParseTreeSpec(ctx.refs, r, input, fuel).Ok?) &&
              (t.Ok? ==> t.value == Some(ParseTreeSpec(ctx.refs, r, input, fuel).value))
  {
    var matched :- MatchSpec(ctx.refs, r, input, fuel);
    if !matched then Ok(None)
    else
      var root :- ParseTreeSpec(ctx.refs, r, input, fuel);
      Ok(Some(root))
  }

  /** Process: NodeExtensions.Process on the parsed tree. */
  function RuleProcess<V>(ctx: Context<V>, ty: TypeName, accumulator: (V, V) -> V, r: Rule<V>, input: string,
                          fuel: nat): (res: Result<V>)
    ensures ParseTreeSpec(ctx.refs, r, input, fuel).Err? ==> res == Err(ParseTreeSpec(ctx.refs, r, input, fuel).error)
    ensures ParseTreeSpec(ctx.refs, r, input, fuel).Ok? ==>
              res == ProcessNode(ctx, ty, accumulator, ParseTreeSpec(ctx.refs, r, input, fuel).value, ctx.zero, fuel)
  {
    var root :- ParseTreeSpec(ctx.refs, r, input, fuel);
    ProcessNode(ctx, ty, accumulator, root, ctx.zero, fuel)
  }

  /**
   * TryGetValue: (false, default) when the rule does not match; otherwise
   * the parsed root's own TryGetValue, which does not search below it.
   */
  function RuleTryGetValue<V>(ctx: Context<V>, r: Rule<V>, input: string, ty: TypeName, fuel: nat)
    : (res: Result<(bool, V)>)
    ensures MatchSpec(ctx.refs, r, input, fuel) == Ok(false) ==> res == Ok((false, ctx.zero))
    ensures MatchedTree(ctx, r, input, fuel).Ok? && MatchedTree(ctx, r, input, fuel).value.Some? ==>
              res == TryGetValue(ctx, MatchedTree(ctx, r, input, fuel).value.value, ty, fuel)
    ensures MatchedTree(ctx, r, input, fuel).Err? ==> res == Err(MatchedTree(ctx, r, input, fuel).error)
  {
    var tree :- MatchedTree(ctx, r, input, fuel);
    match tree
    case None => Ok((false, ctx.zero))
    case Some(root) => TryGetValue(ctx, root, ty, fuel)
  }

  /** FirstValue: the parse error when the rule does not match, else the tree's first typed value. */
  function RuleFirstValue<V>(ctx: Context<V>, r: Rule<V>, input: string, ty: TypeName, fuel: nat): (res: Result<V>)
    ensures ParseTreeSpec(ctx.refs, r, input, fuel).Err? ==> res == Err(ParseTreeSpec(ctx.refs, r, input, fuel).error)
    ensures ParseTreeSpec(ctx.refs, r, input, fuel).Ok? ==>
              res == NodeFirstValue(ctx, ParseTreeSpec(ctx.refs, r, input, fuel).value, ty, fuel)
  {
    var root :- ParseTreeSpec(ctx.refs, r, input, fuel);
    NodeFirstValue(ctx, root, ty, fuel)
  }

  /** FirstValueOrDefault: default(T) when the rule does not match. */
  function RuleFirstValueOrDefault<V>(ctx: Context<V>, r: Rule<V>, input: string, ty: TypeName, fuel: nat)
    : (res: Result<V>)
    ensures MatchSpec(ctx.refs, r, input, fuel) == Ok(false) ==> res == Ok(ctx.zero)
    ensures MatchedTree(ctx, r, input, fuel).Ok? && MatchedTree(ctx, r, input, fuel).value.Some? ==>
              res == FirstValueOrDefault(ctx, MatchedTree(ctx, r, input, fuel).value.value, ty, fuel)
    ensures MatchedTree(ctx, r, input, fuel).Err? ==> res == Err(MatchedTree(ctx, r, input, fuel).error)
  {
    var tree :- MatchedTree(ctx, r, input, fuel);
    match tree
    case None => Ok(ctx.zero)
    case Some(root) => FirstValueOrDefault(ctx, root, ty, fuel)
  }

  /** FirstValueByName: the parse error when the rule does not match. */
  function RuleFirstValueByName<V>(ctx: Context<V>, r: Rule<V>, input: string, ty: TypeName, name: string, fuel: nat)
    : (res: Result<V>)
    ensures ParseTreeSpec(ctx.refs, r, input, fuel).Err? ==> res == Err(ParseTreeSpec(ctx.refs, r, input, fuel).error)
    ensures ParseTreeSpec(ctx.refs, r, input, fuel).Ok? ==>
              res == FirstValueByName(ctx, ParseTreeSpec(ctx.refs, r, input, fuel).value, ty, name, fuel)
  {
    var root :- ParseTreeSpec(ctx.refs, r, input, fuel);
    FirstValueByName(ctx, root, ty, name, fuel)
  }

  /** FirstValueByNameOrDefault: default(T) when the rule does not match. */
  function RuleFirstValueByNameOrDefault<V>(ctx: Context<V>, r: Rule<V>, input: string, ty: TypeName, name: string,
                                            fuel: nat): (res: Result<V>)
    ensures MatchSpec(ctx.refs, r, input, fuel) == Ok(false) ==> res == Ok(ctx.zero)
    ensures MatchedTree(ctx, r, input, fuel).Ok? && MatchedTree(ctx, r, input, fuel).value.Some? ==>
              res == FirstValueByNameOrDefault(ctx, MatchedTree(ctx, r, input, fuel).value.value, ty, name, fuel)
    ensures MatchedTree(ctx, r, input, fuel).Err? ==> res == Err(MatchedTree(ctx, r, input, fuel).error)
  {
    var tree :- MatchedTree(ctx, r, input, fuel);
    match tree
    case None => Ok(ctx.zero)
    case Some(root) => FirstValueByNameOrDefault(ctx, root, ty, name, fuel)
  }

  /** FirstValueNode: the parse error when the rule does not match, else the first ValueNode<T>. */
  function RuleFirstValueNode<V>(ctx: Context<V>, r: Rule<V>, input: string, ty: TypeName, fuel: nat)
    : (res: Result<Node<V>>)
    ensures ParseTreeSpec(ctx.refs, r, input, fuel).Err? ==> res == Err(ParseTreeSpec(ctx.refs, r, input, fuel).error)
    ensures ParseTreeSpec(ctx.refs, r, input, fuel).Ok? ==>
              res == FirstValueNode(ParseTreeSpec(ctx.refs, r, input, fuel).value, ty)
  {
    var root :- ParseTreeSpec(ctx.refs, r, input, fuel);
    FirstValueNode(root, ty)
  }

  /** FirstValueNodeOrDefault: null (None) when the rule does not match. */
  function RuleFirstValueNodeOrDefault<V>(ctx: Context<V>, r: Rule<V>, input: string, ty: TypeName, fuel: nat)
    : (res: Result<Option<Node<V>>>)
    ensures MatchSpec(ctx.refs, r, input, fuel) == Ok(false) ==> res == Ok(None)
    ensures MatchedTree(ctx, r, input, fuel).Ok? && MatchedTree(ctx, r, input, fuel).value.Some? ==>
              res == Ok(FirstValueNodeOrDefault(MatchedTree(ctx, r, input, fuel).value.value, ty))
    ensures MatchedTree(ctx, r, input, fuel).Err? ==> res == Err(MatchedTree(ctx, r, input, fuel).error)
  {
    var tree :- MatchedTree(ctx, r, input, fuel);
    match tree
    case None => Ok(None)
    case Some(root) => Ok(FirstValueNodeOrDefault(root, ty))
  }

  /** ContainsValueNode: false when the rule does not match, else whether the tree holds a value node. */
  function RuleContainsValueNode<V>(ctx: Context<V>, r: Rule<V>, input: string, fuel: nat): (res: Result<bool>)
    ensures MatchSpec(ctx.refs, r, input, fuel) == Ok(false) ==> res == Ok(false)
    ensures MatchedTree(ctx, r, input, fuel).Ok? && MatchedTree(ctx, r, input, fuel).value.Some? ==>
              res == Ok(ContainsValueNode(MatchedTree(ctx, r, input, fuel).value.value))
    ensures MatchedTree(ctx, r, input, fuel).Err? ==> res == Err(MatchedTree(ctx, r, input, fuel).error)
  {
    var tree :- MatchedTree(ctx, r, input, fuel);
    match tree
    case None => Ok(false)
    case Some(root) => Ok(ContainsValueNode(root))
  }

  /** ContainsValueNode<T>: false when the rule does not match, else whether the tree holds a ValueNode<T>. */
  function RuleContainsValueNodeOf<V>(ctx: Context<V>, r: Rule<V>, input: string, ty: TypeName, fuel: nat)
    : (res: Result<bool>)
    ensures MatchSpec(ctx.refs, r, input, fuel) == Ok(false) ==> res == Ok(false)
    ensures MatchedTree(ctx, r, input, fuel).Ok? && MatchedTree(ctx, r, input, fuel).value.Some? ==>
              res == Ok(ContainsValueNodeOf(MatchedTree(ctx, r, input, fuel).value.value, ty))
    ensures MatchedTree(ctx, r, input, fuel).Err? ==> res == Err(MatchedTree(ctx, r, input, fuel).error)
  {
    var tree :- MatchedTree(ctx, r, input, fuel);
    match tree
    case None => Ok(false)
    case Some(root) => Ok(ContainsValueNodeOf(root, ty))
  }

  // ---------------------------------------------------------------------
  // A value rule's tree.
  // ---------------------------------------------------------------------

  /**
   * A ValueRule<T> that matches parses to exactly one node, the
   * ValueNode<T> it created: spanning what it matched from position 0 and
   * holding what its child captured.
   */
  lemma ValueRuleParsesToValueNode<V>(refs: Refs<V>, name: Option<string>, body: Rule<V>, ty: TypeName,
                                      eval: Evaluation<V>, input: string, fuel: nat)
    requires Run(refs.Effective(), Capture(name, body, ValueOf(ty, eval)), input, 0, fuel).Succeeded?
    ensures var res := Run(refs.Effective(), Capture(name, body, ValueOf(ty, eval)), input, 0, fuel);
      var root := ParseTreeSpec(refs, Capture(name, body, ValueOf(ty, eval)), input, fuel);
      && root.Ok? && IsValueNode(root.value, ty) && root.value.kind.eval == eval && root.value.kind.inner == body
      && root.value.name == name && root.value.begin == 0 && root.value.end == res.pos
  {
  }

  /**
   * So TryGetValue<T> of a ValueRule<T> that matches reads the rule's own
   * node: it answers true exactly when that value can be read.
   */
  lemma ValueRuleTryGetValue<V>(ctx: Context<V>, name: Option<string>, body: Rule<V>, ty: TypeName,
                                eval: Evaluation<V>, input: string, fuel: nat)
    requires MatchSpec(ctx.refs, Capture(name, body, ValueOf(ty, eval)), input, fuel) == Ok(true)
    ensures var root := ParseTreeSpec(ctx.refs, Capture(name, body, ValueOf(ty, eval)), input, fuel).value;
      var res := RuleTryGetValue(ctx, Capture(name, body, ValueOf(ty, eval)), input, ty, fuel);
      && (res.Ok? <==> Value(ctx, root, fuel).Ok?)
      && (res.Ok? ==> res.value == (true, Value(ctx, root, fuel).value))
  {
    ValueRuleParsesToValueNode(ctx.refs, name, body, ty, eval, input, fuel);
  }

  /** And ContainsValueNode<T> of a ValueRule<T> holds exactly when it matches. */
  lemma ValueRuleContainsValueNode<V>(ctx: Context<V>, name: Option<string>, body: Rule<V>, ty: TypeName,
                                      eval: Evaluation<V>, input: string, fuel: nat)
    requires MatchSpec(ctx.refs, Capture(name, body, ValueOf(ty, eval)), input, fuel).Ok?
    ensures RuleContainsValueNodeOf(ctx, Capture(name, body, ValueOf(ty, eval)), input, ty, fuel) ==
            MatchSpec(ctx.refs, Capture(name, body, ValueOf(ty, eval)), input, fuel)
  {
    var r := Capture(name, body, ValueOf(ty, eval));
    if MatchSpec(ctx.refs, r, input, fuel) == Ok(true) {
      ValueRuleParsesToValueNode(ctx.refs, name, body, ty, eval, input, fuel);
      var root := ParseTreeSpec(ctx.refs, r, input, fuel).value;
      assert PreOrder(root)[0] == root;
    }
  }

  /**
   * IsValueRule (ty None) and IsValueRule<T> (ty Some(T)): the rule is a
   * ValueRule, of T when one is named.  The input is not looked at.
   */
  function IsValueRule<V>(r: Rule<V>, input: string, ty: Option<TypeName>): (b: bool)
    ensures b <==> r.Capture? && r.kind.ValueOf? && (ty.Some? ==> r.kind.ty == ty.value)
  {
    r.Capture? && r.kind.ValueOf? && (ty.None? || r.kind.ty == ty.value)
  }

  /** A rule IsValueRule<T> accepts and that matches parses to a tree holding a ValueNode<T>. */
  lemma ValueRuleTreeIsTyped<V>(ctx: Context<V>, r: Rule<V>, input: string, ty: TypeName, fuel: nat)
    requires IsValueRule(r, input, Some(ty)) && MatchSpec(ctx.refs, r, input, fuel) == Ok(true)
    ensures RuleContainsValueNodeOf(ctx, r, input, ty, fuel) == Ok(true)
    ensures RuleContainsValueNode(ctx, r, input, fuel) == Ok(true)
  {
    ValueRuleContainsValueNode(ctx, r.name, r.body, ty, r.kind.eval, input, fuel);
    ValueRuleParsesToValueNode(ctx.refs, r.name, r.body, ty, r.kind.eval, input, fuel);
    ContainsValueNodeOfImplies(ParseTreeSpec(ctx.refs, r, input, fuel).value, ty);
  }
}
