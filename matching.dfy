// What matching a rule means: the result of running a rule at a position of
// an input, as a function.  The imperative engine (module Engine) is proved
// to compute exactly this.
//
// A run either fails (and then, as the engine shows, leaves the cursor as it
// found it), or succeeds at a new position having captured a list of nodes,
// or gets stuck: the library would loop or recurse without end (Stuck
// OutOfFuel, once the fuel runs out) or would dereference a lazy rule whose
// resolver gave no rule (Stuck Unresolved).
module Matching {
  import opened Outcomes
  import opened Rules
  import opened Nodes
  import opened Definitions

  datatype Abort = OutOfFuel | Unresolved

  /**
   * The lazy references of a grammar: what each resolver returns now, and
   * the child each FuncRule cached on its first match.  Matching uses the
   * cached child when there is one; Definition always asks the resolver.
   */
  datatype Refs<!V> = Refs(resolver: map<RuleId, Rule<V>>, cached: map<RuleId, Rule<V>>) {
    function Effective(): map<RuleId, Rule<V>>
    {
      resolver + cached
    }
  }

  datatype MatchResult<!V> =
    | Failed
    | Succeeded(pos: nat, nodes: seq<Node<V>>)
    | Stuck(reason: Abort)

  /** The nodes ns were captured before the rest of the run. */
  function Then<V>(ns: seq<Node<V>>, rest: MatchResult<V>): (r: MatchResult<V>)
    ensures r.Succeeded? <==> rest.Succeeded?
    ensures r.Succeeded? ==> r.pos == rest.pos && r.nodes == ns + rest.nodes
    ensures !r.Succeeded? ==> r == rest
  {
    if rest.Succeeded? then Succeeded(rest.pos, ns + rest.nodes) else rest
  }

  lemma ThenThen<V>(ns: seq<Node<V>>, ms: seq<Node<V>>, rest: MatchResult<V>)
    ensures Then(ns, Then(ms, rest)) == Then(ns + ms, rest)
  {
    if rest.Succeeded? {
      assert ns + (ms + rest.nodes) == (ns + ms) + rest.nodes;
    }
  }

  /**
   * CharRule: the character at the cursor satisfies the predicate.  There
   * must be a character there: at the end of the input the rule fails (the
   * library reads past the end instead; see module AsWritten).
   */
  predicate CharMatches(test: char -> bool, input: string, pos: nat)
  {
    pos < |input| && test(input[pos])
  }

  /** StringRule: Input.Substring(Position).StartsWith(Pattern), ordinal. */
  predicate StartsWithAt(input: string, pos: nat, pattern: string)
    requires pos <= |input|
  {
    pattern <= input[pos..]
  }

  /** The node a capturing rule publishes: the created node with its end and children filled in. */
  function Close<V>(n: Node<V>, end: int, children: seq<Node<V>>): Node<V>
  {
    n.(end := end, children := children)
  }

  /**
   * Running rule r at pos.  E is the effective environment of the lazy
   * references: their cached child, or what their resolver returns.  Each
   * rule dispatch and each loop iteration costs one unit of fuel.
   */
  function Run<V>(E: map<RuleId, Rule<V>>, r: Rule<V>, input: string, pos: nat, fuel: nat): (res: MatchResult<V>)
    requires pos <= |input|
    ensures res.Succeeded? ==> pos <= res.pos <= |input|
    decreases fuel, 0, 0
  {
    if fuel == 0 then Stuck(OutOfFuel)
    else
      match r
      case Char(test) => if CharMatches(test, input, pos) then Succeeded(pos + 1, []) else Failed
      case Str(pattern) =>
        if StartsWithAt(input, pos, pattern) then Succeeded(pos + |pattern|, []) else Failed
      case Start => if pos == 0 then Succeeded(pos, []) else Failed
      case End => if pos == |input| then Succeeded(pos, []) else Failed
      case Seq(items) => RunSeq(E, items, 0, input, pos, fuel - 1)
      case Or(alternatives) => RunOr(E, alternatives, 0, input, pos, fuel - 1)
      case Not(body) =>
        var c := Run(E, body, input, pos, fuel - 1);
        if c.Failed? then Succeeded(pos, []) else if c.Succeeded? then Failed else c
      case Optional(body) =>
        var c := Run(E, body, input, pos, fuel - 1);
        if c.Failed? then Succeeded(pos, []) else c
      case ZeroOrMore(body) => RunStar(E, body, input, pos, fuel - 1)
      case OneOrMore(body) =>
        var c := Run(E, body, input, pos, fuel - 1);
        if c.Succeeded? then Then(c.nodes, RunStar(E, body, input, c.pos, fuel - 1)) else c
      case Ref(id, _) =>
        if id in E then Run(E, E[id], input, pos, fuel - 1) else Stuck(Unresolved)
      case Capture(name, body, kind) =>
        var c := Run(E, body, input, pos, fuel - 1);
        if c.Succeeded? then
          Succeeded(c.pos, [Close(CreateNode(kind, name, input, pos, body), c.pos, c.nodes)])
        else c
  }

  /** The items from index i on, each continuing where the previous one stopped. */
  function RunSeq<V>(E: map<RuleId, Rule<V>>, items: seq<Rule<V>>, i: nat, input: string, pos: nat,
                     fuel: nat): (res: MatchResult<V>)
    requires i <= |items| && pos <= |input|
    ensures res.Succeeded? ==> pos <= res.pos <= |input|
    decreases fuel, 1, |items| - i
  {
    if i == |items| then Succeeded(pos, [])
    else
      var c := Run(E, items[i], input, pos, fuel);
      if c.Succeeded? then Then(c.nodes, RunSeq(E, items, i + 1, input, c.pos, fuel)) else c
  }

  /** The alternatives from index i on, each tried at pos until one does not fail. */
  function RunOr<V>(E: map<RuleId, Rule<V>>, alternatives: seq<Rule<V>>, i: nat, input: string, pos: nat,
                    fuel: nat): (res: MatchResult<V>)
    requires i <= |alternatives| && pos <= |input|
    ensures res.Succeeded? ==> pos <= res.pos <= |input|
    decreases fuel, 1, |alternatives| - i
  {
    if i == |alternatives| then Failed
    else
      var c := Run(E, alternatives[i], input, pos, fuel);
      if c.Failed? then RunOr(E, alternatives, i + 1, input, pos, fuel) else c
  }

  /** The loop `while (body matches) {}`: repeat until the body fails. */
  function RunStar<V>(E: map<RuleId, Rule<V>>, body: Rule<V>, input: string, pos: nat,
                      fuel: nat): (res: MatchResult<V>)
    requires pos <= |input|
    ensures res.Succeeded? ==> pos <= res.pos <= |input|
    decreases fuel, 1, 0
  {
    if fuel == 0 then Stuck(OutOfFuel)
    else
      var c := Run(E, body, input, pos, fuel - 1);
      if c.Failed? then Succeeded(pos, [])
      else if c.Succeeded? then Then(c.nodes, RunStar(E, body, input, c.pos, fuel - 1))
      else c
  }

  /** The exception an endless run or a missing lazy rule ends in. */
  function AbortError(a: Abort): Error
  {
    match a
    case OutOfFuel => Diverged
    case Unresolved => NullReference
  }

  /** Rule.Match: empty input is rejected, otherwise the rule runs from position 0. */
  function MatchSpec<V>(refs: Refs<V>, r: Rule<V>, input: string, fuel: nat): (res: Result<bool>)
    ensures input == "" ==> res == Err(ArgumentError("input"))
    ensures input != "" && Run(refs.Effective(), r, input, 0, fuel).Succeeded? ==> res == Ok(true)
    ensures input != "" && Run(refs.Effective(), r, input, 0, fuel).Failed? ==> res == Ok(false)
    ensures res.Ok? ==> input != "" && !Run(refs.Effective(), r, input, 0, fuel).Stuck?
  {
    if input == "" then Err(ArgumentError("input"))
    else
      match Run(refs.Effective(), r, input, 0, fuel)
      case Succeeded(_, _) => Ok(true)
      case Failed => Ok(false)
      case Stuck(a) => Err(AbortError(a))
  }

  /**
   * Rule.ParseTree: the single captured node, or a wrapper node named after
   * the rule's ToString, spanning the input, holding the captured nodes; a
   * ParserException naming the rule and the input when the rule fails.
   */
  function ParseTreeSpec<V>(refs: Refs<V>, r: Rule<V>, input: string, fuel: nat): (t: Result<Node<V>>)
    ensures var m := Run(refs.Effective(), r, input, 0, fuel);
            (t.Ok? ==> m.Succeeded?) &&
            (m.Failed? ==> t.Err? && (t.error.ParserError? || t.error == Diverged)) &&
            (m.Succeeded? && |m.nodes| == 1 ==> t == Ok(m.nodes[0])) &&
            (m.Succeeded? && |m.nodes| != 1 && t.Ok? ==>
               t.value.kind.Plain? && t.value.name.Some? && t.value.input == input &&
               t.value.begin == 0 && t.value.end == |input| && t.value.children == m.nodes)
  {
    match Run(refs.Effective(), r, input, 0, fuel)
    case Stuck(a) => Err(AbortError(a))
    case Failed =>
      var shown := Show(refs.resolver, r, fuel);
      if shown.None? then Err(Diverged)
      else Err(ParserError("'" + shown.value + "' Failed to match '" + input + "'"))
    case Succeeded(_, ns) =>
      if |ns| == 1 then Ok(ns[0])
      else
        var shown := Show(refs.resolver, r, fuel);
        if shown.None? then Err(Diverged)
        else Ok(MakeNode(Some(shown.value), input, 0, |input|, ns))
  }
}
