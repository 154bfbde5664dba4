// The backtracking matching engine: one method per rule class's MatchImpl,
// each working in place on the shared ParserState and proved to do exactly
// what Matching.Run says.  Read through Realizes, every method's contract
// states the library's central promises:
//   * a rule that does not match leaves the position and the node list as
//     it found them;
//   * a rule that matches moves the position forward, never past the end of
//     the input, and only appends to the node list.
// The fuel parameter bounds the recursion; Halted(OutOfFuel) stands for the
// library looping or recursing without end.
module Engine {
  import opened Outcomes
  import opened Rules
  import opened Nodes
  import opened Definitions
  import opened Matching
  import opened ParserStates

  /** The bool MatchImpl returns, or the reason it never returns one. */
  datatype Outcome = Matched | Unmatched | Halted(reason: Abort)

  /** The outcome and the final cursor are the ones the run res prescribes. */
  ghost predicate Realizes<V>(res: MatchResult<V>, o: Outcome, pos0: int, nodes0: seq<Node<V>>,
                              pos: int, nodes: seq<Node<V>>)
  {
    match res
    case Failed => o == Unmatched && pos == pos0 && nodes == nodes0
    case Succeeded(p, ns) => o == Matched && pos == p && nodes == nodes0 + ns
    case Stuck(a) => o == Halted(a)
  }

  /** Rule.MatchImpl, dispatched on the rule class; one unit of fuel per dispatch. */
  method MatchImpl<V>(resolver: map<RuleId, Rule<V>>, refs: ResolvedRules<V>, r: Rule<V>,
                      state: ParserState<V>, fuel: nat) returns (o: Outcome)
    requires 0 <= state.position <= |state.input|
    modifies state, refs
    ensures state.input == old(state.input)
    ensures refs.Effective(resolver) == old(refs.Effective(resolver)) && Keeps(old(refs.cached), refs.cached)
    ensures Realizes(Run(old(refs.Effective(resolver)), r, state.input, old(state.position), fuel), o,
                     old(state.position), old(state.nodes), state.position, state.nodes)
    decreases fuel, 1
  {
    if fuel == 0 {
      return Halted(OutOfFuel);
    }
    match r
    case Char(test) =>
      var matched := MatchChar(test, state);
      o := if matched then Matched else Unmatched;
      assert old(state.nodes) + [] == old(state.nodes);
    case Str(pattern) =>
      var matched := MatchString(pattern, state);
      o := if matched then Matched else Unmatched;
      assert old(state.nodes) + [] == old(state.nodes);
    case Start =>
      o := if MatchStart(state) then Matched else Unmatched;
      assert state.nodes + [] == state.nodes;
    case End =>
      o := if MatchEnd(state) then Matched else Unmatched;
      assert state.nodes + [] == state.nodes;
    case Seq(items) => o := MatchSequence(resolver, refs, items, state, fuel - 1);
    case Or(alternatives) => o := MatchOr(resolver, refs, alternatives, state, fuel - 1);
    case Not(body) => o := MatchNot(resolver, refs, body, state, fuel - 1);
    case Optional(body) => o := MatchOptional(resolver, refs, body, state, fuel - 1);
    case ZeroOrMore(body) => o := MatchZeroOrMore(resolver, refs, body, state, fuel - 1);
    case OneOrMore(body) => o := MatchOneOrMore(resolver, refs, body, state, fuel - 1);
    case Ref(id, name) => o := MatchFunc(resolver, refs, id, name, state, fuel - 1);
    case Capture(name, body, kind) => o := MatchNode(resolver, refs, name, body, kind, state, fuel - 1);
  }

  /** CharRule.MatchImpl, with the bounds check the library lacks. */
  method MatchChar<V>(test: char -> bool, state: ParserState<V>) returns (matched: bool)
    requires 0 <= state.position <= |state.input|
    modifies state
    ensures state.input == old(state.input) && state.nodes == old(state.nodes)
    ensures matched <==> CharMatches(test, state.input, old(state.position))
    ensures state.position == old(state.position) + (if matched then 1 else 0)
  {
    matched := state.position < |state.input| && test(state.input[state.position]);
    if matched {
      state.position := state.position + 1;
    }
  }

  /** StringRule.MatchImpl: the input from the cursor on starts with the pattern. */
  method MatchString<V>(pattern: string, state: ParserState<V>) returns (matched: bool)
    requires 0 <= state.position <= |state.input|
    modifies state
    ensures state.input == old(state.input) && state.nodes == old(state.nodes)
    ensures matched <==> StartsWithAt(state.input, old(state.position), pattern)
    ensures state.position == old(state.position) + (if matched then |pattern| else 0)
    ensures state.position <= |state.input|
  {
    if !(pattern <= state.input[state.position..]) {
      return false;
    }
    state.position := state.position + |pattern|;
    return true;
  }

  /** StartRule.MatchImpl: a zero-width test for the start of the input. */
  function MatchStart<V>(state: ParserState<V>): (matched: bool)
    reads state
    requires 0 <= state.position <= |state.input|
    ensures matched <==> Run<V>(map[], Start, state.input, state.position, 1).Succeeded?
  {
    state.position == 0
  }

  /** EndRule.MatchImpl: a zero-width test for the end of the input. */
  function MatchEnd<V>(state: ParserState<V>): (matched: bool)
    reads state
    requires 0 <= state.position <= |state.input|
    ensures matched <==> Run<V>(map[], End, state.input, state.position, 1).Succeeded?
  {
    state.position == |state.input|
  }

  /**
   * SequenceRule.MatchImpl: the children in order, each from where the last
   * one stopped; when one fails, the snapshot taken on entry is restored.
   */
  method MatchSequence<V>(resolver: map<RuleId, Rule<V>>, refs: ResolvedRules<V>, items: seq<Rule<V>>,
                          state: ParserState<V>, fuel: nat) returns (o: Outcome)
    requires 0 <= state.position <= |state.input|
    modifies state, refs
    ensures state.input == old(state.input)
    ensures refs.Effective(resolver) == old(refs.Effective(resolver)) && Keeps(old(refs.cached), refs.cached)
    ensures Realizes(Run(old(refs.Effective(resolver)), Seq(items), state.input, old(state.position), fuel + 1), o,
                     old(state.position), old(state.nodes), state.position, state.nodes)
    decreases fuel, 2
  {
    ghost var E := refs.Effective(resolver);
    ghost var cache0 := refs.cached;
    var oldState := state.Clone();
    ghost var captured: seq<Node<V>> := [];
    var i := 0;
    while i < |items|
      invariant 0 <= i <= |items|
      invariant state.input == oldState.input == old(state.input)
      invariant oldState.position == old(state.position) && oldState.nodes == old(state.nodes)
      invariant refs.Effective(resolver) == E && Keeps(cache0, refs.cached)
      invariant oldState.position <= state.position <= |state.input|
      invariant state.nodes == oldState.nodes + captured
      invariant RunSeq(E, items, 0, state.input, oldState.position, fuel) ==
                Then(captured, RunSeq(E, items, i, state.input, state.position, fuel))
    {
      ghost var step := Run(E, items[i], state.input, state.position, fuel);
      var c := MatchImpl(resolver, refs, items[i], state, fuel);
      if c == Unmatched {
        state.Assign(oldState);
        return Unmatched;
      }
      if c.Halted? {
        return c;
      }
      ThenThen(captured, step.nodes, RunSeq(E, items, i + 1, state.input, state.position, fuel));
      captured := captured + step.nodes;
      i := i + 1;
    }
    assert captured + [] == captured;
    return Matched;
  }

  /**
   * OrRule.MatchImpl: the alternatives in order until one matches; the
   * snapshot taken on entry is restored after each one that fails.
   */
  method MatchOr<V>(resolver: map<RuleId, Rule<V>>, refs: ResolvedRules<V>, alternatives: seq<Rule<V>>,
                    state: ParserState<V>, fuel: nat) returns (o: Outcome)
    requires 0 <= state.position <= |state.input|
    modifies state, refs
    ensures state.input == old(state.input)
    ensures refs.Effective(resolver) == old(refs.Effective(resolver)) && Keeps(old(refs.cached), refs.cached)
    ensures Realizes(Run(old(refs.Effective(resolver)), Or(alternatives), state.input, old(state.position), fuel + 1), o,
                     old(state.position), old(state.nodes), state.position, state.nodes)
    decreases fuel, 2
  {
    ghost var E := refs.Effective(resolver);
    ghost var cache0 := refs.cached;
    var oldState := state.Clone();
    var i := 0;
    while i < |alternatives|
      invariant 0 <= i <= |alternatives|
      invariant state.input == oldState.input == old(state.input)
      invariant oldState.position == old(state.position) && oldState.nodes == old(state.nodes)
      invariant state.position == oldState.position && state.nodes == oldState.nodes
      invariant refs.Effective(resolver) == E && Keeps(cache0, refs.cached)
      invariant RunOr(E, alternatives, 0, state.input, oldState.position, fuel) ==
                RunOr(E, alternatives, i, state.input, oldState.position, fuel)
    {
      var c := MatchImpl(resolver, refs, alternatives[i], state, fuel);
      if c == Matched {
        return Matched;
      }
      if c.Halted? {
        return c;
      }
      state.Assign(oldState);
      i := i + 1;
    }
    return Unmatched;
  }

  /**
   * NotRule.MatchImpl: matches when the child does not, consuming nothing;
   * when the child matches, the snapshot is restored and the rule fails.
   */
  method MatchNot<V>(resolver: map<RuleId, Rule<V>>, refs: ResolvedRules<V>, body: Rule<V>,
                     state: ParserState<V>, fuel: nat) returns (o: Outcome)
    requires 0 <= state.position <= |state.input|
    modifies state, refs
    ensures state.input == old(state.input)
    ensures refs.Effective(resolver) == old(refs.Effective(resolver)) && Keeps(old(refs.cached), refs.cached)
    ensures Realizes(Run(old(refs.Effective(resolver)), Not(body), state.input, old(state.position), fuel + 1), o,
                     old(state.position), old(state.nodes), state.position, state.nodes)
    ensures !o.Halted? ==> state.position == old(state.position) && state.nodes == old(state.nodes)
    decreases fuel, 2
  {
    var oldState := state.Clone();
    var c := MatchImpl(resolver, refs, body, state, fuel);
    if c == Unmatched {
      assert state.nodes + [] == state.nodes;
      return Matched;
    }
    if c.Halted? {
      return c;
    }
    state.Assign(oldState);
    return Unmatched;
  }

  /** OptionalRule.MatchImpl: the child's effects when it matches; matches either way. */
  method MatchOptional<V>(resolver: map<RuleId, Rule<V>>, refs: ResolvedRules<V>, body: Rule<V>,
                          state: ParserState<V>, fuel: nat) returns (o: Outcome)
    requires 0 <= state.position <= |state.input|
    modifies state, refs
    ensures state.input == old(state.input)
    ensures refs.Effective(resolver) == old(refs.Effective(resolver)) && Keeps(old(refs.cached), refs.cached)
    ensures Realizes(Run(old(refs.Effective(resolver)), Optional(body), state.input, old(state.position), fuel + 1), o,
                     old(state.position), old(state.nodes), state.position, state.nodes)
    ensures o != Unmatched
    decreases fuel, 2
  {
    var c := MatchImpl(resolver, refs, body, state, fuel);
    if c.Halted? {
      return c;
    }
    assert state.nodes + [] == state.nodes;
    return Matched;
  }

  /** `while (child matches) {}`, shared by ZeroOrMoreRule and OneOrMoreRule. */
  method MatchWhile<V>(resolver: map<RuleId, Rule<V>>, refs: ResolvedRules<V>, body: Rule<V>,
                       state: ParserState<V>, fuel: nat) returns (o: Outcome)
    requires 0 <= state.position <= |state.input|
    modifies state, refs
    ensures state.input == old(state.input)
    ensures refs.Effective(resolver) == old(refs.Effective(resolver)) && Keeps(old(refs.cached), refs.cached)
    ensures Realizes(RunStar(old(refs.Effective(resolver)), body, state.input, old(state.position), fuel), o,
                     old(state.position), old(state.nodes), state.position, state.nodes)
    ensures o != Unmatched
    decreases fuel, 2
  {
    ghost var E := refs.Effective(resolver);
    ghost var cache0 := refs.cached;
    ghost var position0 := state.position;
    ghost var nodes0 := state.nodes;
    ghost var captured: seq<Node<V>> := [];
    var k: nat := fuel;
    var matched := true;
    while matched
      invariant k <= fuel
      invariant state.input == old(state.input)
      invariant refs.Effective(resolver) == E && Keeps(cache0, refs.cached)
      invariant position0 <= state.position <= |state.input|
      invariant state.nodes == nodes0 + captured
      invariant matched ==> RunStar(E, body, state.input, position0, fuel) ==
                            Then(captured, RunStar(E, body, state.input, state.position, k))
      invariant !matched ==> RunStar(E, body, state.input, position0, fuel) == Succeeded(state.position, captured)
      decreases k
    {
      if k == 0 {
        return Halted(OutOfFuel);
      }
      ghost var step := Run(E, body, state.input, state.position, k - 1);
      var c := MatchImpl(resolver, refs, body, state, k - 1);
      if c.Halted? {
        return c;
      }
      matched := c == Matched;
      if matched {
        ThenThen(captured, step.nodes, RunStar(E, body, state.input, state.position, k - 1));
        captured := captured + step.nodes;
      } else {
        assert captured + [] == captured;
      }
      k := k - 1;
    }
    return Matched;
  }

  /** ZeroOrMoreRule.MatchImpl: repeats the child until it fails; always matches. */
  method MatchZeroOrMore<V>(resolver: map<RuleId, Rule<V>>, refs: ResolvedRules<V>, body: Rule<V>,
                            state: ParserState<V>, fuel: nat) returns (o: Outcome)
    requires 0 <= state.position <= |state.input|
    modifies state, refs
    ensures state.input == old(state.input)
    ensures refs.Effective(resolver) == old(refs.Effective(resolver)) && Keeps(old(refs.cached), refs.cached)
    ensures Realizes(Run(old(refs.Effective(resolver)), ZeroOrMore(body), state.input, old(state.position), fuel + 1), o,
                     old(state.position), old(state.nodes), state.position, state.nodes)
    ensures o != Unmatched
    decreases fuel, 3
  {
    o := MatchWhile(resolver, refs, body, state, fuel);
  }

  /** OneOrMoreRule.MatchImpl: the first attempt must match, then as zero-or-more. */
  method MatchOneOrMore<V>(resolver: map<RuleId, Rule<V>>, refs: ResolvedRules<V>, body: Rule<V>,
                           state: ParserState<V>, fuel: nat) returns (o: Outcome)
    requires 0 <= state.position <= |state.input|
    modifies state, refs
    ensures state.input == old(state.input)
    ensures refs.Effective(resolver) == old(refs.Effective(resolver)) && Keeps(old(refs.cached), refs.cached)
    ensures Realizes(Run(old(refs.Effective(resolver)), OneOrMore(body), state.input, old(state.position), fuel + 1), o,
                     old(state.position), old(state.nodes), state.position, state.nodes)
    decreases fuel, 3
  {
    ghost var E := refs.Effective(resolver);
    ghost var first := Run(E, body, state.input, state.position, fuel);
    assert Run(E, OneOrMore(body), state.input, state.position, fuel + 1) ==
      if first.Succeeded? then Then(first.nodes, RunStar(E, body, state.input, first.pos, fuel)) else first;
    var c := MatchImpl(resolver, refs, body, state, fuel);
    if c != Matched {
      return c;
    }
    ghost var nodes1 := state.nodes;
    ghost var rest := RunStar(E, body, state.input, state.position, fuel);
    o := MatchWhile(resolver, refs, body, state, fuel);
    if rest.Succeeded? {
      assert state.nodes == old(state.nodes) + (first.nodes + rest.nodes);
    }
  }

  /**
   * FuncRule.MatchImpl (and RecursiveRule's): on the first match the
   * resolver's rule is cached as the child; every match runs the child.
   */
  method MatchFunc<V>(resolver: map<RuleId, Rule<V>>, refs: ResolvedRules<V>, id: RuleId, name: Option<string>,
                      state: ParserState<V>, fuel: nat) returns (o: Outcome)
    requires 0 <= state.position <= |state.input|
    modifies state, refs
    ensures state.input == old(state.input)
    ensures refs.Effective(resolver) == old(refs.Effective(resolver)) && Keeps(old(refs.cached), refs.cached)
    ensures Realizes(Run(old(refs.Effective(resolver)), Ref(id, name), state.input, old(state.position), fuel + 1), o,
                     old(state.position), old(state.nodes), state.position, state.nodes)
    ensures id in old(refs.Effective(resolver)) ==> id in refs.cached
    decreases fuel, 2
  {
    if id !in refs.cached {
      if id !in resolver {
        return Halted(Unresolved);
      }
      refs.cached := refs.cached[id := resolver[id]];
      assert refs.Effective(resolver) == old(refs.Effective(resolver));
    }
    o := MatchImpl(resolver, refs, refs.cached[id], state, fuel);
  }

  /**
   * NodeRule.MatchImpl: the child runs against a fresh node list; when it
   * matches, one node spanning what it consumed, holding what it captured,
   * is appended to the list the rule found.
   */
  method MatchNode<V>(resolver: map<RuleId, Rule<V>>, refs: ResolvedRules<V>, name: Option<string>, body: Rule<V>,
                      kind: Capturing<V>, state: ParserState<V>, fuel: nat) returns (o: Outcome)
    requires 0 <= state.position <= |state.input|
    modifies state, refs
    ensures state.input == old(state.input)
    ensures refs.Effective(resolver) == old(refs.Effective(resolver)) && Keeps(old(refs.cached), refs.cached)
    ensures Realizes(Run(old(refs.Effective(resolver)), Capture(name, body, kind), state.input, old(state.position), fuel + 1), o,
                     old(state.position), old(state.nodes), state.position, state.nodes)
    ensures o == Matched ==> |state.nodes| == |old(state.nodes)| + 1 && state.nodes[..|old(state.nodes)|] == old(state.nodes)
    decreases fuel, 2
  {
    ghost var E := refs.Effective(resolver);
    ghost var inner := Run(E, body, state.input, state.position, fuel);
    var node := CreateNode(kind, name, state.input, state.position, body);
    assert Run(E, Capture(name, body, kind), state.input, state.position, fuel + 1) ==
      if inner.Succeeded? then Succeeded(inner.pos, [Close(node, inner.pos, inner.nodes)]) else inner;
    var oldChilds := state.nodes;
    state.nodes := [];
    o := MatchImpl(resolver, refs, body, state, fuel);
    if o == Unmatched {
      state.nodes := oldChilds;
      return;
    }
    if o.Halted? {
      return;
    }
    assert [] + inner.nodes == inner.nodes;
    state.nodes := oldChilds + [node.(end := state.position, children := state.nodes)];
  }

  /** Rule.Match: rejects empty input, otherwise runs the rule on a fresh state. */
  method Match<V>(resolver: map<RuleId, Rule<V>>, refs: ResolvedRules<V>, r: Rule<V>, input: string, fuel: nat)
    returns (result: Result<bool>)
    modifies refs
    ensures refs.Effective(resolver) == old(refs.Effective(resolver)) && Keeps(old(refs.cached), refs.cached)
    ensures result == MatchSpec(Refs(resolver, old(refs.cached)), r, input, fuel)
  {
    if input == "" {
      return Err(ArgumentError("input"));
    }
    var state := new ParserState(input);
    var o := MatchImpl(resolver, refs, r, state, fuel);
    match o
    case Matched => result := Ok(true);
    case Unmatched => result := Ok(false);
    case Halted(reason) => result := Err(AbortError(reason));
  }

  /**
   * Rule.ParseTree: runs the rule on a fresh state and returns the one node
   * it captured, or a wrapper node holding all of them; a parser error when
   * the rule does not match.
   */
  method ParseTree<V>(resolver: map<RuleId, Rule<V>>, refs: ResolvedRules<V>, r: Rule<V>, input: string, fuel: nat)
    returns (result: Result<Node<V>>)
    modifies refs
    ensures refs.Effective(resolver) == old(refs.Effective(resolver)) && Keeps(old(refs.cached), refs.cached)
    ensures result == ParseTreeSpec(Refs(resolver, old(refs.cached)), r, input, fuel)
  {
    var state := new ParserState(input);
    ghost var run := Run(refs.Effective(resolver), r, input, 0, fuel);
    var o := MatchImpl(resolver, refs, r, state, fuel);
    if run.Succeeded? {
      assert state.nodes == run.nodes;
    }
    if o.Halted? {
      return Err(AbortError(o.reason));
    }
    var shown := Show(resolver, r, fuel);
    if o == Unmatched {
      if shown.None? {
        return Err(Diverged);
      }
      return Err(ParserError("'" + shown.value + "' Failed to match '" + state.input + "'"));
    }
    if |state.nodes| == 1 {
      return Ok(state.nodes[0]);
    }
    if shown.None? {
      return Err(Diverged);
    }
    return Ok(MakeNode(Some(shown.value), input, 0, |input|, state.nodes));
  }
}
