// Laws of matching: how the result depends on the fuel bound, the
// equivalences between the rule classes that the library's derived rules
// rely on, the endless loop of a repetition that does not advance, and the
// layout of the captured nodes (each inside its parent's span, siblings in
// order, so every node's Text is defined).
module MatchingLaws {
  import opened Outcomes
  import opened Rules
  import opened Nodes
  import opened Matching

  // ---------------------------------------------------------------------
  // Fuel: once a run finishes within a bound, more fuel changes nothing.
  // So a run that is not stuck for lack of fuel is THE result of the rule.
  // ---------------------------------------------------------------------

  lemma {:induction false} RunFuel<V>(E: map<RuleId, Rule<V>>, r: Rule<V>, input: string, pos: nat, f: nat, g: nat)
    requires pos <= |input| && f <= g
    requires Run(E, r, input, pos, f) != Stuck(OutOfFuel)
    ensures Run(E, r, input, pos, g) == Run(E, r, input, pos, f)
    decreases f, 0, 0
  {
    match r
    case Seq(items) => RunSeqFuel(E, items, 0, input, pos, f - 1, g - 1);
    case Or(alternatives) => RunOrFuel(E, alternatives, 0, input, pos, f - 1, g - 1);
    case Not(body) => RunFuel(E, body, input, pos, f - 1, g - 1);
    case Optional(body) => RunFuel(E, body, input, pos, f - 1, g - 1);
    case ZeroOrMore(body) => RunStarFuel(E, body, input, pos, f - 1, g - 1);
    case OneOrMore(body) =>
      RunFuel(E, body, input, pos, f - 1, g - 1);
      var c := Run(E, body, input, pos, f - 1);
      if c.Succeeded? {
        RunStarFuel(E, body, input, c.pos, f - 1, g - 1);
      }
    case Ref(id, _) =>
      if id in E {
        RunFuel(E, E[id], input, pos, f - 1, g - 1);
      }
    case Capture(_, body, _) => RunFuel(E, body, input, pos, f - 1, g - 1);
    case _ =>
  }

  lemma {:induction false} RunSeqFuel<V>(E: map<RuleId, Rule<V>>, items: seq<Rule<V>>, i: nat, input: string, pos: nat,
                                         f: nat, g: nat)
    requires i <= |items| && pos <= |input| && f <= g
    requires RunSeq(E, items, i, input, pos, f) != Stuck(OutOfFuel)
    ensures RunSeq(E, items, i, input, pos, g) == RunSeq(E, items, i, input, pos, f)
    decreases f, 1, |items| - i
  {
    if i < |items| {
      RunFuel(E, items[i], input, pos, f, g);
      var c := Run(E, items[i], input, pos, f);
      if c.Succeeded? {
        RunSeqFuel(E, items, i + 1, input, c.pos, f, g);
      }
    }
  }

  lemma {:induction false} RunOrFuel<V>(E: map<RuleId, Rule<V>>, alternatives: seq<Rule<V>>, i: nat, input: string,
                                        pos: nat, f: nat, g: nat)
    requires i <= |alternatives| && pos <= |input| && f <= g
    requires RunOr(E, alternatives, i, input, pos, f) != Stuck(OutOfFuel)
    ensures RunOr(E, alternatives, i, input, pos, g) == RunOr(E, alternatives, i, input, pos, f)
    decreases f, 1, |alternatives| - i
  {
    if i < |alternatives| {
      RunFuel(E, alternatives[i], input, pos, f, g);
      if Run(E, alternatives[i], input, pos, f).Failed? {
        RunOrFuel(E, alternatives, i + 1, input, pos, f, g);
      }
    }
  }

  lemma {:induction false} RunStarFuel<V>(E: map<RuleId, Rule<V>>, body: Rule<V>, input: string, pos: nat,
                                          f: nat, g: nat)
    requires pos <= |input| && f <= g
    requires RunStar(E, body, input, pos, f) != Stuck(OutOfFuel)
    ensures RunStar(E, body, input, pos, g) == RunStar(E, body, input, pos, f)
    decreases f, 1, 0
  {
    RunFuel(E, body, input, pos, f - 1, g - 1);
    var c := Run(E, body, input, pos, f - 1);
    if c.Succeeded? {
      RunStarFuel(E, body, input, c.pos, f - 1, g - 1);
    }
  }

  /** Two fuel bounds under which a run finishes give the same result. */
  lemma RunDeterministic<V>(E: map<RuleId, Rule<V>>, r: Rule<V>, input: string, pos: nat, f: nat, g: nat)
    requires pos <= |input|
    requires Run(E, r, input, pos, f) != Stuck(OutOfFuel) && Run(E, r, input, pos, g) != Stuck(OutOfFuel)
    ensures Run(E, r, input, pos, f) == Run(E, r, input, pos, g)
  {
    if f <= g {
      RunFuel(E, r, input, pos, f, g);
    } else {
      RunFuel(E, r, input, pos, g, f);
    }
  }

  /** Rule.Match gives one answer however much fuel is allowed, once it answers. */
  lemma MatchFuel<V>(refs: Refs<V>, r: Rule<V>, input: string, f: nat, g: nat)
    requires f <= g && MatchSpec(refs, r, input, f) != Err(Diverged)
    ensures MatchSpec(refs, r, input, g) == MatchSpec(refs, r, input, f)
  {
    if input != "" {
      RunFuel(refs.Effective(), r, input, 0, f, g);
    }
  }

  // ---------------------------------------------------------------------
  // Equivalences between rule classes.
  // ---------------------------------------------------------------------

  /**
   * OneOrMore(b) matches as b followed by ZeroOrMore(b) does (given one
   * more unit of fuel for the extra sequence node).
   */
  lemma OneOrMoreIsSequence<V>(E: map<RuleId, Rule<V>>, b: Rule<V>, input: string, pos: nat, fuel: nat)
    requires pos <= |input|
    requires Run(E, OneOrMore(b), input, pos, fuel) != Stuck(OutOfFuel)
    ensures Run(E, Seq([b, ZeroOrMore(b)]), input, pos, fuel + 1) == Run(E, OneOrMore(b), input, pos, fuel)
  {
    var items := [b, ZeroOrMore(b)];
    var c := Run(E, b, input, pos, fuel - 1);
    RunFuel(E, b, input, pos, fuel - 1, fuel);
    if c.Succeeded? {
      var star := RunStar(E, b, input, c.pos, fuel - 1);
      assert Run(E, ZeroOrMore(b), input, c.pos, fuel) == star;
      if star.Succeeded? {
        assert RunSeq(E, items, 2, input, star.pos, fuel) == Succeeded(star.pos, []);
        assert star.nodes + [] == star.nodes;
      }
      assert RunSeq(E, items, 1, input, c.pos, fuel) == star;
    }
    assert RunSeq(E, items, 0, input, pos, fuel) ==
      if c.Succeeded? then Then(c.nodes, RunSeq(E, items, 1, input, c.pos, fuel)) else c;
  }

  /** Optional(b) matches as the choice of b or the empty string does. */
  lemma OptionalIsChoice<V>(E: map<RuleId, Rule<V>>, b: Rule<V>, input: string, pos: nat, fuel: nat)
    requires pos <= |input|
    ensures Run(E, Or([b, Str("")]), input, pos, fuel) == Run(E, Optional(b), input, pos, fuel)
  {
    if fuel > 1 {
      var alternatives := [b, Str("")];
      assert StartsWithAt(input, pos, "") by {
        assert input[pos..][..0] == "";
      }
      assert RunOr(E, alternatives, 1, input, pos, fuel - 1) == Succeeded(pos, []);
    }
  }

  /**
   * Not(Not(b)) is a lookahead: it matches exactly when b does, and then
   * consumes nothing and captures nothing.
   */
  lemma DoubleNegationIsLookahead<V>(E: map<RuleId, Rule<V>>, b: Rule<V>, input: string, pos: nat, fuel: nat)
    requires pos <= |input|
    ensures Run(E, Not(Not(b)), input, pos, fuel + 2).Succeeded? <==> Run(E, b, input, pos, fuel).Succeeded?
    ensures Run(E, Not(Not(b)), input, pos, fuel + 2).Failed? <==> Run(E, b, input, pos, fuel).Failed?
    ensures Run(E, Not(Not(b)), input, pos, fuel + 2).Succeeded? ==>
              Run(E, Not(Not(b)), input, pos, fuel + 2) == Succeeded(pos, [])
  {
    assert Run(E, Not(b), input, pos, fuel + 1) ==
      var c := Run(E, b, input, pos, fuel);
      if c.Failed? then Succeeded(pos, []) else if c.Succeeded? then Failed else c;
  }

  // ---------------------------------------------------------------------
  // A repetition whose body matches without advancing never finishes: the
  // library's `while (child matches)` loop spins forever.
  // ---------------------------------------------------------------------

  lemma {:induction false} StarWithoutProgressDiverges<V>(E: map<RuleId, Rule<V>>, body: Rule<V>, input: string,
                                                          pos: nat, f0: nat, ns: seq<Node<V>>, fuel: nat)
    requires pos <= |input|
    requires Run(E, body, input, pos, f0) == Succeeded(pos, ns)
    ensures RunStar(E, body, input, pos, fuel) == Stuck(OutOfFuel)
    decreases fuel
  {
    if fuel > 0 {
      var c := Run(E, body, input, pos, fuel - 1);
      if c != Stuck(OutOfFuel) {
        RunDeterministic(E, body, input, pos, fuel - 1, f0);
        StarWithoutProgressDiverges(E, body, input, pos, f0, ns, fuel - 1);
      }
    }
  }

  /** So ZeroOrMore of a rule that matches the empty string at pos never matches there. */
  lemma ZeroOrMoreOfEmptyDiverges<V>(E: map<RuleId, Rule<V>>, body: Rule<V>, input: string,
                                     pos: nat, f0: nat, ns: seq<Node<V>>, fuel: nat)
    requires pos <= |input|
    requires Run(E, body, input, pos, f0) == Succeeded(pos, ns)
    ensures Run(E, ZeroOrMore(body), input, pos, fuel) == Stuck(OutOfFuel)
  {
    if fuel > 0 {
      StarWithoutProgressDiverges(E, body, input, pos, f0, ns, fuel - 1);
    }
  }

  // ---------------------------------------------------------------------
  // Layout of the captured nodes.
  // ---------------------------------------------------------------------

  /**
   * The nodes ns lie in order between lo and hi of input: each one starts
   * no earlier than the previous one ended, its children lie within its own
   * span, and it reads the same input.
   */
  ghost predicate Spans<V>(ns: seq<Node<V>>, input: string, lo: int, hi: int)
    decreases ns
  {
    if ns == [] then lo <= hi
    else
      ns[0].input == input && lo <= ns[0].begin <= ns[0].end &&
      Spans(ns[0].children, input, ns[0].begin, ns[0].end) &&
      Spans(ns[1..], input, ns[0].end, hi)
  }

  lemma {:induction false} SpansOrdered<V>(ns: seq<Node<V>>, input: string, lo: int, hi: int)
    requires Spans(ns, input, lo, hi)
    ensures lo <= hi
    decreases ns
  {
    if ns != [] {
      SpansOrdered(ns[1..], input, ns[0].end, hi);
    }
  }

  lemma {:induction false} SpansAppend<V>(a: seq<Node<V>>, b: seq<Node<V>>, input: string, lo: int, mid: int, hi: int)
    requires Spans(a, input, lo, mid) && Spans(b, input, mid, hi)
    ensures Spans(a + b, input, lo, hi)
    decreases a
  {
    if a == [] {
      assert a + b == b;
    } else {
      assert (a + b)[0] == a[0];
      assert (a + b)[1..] == a[1..] + b;
      SpansAppend(a[1..], b, input, a[0].end, mid, hi);
    }
  }

  /** Every node captured by a successful run lies between the start and end positions. */
  lemma {:induction false} RunSpans<V>(E: map<RuleId, Rule<V>>, r: Rule<V>, input: string, pos: nat, fuel: nat)
    requires pos <= |input|
    requires Run(E, r, input, pos, fuel).Succeeded?
    ensures Spans(Run(E, r, input, pos, fuel).nodes, input, pos, Run(E, r, input, pos, fuel).pos)
    decreases fuel, 0, 0
  {
    var res := Run(E, r, input, pos, fuel);
    match r
    case Seq(items) => RunSeqSpans(E, items, 0, input, pos, fuel - 1);
    case Or(alternatives) => RunOrSpans(E, alternatives, 0, input, pos, fuel - 1);
    case Not(body) =>
    case Optional(body) =>
      if Run(E, body, input, pos, fuel - 1).Succeeded? {
        RunSpans(E, body, input, pos, fuel - 1);
      }
    case ZeroOrMore(body) => RunStarSpans(E, body, input, pos, fuel - 1);
    case OneOrMore(body) =>
      var c := Run(E, body, input, pos, fuel - 1);
      RunSpans(E, body, input, pos, fuel - 1);
      RunStarSpans(E, body, input, c.pos, fuel - 1);
      SpansAppend(c.nodes, RunStar(E, body, input, c.pos, fuel - 1).nodes, input, pos, c.pos, res.pos);
    case Ref(id, _) => RunSpans(E, E[id], input, pos, fuel - 1);
    case Capture(name, body, kind) =>
      var c := Run(E, body, input, pos, fuel - 1);
      RunSpans(E, body, input, pos, fuel - 1);
      var n := Close(CreateNode(kind, name, input, pos, body), c.pos, c.nodes);
      assert res.nodes == [n];
      assert [n][1..] == [];
    case _ =>
  }

  lemma {:induction false} RunSeqSpans<V>(E: map<RuleId, Rule<V>>, items: seq<Rule<V>>, i: nat, input: string,
                                          pos: nat, fuel: nat)
    requires i <= |items| && pos <= |input|
    requires RunSeq(E, items, i, input, pos, fuel).Succeeded?
    ensures Spans(RunSeq(E, items, i, input, pos, fuel).nodes, input, pos, RunSeq(E, items, i, input, pos, fuel).pos)
    decreases fuel, 1, |items| - i
  {
    if i < |items| {
      var c := Run(E, items[i], input, pos, fuel);
      var rest := RunSeq(E, items, i + 1, input, c.pos, fuel);
      RunSpans(E, items[i], input, pos, fuel);
      RunSeqSpans(E, items, i + 1, input, c.pos, fuel);
      SpansAppend(c.nodes, rest.nodes, input, pos, c.pos, rest.pos);
    }
  }

  lemma {:induction false} RunOrSpans<V>(E: map<RuleId, Rule<V>>, alternatives: seq<Rule<V>>, i: nat, input: string,
                                         pos: nat, fuel: nat)
    requires i <= |alternatives| && pos <= |input|
    requires RunOr(E, alternatives, i, input, pos, fuel).Succeeded?
    ensures Spans(RunOr(E, alternatives, i, input, pos, fuel).nodes, input, pos,
                  RunOr(E, alternatives, i, input, pos, fuel).pos)
    decreases fuel, 1, |alternatives| - i
  {
    if Run(E, alternatives[i], input, pos, fuel).Failed? {
      RunOrSpans(E, alternatives, i + 1, input, pos, fuel);
    } else {
      RunSpans(E, alternatives[i], input, pos, fuel);
    }
  }

  lemma {:induction false} RunStarSpans<V>(E: map<RuleId, Rule<V>>, body: Rule<V>, input: string, pos: nat, fuel: nat)
    requires pos <= |input|
    requires RunStar(E, body, input, pos, fuel).Succeeded?
    ensures Spans(RunStar(E, body, input, pos, fuel).nodes, input, pos, RunStar(E, body, input, pos, fuel).pos)
    decreases fuel, 1, 0
  {
    var c := Run(E, body, input, pos, fuel - 1);
    if c.Succeeded? {
      var rest := RunStar(E, body, input, c.pos, fuel - 1);
      RunSpans(E, body, input, pos, fuel - 1);
      RunStarSpans(E, body, input, c.pos, fuel - 1);
      SpansAppend(c.nodes, rest.nodes, input, pos, c.pos, rest.pos);
    }
  }

  /** Every node of a well-placed list, and every node below it, has a text. */
  lemma {:induction false} SpansHaveText<V>(ns: seq<Node<V>>, input: string, lo: int, hi: int, i: int)
    requires 0 <= lo && hi <= |input| && Spans(ns, input, lo, hi) && 0 <= i < |ns|
    ensures lo <= ns[i].begin <= ns[i].end <= hi && Text(ns[i]) == Ok(input[ns[i].begin..ns[i].end])
    ensures Spans(ns[i].children, input, ns[i].begin, ns[i].end)
    decreases ns
  {
    SpansOrdered(ns[1..], input, ns[0].end, hi);
    if i > 0 {
      SpansHaveText(ns[1..], input, ns[0].end, hi, i - 1);
    }
  }

  /**
   * Rule.ParseTree's tree is well formed: it reads the parsed input, its
   * text is defined, and all its descendants lie in order within it.
   */
  lemma ParseTreeSpans<V>(refs: Refs<V>, r: Rule<V>, input: string, fuel: nat)
    requires ParseTreeSpec(refs, r, input, fuel).Ok?
    ensures var root := ParseTreeSpec(refs, r, input, fuel).value;
      root.input == input && Text(root).Ok? && Spans(root.children, input, root.begin, root.end)
  {
    var res := Run(refs.Effective(), r, input, 0, fuel);
    RunSpans(refs.Effective(), r, input, 0, fuel);
    if |res.nodes| == 1 {
      SpansHaveText(res.nodes, input, 0, res.pos, 0);
    } else {
      SpansWiden(res.nodes, input, 0, res.pos, |input|);
    }
  }

  lemma {:induction false} SpansWiden<V>(ns: seq<Node<V>>, input: string, lo: int, hi: int, hi': int)
    requires Spans(ns, input, lo, hi) && hi <= hi'
    ensures Spans(ns, input, lo, hi')
    decreases ns
  {
    if ns != [] {
      SpansWiden(ns[1..], input, ns[0].end, hi, hi');
    }
  }
}
