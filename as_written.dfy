// The matching engine exactly as the library writes it, for the two places
// where it departs from what it evidently means to do:
//   * CharRule reads Input[Position] with no bounds check (CharRule.cs:18),
//     so at the end of the input it throws IndexOutOfRangeException instead
//     of failing;
//   * ParserState.Assign installs the snapshot's own node list rather than
//     a copy (ParserState.cs:31).  OrRule restores the same snapshot after
//     every failed alternative (OrRule.cs:46,52), so from the second
//     alternative on the live list IS the snapshot's list: nodes a failing
//     alternative appends stay in it, and the next restore brings them back.
// Node lists are objects here: a store of lists addressed by index, and a
// cursor naming the list that is the state's Nodes.  The rest of the model
// (Matching.Run, Engine) is the corrected engine: CharMatches checks the
// bound and the node list is a value, copied on every restore.
module AsWritten {
  import opened Outcomes
  import opened Rules
  import opened Nodes
  import opened Matching

  /** A ParserState: its position and which list object its Nodes is. */
  datatype Cursor = Cursor(pos: int, list: nat)

  /** The cursor and every node list allocated so far. */
  datatype Machine<!V> = Machine(cursor: Cursor, lists: seq<seq<Node<V>>>)

  /** What MatchImpl does: returns true or false with the final machine, throws, or never returns. */
  datatype Step<!V> = Yes(m: Machine<V>) | No(m: Machine<V>) | Threw(error: Error) | Endless

  /** The contents of list object id. */
  function Contents<V>(m: Machine<V>, id: nat): seq<Node<V>>
  {
    if id < |m.lists| then m.lists[id] else []
  }

  /** The contents of the live list, state.Nodes. */
  function LiveNodes<V>(m: Machine<V>): seq<Node<V>>
  {
    Contents(m, m.cursor.list)
  }

  /** new ParserState(input): position 0 and a new empty list. */
  function Initial<V>(): (m: Machine<V>)
    ensures m.cursor.pos == 0 && LiveNodes(m) == []
  {
    Machine(Cursor(0, 0), [[]])
  }

  /** ParserState.Clone: the snapshot gets a new list holding a copy of the live one. */
  function Clone<V>(m: Machine<V>): (r: (Machine<V>, Cursor))
    ensures r.0.cursor == m.cursor && r.1.pos == m.cursor.pos && r.1.list == |m.lists|
    ensures r.0.lists == m.lists + [LiveNodes(m)]
  {
    (m.(lists := m.lists + [LiveNodes(m)]), Cursor(m.cursor.pos, |m.lists|))
  }

  /** ParserState.Assign as written: the live list becomes the snapshot's list object itself. */
  function Assign<V>(m: Machine<V>, snapshot: Cursor): (r: Machine<V>)
    ensures r.cursor == snapshot && r.lists == m.lists
  {
    m.(cursor := snapshot)
  }

  /** list.Add(n) on list object id. */
  function Append<V>(m: Machine<V>, id: nat, n: Node<V>): (r: Machine<V>)
    ensures r.cursor == m.cursor
    ensures id < |m.lists| ==> Contents(r, id) == Contents(m, id) + [n]
  {
    if id < |m.lists| then m.(lists := m.lists[id := m.lists[id] + [n]]) else m
  }

  /** state.Nodes = new List<Node>(). */
  function NewList<V>(m: Machine<V>): (r: Machine<V>)
    ensures r.cursor.pos == m.cursor.pos && LiveNodes(r) == []
  {
    Machine(Cursor(m.cursor.pos, |m.lists|), m.lists + [[]])
  }

  /** Every MatchImpl as written; E resolves the lazy references. */
  function Exec<V>(E: map<RuleId, Rule<V>>, r: Rule<V>, input: string, m: Machine<V>, fuel: nat): Step<V>
    decreases fuel, 0, 0
  {
    if fuel == 0 then Endless
    else
      var pos := m.cursor.pos;
      match r
      case Char(test) =>
        // CharRule.cs:18: Input[Position], whatever Position is
        if !(0 <= pos < |input|) then Threw(IndexOutOfRange)
        else if test(input[pos]) then Yes(m.(cursor := m.cursor.(pos := pos + 1)))
        else No(m)
      case Str(pattern) =>
        if !(0 <= pos <= |input|) then Threw(ArgumentOutOfRange)
        else if pattern <= input[pos..] then Yes(m.(cursor := m.cursor.(pos := pos + |pattern|)))
        else No(m)
      case Start => if pos == 0 then Yes(m) else No(m)
      case End => if pos == |input| then Yes(m) else No(m)
      case Seq(items) =>
        var (m1, snapshot) := Clone(m);
        ExecSeq(E, items, 0, input, m1, snapshot, fuel - 1)
      case Or(alternatives) =>
        var (m1, snapshot) := Clone(m);
        ExecOr(E, alternatives, 0, input, m1, snapshot, fuel - 1)
      case Not(body) =>
        var (m1, snapshot) := Clone(m);
        (match Exec(E, body, input, m1, fuel - 1)
         case No(m2) => Yes(m2)
         case Yes(m2) => No(Assign(m2, snapshot))
         case other => other)
      case Optional(body) =>
        (match Exec(E, body, input, m, fuel - 1)
         case No(m2) => Yes(m2)
         case other => other)
      case ZeroOrMore(body) => ExecWhile(E, body, input, m, fuel - 1)
      case OneOrMore(body) =>
        (match Exec(E, body, input, m, fuel - 1)
         case Yes(m2) => ExecWhile(E, body, input, m2, fuel - 1)
         case other => other)
      case Ref(id, _) =>
        if id in E then Exec(E, E[id], input, m, fuel - 1) else Threw(NullReference)
      case Capture(name, body, kind) =>
        var node := CreateNode(kind, name, input, pos, body);
        var oldChilds := m.cursor.list;
        match Exec(E, body, input, NewList(m), fuel - 1)
        case No(m2) => No(m2.(cursor := m2.cursor.(list := oldChilds)))
        case Yes(m2) =>
          var closed := Close(node, m2.cursor.pos, LiveNodes(m2));
          Yes(Append(m2.(cursor := m2.cursor.(list := oldChilds)), oldChilds, closed))
        case other => other
  }

  /** SequenceRule: Children.All(c => c.MatchImpl(state)), else Assign(oldState). */
  function ExecSeq<V>(E: map<RuleId, Rule<V>>, items: seq<Rule<V>>, i: nat, input: string, m: Machine<V>,
                      snapshot: Cursor, fuel: nat): Step<V>
    requires i <= |items|
    decreases fuel, 1, |items| - i
  {
    if i == |items| then Yes(m)
    else
      match Exec(E, items[i], input, m, fuel)
      case Yes(m2) => ExecSeq(E, items, i + 1, input, m2, snapshot, fuel)
      case No(m2) => No(Assign(m2, snapshot))
      case other => other
  }

  /** OrRule: each child in turn, Assign(oldState) after each one that fails. */
  function ExecOr<V>(E: map<RuleId, Rule<V>>, alternatives: seq<Rule<V>>, i: nat, input: string, m: Machine<V>,
                     snapshot: Cursor, fuel: nat): Step<V>
    requires i <= |alternatives|
    decreases fuel, 1, |alternatives| - i
  {
    if i == |alternatives| then No(m)
    else
      match Exec(E, alternatives[i], input, m, fuel)
      case No(m2) => ExecOr(E, alternatives, i + 1, input, Assign(m2, snapshot), snapshot, fuel)
      case other => other
  }

  /** while (child.MatchImpl(state)) {} */
  function ExecWhile<V>(E: map<RuleId, Rule<V>>, body: Rule<V>, input: string, m: Machine<V>, fuel: nat): Step<V>
    decreases fuel, 1, 0
  {
    if fuel == 0 then Endless
    else
      match Exec(E, body, input, m, fuel - 1)
      case Yes(m2) => ExecWhile(E, body, input, m2, fuel - 1)
      case No(m2) => Yes(m2)
      case other => other
  }

  /** Rule.Match as written. */
  function MatchAsWritten<V>(E: map<RuleId, Rule<V>>, r: Rule<V>, input: string, fuel: nat): (res: Result<bool>)
    ensures input == "" ==> res == Err(ArgumentError("input"))
  {
    if input == "" then Err(ArgumentError("input"))
    else
      match Exec(E, r, input, Initial(), fuel)
      case Yes(_) => Ok(true)
      case No(_) => Ok(false)
      case Threw(e) => Err(e)
      case Endless => Err(Diverged)
  }

  /** Rule.ParseTree as written, for a rule that matches: the single node, or how many nodes there are. */
  function ParseTreeNodesAsWritten<V>(E: map<RuleId, Rule<V>>, r: Rule<V>, input: string, fuel: nat)
    : (res: Option<seq<Node<V>>>)
    ensures Exec(E, r, input, Initial(), fuel).Yes? <==> res.Some?
  {
    match Exec(E, r, input, Initial(), fuel)
    case Yes(m) => Some(LiveNodes(m))
    case _ => None
  }

  // ---------------------------------------------------------------------
  // CharRule at the end of the input.
  // ---------------------------------------------------------------------

  function IsDigit(c: char): bool
  {
    '0' <= c <= '9'
  }

  /** Grammar.Digits: OneOrMore(Char(char.IsDigit)). */
  function Digits<V>(): Rule<V>
  {
    OneOrMore(Char(IsDigit))
  }

  /**
   * As written, Digits cannot match any input that ends in a digit: the
   * loop reads the character after the last digit.  On "1" Match throws.
   */
  lemma DigitsThrowAtEnd()
    ensures MatchAsWritten<int>(map[], Digits(), "1", 5) == Err(IndexOutOfRange)
  {
    var m0 := Initial<int>();
    var m1 := m0.(cursor := m0.cursor.(pos := 1));
    assert Exec(map[], Char(IsDigit), "1", m0, 3) == Yes(m1);
    assert Exec(map[], Char(IsDigit), "1", m1, 2) == Threw(IndexOutOfRange);
    assert ExecWhile(map[], Char(IsDigit), "1", m1, 3) == Threw(IndexOutOfRange);
  }

  /**
   * Corrected: a greedy repetition of a character class consumes the run of
   * characters the class accepts and stops before the first it rejects or at
   * the end of the input.
   */
  lemma {:induction false} StarOfCharStops<V>(E: map<RuleId, Rule<V>>, test: char -> bool, input: string,
                                               pos: nat, end: nat, fuel: nat)
    requires pos <= end <= |input| && fuel >= end - pos + 2
    requires forall i :: pos <= i < end ==> test(input[i])
    requires end < |input| ==> !test(input[end])
    ensures RunStar(E, Char(test), input, pos, fuel) == Succeeded(end, [])
    decreases end - pos
  {
    if pos < end {
      assert Run(E, Char(test), input, pos, fuel - 1) == Succeeded(pos + 1, []);
      StarOfCharStops(E, test, input, pos + 1, end, fuel - 1);
    } else {
      assert Run(E, Char(test), input, pos, fuel - 1) == Failed;
    }
  }

  /** Corrected: Digits matches every all-digit input, consuming all of it. */
  lemma DigitsMatchAllDigits<V>(refs: Refs<V>, input: string, fuel: nat)
    requires input != [] && fuel >= |input| + 2
    requires forall i :: 0 <= i < |input| ==> IsDigit(input[i])
    ensures Run(refs.Effective(), Digits(), input, 0, fuel) == Succeeded(|input|, [])
    ensures MatchSpec(refs, Digits(), input, fuel) == Ok(true)
  {
    assert Run(refs.Effective(), Char(IsDigit), input, 0, fuel - 1) == Succeeded(1, []);
    StarOfCharStops(refs.Effective(), IsDigit, input, 1, |input|, fuel - 1);
  }

  // ---------------------------------------------------------------------
  // Assign aliasing the snapshot's list.
  // ---------------------------------------------------------------------

  /** "z" | (x:"a" + "b"): the second alternative captures x and then fails. */
  function Leaky<V>(): Rule<V>
  {
    Or([Str("z"), Seq([Capture(Some("x"), Str("a"), PlainNode), Str("b")])])
  }

  /** The node x the second alternative captures on "ac" before failing. */
  function LeakedNode<V>(): Node<V>
  {
    Close(CreateNode<V>(PlainNode, Some("x"), "ac", 0, Str("a")), 1, [])
  }

  /**
   * As written, the choice fails on "ac" yet leaves the node x in the live
   * list: the snapshot list the first restore installed received x, and the
   * last restore installs that list again.
   */
  lemma LeakyChoiceKeepsNode()
    ensures Exec<int>(map[], Leaky(), "ac", Initial(), 10).No?
    ensures LiveNodes(Exec<int>(map[], Leaky(), "ac", Initial(), 10).m) == [LeakedNode()]
  {
    var E: map<RuleId, Rule<int>> := map[];
    var m0 := Initial<int>();
    var (m1, snap) := Clone(m0);
    assert !("z" <= "ac"[0..]) by { assert "ac"[0..][0] == 'a'; }
    assert Exec(E, Str("z"), "ac", m1, 8) == No(m1);
    var m2 := Assign(m1, snap);
    assert m2.cursor == Cursor(0, 1) && m2.lists == [[], []];
    var (m3, snap2) := Clone(m2);
    assert snap2 == Cursor(0, 2);
    var inner := NewList(m3);
    var m4 := inner.(cursor := inner.cursor.(pos := 1));
    assert Exec(E, Str("a"), "ac", inner, 6) == Yes(m4);
    var m5 := Append(m4.(cursor := m4.cursor.(list := 1)), 1, LeakedNode());
    assert Exec(E, Capture(Some("x"), Str("a"), PlainNode), "ac", m3, 7) == Yes(m5);
    assert !("b" <= "ac"[1..]) by { assert "ac"[1..][0] == 'c'; }
    assert Exec(E, Str("b"), "ac", m5, 7) == No(m5);
    assert ExecSeq(E, [Capture(Some("x"), Str("a"), PlainNode), Str("b")], 0, "ac", m3, snap2, 7)
      == No(Assign(m5, snap2));
    assert Exec(E, Seq([Capture(Some("x"), Str("a"), PlainNode), Str("b")]), "ac", m2, 8) == No(Assign(m5, snap2));
    var m6 := Assign(Assign(m5, snap2), snap);
    assert ExecOr(E, [Str("z"), Seq([Capture(Some("x"), Str("a"), PlainNode), Str("b")])], 0, "ac", m1, snap, 9)
      == No(m6);
    assert LiveNodes(m6) == [LeakedNode()];
  }

  /**
   * So an optional choice that does not match on "ac" still hands ParseTree
   * the leaked node, which it returns as the root of the tree.
   */
  lemma LeakReachesParseTree()
    ensures ParseTreeNodesAsWritten<int>(map[], Optional(Leaky()), "ac", 11) == Some([LeakedNode()])
  {
    LeakyChoiceKeepsNode();
  }

  /** Corrected: the same choice fails without a trace and the optional captures nothing. */
  lemma LeakyChoiceCorrected<V>(E: map<RuleId, Rule<V>>)
    ensures Run(E, Leaky(), "ac", 0, 10) == Failed
    ensures Run(E, Optional(Leaky()), "ac", 0, 11) == Succeeded(0, [])
  {
    assert !("b" <= "ac"[1..]) by { assert "ac"[1..][0] == 'c'; }
    assert !("z" <= "ac"[0..]) by { assert "ac"[0..][0] == 'a'; }
    assert Run(E, Str("b"), "ac", 1, 7) == Failed;
    assert Run(E, Capture(Some("x"), Str("a"), PlainNode), "ac", 0, 7).Succeeded?;
    assert RunSeq(E, [Capture(Some("x"), Str("a"), PlainNode), Str("b")], 1, "ac", 1, 7) == Failed;
    assert Run(E, Seq([Capture(Some("x"), Str("a"), PlainNode), Str("b")]), "ac", 0, 8) == Failed;
    assert Run(E, Str("z"), "ac", 0, 8) == Failed;
    assert RunOr(E, [Str("z"), Seq([Capture(Some("x"), Str("a"), PlainNode), Str("b")])], 1, "ac", 0, 9) == Failed;
  }
}
