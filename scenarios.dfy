// The library's unit tests, and worked examples of single operations
// (Process, ToString, Definition), as facts about the model, with int for T.
module Scenarios {
  import opened Outcomes
  import opened Rules
  import opened Nodes
  import opened Definitions
  import opened Matching
  import opened Values
  import opened NodeQueries
  import opened AsWritten

  function NoRefs(): Refs<int>
  {
    Refs(map[], map[])
  }

  /** CharRule(char.IsDigit) accepts "1" and rejects "a". */
  lemma CharScenario()
    ensures MatchSpec(NoRefs(), Char(IsDigit), "1", 1) == Ok(true)
    ensures MatchSpec(NoRefs(), Char(IsDigit), "a", 1) == Ok(false)
  {
  }

  /** "cat" + "fish" accepts "catfish" and "catfish something", rejects "catsomething" and "fishcat". */
  lemma SequenceScenario()
    ensures MatchSpec(NoRefs(), SequenceRule([Str("cat"), Str("fish")]), "catfish", 2) == Ok(true)
    ensures MatchSpec(NoRefs(), SequenceRule([Str("cat"), Str("fish")]), "catfish something", 2) == Ok(true)
    ensures MatchSpec(NoRefs(), SequenceRule([Str("cat"), Str("fish")]), "catsomething", 2) == Ok(false)
    ensures MatchSpec(NoRefs(), SequenceRule([Str("cat"), Str("fish")]), "fishcat", 2) == Ok(false)
  {
    var r := SequenceRule([Rule<int>.Str("cat"), Str("fish")]);
    FlattenOne(Rule<int>.Str("cat"));
    FlattenSequencesAppend([Rule<int>.Str("cat")], [Str("fish")]);
    FlattenOne(Rule<int>.Str("fish"));
    assert [Rule<int>.Str("cat")] + [Str("fish")] == [Str("cat"), Str("fish")];
    assert r == Seq([Str("cat"), Str("fish")]);
    assert "catfish"[3..] == "fish";
    assert "catfish something"[3..][..4] == "fish";
    assert "catsomething"[3..][0] == 's';
    assert "fishcat"[0..][0] == 'f';
  }

  /** "cat" | "dog" accepts "catfish" and "dogfish", rejects "something" and "fishcatdog". */
  lemma ChoiceScenario()
    ensures MatchSpec(NoRefs(), OrRule([Str("cat"), Str("dog")]), "catfish", 2) == Ok(true)
    ensures MatchSpec(NoRefs(), OrRule([Str("cat"), Str("dog")]), "dogfish", 2) == Ok(true)
    ensures MatchSpec(NoRefs(), OrRule([Str("cat"), Str("dog")]), "something", 2) == Ok(false)
    ensures MatchSpec(NoRefs(), OrRule([Str("cat"), Str("dog")]), "fishcatdog", 2) == Ok(false)
  {
    FlattenOne(Rule<int>.Str("cat"));
    FlattenChoicesAppend([Rule<int>.Str("cat")], [Str("dog")]);
    FlattenOne(Rule<int>.Str("dog"));
    assert [Rule<int>.Str("cat")] + [Str("dog")] == [Str("cat"), Str("dog")];
    assert OrRule([Rule<int>.Str("cat"), Str("dog")]) == Or([Str("cat"), Str("dog")]);
    assert "catfish"[0..][..3] == "cat";
    assert "dogfish"[0..][0] == 'd' && "dogfish"[0..][..3] == "dog";
    assert "something"[0..][0] == 's';
    assert "fishcatdog"[0..][0] == 'f';
  }

  /** Optional("test") accepts "test" and "something". */
  lemma OptionalScenario()
    ensures MatchSpec(NoRefs(), Optional(Str("test")), "test", 2) == Ok(true)
    ensures MatchSpec(NoRefs(), Optional(Str("test")), "something", 2) == Ok(true)
  {
  }

  /** A StartRule after "Test" fails; an EndRule at the start of "something" fails. */
  lemma AnchorScenario()
    ensures MatchSpec(NoRefs(), Start, "sometihng", 1) == Ok(true)
    ensures MatchSpec(NoRefs(), Seq([Str("Test"), Start]), "Test dingen", 2) == Ok(false)
    ensures MatchSpec(NoRefs(), End, "something", 1) == Ok(false)
  {
    assert "Test dingen"[0..][..4] == "Test";
  }

  /**
   * The tests expect EndRule to match "", but Rule.Match rejects empty input
   * before running any rule.
   */
  lemma EmptyInputScenario()
    ensures MatchSpec(NoRefs(), End, "", 1) == Err(ArgumentError("input"))
  {
  }

  /** OneOrMore("test ") + "something" accepts "test test something". */
  lemma OneOrMoreScenario()
    ensures MatchSpec(NoRefs(), Seq([OneOrMore(Str("test ")), Str("something")]), "test test something", 6) == Ok(true)
    ensures MatchSpec(NoRefs(), OneOrMore(Str("test ")), "something", 2) == Ok(false)
  {
    var input := "test test something";
    var E: map<RuleId, Rule<int>> := map[];
    assert input[0..][..5] == "test ";
    assert input[5..][..5] == "test ";
    assert input[10..][0] == 's';
    assert input[10..] == "something";
    assert RunStar(E, Str("test "), input, 10, 2) == Succeeded(10, []);
    assert RunStar(E, Str("test "), input, 5, 3) == Succeeded(10, []);
    assert Run(E, OneOrMore(Str("test ")), input, 0, 4) == Succeeded(10, []);
    assert "something"[0..][0] == 's';
  }

  /** digit + recursive, recursive := (op + digit + recursive) | End; RecursiveScenario runs it on "1", "1+2" and "1+2+3". */
  function Expression(): Rule<int>
  {
    Seq([Digits(), Ref(0, None)])
  }

  function ExpressionTail(): Rule<int>
  {
    Or([Seq([Operator(), Digits(), Ref(0, None)]), End])
  }

  /** The operator of the expression grammar, SharedGrammar.MatchAnyString("+ -"). */
  function Operator(): Rule<int>
  {
    Or([Str("+"), Str("-")])
  }

  /** At the end of the input the tail takes its End alternative. */
  lemma TailAtEnd(E: map<RuleId, Rule<int>>, input: string, fuel: nat)
    requires fuel >= 4
    ensures Run(E, ExpressionTail(), input, |input|, fuel) == Succeeded(|input|, [])
  {
    var items := [Operator(), Digits(), Ref(0, None)];
    var alternatives := [Seq(items), End];
    assert input[|input|..] == [];
    assert Run(E, Rule<int>.Str("+"), input, |input|, fuel - 3) == Failed;
    assert Run(E, Rule<int>.Str("-"), input, |input|, fuel - 3) == Failed;
    assert RunOr(E, [Rule<int>.Str("+"), Str("-")], 1, input, |input|, fuel - 3) == Failed;
    assert Run(E, Operator(), input, |input|, fuel - 2) == Failed;
    assert Run(E, Seq(items), input, |input|, fuel - 1) == Failed;
    assert RunOr(E, alternatives, 1, input, |input|, fuel - 1) == Succeeded(|input|, []);
    assert RunOr(E, alternatives, 0, input, |input|, fuel - 1) == Succeeded(|input|, []);
  }

  /** From a "+" and one digit, the tail consumes both and then whatever the tail accepts after them. */
  lemma TailOfPlusDigit(E: map<RuleId, Rule<int>>, input: string, pos: nat, fuel: nat)
    requires E == map[0 := ExpressionTail()]
    requires pos + 2 <= |input| && input[pos] == '+' && IsDigit(input[pos + 1]) && fuel >= 10
    requires pos + 2 < |input| ==> !IsDigit(input[pos + 2])
    requires Run(E, ExpressionTail(), input, pos + 2, fuel - 3) == Succeeded(|input|, [])
    ensures Run(E, ExpressionTail(), input, pos, fuel) == Succeeded(|input|, [])
  {
    var items := [Operator(), Digits(), Ref(0, None)];
    assert input[pos..][..1] == "+";
    assert Run(E, Rule<int>.Str("+"), input, pos, fuel - 3) == Succeeded(pos + 1, []);
    assert Run(E, Operator(), input, pos, fuel - 2) == Succeeded(pos + 1, []);
    DigitsMatchPrefix(E, input, pos + 1, pos + 2, fuel - 2);
    assert Run(E, Ref(0, None), input, pos + 2, fuel - 2) == Succeeded(|input|, []);
    assert RunSeq(E, items, 2, input, pos + 2, fuel - 2) == Succeeded(|input|, []);
    assert RunSeq(E, items, 1, input, pos + 1, fuel - 2) == Succeeded(|input|, []);
    assert RunSeq(E, items, 0, input, pos, fuel - 2) == Succeeded(|input|, []);
    assert Run(E, Seq(items), input, pos, fuel - 1) == Succeeded(|input|, []);
  }

  /** A digit, then what the tail accepts, is an expression. */
  lemma ExpressionFromDigit(E: map<RuleId, Rule<int>>, input: string)
    requires E == map[0 := ExpressionTail()]
    requires |input| >= 1 && IsDigit(input[0]) && (1 < |input| ==> !IsDigit(input[1]))
    requires Run(E, ExpressionTail(), input, 1, 18) == Succeeded(|input|, [])
    ensures Run(E, Expression(), input, 0, 20) == Succeeded(|input|, [])
  {
    DigitsMatchPrefix(E, input, 0, 1, 19);
    assert Run(E, Ref(0, None), input, 1, 19) == Succeeded(|input|, []);
    assert RunSeq(E, [Digits(), Ref(0, None)], 1, input, 1, 19) == Succeeded(|input|, []);
    assert RunSeq(E, [Digits(), Ref(0, None)], 0, input, 0, 19) == Succeeded(|input|, []);
  }

  /** Match answers true for an expression the grammar runs through. */
  lemma ExpressionMatches(input: string)
    requires input != ""
    requires Run(map[0 := ExpressionTail()], Expression(), input, 0, 20).Succeeded?
    ensures MatchSpec(Refs(map[0 := ExpressionTail()], map[]), Expression(), input, 20) == Ok(true)
  {
    assert Refs(map[0 := ExpressionTail()], map[]).Effective() == map[0 := ExpressionTail()];
  }

  /** The self-referential expression grammar accepts "1", "1+2" and "1+2+3". */
  lemma RecursiveScenario()
    ensures MatchSpec(Refs(map[0 := ExpressionTail()], map[]), Expression(), "1", 20) == Ok(true)
    ensures MatchSpec(Refs(map[0 := ExpressionTail()], map[]), Expression(), "1+2", 20) == Ok(true)
    ensures MatchSpec(Refs(map[0 := ExpressionTail()], map[]), Expression(), "1+2+3", 20) == Ok(true)
  {
    var E := map[0 := ExpressionTail()];
    OneTerm(E);
    TwoTerms(E);
    ThreeTerms(E);
  }

  lemma OneTerm(E: map<RuleId, Rule<int>>)
    requires E == map[0 := ExpressionTail()]
    ensures MatchSpec(Refs(map[0 := ExpressionTail()], map[]), Expression(), "1", 20) == Ok(true)
  {
    var input := "1";
    TailAtEnd(E, input, 18);
    ExpressionFromDigit(E, input);
    ExpressionMatches(input);
  }

  lemma TwoTerms(E: map<RuleId, Rule<int>>)
    requires E == map[0 := ExpressionTail()]
    ensures MatchSpec(Refs(map[0 := ExpressionTail()], map[]), Expression(), "1+2", 20) == Ok(true)
  {
    var input := "1+2";
    assert input[1] == '+' && input[2] == '2' && |input| == 3;
    TailAtEnd(E, input, 15);
    TailOfPlusDigit(E, input, 1, 18);
    ExpressionFromDigit(E, input);
    ExpressionMatches(input);
  }

  lemma ThreeTerms(E: map<RuleId, Rule<int>>)
    requires E == map[0 := ExpressionTail()]
    ensures MatchSpec(Refs(map[0 := ExpressionTail()], map[]), Expression(), "1+2+3", 20) == Ok(true)
  {
    var input := "1+2+3";
    assert input[1] == '+' && input[2] == '2' && input[3] == '+' && input[4] == '3' && |input| == 5;
    TailAtEnd(E, input, 12);
    TailOfPlusDigit(E, input, 3, 15);
    TailOfPlusDigit(E, input, 1, 18);
    ExpressionFromDigit(E, input);
    ExpressionMatches(input);
  }

  /** Digits from pos consumes exactly the digits up to end, when the character at end is not a digit. */
  lemma DigitsMatchPrefix(E: map<RuleId, Rule<int>>, input: string, pos: nat, end: nat, fuel: nat)
    requires pos < end <= |input| && fuel >= end - pos + 2
    requires forall i :: pos <= i < end ==> IsDigit(input[i])
    requires end < |input| ==> !IsDigit(input[end])
    ensures Run(E, Digits(), input, pos, fuel) == Succeeded(end, [])
  {
    assert Run(E, Char(IsDigit), input, pos, fuel - 1) == Succeeded(pos + 1, []);
    StarOfCharStops(E, IsDigit, input, pos + 1, end, fuel - 1);
  }

  /** ConstantValueRule<int>("constant", 1, Digits) on "123": a ValueNode<int> whose value is 1. */
  lemma ConstantValueScenario(convert: (ConverterId, Node<int>) -> int)
    ensures var rule := Capture(Some("constant"), Digits(), ValueOf("int", Constant(1)));
      var root := ParseTreeSpec(NoRefs(), rule, "123", 6);
      && root.Ok? && IsValueNode(root.value, "int")
      && Value(Context(NoRefs(), convert, 0), root.value, 6) == Ok(1)
  {
    DigitsMatchAllDigits(NoRefs(), "123", 5);
  }

  /** ConvertToValueRule<int>("number", int.Parse, Digits) on "123": the parse of the text "123". */
  lemma ConvertToValueScenario(convert: (ConverterId, Node<int>) -> int, parse: string -> int)
    ensures var rule := Capture(Some("number"), Digits(), ValueOf("int", ConvertToValue(FromText(parse))));
      var root := ParseTreeSpec(NoRefs(), rule, "123", 6);
      && root.Ok? && IsValueNode(root.value, "int")
      && Value(Context(NoRefs(), convert, 0), root.value, 6) == Ok(parse("123"))
  {
    DigitsMatchAllDigits(NoRefs(), "123", 5);
    var rule := Capture(Some("number"), Digits(), ValueOf("int", ConvertToValue(FromText(parse))));
    var root := ParseTreeSpec(NoRefs(), rule, "123", 6).value;
    assert root.begin == 0 && root.end == 3;
    assert "123"[0..3] == "123";
  }

  /** A value node holding a constant, as ConstantValueRule<int> builds it. */
  function ConstantLeaf(v: int, begin: int): Node<int>
  {
    MakeNode(None, "56", begin, begin + 1).(kind := Valued("int", Constant(v), Str("")))
  }

  /** Process with + over a node whose children hold 5 and 6 yields 16, not 11. */
  lemma ProcessScenario(convert: (ConverterId, Node<int>) -> int)
    ensures var root := MakeNode(None, "56", 0, 2, [ConstantLeaf(5, 0), ConstantLeaf(6, 1)]);
      ProcessNode(Context(NoRefs(), convert, 0), "int", (a: int, b: int) => a + b, root, 0, 1) == Ok(16)
  {
    var ctx := Context(NoRefs(), convert, 0);
    var add := (a: int, b: int) => a + b;
    var kids := [ConstantLeaf(5, 0), ConstantLeaf(6, 1)];
    ProcessTypedChildren(ctx, "int", add, kids, [5, 6], 0, 1);
    assert Twice(add, 0, [5, 6]) == 16 by {
      assert [5, 6][1..] == [6];
      assert Twice(add, 5, [6]) == 16;
    }
  }

  /** Grammar.Node("node", 'a') parsed on "a" prints as "node: a". */
  lemma ToStringScenario()
    ensures var root := ParseTreeSpec(NoRefs(), Capture(Some("node"), Str("a"), PlainNode), "a", 2);
      root.Ok? && ToString(root.value) == Ok("node: a")
  {
    var root := ParseTreeSpec(NoRefs(), Capture(Some("node"), Str("a"), PlainNode), "a", 2).value;
    assert "a"[0..][..1] == "a";
    assert root.begin == 0 && root.end == 1;
    assert "a"[0..1] == "a";
    assert "node" + ": " + "a" == "node: a";
  }

  /** Definition of a StringRule: its pattern in double quotes. */
  lemma QuotedScenario(pattern: string, fuel: nat)
    ensures Definition<int>(map[], Str(pattern), fuel) == Some("\"" + pattern + "\"")
    ensures Show<int>(map[], Str(pattern), fuel) == Some("\"" + pattern + "\"")
  {
  }

  /** The definitions of the library's tests, with strings in place of characters. */
  lemma DefinitionScenario()
    ensures Definition<int>(map[], Str("cat"), 1) == Some("\"cat\"")
    ensures Definition<int>(map[], End, 1) == Some("$")
    ensures Definition<int>(map[], Start, 1) == Some("^")
    ensures Definition<int>(map[], Not(Str("a")), 1) == Some("Not(\"a\")")
    ensures Definition<int>(map[], OneOrMore(Str("a")), 1) == Some("(\"a\")+")
    ensures Definition<int>(map[], ZeroOrMore(Str("a")), 1) == Some("(\"a\")*")
    ensures Definition<int>(map[], Optional(Str("a")), 1) == Some("(\"a\")?")
    ensures Definition<int>(map[], Char(IsDigit), 1) == Some("f(char)")
  {
    QuotedScenario("cat", 1);
    assert "\"" + "cat" + "\"" == "\"cat\"";
    QuotedScenario("a", 1);
    assert "\"" + "a" + "\"" == "\"a\"";
    assert "Not(" + "\"a\"" + ")" == "Not(\"a\")";
    assert "(" + "\"a\"" + ")+" == "(\"a\")+";
    assert "(" + "\"a\"" + ")*" == "(\"a\")*";
    assert "(" + "\"a\"" + ")?" == "(\"a\")?";
  }

  /**
   * 'a' + 'b': the Definition joins the children's ToString with " + ", and
   * the sequence's ToString adds the parentheses.
   */
  lemma SequenceDefinitionScenario(pa: string, pb: string)
    ensures var qa, qb := "\"" + pa + "\"", "\"" + pb + "\"";
      && Definition<int>(map[], SequenceRule([Str(pa), Str(pb)]), 1) == Some(qa + " + " + qb)
      && Show<int>(map[], SequenceRule([Str(pa), Str(pb)]), 1) == Some("(" + qa + " + " + qb + ")")
  {
    var qa, qb := "\"" + pa + "\"", "\"" + pb + "\"";
    var a, b := Rule<int>.Str(pa), Rule<int>.Str(pb);
    FlattenOne(a); FlattenOne(b); FlattenSequencesAppend([a], [b]);
    assert [a] + [b] == [a, b];
    assert SequenceRule([a, b]) == Seq([a, b]);
    var shown := seq(2, i requires 0 <= i < 2 => Show(map[], [a, b][i], 1));
    QuotedScenario(pa, 1);
    QuotedScenario(pb, 1);
    assert |shown| == 2;
    assert shown[0] == Show(map[], a, 1) == Some(qa);
    assert shown[1] == Show(map[], b, 1) == Some(qb);
    var all := AllPresent(shown);
    assert all.Some? && |all.value| == 2;
    assert all.value[0] == qa && all.value[1] == qb;
    assert all.value == [qa, qb];
    assert all.value[1..] == [qb];
    assert Aggregate(qa, [qb], " + ") == Aggregate(qa + " + " + qb, [qb][1..], " + ");
    assert [qb][1..] == [];
    assert JoinChildren(shown, " + ") == Some(qa + " + " + qb);
    assert Definition<int>(map[], Seq([a, b]), 1) == JoinChildren(shown, " + ");
    assert Show<int>(map[], Seq([a, b]), 1) == Some("(" + (qa + " + " + qb) + ")");
    assert "(" + (qa + " + " + qb) + ")" == "(" + qa + " + " + qb + ")";
    assert [qb][1..] == [];
  }
}
