// The grammar rules of the parser-combinator library, as one datatype.
//
// Every rule class of the library becomes one constructor.  The user-supplied
// functions a rule carries (character predicates, text converters,
// accumulators and comparers) are uninterpreted Dafny functions.  A converter
// that takes the captured node itself cannot live inside the rule (a node
// holds its rule), so it is named by an id and looked up in the evaluation
// context.
module Rules {
  import opened Outcomes

  /** Names a lazily resolved rule (FuncRule / RecursiveRule). */
  type RuleId = nat
  /** Stands for the type argument T of ValueRule<T> and ValueNode<T>. */
  type TypeName = string
  /** Names a node converter (Func<Node, T>) of a ConvertToValueRule. */
  type ConverterId = nat

  datatype Converter<!V> =
    | FromText(parse: string -> V)   // Func<string, T>, applied to node.Text
    | FromNode(id: ConverterId)       // Func<Node, T>, applied to the node

  /** How a value rule's node produces its value. */
  datatype Evaluation<!V> =
    | Constant(value: V)
    | ConvertToValue(converter: Converter<V>)
    | FirstValue
    | Accumulate(accumulator: (V, V) -> V)
    | EvaluateLeafs(accumulator: (V, V) -> V)
    | RangeValue(minimum: V, maximum: V, comparer: (V, V) -> int)

  /** A capturing rule is a plain NodeRule or a ValueRule<T> of some kind. */
  datatype Capturing<!V> = PlainNode | ValueOf(ty: TypeName, eval: Evaluation<V>)

  datatype Rule<!V> =
    | Char(test: char -> bool)                      // CharRule
    | Str(pattern: string)                          // StringRule
    | Start                                         // StartRule
    | End                                           // EndRule
    | Seq(items: seq<Rule<V>>)                      // SequenceRule
    | Or(alternatives: seq<Rule<V>>)                // OrRule
    | Not(body: Rule<V>)                            // NotRule
    | Optional(body: Rule<V>)                       // OptionalRule
    | ZeroOrMore(body: Rule<V>)                     // ZeroOrMoreRule
    | OneOrMore(body: Rule<V>)                      // OneOrMoreRule
    | Ref(id: RuleId, name: Option<string>)         // FuncRule and RecursiveRule
    | Capture(name: Option<string>, body: Rule<V>, kind: Capturing<V>)  // NodeRule, ValueRule<T>

  /** The children a sequence contributes when it is nested in another one. */
  function SequenceParts<V>(r: Rule<V>): (parts: seq<Rule<V>>)
    ensures r.Seq? ==> parts == r.items
    ensures !r.Seq? ==> parts == [r]
  {
    if r.Seq? then r.items else [r]
  }

  /** The children an ordered choice contributes when nested in another one. */
  function ChoiceParts<V>(r: Rule<V>): (parts: seq<Rule<V>>)
    ensures r.Or? ==> parts == r.alternatives
    ensures !r.Or? ==> parts == [r]
  {
    if r.Or? then r.alternatives else [r]
  }

  function FlattenSequences<V>(rules: seq<Rule<V>>): seq<Rule<V>>
  {
    if rules == [] then [] else SequenceParts(rules[0]) + FlattenSequences(rules[1..])
  }

  function FlattenChoices<V>(rules: seq<Rule<V>>): seq<Rule<V>>
  {
    if rules == [] then [] else ChoiceParts(rules[0]) + FlattenChoices(rules[1..])
  }

  /** A sequence built by the constructor never has a sequence as a child. */
  predicate FlatSequence<V>(r: Rule<V>)
  {
    r.Seq? ==> forall i :: 0 <= i < |r.items| ==> !r.items[i].Seq?
  }

  /** An ordered choice built by the constructor never has a choice as a child. */
  predicate FlatChoice<V>(r: Rule<V>)
  {
    r.Or? ==> forall i :: 0 <= i < |r.alternatives| ==> !r.alternatives[i].Or?
  }

  /**
   * The SequenceRule constructors (also reached through operator +): nested
   * sequences are inlined, so a sequence never has a sequence child.
   */
  function SequenceRule<V>(rules: seq<Rule<V>>): (r: Rule<V>)
    ensures r.Seq?
    ensures (forall x :: x in rules ==> FlatSequence(x)) ==> FlatSequence(r)
    ensures forall x :: x in rules && !x.Seq? ==> x in r.items
  {
    FlattenSequencesSound(rules);
    Seq(FlattenSequences(rules))
  }

  /**
   * The OrRule constructors (also reached through operator |): nested
   * choices are inlined, so a choice never has a choice child.
   */
  function OrRule<V>(rules: seq<Rule<V>>): (r: Rule<V>)
    ensures r.Or?
    ensures (forall x :: x in rules ==> FlatChoice(x)) ==> FlatChoice(r)
    ensures forall x :: x in rules && !x.Or? ==> x in r.alternatives
  {
    FlattenChoicesSound(rules);
    Or(FlattenChoices(rules))
  }

  lemma {:induction false} FlattenSequencesSound<V>(rules: seq<Rule<V>>)
    ensures (forall x :: x in rules ==> FlatSequence(x)) ==> forall x :: x in FlattenSequences(rules) ==> !x.Seq?
    ensures forall x :: x in rules && !x.Seq? ==> x in FlattenSequences(rules)
  {
    if rules != [] {
      FlattenSequencesSound(rules[1..]);
      assert forall x :: x in rules[1..] ==> x in rules;
      assert rules[0] in rules;
    }
  }

  lemma {:induction false} FlattenChoicesSound<V>(rules: seq<Rule<V>>)
    ensures (forall x :: x in rules ==> FlatChoice(x)) ==> forall x :: x in FlattenChoices(rules) ==> !x.Or?
    ensures forall x :: x in rules && !x.Or? ==> x in FlattenChoices(rules)
  {
    if rules != [] {
      FlattenChoicesSound(rules[1..]);
      assert forall x :: x in rules[1..] ==> x in rules;
      assert rules[0] in rules;
    }
  }

  lemma {:induction false} FlattenSequencesAppend<V>(a: seq<Rule<V>>, b: seq<Rule<V>>)
    ensures FlattenSequences(a + b) == FlattenSequences(a) + FlattenSequences(b)
  {
    if a != [] {
      assert (a + b)[1..] == a[1..] + b;
      FlattenSequencesAppend(a[1..], b);
    } else {
      assert a + b == b;
    }
  }

  lemma {:induction false} FlattenChoicesAppend<V>(a: seq<Rule<V>>, b: seq<Rule<V>>)
    ensures FlattenChoices(a + b) == FlattenChoices(a) + FlattenChoices(b)
  {
    if a != [] {
      assert (a + b)[1..] == a[1..] + b;
      FlattenChoicesAppend(a[1..], b);
    } else {
      assert a + b == b;
    }
  }

  /** A flattened list is left alone by a second flattening. */
  lemma {:induction false} FlattenSequencesIdempotent<V>(rules: seq<Rule<V>>)
    requires forall x :: x in rules ==> !x.Seq?
    ensures FlattenSequences(rules) == rules
  {
    if rules != [] {
      FlattenSequencesIdempotent(rules[1..]);
      assert rules == [rules[0]] + rules[1..];
    }
  }

  lemma {:induction false} FlattenChoicesIdempotent<V>(rules: seq<Rule<V>>)
    requires forall x :: x in rules ==> !x.Or?
    ensures FlattenChoices(rules) == rules
  {
    if rules != [] {
      FlattenChoicesIdempotent(rules[1..]);
      assert rules == [rules[0]] + rules[1..];
    }
  }

  lemma FlattenOne<V>(x: Rule<V>)
    ensures FlattenSequences([x]) == SequenceParts(x)
    ensures FlattenChoices([x]) == ChoiceParts(x)
  {
    assert [x][1..] == [];
  }

  /** A two-rule sequence holds the parts of its first rule, then of its second. */
  lemma SequencePair<V>(x: Rule<V>, y: Rule<V>)
    ensures SequenceRule([x, y]).items == SequenceParts(x) + SequenceParts(y)
  {
    FlattenSequencesAppend([x], [y]);
    assert [x] + [y] == [x, y];
    FlattenOne(x);
    FlattenOne(y);
  }

  /** A two-rule choice holds the alternatives of its first rule, then of its second. */
  lemma ChoicePair<V>(x: Rule<V>, y: Rule<V>)
    ensures OrRule([x, y]).alternatives == ChoiceParts(x) + ChoiceParts(y)
  {
    FlattenChoicesAppend([x], [y]);
    assert [x] + [y] == [x, y];
    FlattenOne(x);
    FlattenOne(y);
  }

  /** (a + b) + c and a + (b + c) build the same sequence. */
  lemma SequenceAssociative<V>(a: Rule<V>, b: Rule<V>, c: Rule<V>)
    ensures SequenceRule([SequenceRule([a, b]), c]).items == SequenceRule([a, SequenceRule([b, c])]).items
    ensures SequenceRule([SequenceRule([a, b]), c]).items == SequenceParts(a) + SequenceParts(b) + SequenceParts(c)
  {
    var pa, pb, pc := SequenceParts(a), SequenceParts(b), SequenceParts(c);
    var ab := SequenceRule([a, b]);
    var bc := SequenceRule([b, c]);
    SequencePair(a, b);
    assert SequenceParts(ab) == pa + pb;
    SequencePair(ab, c);
    assert SequenceRule([ab, c]).items == (pa + pb) + pc;
    SequencePair(b, c);
    assert SequenceParts(bc) == pb + pc;
    SequencePair(a, bc);
    assert SequenceRule([a, bc]).items == pa + (pb + pc);
  }

  /** (a | b) | c and a | (b | c) build the same ordered choice. */
  lemma ChoiceAssociative<V>(a: Rule<V>, b: Rule<V>, c: Rule<V>)
    ensures OrRule([OrRule([a, b]), c]).alternatives == OrRule([a, OrRule([b, c])]).alternatives
    ensures OrRule([OrRule([a, b]), c]).alternatives == ChoiceParts(a) + ChoiceParts(b) + ChoiceParts(c)
  {
    var pa, pb, pc := ChoiceParts(a), ChoiceParts(b), ChoiceParts(c);
    var ab := OrRule([a, b]);
    var bc := OrRule([b, c]);
    ChoicePair(a, b);
    assert ChoiceParts(ab) == pa + pb;
    ChoicePair(ab, c);
    assert OrRule([ab, c]).alternatives == (pa + pb) + pc;
    ChoicePair(b, c);
    assert ChoiceParts(bc) == pb + pc;
    ChoicePair(a, bc);
    assert OrRule([a, bc]).alternatives == pa + (pb + pc);
  }
}
