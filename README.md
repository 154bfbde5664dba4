# ParserLib matching engine and typed-value overlay, in Dafny

This project models the core of ParserLib, a C# parser-combinator library.

**The backtracking matching engine.**
- A grammar is a tree of rules. There are two terminals, `CharRule` (one character satisfying a predicate) and `StringRule` (a literal prefix). `StartRule` and `EndRule` are zero-width anchors.
- The combinators are sequence and ordered choice (both flattened when built), negative lookahead, optional, zero-or-more and one-or-more.
- `FuncRule` and `RecursiveRule` are lazy references that resolve and cache their child on first match.
- `NodeRule` captures a subtree as a parse-tree `Node`.
- Every rule works in place on a shared `ParserState` (input, position, list of captured nodes). Sequence, choice and lookahead take a snapshot (`Clone`) and restore it (`Assign`) when a child fails.
- `Rule.Match` and `Rule.ParseTree` drive the engine from position 0.

**The typed-value overlay.**
- Value rules (`ConstantValueRule`, `ConvertToValueRule`, `FirstValueRule`, `AccumulateRule`, `EvaluateLeafsRule`, `RangeValueRule`) capture `ValueNode<T>`s. A value node yields a value when read: a constant, a converter's result, a memoised lazy computation, a left fold of the typed values below it, or a range-checked re-parse.
- `NodeExtensions` searches a parse tree in pre-order for typed values, by type and by name. It also folds a tree with `Process`.
- `RuleExtensions` applies those queries to the tree a rule parses from an input.

**How the model is laid out.**
- `Matching.Run` is the meaning of matching, as a fuel-bounded function.
- Module `Engine` is the imperative engine: one method per rule class's `MatchImpl`, each working on a `ParserState` object. Each method is proved to do exactly what `Run` prescribes. Through `Engine.Realizes`, every contract states the library's two central promises:
  - a rule that fails leaves the position and the node list as it found them;
  - a rule that matches only moves forward, never past the end of the input, and only appends to the node list.
- `Matching.Run` and `Engine` model the engine as the library evidently intends. Module `AsWritten` models the two places where the code departs from that (see "## Findings").

Modules, one per file:
- `Outcomes`: Option, errors and results.
- `Rules`: the rule datatype and the flattening constructors.
- `Nodes`: the parse-tree node.
- `Traversal`: pre-order and WhereLeafs.
- `Definitions`: Definition, ToString and Equals.
- `Matching`: the specification of matching.
- `ParserStates`: the cursor class.
- `Engine`: the imperative engine.
- `MatchingLaws`: laws about matching.
- `Values`: the value of each kind of value node.
- `LazyValues`: the memoising `LazyValueNode` class.
- `DerivedRules`: the cached `Optional`/`Not`/`OneOrMore`/`ZeroOrMore` properties.
- `NodeQueries`: NodeExtensions.
- `RuleQueries`: RuleExtensions.
- `AsWritten`: the engine as the code is written.
- `Scenarios`: the library's unit tests, and a few worked examples of the source's operations, as lemmas.

Modelling choices:
- **Exceptions** become `Err` results:
  - `IndexOutOfRange`;
  - `ArgumentOutOfRange`;
  - `ArgumentError` (`ArgumentException`);
  - `ParserError` (`ParserException`);
  - `EvaluatorError` (`EvaluatorException`);
  - `NoElements` (LINQ `First` on an empty sequence);
  - `NullReference`;
  - `Diverged` (a loop or recursion that never ends).
- **Fuel.** Each rule dispatch and each loop iteration costs one unit of fuel. Running out is `Stuck(OutOfFuel)` in the specification and `Diverged` at the API. `MatchingLaws.RunFuel` shows that any bound under which a run finishes gives the same answer.
- **Reflection and type parameters.** The reflection-based type tests are replaced by a tag on the node (`NodeKind.Valued(ty, …)`). The type parameter `T` becomes a `TypeName` string. `default(T)` becomes `Context.zero`.
- **User functions.** Character predicates, converters, accumulators and comparers are uninterpreted Dafny functions.
- **Node converters.** A node converter (`Func<Node, T>`) cannot be stored inside the rule, because a node holds its rule. So it is named by an id and applied through `Context.convert`.

## Model

Functions that only compute have no contract of their own. The lemmas and methods that state their properties carry the rows below:
- `Definitions.Definition` and `Definitions.Show`: `CompositeDefinitionJoins`, `QuotedScenario`, `DefinitionScenario` and `SequenceDefinitionScenario`.
- `Definitions.Equal`: `EqualMeans`, `ChildrenEqualPointwise`, `EqualReflexive` and `EqualSymmetric`.
- `Values.Value`: `ConstantIgnoresMatch`, `FirstValueIsFirstTypedDescendant`, `AccumulateFolds`, `EvaluateLeafsFolds` and the two range lemmas.
- `Values.FoldFrom`: `FoldFromIsFoldLeft` and `FoldLeafValues`.
- `Values.NodeFirstValue`: `FirstValueReadsFirstValueNode`.
- `NodeQueries.ProcessNode` and `NodeQueries.ProcessChildren`: `ProcessImpl`, `Process` and `ProcessTypedChildren`.
- `Rules.SequenceParts` and `Rules.ChoiceParts`: the flattening lemmas.
- `RuleQueries.IsValueRule`: `ValueRuleTreeIsTyped`.

| member | source | states |
|---|---|---|
| Rules.SequenceRule | ParserLib/Parsing/Rules/SequenceRule.cs:9-18 | the result is a sequence; every argument that is not a sequence becomes a child; built from flat rules, it never has a sequence child |
| Rules.OrRule | ParserLib/Parsing/Rules/OrRule.cs:18-31 | the result is an ordered choice; every argument that is not a choice becomes an alternative; built from flat rules, it never has a choice child |
| Rules.FlattenSequencesSound | ParserLib/Parsing/Rules/SequenceRule.cs:17 | the SelectMany over flat rules leaves no nested sequence and keeps every argument that is not a sequence |
| Rules.FlattenChoicesSound | ParserLib/Parsing/Rules/OrRule.cs:30 | the SelectMany over flat rules leaves no nested choice and keeps every argument that is not a choice |
| Rules.FlattenSequencesAppend | ParserLib/Parsing/Rules/SequenceRule.cs:17 | flattening distributes over concatenation of the argument lists |
| Rules.FlattenChoicesAppend | ParserLib/Parsing/Rules/OrRule.cs:30 | flattening distributes over concatenation of the argument lists |
| Rules.FlattenSequencesIdempotent | ParserLib/Parsing/Rules/SequenceRule.cs:34 | a list with no sequence in it is left unchanged by flattening |
| Rules.FlattenChoicesIdempotent | ParserLib/Parsing/Rules/OrRule.cs:64 | a list with no choice in it is left unchanged by flattening |
| Rules.FlattenOne | ParserLib/Parsing/Rules/SequenceRule.cs:34 | a single argument flattens to its own parts |
| Rules.SequencePair | ParserLib/Parsing/Rules/Rule.cs:45 | x + y holds the parts of x followed by the parts of y |
| Rules.ChoicePair | ParserLib/Parsing/Rules/Rule.cs:46 | x \| y holds the alternatives of x followed by those of y |
| Rules.SequenceAssociative | ParserLib/Parsing/Rules/Rule.cs:45 | (a + b) + c and a + (b + c) have the same children, the parts of a, b and c in order |
| Rules.ChoiceAssociative | ParserLib/Parsing/Rules/Rule.cs:46 | (a \| b) \| c and a \| (b \| c) have the same alternatives, the parts of a, b and c in order |
| Nodes.MakeNode | ParserLib/Parsing/Node.cs:8-15 | the node holds the given name, input, begin, end and children; end defaults to 0 and the children to none |
| Nodes.CreateNode | ParserLib/Parsing/Rules/NodeRule.cs:68 | a plain NodeRule creates a plain node, and a value rule creates a ValueNode of its type, evaluation and matched rule (ValueRule.cs:49); begin is the given position, end 0, no children |
| Nodes.Length | ParserLib/Parsing/Node.cs:24 | never negative; 0 when end <= begin, otherwise begin + length == end |
| Nodes.Text | ParserLib/Parsing/Node.cs:25 | defined exactly when [begin, begin + Length) lies within the input, and then it is that slice, character for character; otherwise ArgumentOutOfRange |
| Nodes.IsLeaf | ParserLib/Parsing/Node.cs:26 | holds exactly when the child list is empty |
| Nodes.ChildCount | ParserLib/Parsing/Node.cs:27 | is 0 exactly when the node is a leaf |
| Nodes.ToString | ParserLib/Parsing/Node.cs:28 | "name: text" (an unset name prints as nothing), defined exactly when Text is |
| Traversal.PreOrder | ParserLib/Evaluation/NodeExtensions.cs:199-207 | the listing starts with the root itself |
| Traversal.WhereLeafs | ParserLib/Evaluation/NodeExtensions.cs:199-207 | every node yielded satisfies the predicate and is no larger than the branch |
| Traversal.WhereLeafsAll | ParserLib/Evaluation/Rules/FirstValueRule.cs:44 | the SelectMany over the children's subtrees yields only nodes satisfying the predicate |
| Traversal.WhereLeafsIsFilteredPreOrder | ParserLib/Evaluation/NodeExtensions.cs:199-207 | WhereLeafs is exactly the pre-order listing (a node before its descendants, children left to right) filtered by the predicate |
| Traversal.WhereLeafsAllIsFilteredPreOrder | ParserLib/Evaluation/Rules/EvaluateLeafsRule.cs:22 | the SelectMany over children is the children's pre-order listing, filtered |
| Traversal.FilterHead | ParserLib/Evaluation/NodeExtensions.cs:139 | a filtered list is empty exactly when no element satisfies the predicate; otherwise its head is the earliest element that does |
| Traversal.FirstWhere | ParserLib/Evaluation/NodeExtensions.cs:139 | WhereLeafs(...).FirstOrDefault(): a node found satisfies the predicate |
| Traversal.FirstWhereIsFirstInPreOrder | ParserLib/Evaluation/NodeExtensions.cs:199-207 | finds nothing exactly when no pre-order node satisfies the predicate, and otherwise finds the earliest one that does |
| Traversal.FirstWhereIncludesBranch | ParserLib/Evaluation/NodeExtensions.cs:201-202 | a branch satisfying the predicate is itself the first node found |
| Definitions.Aggregate | ParserLib/Parsing/Rules/SequenceRule.cs:20 | the joined string begins with the first child's string |
| Definitions.AggregateStep | ParserLib/Parsing/Rules/SequenceRule.cs:20 | one more child appends the separator and that child's string to the fold |
| Definitions.AggregateIsJoined | ParserLib/Parsing/Rules/OrRule.cs:37 | Skip(1).Aggregate seeded with the first string is the strings joined by the separator, left to right (an independent definition) |
| Definitions.CompositeDefinitionJoins | ParserLib/Parsing/Rules/SequenceRule.cs:20-32 | for any children with strings, a sequence's Definition is them joined by " + " and a choice's by " \| " (OrRule.cs:37), ToString adds parentheses (OrRule.cs:62); with no children First() fails and there is none |
| Definitions.EqualReflexive | ParserLib/Parsing/Rules/Rule.cs:77-80 | Equals never finds a rule different from itself |
| Definitions.ChildrenEqualReflexive | ParserLib/Parsing/Rules/Rule.cs:79 | Children.SequenceEqual of a list with itself is never false |
| Definitions.EqualMeans | ParserLib/Parsing/Rules/Rule.cs:77-80 | Equals answers true exactly when the children are pairwise equal in order, the names agree and both rules have the same Definition |
| Definitions.ChildrenEqualPointwise | ParserLib/Parsing/Rules/Rule.cs:79 | Children.SequenceEqual answers true exactly when every pair of children at the same index is Equal |
| Definitions.EqualSymmetric | ParserLib/Parsing/Rules/Rule.cs:77-80 | a.Equals(b) and b.Equals(a) give the same answer |
| Definitions.ChildrenEqualSymmetric | ParserLib/Parsing/Rules/Rule.cs:79 | SequenceEqual of two child lists gives the same answer either way round |
| Matching.Run | ParserLib/Parsing/Rules/Rule.cs:47 | a successful match ends between its start position and the end of the input |
| Matching.RunSeq | ParserLib/Parsing/Rules/SequenceRule.cs:22-30 | the children in order, each continuing from where the last one stopped; success stays within the input |
| Matching.RunOr | ParserLib/Parsing/Rules/OrRule.cs:44-56 | the alternatives in order from the same position until one does not fail; success stays within the input |
| Matching.RunStar | ParserLib/Parsing/Rules/ZeroOrMoreRule.cs:28-35 | the loop ends at the first failure and keeps all earlier successes; success stays within the input |
| Matching.ParseTreeSpec | ParserLib/Parsing/Rules/Rule.cs:59-72 | a tree only for a match; a failed match is a ParserException (or divergence while printing the rule); a single captured node is the tree itself; otherwise a plain wrapper node named by the rule spans the whole input and holds exactly the captured nodes |
| Matching.MatchSpec | ParserLib/Parsing/Rules/Rule.cs:49-57 | empty input is an ArgumentException; otherwise true exactly when the rule matches from position 0 and false exactly when it fails; an answer implies the run terminated |
| ParserStates.ParserState.constructor | ParserLib/Parsing/ParserState.cs:10-15 | the given input, position 0, no nodes |
| ParserStates.ParserState.Clone | ParserLib/Parsing/ParserState.cs:21-25 | a fresh state with the same input, position and node contents |
| ParserStates.ParserState.Assign | ParserLib/Parsing/ParserState.cs:27-32 | input, position and nodes become those of the snapshot (the node list is copied, see Findings) |
| ParserStates.SnapshotRestores | ParserLib/Parsing/ParserState.cs:21-32 | whatever nodes are appended and wherever the position moves after Clone, the snapshot is unchanged, and Assign of it restores the input, position and node contents |
| ParserStates.ResolvedRules.constructor | ParserLib/Parsing/Rules/FuncRule.cs:18-24 | a new lazy reference has no cached child |
| Engine.MatchImpl | ParserLib/Parsing/Rules/Rule.cs:47 | realizes Run: on failure, position and nodes are unchanged; on success, position and appended nodes are those of Run; the input is untouched and cached children are kept |
| Engine.MatchChar | ParserLib/Parsing/Rules/CharRule.cs:16-23 | matches exactly when there is a character at the cursor and the predicate holds for it; then advances by exactly 1, otherwise stays; the nodes are untouched |
| Engine.MatchString | ParserLib/Parsing/Rules/StringRule.cs:14-21 | matches exactly when the input from the cursor starts with the pattern; then advances by its length, staying within the input; otherwise stays; the nodes are untouched |
| Engine.MatchStart | ParserLib/Parsing/Rules/StartRule.cs:20 | matches exactly when Run of StartRule succeeds (position 0) |
| Engine.MatchEnd | ParserLib/Parsing/Rules/EndRule.cs:19 | matches exactly when Run of EndRule succeeds (position at the end of the input) |
| Engine.MatchSequence | ParserLib/Parsing/Rules/SequenceRule.cs:22-30 | realizes Run of the sequence; the snapshot restores the entry state when a child fails |
| Engine.MatchOr | ParserLib/Parsing/Rules/OrRule.cs:44-56 | realizes Run of the choice: the first alternative that matches wins; each failed alternative leaves the entry state, and failure leaves it too |
| Engine.MatchNot | ParserLib/Parsing/Rules/NotRule.cs:28-36 | realizes Run of the lookahead; whatever the outcome (short of divergence), position and nodes are unchanged |
| Engine.MatchOptional | ParserLib/Parsing/Rules/OptionalRule.cs:28-32 | realizes Run of the optional; it never fails |
| Engine.MatchWhile | ParserLib/Parsing/Rules/ZeroOrMoreRule.cs:30-32 | realizes RunStar: each success is kept and the final failed attempt leaves nothing; it never fails |
| Engine.MatchZeroOrMore | ParserLib/Parsing/Rules/ZeroOrMoreRule.cs:28-35 | realizes Run of zero-or-more; it never fails |
| Engine.MatchOneOrMore | ParserLib/Parsing/Rules/OneOrMoreRule.cs:28-38 | realizes Run of one-or-more: fails exactly when the first attempt fails, then loops as zero-or-more |
| Engine.MatchFunc | ParserLib/Parsing/Rules/FuncRule.cs:43-49 | on first match the resolver's rule is cached as the child, and the result is the child's match; a missing resolution is a NullReference |
| Engine.MatchNode | ParserLib/Parsing/Rules/NodeRule.cs:40-58 | realizes Run of the capture: on success exactly one node is appended, the earlier entries are unchanged, and it spans [entry position, exit position) holding what the child captured; on failure the parent list is restored |
| Engine.Match | ParserLib/Parsing/Rules/Rule.cs:49-57 | returns MatchSpec: empty input rejected, otherwise the rule's answer on a fresh state |
| Engine.ParseTree | ParserLib/Parsing/Rules/Rule.cs:59-72 | returns ParseTreeSpec: a ParserException naming the rule and the input on failure, the single captured node, or a wrapper node named by the rule's ToString holding all captured nodes |
| MatchingLaws.RunFuel | ParserLib/Parsing/Rules/Rule.cs:47 | a run that finishes within a fuel bound gives the same result under any larger bound |
| MatchingLaws.RunSeqFuel | ParserLib/Parsing/Rules/SequenceRule.cs:25 | the same for the children of a sequence |
| MatchingLaws.RunOrFuel | ParserLib/Parsing/Rules/OrRule.cs:47-53 | the same for the alternatives of a choice |
| MatchingLaws.RunStarFuel | ParserLib/Parsing/Rules/ZeroOrMoreRule.cs:30-32 | the same for the repetition loop |
| MatchingLaws.RunDeterministic | ParserLib/Parsing/Rules/Rule.cs:47 | two bounds under which a run finishes give the same result |
| MatchingLaws.MatchFuel | ParserLib/Parsing/Rules/Rule.cs:49-57 | Match gives one answer under every large enough bound |
| MatchingLaws.OneOrMoreIsSequence | ParserLib/Parsing/Rules/OneOrMoreRule.cs:28-38 | OneOrMore(b) matches exactly as b followed by ZeroOrMore(b) |
| MatchingLaws.OptionalIsChoice | ParserLib/Parsing/Rules/OptionalRule.cs:28-32 | Optional(b) matches exactly as the choice of b or the empty string |
| MatchingLaws.DoubleNegationIsLookahead | ParserLib/Parsing/Rules/NotRule.cs:28-36 | Not(Not(b)) matches exactly when b does and fails exactly when b fails; it consumes and captures nothing |
| MatchingLaws.StarWithoutProgressDiverges | ParserLib/Parsing/Rules/ZeroOrMoreRule.cs:30-32 | the loop never ends when its body matches without advancing |
| MatchingLaws.ZeroOrMoreOfEmptyDiverges | ParserLib/Parsing/Rules/ZeroOrMoreRule.cs:28-35 | zero-or-more of a rule that matches the empty string never returns |
| MatchingLaws.SpansOrdered | ParserLib/Parsing/Rules/NodeRule.cs:52 | a well-placed node list has its lower bound no greater than its upper one |
| MatchingLaws.SpansAppend | ParserLib/Parsing/Rules/NodeRule.cs:55 | two adjacent well-placed lists concatenate into one |
| MatchingLaws.SpansWiden | ParserLib/Parsing/Rules/Rule.cs:71 | a well-placed list stays well placed in a wider span |
| MatchingLaws.RunSpans | ParserLib/Parsing/Rules/NodeRule.cs:42-56 | every node captured by a successful run lies, in order, between the start and end positions, with its children inside its own span |
| MatchingLaws.RunSeqSpans | ParserLib/Parsing/Rules/SequenceRule.cs:25 | the same for a sequence's children |
| MatchingLaws.RunOrSpans | ParserLib/Parsing/Rules/OrRule.cs:47-50 | the same for the winning alternative |
| MatchingLaws.RunStarSpans | ParserLib/Parsing/Rules/ZeroOrMoreRule.cs:30-32 | the same for the repetition loop |
| MatchingLaws.SpansHaveText | ParserLib/Parsing/Node.cs:25 | every node of a well-placed list has its Text defined, equal to its slice of the input |
| MatchingLaws.ParseTreeSpans | ParserLib/Parsing/Rules/Rule.cs:59-72 | ParseTree's root reads the parsed input, has a Text, and all its descendants lie in order within it |
| Values.Frontier | ParserLib/Evaluation/Rules/AccumulateRule.cs:58-66 | the collected nodes are all ValueNode<T>s below the node |
| Values.FoldLeftStep | ParserLib/Evaluation/Rules/AccumulateRule.cs:75 | one accumulation step followed by a fold is the fold of the longer list |
| Values.FoldFromIsFoldLeft | ParserLib/Evaluation/Rules/AccumulateRule.cs:68-83 | the loop fails with the first failing read, reports "none" when no value was read, and otherwise is the left fold of the values read, seeded with the first |
| Values.FoldLeafValues | ParserLib/Evaluation/Rules/EvaluateLeafsRule.cs:24-39 | the imperative loop over `current` and `first` computes FoldFrom |
| Values.AccumulateGetValue | ParserLib/Evaluation/Rules/AccumulateRule.cs:54-84 | the method is the value of an AccumulateRule node |
| Values.EvaluateLeafsGetValue | ParserLib/Evaluation/Rules/EvaluateLeafsRule.cs:19-40 | the method is the value of an EvaluateLeafsRule node |
| Values.ConstantIgnoresMatch | ParserLib/Evaluation/Nodes/ConstantValueNode.cs:20-29 | the value is the constant, the same for any text and children |
| Values.FirstValueIsFirstTypedDescendant | ParserLib/Evaluation/Rules/FirstValueRule.cs:41-46 | the value of the earliest ValueNode<T> in pre-order below the node (the node itself excluded); NoElements when there is none |
| Values.AccumulateFolds | ParserLib/Evaluation/Rules/AccumulateRule.cs:54-84 | over the outermost typed values below the node: the first is the seed and the rest fold left to right; a single value is returned as is; none is an EvaluatorException; a failing read propagates |
| Values.EvaluateLeafsFolds | ParserLib/Evaluation/Rules/EvaluateLeafsRule.cs:19-40 | the same fold over every typed value below the node in pre-order; none is an error |
| Values.RangeChecksBounds | ParserLib/Evaluation/Rules/RangeValueRule.cs:100-108 | the candidate is the first typed value of the re-parsed text; it is returned unchanged exactly when minimum <= v <= maximum under the comparer (both inclusive), otherwise an EvaluatorException |
| Values.RangeResultWithinBounds | ParserLib/Evaluation/Rules/RangeValueRule.cs:104-107 | any value the range rule yields lies within its bounds |
| Values.FrontierWithoutNesting | ParserLib/Evaluation/Rules/AccumulateRule.cs:59-66 | when typed nodes do not nest, the outermost typed values are all typed values in pre-order |
| Values.FrontierOfTypedSiblings | ParserLib/Evaluation/Rules/AccumulateRule.cs:59-66 | typed siblings are collected as they are, without looking inside them |
| Values.AccumulateAgreesWithEvaluateLeafs | ParserLib/Evaluation/Rules/AccumulateRule.cs:54-84 | without nesting, AccumulateRule and EvaluateLeafsRule succeed together and compute the same value |
| Values.ReadValuesParent | ParserLib/Evaluation/Rules/AccumulateRule.cs:71-76 | the values read do not depend on which node the leaves sit under |
| LazyValues.LazyValueNode.constructor | ParserLib/Evaluation/Nodes/LazyValueNode.cs:11-14 | no value computed yet, and the function has not run |
| LazyValues.LazyValueNode.Value | ParserLib/Evaluation/Nodes/LazyValueNode.cs:16-26 | the first read sets the flag, runs the function once and returns its result; later reads return the stored value without running it again |
| LazyValues.ReadTwice | ParserLib/Evaluation/Nodes/LazyValueNode.cs:20-24 | two reads run the function once; the second repeats a successful first, and after a throwing first read gives default(T) |
| LazyValues.ReadNodeTwice | ParserLib/Evaluation/Rules/FirstValueRule.cs:39 | a lazy value node of a value rule reads as Values.Value of the node, and a second read repeats a successful first |
| DerivedRules.RuleObject.constructor | ParserLib/Parsing/Rules/Rule.cs:9-17 | a new rule has no derived rule built |
| DerivedRules.RuleObject.GetOptional | ParserLib/Parsing/Rules/Rule.cs:40 | returns Optional(rule) and caches it; builds only on the first read; other slots unchanged |
| DerivedRules.RuleObject.GetNot | ParserLib/Parsing/Rules/Rule.cs:41 | returns Not(rule), cached, built on the first read only |
| DerivedRules.RuleObject.GetOneOrMore | ParserLib/Parsing/Rules/Rule.cs:42 | returns OneOrMore(rule), cached, built on the first read only |
| DerivedRules.RuleObject.GetZeroOrMore | ParserLib/Parsing/Rules/Rule.cs:43 | returns ZeroOrMore(rule), cached, built on the first read only |
| DerivedRules.Cached | ParserLib/Parsing/Rules/Rule.cs:40-43 | 1 exactly when the slot holds a built rule |
| DerivedRules.ReadDerivedTwice | ParserLib/Parsing/Rules/Rule.cs:40-43 | reading all four derived rules twice builds each once; both reads give the same rule |
| NodeQueries.FirstValueNodeOrDefault | ParserLib/Evaluation/NodeExtensions.cs:156-157 | the earliest ValueNode<T> in pre-order, root included; none exactly when the tree has none |
| NodeQueries.FirstValueNode | ParserLib/Evaluation/NodeExtensions.cs:147-148 | that node when there is one; NoElements (First throws) otherwise |
| NodeQueries.FirstValueReadsFirstValueNode | ParserLib/Evaluation/NodeExtensions.cs:63-70 | FirstValue is an EvaluatorException when no node is found, else the found node's value |
| NodeQueries.FirstValueOrDefault | ParserLib/Evaluation/NodeExtensions.cs:78-84 | default(T) when there is no ValueNode<T>, else FirstValue |
| NodeQueries.FirstValueNodeByName | ParserLib/Evaluation/NodeExtensions.cs:96 | the earliest pre-order node that is a ValueNode<T> and carries the name; none exactly when no node has both |
| NodeQueries.FirstValueByName | ParserLib/Evaluation/NodeExtensions.cs:94-101 | an EvaluatorException naming the name when no node qualifies, else that node's value |
| NodeQueries.FirstValueByNameOrDefault | ParserLib/Evaluation/NodeExtensions.cs:110-114 | default(T) when no node qualifies, else FirstValueByName |
| NodeQueries.FirstNodeByNameOrDefault | ParserLib/Evaluation/NodeExtensions.cs:138-139 | the earliest pre-order node carrying the name, typed or not; none exactly when none does |
| NodeQueries.FirstNodeByName | ParserLib/Evaluation/NodeExtensions.cs:123-130 | found exactly when FirstNodeByNameOrDefault finds one, and then it is that earliest named node; otherwise an EvaluatorException naming the name |
| NodeQueries.ContainsValueNode | ParserLib/Evaluation/NodeExtensions.cs:164-165 | true exactly when some pre-order node, root included, is a ValueNode of any type |
| NodeQueries.ContainsValueNodeOf | ParserLib/Evaluation/NodeExtensions.cs:173-174 | true exactly when some pre-order node is a ValueNode<T> |
| NodeQueries.ContainsValueNodeOfImplies | ParserLib/Evaluation/NodeExtensions.cs:164-174 | a tree holding a ValueNode<T> holds a value node; a value node's tree holds one of its own type |
| NodeQueries.TryGetValue | ParserLib/Evaluation/NodeExtensions.cs:44-54 | (false, default(T)) unless the node itself is a ValueNode<T>; then (true, its value), failing exactly when its value fails; descendants are never read |
| NodeQueries.ProcessImpl | ParserLib/Evaluation/NodeExtensions.cs:25-35 | the foreach reassigning `current` computes ProcessNode |
| NodeQueries.Process | ParserLib/Evaluation/NodeExtensions.cs:22-23 | ProcessNode from the root, seeded with default(T) |
| NodeQueries.ProcessTypedChildren | ParserLib/Evaluation/NodeExtensions.cs:31-32 | over typed children reading vs, the result is current := acc(current, acc(current, v)) per child, not a plain fold |
| RuleQueries.MatchedTree | ParserLib/Evaluation/RuleExtensions.cs:43-50 | Match's error propagates; no tree when Match answers false; the ParseTree result when it answers true |
| RuleQueries.RuleProcess | ParserLib/Evaluation/RuleExtensions.cs:21-22 | ParseTree's error, or NodeExtensions.Process of the parsed tree |
| RuleQueries.RuleTryGetValue | ParserLib/Evaluation/RuleExtensions.cs:43-50 | (false, default(T)) when the rule does not match; otherwise the root's own TryGetValue |
| RuleQueries.RuleFirstValue | ParserLib/Evaluation/RuleExtensions.cs:76-77 | ParseTree's ParserException when the rule does not match; else NodeExtensions.FirstValue of the tree |
| RuleQueries.RuleFirstValueOrDefault | ParserLib/Evaluation/RuleExtensions.cs:96-97 | default(T) when the rule does not match; else FirstValueOrDefault of the tree |
| RuleQueries.RuleFirstValueByName | ParserLib/Evaluation/RuleExtensions.cs:117-118 | ParseTree's exception when the rule does not match; else FirstValueByName of the tree |
| RuleQueries.RuleFirstValueByNameOrDefault | ParserLib/Evaluation/RuleExtensions.cs:139-140 | default(T) when the rule does not match; else FirstValueByNameOrDefault of the tree |
| RuleQueries.RuleFirstValueNode | ParserLib/Evaluation/RuleExtensions.cs:160-161 | ParseTree's exception when the rule does not match; else FirstValueNode of the tree |
| RuleQueries.RuleFirstValueNodeOrDefault | ParserLib/Evaluation/RuleExtensions.cs:180-181 | null when the rule does not match; else FirstValueNodeOrDefault of the tree |
| RuleQueries.RuleContainsValueNode | ParserLib/Evaluation/RuleExtensions.cs:199-200 | false when the rule does not match; else ContainsValueNode of the tree |
| RuleQueries.RuleContainsValueNodeOf | ParserLib/Evaluation/RuleExtensions.cs:209-210 | false when the rule does not match; else ContainsValueNode<T> of the tree |
| RuleQueries.ValueRuleParsesToValueNode | ParserLib/Evaluation/Rules/ValueRule.cs:49 | a matching ValueRule<T> parses to the single ValueNode<T> it created, with its name, evaluation and child rule, spanning [0, end of match) |
| RuleQueries.ValueRuleTryGetValue | ParserLib/Evaluation/RuleExtensions.cs:60-67 | TryGetValue<T> of a matching ValueRule<T> reads the rule's own node: true exactly when its value can be read, and that value |
| RuleQueries.ValueRuleContainsValueNode | ParserLib/Evaluation/RuleExtensions.cs:219-220 | ContainsValueNode<T> of a ValueRule<T> is exactly Match's answer |
| RuleQueries.ValueRuleTreeIsTyped | ParserLib/Evaluation/RuleExtensions.cs:228-239 | IsValueRule / IsValueRule<T>: a rule these accept that matches the input parses to a tree holding a ValueNode<T>, and so a value node |
| AsWritten.Initial | ParserLib/Parsing/ParserState.cs:10-15 | position 0 and an empty live list |
| AsWritten.Clone | ParserLib/Parsing/ParserState.cs:21-25 | the snapshot has the same position and a new list object holding a copy of the live list |
| AsWritten.Assign | ParserLib/Parsing/ParserState.cs:27-32 | the cursor becomes the snapshot's, so the live list IS the snapshot's list object |
| AsWritten.Append | ParserLib/Parsing/Rules/NodeRule.cs:55 | list.Add: only the named list object grows |
| AsWritten.NewList | ParserLib/Parsing/Rules/NodeRule.cs:44 | the live list becomes a new empty list object |
| AsWritten.MatchAsWritten | ParserLib/Parsing/Rules/Rule.cs:49-57 | empty input is an ArgumentException, otherwise the as-written run's answer |
| AsWritten.ParseTreeNodesAsWritten | ParserLib/Parsing/Rules/Rule.cs:64-69 | the live list after an as-written run, when the rule matched |
| AsWritten.DigitsThrowAtEnd | ParserLib/Parsing/Rules/CharRule.cs:18 | as written, Digits on "1" throws IndexOutOfRange |
| AsWritten.StarOfCharStops | ParserLib/Parsing/Rules/ZeroOrMoreRule.cs:30-32 | corrected: a repeated character class consumes the run it accepts and stops before the first rejected character or at the end |
| AsWritten.DigitsMatchAllDigits | ParserLib/Parsing/Rules/OneOrMoreRule.cs:28-38 | corrected: Digits matches every all-digit input, consuming all of it |
| AsWritten.LeakyChoiceKeepsNode | ParserLib/Parsing/Rules/OrRule.cs:44-56 | as written, "z" \| (x:"a" + "b") fails on "ac" yet leaves node x in the live list |
| AsWritten.LeakReachesParseTree | ParserLib/Parsing/Rules/Rule.cs:68-69 | as written, ParseTree of Optional of that choice on "ac" returns the leaked node x |
| AsWritten.LeakyChoiceCorrected | ParserLib/Parsing/ParserState.cs:31 | corrected: the same choice fails cleanly and the optional captures nothing |
| Scenarios.CharScenario | ParserLib.Tests/RuleTests.cs:16-19 | a digit CharRule accepts "1" and rejects "a" |
| Scenarios.SequenceScenario | ParserLib.Tests/RuleTests.cs:113-118 | "cat" + "fish" accepts "catfish" and "catfish something", rejects "catsomething" and "fishcat" |
| Scenarios.ChoiceScenario | ParserLib.Tests/RuleTests.cs:64-69 | "cat" \| "dog" accepts "catfish" and "dogfish", rejects "something" and "fishcatdog" |
| Scenarios.OptionalScenario | ParserLib.Tests/RuleTests.cs:55-58 | Optional("test") accepts "test" and "something" |
| Scenarios.AnchorScenario | ParserLib.Tests/RuleTests.cs:135-139 | StartRule accepts at the start; "Test" + Start fails; End fails at the start of "something" |
| Scenarios.EmptyInputScenario | ParserLib/Parsing/Rules/Rule.cs:53-54 | Match("") is an ArgumentException, even for EndRule |
| Scenarios.OneOrMoreScenario | ParserLib.Tests/RuleTests.cs:45-49 | OneOrMore("test ") + "something" accepts "test test something"; OneOrMore("test ") rejects "something" |
| Scenarios.TailAtEnd | ParserLib.Tests/RuleTests.cs:93 | at the end of the input the recursive tail takes its End alternative |
| Scenarios.TailOfPlusDigit | ParserLib.Tests/RuleTests.cs:93 | from "+" and a digit, the recursive tail consumes both and then whatever the tail accepts after them |
| Scenarios.ExpressionFromDigit | ParserLib.Tests/RuleTests.cs:92 | a digit followed by what the tail accepts runs through the expression to the end of the input |
| Scenarios.RecursiveScenario | ParserLib.Tests/RuleTests.cs:84-98 | the self-referential expression grammar accepts "1", "1+2" and "1+2+3"; the test's `MatchAnyString("+ -")` is written as its expansion `"+" \| "-"` (SharedGrammar.cs:21) and its `RegexRule("\\d+")` as `OneOrMore(Char(IsDigit))`, since RegexRule is not modelled |
| Scenarios.DigitsMatchPrefix | ParserLib/Parsing/Rules/OneOrMoreRule.cs:28-38 | Digits consumes exactly the run of digits at the cursor |
| Scenarios.ConstantValueScenario | ParserLib.Tests/EvaluationTests.cs:17-22 | ConstantValue("number", 1, Digits) on "123" parses to a ValueNode<int> whose value is 1 |
| Scenarios.ConvertToValueScenario | ParserLib.Tests/EvaluationTests.cs:28-33 | ConvertToValue with a parser over Digits on "123" is the parser's value of the text "123" |
| Scenarios.ProcessScenario | ParserLib/Evaluation/NodeExtensions.cs:25-35 | Process with + over typed children 5 and 6 gives 16 |
| Scenarios.ToStringScenario | ParserLib.Tests/StringTests.cs:15-16 | Node("node", 'a') parsed on "a" prints as "node: a" |
| Scenarios.QuotedScenario | ParserLib/Parsing/Rules/StringRule.cs:12 | a StringRule's Definition and ToString are its pattern in double quotes |
| Scenarios.DefinitionScenario | ParserLib.Tests/DefinitionTests.cs:13-74 | the definitions "\"cat\"", "$", "^", "Not(…)", "(…)+", "(…)*", "(…)?" and "f(char)" |
| Scenarios.SequenceDefinitionScenario | ParserLib/Parsing/Rules/SequenceRule.cs:20-32 | a + b is defined as the children joined by " + ", and ToString wraps that in parentheses |

## Left out

- Null arguments (`ArgumentNullException` for a null input or resolver) are not modelled: Dafny values are never null.
- `RegexRule`, the `Grammar`/`Evaluator`/`ValueGrammar` factories, `SharedGrammar`, `Grammar.Value` and `Extensions.cs` are not part of this model. Each only builds core rules or calls foreign code. `Digits` and the `+`/`-` operator choice appear in the scenarios.
- The earlier revisions of the value overlay (`Parsing/Value`, `Parsing/Rules/Value`, `Parsing/Rules/ValueRule.cs`, `Parsing/ValueNode.cs`) are not part of this model. They behave as their `Evaluation` counterparts.
- The hash codes of `Rule.GetHashCode`, the `Name` setter after construction, and the reference-equality shortcuts of `Equals`. Rules are values here.
- The two-argument, case-insensitive `StringRule` that `RuleTests.cs:145` and `Grammar.Value.cs:32` call is not declared by `StringRule.cs`, which has only the one-argument constructor. It is not modelled.
- Engine.MatchString: `StringRule.cs:16` calls `StartsWith(Pattern)` with no `StringComparison`, which in .NET is a culture-sensitive comparison. Ignorable characters and canonically equivalent sequences can match there, and `Position += Pattern.Length` can then move by a different amount than the text matched. The model (`Engine.MatchString` and the `Str` case of `Matching.Run`) compares ordinally, character by character.
- Engine.MatchFunc: `FuncRule.cs:45-46` adds whatever `RuleFunc()` returns to the children, even null, so a reference that resolves to nothing fails with a NullReference on every later match. The model caches only a resolved rule, so an unresolved id is asked again on the next match. The two differ only when the resolver's answer changes between matches.
- Unicode character classes (`char.IsDigit`, `char.IsLetter`) are abstract predicates. The scenarios use ASCII digits.
- `Matching.Run`: does not terminate by itself. Fuel bounds every rule dispatch and loop iteration, and running out is reported as divergence. `MatchingLaws.RunFuel` shows this never changes an answer the library gives.
- `Values.Value`: RangeValueRule's re-parse is bounded by the same fuel.
- `Values.Value`: reads every value node afresh, and so do the queries built on it in `NodeQueries` and `RuleQueries`, including the nested reads a parent's GetValue makes of the nodes below it. In the library, FirstValue, Accumulate, EvaluateLeafs and Range rules create `LazyValueNode`s (`FirstValueRule.cs:39`, `AccumulateRule.cs:52`, `EvaluateLeafsRule.cs:17`, `RangeValueRule.cs:98`). Each of these sets its flag before calling its function (`LazyValueNode.cs:20-24`). So after one read that throws, for example a `RangeValueRule` node out of range, every later read of that node returns default(T), and so does every read of a value computed from it. The model gives the same error on every read. The flag is modelled for one node at a time only (`LazyValues.LazyValueNode`, `LazyValues.ReadTwice`, `LazyValues.ReadNodeTwice`); it is not threaded through a tree.
- `Definitions.Definition`: a lazy reference's Definition re-invokes its resolver on every read. A self-referential grammar therefore has no finite Definition (the library overflows its stack). Fuel bounds this, and None stands for "no string".
- `ConvertToValueNode` recomputes its value on every read (`ConvertToValueNode.cs:14`), as `Values.Value` does. For this node kind, whose converter is a pure function here, recomputing and caching cannot be told apart.
- `ConvertToValueRule` with a node converter that reads other nodes' values (the nested-value test, `EvaluationTests.cs:39-60`) is not modelled. The converter context cannot call `Value`, so the "1ab" scenario is not stated.
- `RangeValueRule` uses an uninterpreted comparer. The default comparer used when none is given is not modelled separately.
- `AccumulateRule`'s collection uses `Descendents`, which is not part of this model. It is taken to visit nodes in pre-order, as `WhereLeafs` does.
- The exception messages of `FirstValueByName` and `RangeValueRule` interpolate the name or the values; the range message is modelled as one fixed string.
- `Grammar.MatchChar` is called by the tests, `Grammar.Shared.cs` and `SharedGrammar.cs`, but is not declared anywhere in this revision of the library (`Grammar.cs` has no such member). The Definition it would give (`"'a'"` in `DefinitionTests.cs:12`) is therefore not modelled. The definition scenarios use `StringRule` instead.
- `Rule.cs:71` builds the wrapper node with a `Node(name, input, rule)` constructor that `Node.cs` does not declare. The model gives the wrapper begin 0 and end |input|, the whole parsed input.

Where the tests and the code disagree, the model follows the code:
- `RuleTests.cs:38` and `GrammarTest.cs:15` expect `Match("")` to succeed, but `Rule.cs:53-54` throws first (`Scenarios.EmptyInputScenario`).
- The Definition tests expect a sequence's Definition to carry parentheses. In the code the parentheses come from `ToString` (`SequenceRule.cs:32`), not from Definition (`Scenarios.SequenceDefinitionScenario`).
- `LazyValueNode` sets its flag before calling the value function. A first read of one such node that throws therefore leaves default(T), which every later read of that node returns. This is modelled as written for a single node (`LazyValues.ReadTwice`); across a tree it is not (see `Values.Value` above).
- `DefinitionTests.cs:14` expects `"IsDigit"` as the Definition of `Grammar.Char(char.IsDigit)`, but `CharRule.cs:14` gives `"f(char)"` for every predicate (`Scenarios.DefinitionScenario`).

## Findings

| source | as written | input that shows it | evidently intended | confidence | as-written member | corrected member |
|---|---|---|---|---|---|---|
| ParserLib/Parsing/Rules/CharRule.cs:18 | reads `Input[Position]` with no bounds check | `OneOrMore(Char(IsDigit))` (SharedGrammar's Digits) on "1": the loop's second attempt reads index 1 and throws IndexOutOfRange, so Digits matches no input ending in a digit | at the end of the input the rule fails | high, not executed | AsWritten.DigitsThrowAtEnd | AsWritten.DigitsMatchAllDigits |
| ParserLib/Parsing/ParserState.cs:31 | `Assign` installs the snapshot's own node list; `OrRule` restores one snapshot after every failed alternative (OrRule.cs:46,52) | `"z" \| (Node x "a" + "b")` on "ac": the choice fails but node x stays in the live list; under `Optional`, ParseTree on "ac" returns x | a failed rule leaves the node list as it found it (Assign copies the list) | high, not executed | AsWritten.LeakyChoiceKeepsNode | AsWritten.LeakyChoiceCorrected |
