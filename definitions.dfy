// The textual form of rules: each rule class's Definition, Rule.ToString
// (the name when there is one, the definition otherwise, with the class
// overrides for sequences, choices and lazy references), and the structural
// equality of Rule.Equals.
//
// A lazy reference's Definition asks its resolver again on every read, so a
// self-referential grammar has no finite Definition: the library recurses
// until the stack overflows.  The fuel parameter bounds that recursion and
// None stands for "no string" (the overflow, or First() on a rule with no
// children).
module Definitions {
  import opened Outcomes
  import opened Rules

  /** Children.Skip(1).Aggregate(first, (a, b) => a + separator + b). */
  function Aggregate(first: string, rest: seq<string>, separator: string): (r: string)
    ensures |r| >= |first|
    ensures r[..|first|] == first
    decreases |rest|
  {
    if rest == [] then first else Aggregate(first + separator + rest[0], rest[1..], separator)
  }

  /**
   * The joined string as an independent reference: the parts before the
   * last one joined, then the separator, then the last part.
   */
  function Joined(parts: seq<string>, separator: string): string
    requires |parts| > 0
    decreases |parts|
  {
    if |parts| == 1 then parts[0]
    else Joined(parts[..|parts| - 1], separator) + separator + parts[|parts| - 1]
  }

  /** One more child appends the separator and that child's string. */
  lemma {:induction false} AggregateStep(first: string, rest: seq<string>, x: string, separator: string)
    ensures Aggregate(first, rest + [x], separator) == Aggregate(first, rest, separator) + separator + x
    decreases |rest|
  {
    if rest == [] {
      assert [] + [x] == [x];
      assert [x][1..] == [];
    } else {
      assert (rest + [x])[0] == rest[0];
      assert (rest + [x])[1..] == rest[1..] + [x];
      AggregateStep(first + separator + rest[0], rest[1..], x, separator);
    }
  }

  /** The Aggregate over Skip(1), seeded with the first string, is the join of all of them. */
  lemma {:induction false} AggregateIsJoined(parts: seq<string>, separator: string)
    requires |parts| > 0
    ensures Aggregate(parts[0], parts[1..], separator) == Joined(parts, separator)
    decreases |parts|
  {
    if |parts| > 1 {
      var init := parts[..|parts| - 1];
      AggregateIsJoined(init, separator);
      AggregateStep(init[0], init[1..], parts[|parts| - 1], separator);
      assert init[1..] + [parts[|parts| - 1]] == parts[1..];
    }
  }

  /** All entries present, or None. */
  function AllPresent(xs: seq<Option<string>>): (r: Option<seq<string>>)
    ensures r.Some? <==> forall i :: 0 <= i < |xs| ==> xs[i].Some?
    ensures r.Some? ==> |r.value| == |xs| && forall i :: 0 <= i < |xs| ==> r.value[i] == xs[i].value
  {
    if xs == [] then Some([])
    else if xs[0].None? then None
    else
      match AllPresent(xs[1..])
      case None => None
      case Some(rest) => Some([xs[0].value] + rest)
  }

  /** Joins the children's strings; First() on no children throws. */
  function JoinChildren(shown: seq<Option<string>>, separator: string): Option<string>
  {
    var all :- AllPresent(shown);
    if |all| == 0 then None else Some(Aggregate(all[0], all[1..], separator))
  }

  /** Rule.Definition, per rule class, with resolver map resolve. */
  function Definition<V>(resolve: map<RuleId, Rule<V>>, r: Rule<V>, fuel: nat): Option<string>
    decreases fuel, r, 0
  {
    match r
    case Char(_) => Some("f(char)")
    case Str(pattern) => Some("\"" + pattern + "\"")
    case Start => Some("^")
    case End => Some("$")
    case Seq(items) =>
      JoinChildren(seq(|items|, i requires 0 <= i < |items| => Show(resolve, items[i], fuel)), " + ")
    case Or(alternatives) =>
      JoinChildren(seq(|alternatives|, i requires 0 <= i < |alternatives| =>
        Show(resolve, alternatives[i], fuel)), " | ")
    case Not(body) =>
      var s :- Show(resolve, body, fuel); Some("Not(" + s + ")")
    case Optional(body) =>
      var s :- Show(resolve, body, fuel); Some("(" + s + ")?")
    case ZeroOrMore(body) =>
      var s :- Show(resolve, body, fuel); Some("(" + s + ")*")
    case OneOrMore(body) =>
      var d :- Definition(resolve, body, fuel); Some("(" + d + ")+")
    case Ref(id, _) =>
      if fuel == 0 || id !in resolve then None else Definition(resolve, resolve[id], fuel - 1)
    case Capture(_, body, _) => Definition(resolve, body, fuel)
  }

  /** Rule.ToString, with the overrides of SequenceRule, OrRule, FuncRule and RecursiveRule. */
  function Show<V>(resolve: map<RuleId, Rule<V>>, r: Rule<V>, fuel: nat): Option<string>
    decreases fuel, r, 1
  {
    match r
    case Seq(_) => var d :- Definition(resolve, r, fuel); Some("(" + d + ")")
    case Or(_) => var d :- Definition(resolve, r, fuel); Some("(" + d + ")")
    case Ref(_, name) => Some(if name.Some? then name.value else "recursive")
    case Capture(name, _, _) => if name.Some? then name else Definition(resolve, r, fuel)
    case _ => Definition(resolve, r, fuel)
  }

  /**
   * SequenceRule and OrRule: when every child has a string, the Definition
   * is the children's strings joined by " + " (sequences) or " | " (choices),
   * and ToString wraps it in parentheses.  With no child there is none.
   */
  lemma CompositeDefinitionJoins<V>(resolve: map<RuleId, Rule<V>>, items: seq<Rule<V>>, shown: seq<string>, fuel: nat)
    requires |shown| == |items|
    requires forall i :: 0 <= i < |items| ==> Show(resolve, items[i], fuel) == Some(shown[i])
    ensures items == [] ==> Definition(resolve, Seq(items), fuel).None? && Definition(resolve, Or(items), fuel).None?
    ensures items != [] ==> Definition(resolve, Seq(items), fuel) == Some(Joined(shown, " + "))
    ensures items != [] ==> Definition(resolve, Or(items), fuel) == Some(Joined(shown, " | "))
    ensures items != [] ==> Show(resolve, Seq(items), fuel) == Some("(" + Joined(shown, " + ") + ")")
    ensures items != [] ==> Show(resolve, Or(items), fuel) == Some("(" + Joined(shown, " | ") + ")")
  {
    var xs := seq(|items|, i requires 0 <= i < |items| => Show(resolve, items[i], fuel));
    var all := AllPresent(xs);
    assert all.Some?;
    assert all.value == shown;
    if items != [] {
      AggregateIsJoined(shown, " + ");
      AggregateIsJoined(shown, " | ");
    }
  }

  /** The Name property: only capturing rules and lazy references carry one. */
  function Name<V>(r: Rule<V>): Option<string>
  {
    match r
    case Ref(_, name) => name
    case Capture(name, _, _) => name
    case _ => None
  }

  /**
   * The Children list a rule compares in Equals.  A lazy reference has its
   * resolved child once it has matched (cache), and none before.
   */
  function Children<V>(cache: map<RuleId, Rule<V>>, r: Rule<V>): seq<Rule<V>>
  {
    match r
    case Seq(items) => items
    case Or(alternatives) => alternatives
    case Not(body) => [body]
    case Optional(body) => [body]
    case ZeroOrMore(body) => [body]
    case OneOrMore(body) => [body]
    case Capture(_, body, _) => [body]
    case Ref(id, _) => if id in cache then [cache[id]] else []
    case _ => []
  }

  /**
   * Rule.Equals: the children are pairwise equal in order, then the names
   * agree, then the definitions agree (each test only when the previous
   * held).  None when a definition that is needed has no string.
   */
  function Equal<V>(resolve: map<RuleId, Rule<V>>, cache: map<RuleId, Rule<V>>,
                    a: Rule<V>, b: Rule<V>, fuel: nat): Option<bool>
    decreases fuel, 1, 0
  {
    var ca := Children(cache, a);
    var cb := Children(cache, b);
    if |ca| != |cb| then Some(false)
    else if fuel == 0 then None
    else
      var pairs :- ChildrenEqual(resolve, cache, ca, cb, fuel - 1);
      if !pairs || Name(a) != Name(b) then Some(false)
      else
        var da :- Definition(resolve, a, fuel);
        var db :- Definition(resolve, b, fuel);
        Some(da == db)
  }

  /** Children.SequenceEqual(other.Children), stopping at the first difference. */
  function ChildrenEqual<V>(resolve: map<RuleId, Rule<V>>, cache: map<RuleId, Rule<V>>,
                            xs: seq<Rule<V>>, ys: seq<Rule<V>>, fuel: nat): Option<bool>
    requires |xs| == |ys|
    decreases fuel, 2, |xs|
  {
    if xs == [] then Some(true)
    else
      var first :- Equal(resolve, cache, xs[0], ys[0], fuel);
      if !first then Some(false) else ChildrenEqual(resolve, cache, xs[1..], ys[1..], fuel)
  }

  /**
   * Equals is reflexive: a rule is never found different from itself (the
   * answer is None only when a definition has no string).
   */
  lemma {:induction false} EqualReflexive<V>(resolve: map<RuleId, Rule<V>>, cache: map<RuleId, Rule<V>>,
                                             a: Rule<V>, fuel: nat)
    ensures Equal(resolve, cache, a, a, fuel) != Some(false)
    decreases fuel, 1, 0
  {
    var ca := Children(cache, a);
    if fuel > 0 {
      ChildrenEqualReflexive(resolve, cache, ca, fuel - 1);
    }
  }

  lemma {:induction false} ChildrenEqualReflexive<V>(resolve: map<RuleId, Rule<V>>, cache: map<RuleId, Rule<V>>,
                                                     xs: seq<Rule<V>>, fuel: nat)
    ensures ChildrenEqual(resolve, cache, xs, xs, fuel) != Some(false)
    decreases fuel, 2, |xs|
  {
    if xs != [] {
      EqualReflexive(resolve, cache, xs[0], fuel);
      ChildrenEqualReflexive(resolve, cache, xs[1..], fuel);
    }
  }

  /**
   * What Equals answering true means: the children compare pairwise equal
   * in order, the names agree and both rules have the same Definition; and
   * whenever all of that holds, Equals answers true.
   */
  lemma EqualMeans<V>(resolve: map<RuleId, Rule<V>>, cache: map<RuleId, Rule<V>>, a: Rule<V>, b: Rule<V>, fuel: nat)
    ensures Equal(resolve, cache, a, b, fuel) == Some(true) <==>
              fuel > 0 && |Children(cache, a)| == |Children(cache, b)| &&
              ChildrenEqual(resolve, cache, Children(cache, a), Children(cache, b), fuel - 1) == Some(true) &&
              Name(a) == Name(b) &&
              Definition(resolve, a, fuel).Some? && Definition(resolve, a, fuel) == Definition(resolve, b, fuel)
  {
    var ca := Children(cache, a);
    var cb := Children(cache, b);
    if |ca| == |cb| && fuel > 0 {
      var pairs := ChildrenEqual(resolve, cache, ca, cb, fuel - 1);
      var da := Definition(resolve, a, fuel);
      var db := Definition(resolve, b, fuel);
      assert Equal(resolve, cache, a, b, fuel) ==
        if pairs.None? then None
        else if !pairs.value || Name(a) != Name(b) then Some(false)
        else if da.None? || db.None? then None
        else Some(da.value == db.value);
    }
  }

  /** SequenceEqual answering true means every pair of children at the same index is Equal. */
  lemma {:induction false} ChildrenEqualPointwise<V>(resolve: map<RuleId, Rule<V>>, cache: map<RuleId, Rule<V>>,
                                                     xs: seq<Rule<V>>, ys: seq<Rule<V>>, fuel: nat)
    requires |xs| == |ys|
    ensures ChildrenEqual(resolve, cache, xs, ys, fuel) == Some(true) <==>
              forall i :: 0 <= i < |xs| ==> Equal(resolve, cache, xs[i], ys[i], fuel) == Some(true)
    decreases |xs|
  {
    if xs != [] {
      ChildrenEqualPointwise(resolve, cache, xs[1..], ys[1..], fuel);
      if forall i :: 0 <= i < |xs| ==> Equal(resolve, cache, xs[i], ys[i], fuel) == Some(true) {
        assert forall i :: 0 <= i < |xs| - 1 ==> xs[1..][i] == xs[i + 1] && ys[1..][i] == ys[i + 1];
      }
      if ChildrenEqual(resolve, cache, xs, ys, fuel) == Some(true) {
        forall i | 0 <= i < |xs|
          ensures Equal(resolve, cache, xs[i], ys[i], fuel) == Some(true)
        {
          if i > 0 {
            assert xs[1..][i - 1] == xs[i] && ys[1..][i - 1] == ys[i];
          }
        }
      }
    }
  }

  /** Equals is symmetric: comparing b with a gives the same answer as a with b. */
  lemma {:induction false} EqualSymmetric<V>(resolve: map<RuleId, Rule<V>>, cache: map<RuleId, Rule<V>>,
                                             a: Rule<V>, b: Rule<V>, fuel: nat)
    ensures Equal(resolve, cache, a, b, fuel) == Equal(resolve, cache, b, a, fuel)
    decreases fuel, 1, 0
  {
    var ca := Children(cache, a);
    var cb := Children(cache, b);
    if |ca| == |cb| && fuel > 0 {
      ChildrenEqualSymmetric(resolve, cache, ca, cb, fuel - 1);
    }
  }

  lemma {:induction false} ChildrenEqualSymmetric<V>(resolve: map<RuleId, Rule<V>>, cache: map<RuleId, Rule<V>>,
                                                     xs: seq<Rule<V>>, ys: seq<Rule<V>>, fuel: nat)
    requires |xs| == |ys|
    ensures ChildrenEqual(resolve, cache, xs, ys, fuel) == ChildrenEqual(resolve, cache, ys, xs, fuel)
    decreases fuel, 2, |xs|
  {
    if xs != [] {
      EqualSymmetric(resolve, cache, xs[0], ys[0], fuel);
      ChildrenEqualSymmetric(resolve, cache, xs[1..], ys[1..], fuel);
    }
  }
}

