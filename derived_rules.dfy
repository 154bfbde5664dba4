// The derived rules a Rule object builds on demand (Rule.Optional, Not,
// OneOrMore, ZeroOrMore): each is built on its first read, kept in a field
// of the rule, and returned again on every later read.
module DerivedRules {
  import opened Outcomes
  import opened Rules

  class RuleObject<V> {
    /** The rule itself. */
    const rule: Rule<V>
    var optional: Option<Rule<V>>
    var not: Option<Rule<V>>
    var oneOrMore: Option<Rule<V>>
    var zeroOrMore: Option<Rule<V>>
    /** How many derived rule objects this rule has built. */
    var built: nat

    /** Each cached rule is the one its property builds, and each was built once. */
    ghost predicate Valid()
      reads this
    {
      && (optional.Some? ==> optional.value == Optional(rule))
      && (not.Some? ==> not.value == Not(rule))
      && (oneOrMore.Some? ==> oneOrMore.value == OneOrMore(rule))
      && (zeroOrMore.Some? ==> zeroOrMore.value == ZeroOrMore(rule))
      && built == Cached(optional) + Cached(not) + Cached(oneOrMore) + Cached(zeroOrMore)
    }

    constructor(rule: Rule<V>)
      ensures Valid() && this.rule == rule && built == 0
      ensures optional == None && not == None && oneOrMore == None && zeroOrMore == None
    {
      this.rule := rule;
      optional := None;
      not := None;
      oneOrMore := None;
      zeroOrMore := None;
      built := 0;
    }

    /** Rule.Optional: `_optional ?? (_optional = Grammar.Optional(this))`. */
    method GetOptional() returns (r: Rule<V>)
      requires Valid()
      modifies this
      ensures Valid() && r == Optional(rule) && optional == Some(r)
      ensures not == old(not) && oneOrMore == old(oneOrMore) && zeroOrMore == old(zeroOrMore)
      ensures built == old(built) + (if old(optional).Some? then 0 else 1)
    {
      if optional.None? {
        optional := Some(Optional(rule));
        built := built + 1;
      }
      r := optional.value;
    }

    /** Rule.Not. */
    method GetNot() returns (r: Rule<V>)
      requires Valid()
      modifies this
      ensures Valid() && r == Not(rule) && not == Some(r)
      ensures optional == old(optional) && oneOrMore == old(oneOrMore) && zeroOrMore == old(zeroOrMore)
      ensures built == old(built) + (if old(not).Some? then 0 else 1)
    {
      if not.None? {
        not := Some(Not(rule));
        built := built + 1;
      }
      r := not.value;
    }

    /** Rule.OneOrMore. */
    method GetOneOrMore() returns (r: Rule<V>)
      requires Valid()
      modifies this
      ensures Valid() && r == OneOrMore(rule) && oneOrMore == Some(r)
      ensures optional == old(optional) && not == old(not) && zeroOrMore == old(zeroOrMore)
      ensures built == old(built) + (if old(oneOrMore).Some? then 0 else 1)
    {
      if oneOrMore.None? {
        oneOrMore := Some(OneOrMore(rule));
        built := built + 1;
      }
      r := oneOrMore.value;
    }

    /** Rule.ZeroOrMore. */
    method GetZeroOrMore() returns (r: Rule<V>)
      requires Valid()
      modifies this
      ensures Valid() && r == ZeroOrMore(rule) && zeroOrMore == Some(r)
      ensures optional == old(optional) && not == old(not) && oneOrMore == old(oneOrMore)
      ensures built == old(built) + (if old(zeroOrMore).Some? then 0 else 1)
    {
      if zeroOrMore.None? {
        zeroOrMore := Some(ZeroOrMore(rule));
        built := built + 1;
      }
      r := zeroOrMore.value;
    }
  }

  /** 1 when the derived rule has been built, 0 otherwise. */
  function Cached<V>(slot: Option<Rule<V>>): (n: nat)
    ensures n <= 1 && (n == 1 <==> slot.Some?)
  {
    if slot.Some? then 1 else 0
  }

  /**
   * Reading every derived rule of a new rule object twice builds each one
   * exactly once, and both reads give the same rule.
   */
  method ReadDerivedTwice<V>(rule: Rule<V>) returns (first: Rule<V>, second: Rule<V>, built: nat)
    ensures first == second == Optional(rule)
    ensures built == 4
  {
    var o := new RuleObject(rule);
    var a1 := o.GetOptional();
    var b1 := o.GetNot();
    var c1 := o.GetOneOrMore();
    var d1 := o.GetZeroOrMore();
    var a2 := o.GetOptional();
    var b2 := o.GetNot();
    var c2 := o.GetOneOrMore();
    var d2 := o.GetZeroOrMore();
    first, second := a1, a2;
    built := o.built;
  }
}
