// LazyValueNode<T>: the node FirstValue, Accumulate, EvaluateLeafs and
// RangeValue rules create.  Its value function runs on the first read of
// Value only; the flag recording that it ran is set before the call, so a
// first read that throws leaves default(T) stored, and every later read
// returns that default without calling the function again.
module LazyValues {
  import opened Outcomes
  import opened Nodes
  import opened Values

  class LazyValueNode<V> {
    /** The node as the capturing rule built it. */
    const node: Node<V>
    /** The rule's GetValue; an error stands for the exception it throws. */
    const valueFunc: Node<V> -> Result<V>
    /** default(T), the value stored before the first read. */
    const default: V
    var value: V
    var valueSet: bool
    /** How many times valueFunc has run. */
    var calls: nat

    /** The function has run at most once, and exactly when the flag is set; what it returned is stored. */
    ghost predicate Valid()
      reads this
    {
      && calls <= 1
      && (valueSet <==> calls == 1)
      && value == (if valueSet && valueFunc(node).Ok? then valueFunc(node).value else default)
    }

    constructor(node: Node<V>, valueFunc: Node<V> -> Result<V>, default: V)
      ensures Valid()
      ensures this.node == node && this.valueFunc == valueFunc && this.default == default
      ensures !valueSet && calls == 0
    {
      this.node := node;
      this.valueFunc := valueFunc;
      this.default := default;
      value := default;
      valueSet := false;
      calls := 0;
    }

    /**
     * The Value getter: the stored value once the flag is set; otherwise the
     * flag is set, then the function runs and its result is stored.
     */
    method Value() returns (r: Result<V>)
      requires Valid()
      modifies this
      ensures Valid() && valueSet
      ensures old(valueSet) ==> r == Ok(old(value)) && calls == old(calls)
      ensures !old(valueSet) ==> r == valueFunc(node) && calls == old(calls) + 1
    {
      if valueSet {
        return Ok(value);
      }
      valueSet := true;
      r := valueFunc(node);
      calls := calls + 1;
      if r.Ok? {
        value := r.value;
      }
    }
  }

  /**
   * Two reads of a new lazy node: the function runs once; the second read
   * repeats a value the first one returned, and after a first read that
   * threw it gives default(T) instead of the error.
   */
  method ReadTwice<V>(node: Node<V>, valueFunc: Node<V> -> Result<V>, default: V)
    returns (first: Result<V>, second: Result<V>, calls: nat)
    ensures first == valueFunc(node)
    ensures second == (if first.Ok? then first else Ok(default))
    ensures calls == 1
  {
    var lazy := new LazyValueNode(node, valueFunc, default);
    first := lazy.Value();
    second := lazy.Value();
    calls := lazy.calls;
  }

  /** The value function a value rule hands its lazy node: Values.Value, read against the context. */
  function GetValue<V>(ctx: Context<V>, fuel: nat): Node<V> -> Result<V>
  {
    (n: Node<V>) => if n.kind.Valued? then Value(ctx, n, fuel) else Err(NullReference)
  }

  /**
   * Reading a value node of a lazily evaluated rule twice: the first read is
   * Values.Value of the node; so is the second when the first succeeded.
   */
  method ReadNodeTwice<V>(ctx: Context<V>, n: Node<V>, fuel: nat) returns (first: Result<V>, second: Result<V>)
    requires n.kind.Valued?
    ensures first == Value(ctx, n, fuel)
    ensures first.Ok? ==> second == first
    ensures first.Err? ==> second == Ok(ctx.zero)
  {
    var calls;
    assert GetValue(ctx, fuel)(n) == Value(ctx, n, fuel);
    first, second, calls := ReadTwice(n, GetValue(ctx, fuel), ctx.zero);
  }
}
