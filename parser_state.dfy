// The mutable cursor every rule works on (ParserState), and the children the
// lazy references (FuncRule, RecursiveRule) cache on their first match.
module ParserStates {
  import opened Rules
  import opened Nodes

  class ParserState<V> {
    var input: string
    var position: int
    /** The list of nodes captured so far at the current nesting level. */
    var nodes: seq<Node<V>>

    constructor(input: string)
      ensures this.input == input && position == 0 && nodes == []
    {
      this.input := input;
      position := 0;
      nodes := [];
    }

    /**
     * A snapshot: a new state with the same input and position and a copy of
     * the node list, so that later changes to this state leave it alone.
     */
    method Clone() returns (snapshot: ParserState<V>)
      ensures fresh(snapshot)
      ensures snapshot.input == input && snapshot.position == position && snapshot.nodes == nodes
    {
      snapshot := new ParserState(input);
      snapshot.position := position;
      snapshot.nodes := nodes;
    }

    /** Restores a snapshot: input, position and nodes become the snapshot's. */
    method Assign(state: ParserState<V>)
      modifies this
      ensures input == old(state.input) && position == old(state.position) && nodes == old(state.nodes)
    {
      input := state.input;
      position := state.position;
      nodes := state.nodes;
    }
  }

  /**
   * A snapshot is independent of the live state: whatever nodes a child
   * appends and wherever it moves the position after Clone, the snapshot
   * keeps its own list, and restoring it brings back the position and the
   * nodes of the moment it was taken.
   */
  method SnapshotRestores<V>(state: ParserState<V>, appended: seq<Node<V>>, moved: int)
    returns (snapshot: ParserState<V>)
    modifies state
    ensures snapshot.nodes == old(state.nodes) && snapshot.position == old(state.position)
    ensures state.input == old(state.input)
    ensures state.position == old(state.position) && state.nodes == old(state.nodes)
  {
    snapshot := state.Clone();
    state.nodes := state.nodes + appended;
    state.position := moved;
    state.Assign(snapshot);
  }

  /**
   * The children the lazy references have cached: for each FuncRule (by id)
   * that has matched once, the rule its resolver returned then.
   */
  class ResolvedRules<V> {
    var cached: map<RuleId, Rule<V>>

    constructor()
      ensures cached == map[]
    {
      cached := map[];
    }

    /** The rule each reference stands for: its cached child, else the resolver's answer. */
    function Effective(resolver: map<RuleId, Rule<V>>): map<RuleId, Rule<V>>
      reads this
    {
      resolver + cached
    }
  }

  /** A cached child, once there, stays the same. */
  ghost predicate Keeps<V>(before: map<RuleId, Rule<V>>, after: map<RuleId, Rule<V>>)
  {
    forall id :: id in before ==> id in after && after[id] == before[id]
  }
}
