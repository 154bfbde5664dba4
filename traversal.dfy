// Walking a parse tree: its size, its pre-order listing and the pre-order
// search NodeExtensions.WhereLeafs.
module Traversal {
  import opened Outcomes
  import opened Nodes

  /** The number of nodes in a tree; the measure for recursion over trees. */
  function Size<V>(n: Node<V>): (s: nat)
    ensures s >= 1
    decreases n, 1
  {
    1 + SizeOf(n.children)
  }

  function SizeOf<V>(ns: seq<Node<V>>): nat
    decreases ns, 0
  {
    if ns == [] then 0 else Size(ns[0]) + SizeOf(ns[1..])
  }

  lemma {:induction false} SizeOfBounds<V>(ns: seq<Node<V>>, i: int)
    requires 0 <= i < |ns|
    ensures Size(ns[i]) <= SizeOf(ns)
    decreases i
  {
    if i > 0 {
      SizeOfBounds(ns[1..], i - 1);
    }
  }

  /** A child is a strictly smaller tree than its parent. */
  lemma ChildSmaller<V>(n: Node<V>, i: int)
    requires 0 <= i < |n.children|
    ensures Size(n.children[i]) < Size(n)
  {
    SizeOfBounds(n.children, i);
  }

  /** Every node of the tree, each before its descendants, children left to right. */
  function PreOrder<V>(n: Node<V>): (r: seq<Node<V>>)
    ensures |r| >= 1 && r[0] == n
    decreases n, 1
  {
    [n] + PreOrderAll(n.children)
  }

  function PreOrderAll<V>(ns: seq<Node<V>>): seq<Node<V>>
    decreases ns, 0
  {
    if ns == [] then [] else PreOrder(ns[0]) + PreOrderAll(ns[1..])
  }

  function Filter<V>(s: seq<Node<V>>, p: Node<V> -> bool): (r: seq<Node<V>>)
    ensures |r| <= |s|
  {
    if s == [] then [] else (if p(s[0]) then [s[0]] else []) + Filter(s[1..], p)
  }

  /**
   * WhereLeafs: the nodes of the tree satisfying p, the branch itself first,
   * then each child's subtree in turn.
   */
  function WhereLeafs<V>(branch: Node<V>, p: Node<V> -> bool): (r: seq<Node<V>>)
    ensures forall i :: 0 <= i < |r| ==> p(r[i]) && Size(r[i]) <= Size(branch)
    decreases branch, 1
  {
    (if p(branch) then [branch] else []) + WhereLeafsAll(branch.children, p)
  }

  /** The SelectMany of WhereLeafs over a list of sibling subtrees. */
  function WhereLeafsAll<V>(ns: seq<Node<V>>, p: Node<V> -> bool): (r: seq<Node<V>>)
    ensures forall i :: 0 <= i < |r| ==> p(r[i]) && Size(r[i]) <= SizeOf(ns)
    decreases ns, 0
  {
    if ns == [] then []
    else
      var head := WhereLeafs(ns[0], p);
      var rest := WhereLeafsAll(ns[1..], p);
      assert forall i :: 0 <= i < |head| ==> Size(head[i]) <= SizeOf(ns);
      head + rest
  }

  lemma {:induction false} FilterAppend<V>(a: seq<Node<V>>, b: seq<Node<V>>, p: Node<V> -> bool)
    ensures Filter(a + b, p) == Filter(a, p) + Filter(b, p)
  {
    if a == [] {
      assert a + b == b;
    } else {
      var head := if p(a[0]) then [a[0]] else [];
      assert (a + b)[0] == a[0];
      assert (a + b)[1..] == a[1..] + b;
      FilterAppend(a[1..], b, p);
      calc {
        Filter(a + b, p);
        head + Filter(a[1..] + b, p);
        head + (Filter(a[1..], p) + Filter(b, p));
        (head + Filter(a[1..], p)) + Filter(b, p);
      }
    }
  }

  /** WhereLeafs is exactly the pre-order listing filtered by the predicate. */
  lemma {:induction false} WhereLeafsIsFilteredPreOrder<V>(branch: Node<V>, p: Node<V> -> bool)
    ensures WhereLeafs(branch, p) == Filter(PreOrder(branch), p)
    decreases branch, 1
  {
    WhereLeafsAllIsFilteredPreOrder(branch.children, p);
    FilterAppend([branch], PreOrderAll(branch.children), p);
    assert Filter([branch], p) == (if p(branch) then [branch] else []);
  }

  lemma {:induction false} WhereLeafsAllIsFilteredPreOrder<V>(ns: seq<Node<V>>, p: Node<V> -> bool)
    ensures WhereLeafsAll(ns, p) == Filter(PreOrderAll(ns), p)
    decreases ns, 0
  {
    if ns != [] {
      WhereLeafsIsFilteredPreOrder(ns[0], p);
      WhereLeafsAllIsFilteredPreOrder(ns[1..], p);
      FilterAppend(PreOrder(ns[0]), PreOrderAll(ns[1..]), p);
    }
  }

  /** The head of a filtered list is the first element satisfying the predicate. */
  lemma {:induction false} FilterHead<V>(s: seq<Node<V>>, p: Node<V> -> bool)
    ensures |Filter(s, p)| == 0 <==> forall k :: 0 <= k < |s| ==> !p(s[k])
    ensures |Filter(s, p)| > 0 ==>
      exists k :: 0 <= k < |s| && s[k] == Filter(s, p)[0] && p(s[k]) &&
                  forall j :: 0 <= j < k ==> !p(s[j])
  {
    if s != [] {
      FilterHead(s[1..], p);
      if !p(s[0]) {
        if |Filter(s, p)| > 0 {
          var k :| 0 <= k < |s[1..]| && s[1..][k] == Filter(s[1..], p)[0] && p(s[1..][k]) &&
                   forall j :: 0 <= j < k ==> !p(s[1..][j]);
          assert s[k + 1] == Filter(s, p)[0];
          assert forall j :: 0 <= j < k + 1 ==> !p(s[j]) by {
            forall j | 0 <= j < k + 1 ensures !p(s[j]) {
              if j > 0 { assert s[j] == s[1..][j - 1]; }
            }
          }
        } else {
          forall k | 0 <= k < |s| ensures !p(s[k]) {
            if k > 0 { assert s[k] == s[1..][k - 1]; }
          }
        }
      }
    }
  }

  /** WhereLeafs(...).FirstOrDefault(): the first pre-order node satisfying p. */
  function FirstWhere<V>(branch: Node<V>, p: Node<V> -> bool): (r: Option<Node<V>>)
    ensures r.Some? ==> p(r.value) && Size(r.value) <= Size(branch)
  {
    var found := WhereLeafs(branch, p);
    if |found| == 0 then None else Some(found[0])
  }

  /**
   * FirstWhere finds the earliest pre-order node satisfying p, and finds
   * nothing exactly when no node of the tree satisfies p.
   */
  lemma FirstWhereIsFirstInPreOrder<V>(branch: Node<V>, p: Node<V> -> bool)
    ensures FirstWhere(branch, p).None? <==>
      forall k :: 0 <= k < |PreOrder(branch)| ==> !p(PreOrder(branch)[k])
    ensures FirstWhere(branch, p).Some? ==>
      exists k :: 0 <= k < |PreOrder(branch)| && PreOrder(branch)[k] == FirstWhere(branch, p).value &&
                  forall j :: 0 <= j < k ==> !p(PreOrder(branch)[j])
  {
    WhereLeafsIsFilteredPreOrder(branch, p);
    FilterHead(PreOrder(branch), p);
  }

  /** The branch itself is found first when it satisfies the predicate. */
  lemma FirstWhereIncludesBranch<V>(branch: Node<V>, p: Node<V> -> bool)
    requires p(branch)
    ensures FirstWhere(branch, p) == Some(branch)
  {
  }
}
