/** Collapsing chains of simple nodes leaves the list of routes as it was. */
module RouteOptimize {
  import opened RoutePattern
  import opened RouteTrie

  /** A node that carries nothing but the edge to at most one literal child. */
  predicate IsSimpleNode(n: Node) {
    && n.rule == 0
    && n.bp == INVALID_BP_ID
    && |n.children| < 2
    && n.param.None?
    && forall k :: 0 <= k < |n.children| ==> n.children[k].param.None?
  }

  /** Number of nodes. */
  function Size(n: Node): (s: nat)
    ensures s > 0
    decreases n, 1
  {
    1 + SizeOf(n.children)
  }

  function SizeOf(cs: seq<Node>): (s: nat)
    ensures cs != [] ==> s >= Size(cs[0])
    decreases cs, 0
  {
    if cs == [] then 0 else Size(cs[0]) + SizeOf(cs[1..])
  }

  /** A simple node merged with its only child. */
  function Merged(n: Node): (m: Node)
    requires IsSimpleNode(n) && n.children != []
    ensures Size(m) < Size(n)
  {
    var c := n.children[0];
    assert n.children[1..] == [];
    Node(c.rule, c.bp, n.key + c.key, n.param, c.children)
  }

  function Optimized(n: Node): (r: Node)
    decreases Size(n), 0
  {
    if n.children == [] then n
    else if IsSimpleNode(n) then Optimized(Merged(n))
    else n.(children := OptimizedAll(n.children))
  }

  function OptimizedAll(cs: seq<Node>): (rs: seq<Node>)
    ensures |rs| == |cs|
    decreases SizeOf(cs), 1
  {
    if cs == [] then [] else [Optimized(cs[0])] + OptimizedAll(cs[1..])
  }

  // ---------------------------------------------------------------- the operation

  lemma {:induction false} SizeOfMember(cs: seq<Node>, k: nat)
    requires k < |cs|
    ensures Size(cs[k]) <= SizeOf(cs)
  {
    if k > 0 {
      SizeOfMember(cs[1..], k - 1);
    }
  }

  lemma {:induction false} OptimizedAllAt(cs: seq<Node>, k: nat)
    requires k < |cs|
    ensures OptimizedAll(cs)[k] == Optimized(cs[k])
  {
    if k > 0 {
      OptimizedAllAt(cs[1..], k - 1);
    }
  }

  /** Rewrites a node in place: merge until the node is not simple, then do the same for every child. */
  method OptimizeNode(node: Node) returns (r: Node)
    ensures r == Optimized(node)
    decreases Size(node)
  {
    if node.children == [] {
      return node;
    }
    if IsSimpleNode(node) {
      r := OptimizeNode(Merged(node));
      return;
    }
    var cs := node.children;
    var k := 0;
    while k < |cs|
      invariant 0 <= k <= |cs| == |node.children|
      invariant forall j :: 0 <= j < k ==> cs[j] == Optimized(node.children[j])
      invariant forall j :: k <= j < |cs| ==> cs[j] == node.children[j]
    {
      SizeOfMember(node.children, k);
      var c := OptimizeNode(cs[k]);
      cs := cs[k := c];
      k := k + 1;
    }
    forall j | 0 <= j < |cs| ensures cs[j] == OptimizedAll(node.children)[j] {
      OptimizedAllAt(node.children, j);
    }
    return node.(children := cs);
  }

  // ---------------------------------------------------------------- what it keeps

  lemma {:induction false} MergedRoutes(n: Node)
    requires IsSimpleNode(n) && n.children != []
    ensures Labelled(Merged(n)) == Labelled(n)
  {
    var c := n.children[0];
    assert n.children == [c];
    RoutesOfOne(c);
    assert Routes(n) == Labelled(c);
    PrefixedTwice(Lits(n.key), Lits(c.key), Routes(c));
    assert Lits(n.key) + Lits(c.key) == Lits(n.key + c.key);
    assert Routes(Merged(n)) == Routes(c);
  }

  /** A collapsed node holds the same routes, in the same order, as seen from its parent. */
  lemma {:induction false} OptimizedRoutes(n: Node)
    ensures Labelled(Optimized(n)) == Labelled(n)
    decreases Size(n), 0
  {
    if n.children == [] {
    } else if IsSimpleNode(n) {
      MergedRoutes(n);
      OptimizedRoutes(Merged(n));
    } else {
      OptimizedAllRoutes(n.children);
    }
  }

  lemma {:induction false} OptimizedAllRoutes(cs: seq<Node>)
    ensures RoutesOf(OptimizedAll(cs)) == RoutesOf(cs)
    decreases SizeOf(cs), 1
  {
    if cs != [] {
      OptimizedRoutes(cs[0]);
      OptimizedAllRoutes(cs[1..]);
      assert OptimizedAll(cs)[1..] == OptimizedAll(cs[1..]);
    }
  }

  /** No node that could still be merged with its child. */
  ghost predicate Compact(n: Node) {
    && (n.children == [] || !IsSimpleNode(n))
    && forall k :: 0 <= k < |n.children| ==> Compact(n.children[k])
  }

  /** The parameter mark of a node never changes, so neither does what kind of edge leads to it. */
  lemma {:induction false} OptimizedParam(n: Node)
    ensures Optimized(n).param == n.param
    decreases Size(n)
  {
    if n.children != [] && IsSimpleNode(n) {
      OptimizedParam(Merged(n));
    }
  }

  /** In a rewritten node no simple node with a child is left. */
  lemma {:induction false} OptimizedCompact(n: Node)
    ensures Compact(Optimized(n))
    decreases Size(n), 0
  {
    if n.children == [] {
    } else if IsSimpleNode(n) {
      OptimizedCompact(Merged(n));
    } else {
      var r := Optimized(n);
      forall k | 0 <= k < |n.children| ensures Compact(r.children[k]) && r.children[k].param == n.children[k].param {
        SizeOfMember(n.children, k);
        OptimizedAllAt(n.children, k);
        OptimizedCompact(n.children[k]);
        OptimizedParam(n.children[k]);
      }
    }
  }

  lemma {:induction false} OptimizedProper(n: Node)
    requires Proper(n)
    ensures Proper(Optimized(n))
    ensures Label(n) != [] ==> Label(Optimized(n)) != []
    decreases Size(n), 0
  {
    if n.children == [] {
    } else if IsSimpleNode(n) {
      assert Proper(n.children[0]);
      assert Lits(n.key + n.children[0].key) == Lits(n.key) + Lits(n.children[0].key);
      OptimizedProper(Merged(n));
    } else {
      var rs := OptimizedAll(n.children);
      forall k | 0 <= k < |rs| ensures Proper(rs[k]) && Label(rs[k]) != [] {
        SizeOfMember(n.children, k);
        OptimizedAllAt(n.children, k);
        OptimizedProper(n.children[k]);
      }
    }
  }
}
