/**
  The router's search tree: nodes, the routes they hold, and registration.

  A node is a value that holds its children by value. The routes of a tree are
  listed in the order the search visits them, so two trees with the same list
  of routes cannot be told apart by any search, ties included.
 */
module RouteTrie {
  import opened Options
  import opened RoutePattern

  const INVALID_BP_ID: nat := 0xffff

  datatype Node = Node(rule: nat, bp: nat, key: string, param: Option<ParamType>, children: seq<Node>)

  datatype Route = Route(tokens: seq<Token>, rule: nat)

  const EMPTY_NODE := Node(0, INVALID_BP_ID, "", None, [])

  // ---------------------------------------------------------------- routes held by a tree

  /** What the edge into a node stands for. */
  function Label(n: Node): (ts: seq<Token>) {
    if n.param.Some? then [Param(n.param.value)] else Lits(n.key)
  }

  function Prefixed(ts: seq<Token>, rs: seq<Route>): (qs: seq<Route>)
    ensures |qs| == |rs|
    ensures forall k :: 0 <= k < |rs| ==> qs[k] == Route(ts + rs[k].tokens, rs[k].rule)
  {
    seq(|rs|, k requires 0 <= k < |rs| => Route(ts + rs[k].tokens, rs[k].rule))
  }

  /** The routes below a node, the node's own first, relative to the node. */
  function Routes(n: Node): (rs: seq<Route>)
    decreases n, 1
  {
    (if n.rule != 0 then [Route([], n.rule)] else []) + RoutesOf(n.children)
  }

  /** The routes of a list of siblings, each with its edge label. */
  function RoutesOf(cs: seq<Node>): (rs: seq<Route>)
    decreases cs, 0
  {
    if cs == [] then [] else Prefixed(Label(cs[0]), Routes(cs[0])) + RoutesOf(cs[1..])
  }

  /** The routes of a node seen from its parent. */
  function Labelled(n: Node): (rs: seq<Route>) {
    Prefixed(Label(n), Routes(n))
  }

  lemma {:induction false} RoutesOfConcat(xs: seq<Node>, ys: seq<Node>)
    ensures RoutesOf(xs + ys) == RoutesOf(xs) + RoutesOf(ys)
  {
    if xs == [] {
      assert xs + ys == ys;
    } else {
      assert (xs + ys)[0] == xs[0] && (xs + ys)[1..] == xs[1..] + ys;
      RoutesOfConcat(xs[1..], ys);
      var h := Labelled(xs[0]);
      assert h + (RoutesOf(xs[1..]) + RoutesOf(ys)) == h + RoutesOf(xs[1..]) + RoutesOf(ys);
    }
  }

  lemma {:induction false} RoutesOfOne(n: Node)
    ensures RoutesOf([n]) == Labelled(n)
  {
    assert [n][1..] == [];
    assert Labelled(n) + [] == Labelled(n);
  }

  lemma {:induction false} RoutesOfSplit(cs: seq<Node>, k: nat)
    requires k < |cs|
    ensures RoutesOf(cs) == RoutesOf(cs[..k]) + Labelled(cs[k]) + RoutesOf(cs[k + 1..])
  {
    assert cs == cs[..k] + ([cs[k]] + cs[k + 1..]);
    RoutesOfConcat(cs[..k], [cs[k]] + cs[k + 1..]);
    RoutesOfConcat([cs[k]], cs[k + 1..]);
    RoutesOfOne(cs[k]);
  }

  lemma {:induction false} PrefixedTwice(a: seq<Token>, b: seq<Token>, rs: seq<Route>)
    ensures Prefixed(a, Prefixed(b, rs)) == Prefixed(a + b, rs)
  {
    forall k | 0 <= k < |rs| ensures Prefixed(a, Prefixed(b, rs))[k] == Prefixed(a + b, rs)[k] {
      assert a + (b + rs[k].tokens) == (a + b) + rs[k].tokens;
    }
  }

  // ---------------------------------------------------------------- shape of trees

  /** Every edge consumes something: a parameter, or a non-empty literal. */
  ghost predicate Proper(n: Node)
    decreases n, 1
  {
    ProperAll(n.children)
  }

  ghost predicate ProperAll(cs: seq<Node>)
    decreases cs, 0
  {
    forall k :: 0 <= k < |cs| ==> Label(cs[k]) != [] && Proper(cs[k])
  }

  /** The shape registration relies on: one token per edge, no two siblings alike. */
  ghost predicate OneTokenEdges(n: Node) {
    && (forall k :: 0 <= k < |n.children| ==> OneToken(n.children[k]) && OneTokenEdges(n.children[k]))
    && (forall j, k :: 0 <= j < k < |n.children| ==> Label(n.children[j]) != Label(n.children[k]))
  }

  predicate OneToken(n: Node) {
    if n.param.Some? then n.key == "" else |n.key| == 1 && n.key[0] != '\0'
  }

  lemma {:induction false} OneTokenEdgesProper(n: Node)
    requires OneTokenEdges(n)
    ensures Proper(n)
  {
    forall k | 0 <= k < |n.children| ensures Label(n.children[k]) != [] && Proper(n.children[k]) {
      OneTokenEdgesProper(n.children[k]);
    }
  }

  // ---------------------------------------------------------------- registration

  /** The first child that stands for a parameter of type `t`. */
  function ParamChild(cs: seq<Node>, t: ParamType): (k: nat)
    ensures k <= |cs|
    ensures k < |cs| ==> cs[k].param == Some(t)
    ensures forall j :: 0 <= j < k ==> cs[j].param != Some(t)
  {
    if cs == [] || cs[0].param == Some(t) then 0 else ParamChild(cs[1..], t) + 1
  }

  /** `key[0]` as the program reads it: NUL for an empty key. */
  function FirstChar(key: string): (c: char) { if key == "" then '\0' else key[0] }

  /** The first child whose key starts with `c`. */
  function LitChild(cs: seq<Node>, c: char): (k: nat)
    ensures k <= |cs|
    ensures k < |cs| ==> FirstChar(cs[k].key) == c
    ensures forall j :: 0 <= j < k ==> FirstChar(cs[j].key) != c
  {
    if cs == [] || FirstChar(cs[0].key) == c then 0 else LitChild(cs[1..], c) + 1
  }

  /** The blueprint information that comes with a registration. */
  datatype BpInfo = BpInfo(prefixLength: nat, index: nat) {
    predicate Present() { prefixLength != 0 && index != INVALID_BP_ID }
  }

  /** The first child a token leads to. */
  function ChildFor(cs: seq<Node>, t: Token): (k: nat)
    ensures k <= |cs|
  {
    match t
    case Param(p) => ParamChild(cs, p)
    case Lit(c) => LitChild(cs, c)
  }

  /** The node created for a token read at position `i` of the pattern text. */
  function NewNode(t: Token, i: nat, bp: BpInfo): (n: Node)
    ensures Label(n) == [t] && Routes(n) == []
  {
    match t
    case Param(p) => EMPTY_NODE.(param := Some(p))
    case Lit(c) => Node(0, if bp.Present() && i == bp.prefixLength then bp.index else INVALID_BP_ID, [c], None, [])
  }

  /**
    Registers the pattern text `url[i..]` below a node: follows the existing
    children, creates the missing ones, and sets the rule of the last node.
    No value stands for the exception thrown when that node has a rule already.
   */
  function AddFrom(n: Node, url: string, i: nat, rule: nat, bp: BpInfo): (r: Option<Node>)
    requires i <= |url| && Tokens(url, i).Some?
    decreases |url| - i
  {
    if i == |url| then
      if n.rule != 0 then None else Some(n.(rule := rule))
    else
      var (t, j) := TokenAt(url, i).value;
      var k := ChildFor(n.children, t);
      if k < |n.children| then Replace(n, k, AddFrom(n.children[k], url, j, rule, bp))
      else Append(n, AddFrom(NewNode(t, i, bp), url, j, rule, bp))
  }

  function Replace(n: Node, k: nat, c: Option<Node>): (r: Option<Node>)
    requires k < |n.children|
  {
    match c
    case None => None
    case Some(x) => Some(n.(children := n.children[k := x]))
  }

  function Append(n: Node, c: Option<Node>): (r: Option<Node>) {
    match c
    case None => None
    case Some(x) => Some(n.(children := n.children + [x]))
  }

  /** `qs` is `rs` with one more element somewhere. */
  ghost predicate InsertedInto(rs: seq<Route>, x: Route, qs: seq<Route>) {
    exists k {:trigger rs[..k]} :: 0 <= k <= |rs| && qs == rs[..k] + [x] + rs[k..]
  }

  lemma {:induction false} InsertedAround(a: seq<Route>, rs: seq<Route>, b: seq<Route>, x: Route, qs: seq<Route>)
    requires InsertedInto(rs, x, qs)
    ensures InsertedInto(a + rs + b, x, a + qs + b)
  {
    var k :| 0 <= k <= |rs| && qs == rs[..k] + [x] + rs[k..];
    var w := a + rs + b;
    assert w[..|a| + k] == a + rs[..k];
    assert w[|a| + k..] == rs[k..] + b;
    assert a + qs + b == w[..|a| + k] + [x] + w[|a| + k..];
  }

  lemma {:induction false} InsertedPrefixed(ts: seq<Token>, rs: seq<Route>, x: Route, qs: seq<Route>)
    requires InsertedInto(rs, x, qs)
    ensures InsertedInto(Prefixed(ts, rs), Route(ts + x.tokens, x.rule), Prefixed(ts, qs))
  {
    var k :| 0 <= k <= |rs| && qs == rs[..k] + [x] + rs[k..];
    var p := Prefixed(ts, rs);
    assert Prefixed(ts, qs) == p[..k] + [Route(ts + x.tokens, x.rule)] + p[k..];
  }

  lemma {:induction false} RoutesOfReplaced(cs: seq<Node>, k: nat, c: Node)
    requires k < |cs|
    ensures RoutesOf(cs[k := c]) == RoutesOf(cs[..k]) + Labelled(c) + RoutesOf(cs[k + 1..])
  {
    var ds := cs[k := c];
    RoutesOfSplit(ds, k);
    assert ds[..k] == cs[..k] && ds[k + 1..] == cs[k + 1..];
  }

  lemma {:induction false} Regroup(own: seq<Route>, a: seq<Route>, l: seq<Route>, b: seq<Route>)
    ensures own + (a + l + b) == own + a + l + b
  {
  }

  /** Replacing one child: the parent's routes change where the child's do. */
  lemma {:induction false} ReplaceRoutes(n: Node, k: nat, c: Node) returns (a: seq<Route>, b: seq<Route>)
    requires k < |n.children|
    ensures Routes(n) == a + Labelled(n.children[k]) + b
    ensures Routes(n.(children := n.children[k := c])) == a + Labelled(c) + b
  {
    var cs := n.children;
    var own: seq<Route> := if n.rule != 0 then [Route([], n.rule)] else [];
    a, b := own + RoutesOf(cs[..k]), RoutesOf(cs[k + 1..]);
    RoutesOfSplit(cs, k);
    Regroup(own, RoutesOf(cs[..k]), Labelled(cs[k]), b);
    RoutesOfReplaced(cs, k, c);
    Regroup(own, RoutesOf(cs[..k]), Labelled(c), b);
  }

  lemma {:induction false} AppendRoutes(n: Node, c: Node)
    ensures Routes(n.(children := n.children + [c])) == Routes(n) + Labelled(c)
  {
    var own: seq<Route> := if n.rule != 0 then [Route([], n.rule)] else [];
    RoutesOfConcat(n.children, [c]);
    RoutesOfOne(c);
    hide RoutesOf, Labelled;
    assert own + (RoutesOf(n.children) + Labelled(c)) == own + RoutesOf(n.children) + Labelled(c);
  }

  /** `new` holds the routes of `old`, plus `x` unless its rule is 0. */
  ghost predicate Gains(before: seq<Route>, x: Route, after: seq<Route>) {
    if x.rule == 0 then after == before else InsertedInto(before, x, after)
  }

  lemma {:induction false} GainsInParent(n: Node, k: nat, c: Node, x: Route)
    requires k < |n.children| && Label(c) == Label(n.children[k])
    requires Gains(Routes(n.children[k]), x, Routes(c))
    ensures Gains(Routes(n), Route(Label(c) + x.tokens, x.rule), Routes(n.(children := n.children[k := c])))
  {
    var a, b := ReplaceRoutes(n, k, c);
    if x.rule != 0 {
      InsertedPrefixed(Label(c), Routes(n.children[k]), x, Routes(c));
      InsertedAround(a, Labelled(n.children[k]), b, Route(Label(c) + x.tokens, x.rule), Labelled(c));
    }
  }

  lemma {:induction false} GainsByAppend(n: Node, c: Node, x: Route)
    requires Gains([], x, Routes(c))
    ensures Gains(Routes(n), Route(Label(c) + x.tokens, x.rule), Routes(n.(children := n.children + [c])))
  {
    AppendRoutes(n, c);
    var rs := Routes(n);
    if x.rule != 0 {
      assert Labelled(c) == [Route(Label(c) + x.tokens, x.rule)];
      assert rs == rs[..|rs|] && rs[|rs|..] == [];
      assert rs + Labelled(c) == rs[..|rs|] + Labelled(c) + rs[|rs|..];
    }
  }

  lemma {:induction false} InsertedFirst(rs: seq<Route>, x: Route)
    ensures InsertedInto(rs, x, [x] + rs)
  {
    assert [x] + rs == rs[..0] + [x] + rs[0..];
  }

  lemma {:induction false} GainsHere(n: Node, rule: nat)
    requires n.rule == 0
    ensures Gains(Routes(n), Route([], rule), Routes(n.(rule := rule)))
  {
    hide RoutesOf, InsertedInto;
    assert Routes(n) == RoutesOf(n.children);
    InsertedFirst(Routes(n), Route([], rule));
  }

  lemma {:induction false} ChildForLabel(cs: seq<Node>, t: Token)
    requires forall k :: 0 <= k < |cs| ==> OneToken(cs[k])
    requires t.Lit? ==> t.c != '\0'
    ensures var k := ChildFor(cs, t);
            && (k < |cs| ==> Label(cs[k]) == [t])
            && (forall j :: 0 <= j < k ==> Label(cs[j]) != [t])
  {
  }

  /** Registration adds exactly its own route and keeps the order of all others. */
  lemma {:induction false} AddFromRoutes(n: Node, url: string, i: nat, rule: nat, bp: BpInfo)
    requires i <= |url| && Tokens(url, i).Some?
    requires OneTokenEdges(n)
    requires AddFrom(n, url, i, rule, bp).Some?
    ensures var r := AddFrom(n, url, i, rule, bp).value;
            && Label(r) == Label(n)
            && Gains(Routes(n), Route(Tokens(url, i).value, rule), Routes(r))
    decreases |url| - i
  {
    if i == |url| {
      GainsHere(n, rule);
    } else {
      hide Routes, Gains, TokenAt, ChildFor, Label, OneToken;
      var (t, j) := TokenAt(url, i).value;
      var x := Route(Tokens(url, j).value, rule);
      var k := ChildFor(n.children, t);
      ChildForLabel(n.children, t);
      if k < |n.children| {
        AddFromRoutes(n.children[k], url, j, rule, bp);
        GainsInParent(n, k, AddFrom(n.children[k], url, j, rule, bp).value, x);
      } else {
        AddFromRoutes(NewNode(t, i, bp), url, j, rule, bp);
        GainsByAppend(n, AddFrom(NewNode(t, i, bp), url, j, rule, bp).value, x);
      }
    }
  }

  // ---------------------------------------------------------------- when registration fails

  ghost predicate HasRoute(n: Node, ts: seq<Token>) {
    exists x :: x in Routes(n) && x.tokens == ts
  }

  /** Every route of a list of siblings comes from one of them. */
  lemma {:induction false} RouteUnder(cs: seq<Node>, x: Route) returns (k: nat, y: Route)
    requires x in RoutesOf(cs)
    ensures k < |cs| && y in Routes(cs[k]) && x == Route(Label(cs[k]) + y.tokens, y.rule)
  {
    hide Routes, Label;
    if x in Labelled(cs[0]) {
      var m :| 0 <= m < |Labelled(cs[0])| && Labelled(cs[0])[m] == x;
      k, y := 0, Routes(cs[0])[m];
    } else {
      k, y := RouteUnder(cs[1..], x);
      k := k + 1;
    }
  }

  lemma {:induction false} RouteAbove(cs: seq<Node>, k: nat, y: Route)
    requires k < |cs| && y in Routes(cs[k])
    ensures Route(Label(cs[k]) + y.tokens, y.rule) in RoutesOf(cs)
  {
    RoutesOfSplit(cs, k);
    var m :| 0 <= m < |Routes(cs[k])| && Routes(cs[k])[m] == y;
    assert Labelled(cs[k])[m] == Route(Label(cs[k]) + y.tokens, y.rule);
  }

  /** With one token per edge and no two siblings alike, the first token decides the child. */
  lemma {:induction false} HasRouteBelow(n: Node, t: Token, rest: seq<Token>, k: nat)
    requires OneTokenEdges(n) && k < |n.children| && Label(n.children[k]) == [t]
    ensures HasRoute(n, [t] + rest) <==> HasRoute(n.children[k], rest)
  {
    var cs := n.children;
    if x :| x in Routes(n) && x.tokens == [t] + rest {
      var j, y := RouteUnder(cs, x);
      assert Label(cs[j]) == [x.tokens[0]];
      assert y.tokens == x.tokens[1..] == rest;
    }
    if y :| y in Routes(cs[k]) && y.tokens == rest {
      RouteAbove(cs, k, y);
      assert Route([t] + rest, y.rule) in Routes(n);
    }
  }

  lemma {:induction false} NoRouteBelow(n: Node, t: Token, rest: seq<Token>)
    requires OneTokenEdges(n)
    requires forall k :: 0 <= k < |n.children| ==> Label(n.children[k]) != [t]
    ensures !HasRoute(n, [t] + rest)
  {
    forall x | x in Routes(n) ensures x.tokens != [t] + rest {
      if x in RoutesOf(n.children) {
        var j, y := RouteUnder(n.children, x);
        assert Label(n.children[j]) == [x.tokens[0]];
      }
    }
  }

  lemma {:induction false} HasEmptyRoute(n: Node)
    requires Proper(n)
    ensures HasRoute(n, []) <==> n.rule != 0
  {
    if n.rule != 0 {
      assert Routes(n)[0] == Route([], n.rule);
    } else {
      forall x | x in Routes(n) ensures x.tokens != [] {
        var j, y := RouteUnder(n.children, x);
      }
    }
  }

  /** Registration is refused exactly when the same tokens already have a rule. */
  lemma {:induction false} AddFromFails(n: Node, url: string, i: nat, rule: nat, bp: BpInfo)
    requires i <= |url| && Tokens(url, i).Some?
    requires OneTokenEdges(n)
    ensures AddFrom(n, url, i, rule, bp).None? <==> HasRoute(n, Tokens(url, i).value)
    decreases |url| - i
  {
    if i == |url| {
      OneTokenEdgesProper(n);
      HasEmptyRoute(n);
    } else {
      var (t, j) := TokenAt(url, i).value;
      var rest := Tokens(url, j).value;
      var k := ChildFor(n.children, t);
      ChildForLabel(n.children, t);
      if k < |n.children| {
        AddFromFails(n.children[k], url, j, rule, bp);
        HasRouteBelow(n, t, rest, k);
      } else {
        AddFromFails(NewNode(t, i, bp), url, j, rule, bp);
        NoRouteBelow(n, t, rest);
      }
    }
  }

  lemma {:induction false} ReplaceShape(n: Node, k: nat, c: Node)
    requires OneTokenEdges(n) && k < |n.children|
    requires OneTokenEdges(c) && OneToken(c) && Label(c) == Label(n.children[k])
    ensures OneTokenEdges(n.(children := n.children[k := c]))
  {
  }

  lemma {:induction false} AppendShape(n: Node, c: Node)
    requires OneTokenEdges(n) && OneTokenEdges(c) && OneToken(c)
    requires forall k :: 0 <= k < |n.children| ==> Label(n.children[k]) != Label(c)
    ensures OneTokenEdges(n.(children := n.children + [c]))
  {
  }

  /** Registration keeps one token per edge and distinct siblings. */
  lemma {:induction false} AddFromShape(n: Node, url: string, i: nat, rule: nat, bp: BpInfo)
    requires i <= |url| && Tokens(url, i).Some?
    requires OneTokenEdges(n)
    requires AddFrom(n, url, i, rule, bp).Some?
    ensures var r := AddFrom(n, url, i, rule, bp).value;
            OneTokenEdges(r) && r.key == n.key && r.param == n.param
    decreases |url| - i
  {
    if i < |url| {
      var (t, j) := TokenAt(url, i).value;
      var k := ChildFor(n.children, t);
      ChildForLabel(n.children, t);
      if k < |n.children| {
        AddFromShape(n.children[k], url, j, rule, bp);
        ReplaceShape(n, k, AddFrom(n.children[k], url, j, rule, bp).value);
      } else {
        AddFromShape(NewNode(t, i, bp), url, j, rule, bp);
        AppendShape(n, AddFrom(NewNode(t, i, bp), url, j, rule, bp).value);
      }
    }
  }
}
