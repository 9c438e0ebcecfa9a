/**
  The backtracking search. Its reference is "try every route in turn and keep
  the smallest rule, the earlier one on a tie".
 */
module RouteFind {
  import opened Options
  import opened Text
  import opened RoutePattern
  import opened RouteTrie

  // ---------------------------------------------------------------- captured parameters

  /** The captured parameters, one list per type. */
  datatype Params = Params(ints: seq<int>, uints: seq<nat>, doubles: seq<string>, strings: seq<string>)

  const NO_PARAMS := Params([], [], [], [])

  function Push(p: Params, a: Arg): (q: Params) {
    match a
    case IntArg(i) => p.(ints := p.ints + [i])
    case UintArg(u) => p.(uints := p.uints + [u])
    case DoubleArg(d) => p.(doubles := p.doubles + [d])
    case StrArg(s) => p.(strings := p.strings + [s])
  }

  function PushAll(p: Params, args: seq<Arg>): (q: Params)
    decreases |args|
  {
    if args == [] then p else PushAll(Push(p, args[0]), args[1..])
  }

  // ---------------------------------------------------------------- reference

  datatype Found = NotFound | Hit(rule: nat, args: seq<Arg>)

  function Better(a: Found, b: Found): (r: Found) {
    if b.Hit? && (a.NotFound? || a.rule > b.rule) then b else a
  }

  function Try(x: Route, url: string, pos: nat, strtod: Strtod): (r: Found)
    requires pos <= |url|
  {
    match Capture(x.tokens, url, pos, strtod)
    case None => NotFound
    case Some(args) => Hit(x.rule, args)
  }

  /** Every route tried in turn. */
  function Best(rs: seq<Route>, url: string, pos: nat, strtod: Strtod): (r: Found)
    requires pos <= |url|
  {
    if rs == [] then NotFound else Better(Try(rs[0], url, pos, strtod), Best(rs[1..], url, pos, strtod))
  }

  lemma {:induction false} BestConcat(xs: seq<Route>, ys: seq<Route>, url: string, pos: nat, strtod: Strtod)
    requires pos <= |url|
    ensures Best(xs + ys, url, pos, strtod) == Better(Best(xs, url, pos, strtod), Best(ys, url, pos, strtod))
  {
    if xs == [] {
      assert xs + ys == ys;
    } else {
      assert (xs + ys)[0] == xs[0] && (xs + ys)[1..] == xs[1..] + ys;
      BestConcat(xs[1..], ys, url, pos, strtod);
    }
  }

  /** What the best of the relative routes becomes after the edge captured `a`. */
  function After(a: seq<Arg>, f: Found): (r: Found) {
    match f
    case NotFound => NotFound
    case Hit(rule, args) => Hit(rule, a + args)
  }

  lemma {:induction false} CapturePrefixed(ts: seq<Token>, us: seq<Token>, url: string, pos: nat, strtod: Strtod)
    requires pos <= |url|
    ensures Capture(ts + us, url, pos, strtod) ==
            match EatAll(ts, url, pos, strtod)
            case None => None
            case Some((p, a)) =>
              match Capture(us, url, p, strtod)
              case None => None
              case Some(b) => Some(a + b)
  {
    EatAllConcat(ts, us, url, pos, strtod);
  }

  /** Searching below an edge is searching the labelled routes. */
  lemma {:induction false} BestPrefixed(ts: seq<Token>, rs: seq<Route>, url: string, pos: nat, strtod: Strtod)
    requires pos <= |url|
    ensures Best(Prefixed(ts, rs), url, pos, strtod) ==
            match EatAll(ts, url, pos, strtod)
            case None => NotFound
            case Some((p, a)) => After(a, Best(rs, url, p, strtod))
  {
    if rs != [] {
      assert Prefixed(ts, rs)[1..] == Prefixed(ts, rs[1..]);
      BestPrefixed(ts, rs[1..], url, pos, strtod);
      CapturePrefixed(ts, rs[0].tokens, url, pos, strtod);
    }
  }

  /** At the end of the url only the node's own rule can match. */
  lemma {:induction false} BestAtEnd(cs: seq<Node>, url: string, strtod: Strtod)
    requires ProperAll(cs)
    ensures Best(RoutesOf(cs), url, |url|, strtod) == NotFound
  {
    if cs != [] {
      BestAtEnd(cs[1..], url, strtod);
      BestConcat(Labelled(cs[0]), RoutesOf(cs[1..]), url, |url|, strtod);
      BestPrefixed(Label(cs[0]), Routes(cs[0]), url, |url|, strtod);
    }
  }

  lemma {:induction false} BestOfNode(n: Node, url: string, pos: nat, strtod: Strtod)
    requires pos <= |url|
    ensures Best(Routes(n), url, pos, strtod) ==
            Better(if n.rule != 0 && pos == |url| then Hit(n.rule, []) else NotFound,
                   Best(RoutesOf(n.children), url, pos, strtod))
  {
    var own: seq<Route> := if n.rule != 0 then [Route([], n.rule)] else [];
    BestConcat(own, RoutesOf(n.children), url, pos, strtod);
    assert own != [] ==> own[1..] == [];
  }

  lemma {:induction false} BestOfNone(cs: seq<Node>, url: string, pos: nat, strtod: Strtod)
    requires pos <= |url| && cs == []
    ensures Best(RoutesOf(cs), url, pos, strtod) == NotFound
  {
  }

  /** One more sibling considered. */
  lemma {:induction false} BestSnoc(cs: seq<Node>, k: nat, url: string, pos: nat, strtod: Strtod)
    requires pos <= |url| && k < |cs|
    ensures Best(RoutesOf(cs[..k + 1]), url, pos, strtod) ==
            Better(Best(RoutesOf(cs[..k]), url, pos, strtod), Best(Labelled(cs[k]), url, pos, strtod))
  {
    assert cs[..k + 1] == cs[..k] + [cs[k]];
    RoutesOfConcat(cs[..k], [cs[k]]);
    RoutesOfOne(cs[k]);
    BestConcat(RoutesOf(cs[..k]), Labelled(cs[k]), url, pos, strtod);
  }

  // ---------------------------------------------------------------- the search

  /** The parameter stack shared by all levels of the search. */
  class RoutingParams {
    var ints: seq<int>
    var uints: seq<nat>
    var doubles: seq<string>
    var strings: seq<string>

    constructor ()
      ensures Value() == NO_PARAMS
    {
      ints, uints, doubles, strings := [], [], [], [];
    }

    function Value(): (p: Params)
      reads this
    {
      Params(ints, uints, doubles, strings)
    }

    /** Appends an argument to the list of its type. */
    method PushArg(a: Arg)
      modifies this
      ensures Value() == Push(old(Value()), a)
    {
      match a
      case IntArg(i) => ints := ints + [i];
      case UintArg(u) => uints := uints + [u];
      case DoubleArg(d) => doubles := doubles + [d];
      case StrArg(s) => strings := strings + [s];
    }

    /** Drops the last element of the list `a` belongs to, undoing a push of `a`. */
    method PopArg(a: Arg, ghost base: Params)
      requires Value() == Push(base, a)
      modifies this
      ensures Value() == base
    {
      match a
      case IntArg(_) => ints := ints[..|ints| - 1];
      case UintArg(_) => uints := uints[..|uints| - 1];
      case DoubleArg(_) => doubles := doubles[..|doubles| - 1];
      case StrArg(_) => strings := strings[..|strings| - 1];
    }
  }

  /** A rule (0 for none) and parameters that report `f` on top of the parameters `base`. */
  ghost predicate Reports(rule: nat, ps: Params, f: Found, base: Params) {
    match f
    case NotFound => rule == 0
    case Hit(r, args) => rule == r && rule != 0 && ps == PushAll(base, args)
  }

  /**
    The search below `node` from position `pos`. The parameter stack is left as
    it was found, and the result is the reference's over the node's routes.
   */
  method Find(url: string, node: Node, pos: nat, params: RoutingParams, strtod: Strtod)
      returns (found: nat, matchParams: Params)
    requires pos <= |url| && Proper(node)
    modifies params
    ensures params.Value() == old(params.Value())
    ensures Reports(found, matchParams, Best(Routes(node), url, pos, strtod), old(params.Value()))
    decreases node, 1
  {
    hide Best, Labelled, Routes, RoutesOf;
    BestOfNode(node, url, pos, strtod);
    if pos == |url| {
      BestAtEnd(node.children, url, strtod);
      return node.rule, params.Value();
    }
    found, matchParams := 0, NO_PARAMS;
    BestOfNone(node.children[..0], url, pos, strtod);
    var i := 0;
    while i < |node.children|
      invariant 0 <= i <= |node.children|
      invariant params.Value() == old(params.Value())
      invariant Reports(found, matchParams, Best(RoutesOf(node.children[..i]), url, pos, strtod), old(params.Value()))
    {
      BestSnoc(node.children, i, url, pos, strtod);
      var rule, ps := FindUnder(url, node.children[i], pos, params, strtod);
      if rule != 0 && (found == 0 || found > rule) {
        found, matchParams := rule, ps;
      }
      i := i + 1;
    }
    assert node.children[..i] == node.children;
  }

  lemma {:induction false} EatOne(t: Token, url: string, pos: nat, strtod: Strtod)
    requires pos <= |url|
    ensures EatAll([t], url, pos, strtod) == Eat(t, url, pos, strtod)
  {
    match Eat(t, url, pos, strtod)
    case None =>
    case Some((p, a)) =>
      assert [t][1..] == [];
      assert a + [] == a;
  }

  /** Parameters reported on top of a pushed argument are the parameters reported after capturing it. */
  lemma {:induction false} ReportsPushed(rule: nat, ps: Params, f: Found, base: Params, a: Arg)
    requires Reports(rule, ps, f, Push(base, a))
    ensures Reports(rule, ps, After([a], f), base)
  {
    if f.Hit? {
      assert ([a] + f.args)[1..] == f.args;
    }
  }

  /** A parameter edge: what the child's search returns is what the edge contributes. */
  lemma {:induction false} UnderParam(child: Node, url: string, pos: nat, strtod: Strtod, p: nat, a: Arg, rule: nat, ps: Params, base: Params)
    requires child.param.Some? && pos < |url|
    requires Eat(Param(child.param.value), url, pos, strtod) == Some((p, [a]))
    requires Reports(rule, ps, Best(Routes(child), url, p, strtod), Push(base, a))
    ensures Reports(rule, ps, Best(Labelled(child), url, pos, strtod), base)
  {
    EatOne(Param(child.param.value), url, pos, strtod);
    BestPrefixed(Label(child), Routes(child), url, pos, strtod);
    ReportsPushed(rule, ps, Best(Routes(child), url, p, strtod), base, a);
  }

  /** A parameter edge that does not match contributes nothing. */
  lemma {:induction false} UnderNothing(child: Node, url: string, pos: nat, strtod: Strtod)
    requires child.param.Some? && pos < |url|
    requires Eat(Param(child.param.value), url, pos, strtod) == None
    ensures Best(Labelled(child), url, pos, strtod) == NotFound
  {
    EatOne(Param(child.param.value), url, pos, strtod);
    BestPrefixed(Label(child), Routes(child), url, pos, strtod);
  }

  lemma {:induction false} UnderLiteral(child: Node, url: string, pos: nat, strtod: Strtod)
    requires child.param.None? && pos < |url|
    ensures Best(Labelled(child), url, pos, strtod) ==
            if Here(url, pos, child.key) then Best(Routes(child), url, pos + |child.key|, strtod) else NotFound
  {
    hide Best, Routes, EatAll;
    EatLits(child.key, url, pos, strtod);
    BestPrefixed(Label(child), Routes(child), url, pos, strtod);
    if Here(url, pos, child.key) {
      var f := Best(Routes(child), url, pos + |child.key|, strtod);
      assert f.Hit? ==> [] + f.args == f.args;
    }
  }

  /** One child: match its edge, push what it captures, search below it, pop. */
  method FindUnder(url: string, child: Node, pos: nat, params: RoutingParams, strtod: Strtod)
      returns (rule: nat, ps: Params)
    requires pos < |url| && Proper(child)
    modifies params
    ensures params.Value() == old(params.Value())
    ensures Reports(rule, ps, Best(Labelled(child), url, pos, strtod), old(params.Value()))
    decreases child, 3
  {
    hide Best, Labelled, Routes, Eat, Proper;
    if child.param.None? {
      UnderLiteral(child, url, pos, strtod);
      if Here(url, pos, child.key) {
        rule, ps := Find(url, child, pos + |child.key|, params, strtod);
      } else {
        rule, ps := 0, NO_PARAMS;
      }
    } else {
      match Eat(Param(child.param.value), url, pos, strtod) {
        case None =>
          UnderNothing(child, url, pos, strtod);
          rule, ps := 0, NO_PARAMS;
        case Some((p, a)) =>
          rule, ps := FindAfter(url, child, pos, p, a, params, strtod);
      }
    }
  }

  method FindAfter(url: string, child: Node, pos: nat, p: nat, a: seq<Arg>, params: RoutingParams, strtod: Strtod)
      returns (rule: nat, ps: Params)
    requires pos < p <= |url| && Proper(child) && child.param.Some?
    requires Eat(Param(child.param.value), url, pos, strtod) == Some((p, a))
    modifies params
    ensures params.Value() == old(params.Value())
    ensures Reports(rule, ps, Best(Labelled(child), url, pos, strtod), old(params.Value()))
    decreases child, 2
  {
    hide Best, Labelled, Routes, Proper, Reports, Push;
    EatCapturesOne(child.param.value, url, pos, strtod);
    ghost var base := params.Value();
    params.PushArg(a[0]);
    rule, ps := Find(url, child, p, params, strtod);
    params.PopArg(a[0], base);
    UnderParam(child, url, pos, strtod, p, a[0], rule, ps, base);
  }

  lemma {:induction false} EatCapturesOne(t: ParamType, url: string, pos: nat, strtod: Strtod)
    requires pos <= |url| && Eat(Param(t), url, pos, strtod).Some?
    ensures |Eat(Param(t), url, pos, strtod).value.1| == 1
  {
  }
}
