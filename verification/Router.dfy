/** The router's trie as the program uses it: registrations, then collapsing, then searches. */
module Router {
  import opened Options
  import opened RoutePattern
  import opened RouteTrie
  import opened RouteOptimize
  import opened RouteMarks
  import opened RouteFind

  // ---------------------------------------------------------------- what a search reports

  /** Among the routes that match the whole url there is one with this rule and these arguments, and no smaller rule. */
  ghost predicate IsBestMatch(rs: seq<Route>, url: string, strtod: Strtod, rule: nat, args: seq<Arg>) {
    && (exists x :: x in rs && x.rule == rule && Capture(x.tokens, url, 0, strtod) == Some(args))
    && (forall x :: x in rs && Capture(x.tokens, url, 0, strtod).Some? ==> rule <= x.rule)
  }

  ghost predicate NoMatch(rs: seq<Route>, url: string, strtod: Strtod) {
    forall x :: x in rs ==> Capture(x.tokens, url, 0, strtod).None?
  }

  /** The reference search returns the smallest rule among the routes that match, and nothing exactly when none does. */
  lemma {:induction false} BestIsSmallest(rs: seq<Route>, url: string, strtod: Strtod)
    ensures match Best(rs, url, 0, strtod)
            case NotFound => NoMatch(rs, url, strtod)
            case Hit(rule, args) => IsBestMatch(rs, url, strtod, rule, args)
  {
    if rs != [] {
      BestIsSmallest(rs[1..], url, strtod);
      var h, t := Try(rs[0], url, 0, strtod), Best(rs[1..], url, 0, strtod);
      assert forall x :: x in rs <==> x == rs[0] || x in rs[1..];
      if t.Hit? && (h.NotFound? || h.rule > t.rule) {
        var x :| x in rs[1..] && x.rule == t.rule && Capture(x.tokens, url, 0, strtod) == Some(t.args);
        assert x in rs;
      } else if h.Hit? {
        assert rs[0] in rs && Capture(rs[0].tokens, url, 0, strtod) == Some(h.args);
      }
    }
  }

  /** A result `(rule, params)` is the right answer for a list of routes: 0 exactly when nothing matches. */
  ghost predicate RightAnswer(rs: seq<Route>, url: string, strtod: Strtod, rule: nat, params: Params) {
    if rule == 0 then NoMatch(rs, url, strtod)
    else exists args :: IsBestMatch(rs, url, strtod, rule, args) && params == PushAll(NO_PARAMS, args)
  }

  // ---------------------------------------------------------------- the trie

  class Trie {
    var head: Node

    /** Trees built by registration, possibly collapsed. */
    ghost predicate Valid()
      reads this
    {
      Proper(head)
    }

    /** No chain has been collapsed yet. */
    ghost predicate Unoptimized()
      reads this
    {
      OneTokenEdges(head)
    }

    ghost function Registered(): (rs: seq<Route>)
      reads this
    {
      Routes(head)
    }

    /** The blueprint indices in the tree. */
    ghost function Indices(): (rs: seq<Route>)
      reads this
    {
      Marks(head)
    }

    constructor ()
      ensures Valid() && Unoptimized() && Registered() == [] && Indices() == []
    {
      head := EMPTY_NODE;
    }

    /**
      Registers a pattern. It is refused, and nothing changes, exactly when the
      same tokens already have a rule.
     */
    method Add(url: string, rule: nat, bp: BpInfo) returns (ok: bool)
      requires Unoptimized() && Tokens(url, 0).Some?
      modifies this
      ensures Valid() && Unoptimized()
      ensures ok ==> Grown(old(Indices()), NewMark(old(head), url, 0, bp), Indices())
      ensures ok <==> forall x :: x in old(Registered()) ==> x.tokens != Tokens(url, 0).value
      ensures ok ==> Gains(old(Registered()), Route(Tokens(url, 0).value, rule), Registered())
      ensures !ok ==> head == old(head)
    {
      hide Routes, AddFrom, Tokens, OneTokenEdges, Proper, Gains, Marks, NewMark, Grown;
      AddFromFails(head, url, 0, rule, bp);
      var r := AddFrom(head, url, 0, rule, bp);
      ok := r.Some?;
      if ok {
        AddFromRoutes(head, url, 0, rule, bp);
        AddFromShape(head, url, 0, rule, bp);
        AddedMarks(head, url, 0, rule, bp);
        head := r.value;
      }
      OneTokenEdgesProper(head);
    }

    /** Collapses the chains below every child of the head: same routes, same order, nothing left to merge. */
    method Optimize()
      requires Valid()
      modifies this
      ensures Valid() && Registered() == old(Registered()) && Indices() == old(Indices())
      ensures forall k :: 0 <= k < |head.children| ==> Compact(head.children[k])
      ensures head == old(head).(children := OptimizedAll(old(head).children))
    {
      hide Routes, Optimized, Compact, Proper, Marks;
      ghost var was := head;
      var cs := head.children;
      var k := 0;
      while k < |cs|
        invariant 0 <= k <= |cs| == |was.children| && head == was
        invariant forall j :: 0 <= j < k ==> cs[j] == Optimized(was.children[j])
        invariant forall j :: k <= j < |cs| ==> cs[j] == was.children[j]
      {
        var c := OptimizeNode(cs[k]);
        cs := cs[k := c];
        k := k + 1;
      }
      forall j | 0 <= j < |cs| ensures cs[j] == OptimizedAll(was.children)[j] && Compact(cs[j]) {
        OptimizedAllAt(was.children, j);
        OptimizedCompact(was.children[j]);
      }
      assert cs == OptimizedAll(was.children);
      head := head.(children := cs);
      HeadRoutes(was);
      HeadMarks(was);
      HeadProper(was);
    }

    /** Checks that the head carries nothing, then collapses; refused when the head is not simple. */
    method Validate() returns (ok: bool)
      requires Valid()
      modifies this
      ensures ok <==> IsSimpleNode(old(head))
      ensures !ok ==> head == old(head)
      ensures Valid() && Registered() == old(Registered()) && Indices() == old(Indices())
    {
      ok := IsSimpleNode(head);
      if ok {
        Optimize();
      }
    }

    /** The smallest rule of a registered pattern that matches, with the parameters it captures; 0 when none matches. */
    method FindRule(url: string, strtod: Strtod) returns (rule: nat, params: Params)
      requires Valid()
      ensures RightAnswer(Registered(), url, strtod, rule, params)
      ensures Reports(rule, params, Best(Registered(), url, 0, strtod), NO_PARAMS)
    {
      hide Best, Routes, Proper;
      var stack := new RoutingParams();
      rule, params := Find(url, head, 0, stack, strtod);
      BestIsSmallest(Routes(head), url, strtod);
    }
  }

  lemma {:induction false} HeadRoutes(n: Node)
    ensures Routes(n.(children := OptimizedAll(n.children))) == Routes(n)
  {
    OptimizedAllRoutes(n.children);
  }

  lemma {:induction false} HeadMarks(n: Node)
    ensures Marks(n.(children := OptimizedAll(n.children))) == Marks(n)
  {
    OptimizedAllMarks(n.children);
  }

  lemma {:induction false} HeadProper(n: Node)
    requires Proper(n)
    ensures Proper(n.(children := OptimizedAll(n.children)))
  {
    var rs := OptimizedAll(n.children);
    forall k | 0 <= k < |rs| ensures Label(rs[k]) != [] && Proper(rs[k]) {
      OptimizedAllAt(n.children, k);
      OptimizedProper(n.children[k]);
    }
  }

  // ---------------------------------------------------------------- whole runs

  datatype Registration = Registration(url: string, rule: nat, bp: BpInfo)

  /** The tree after a sequence of successful registrations; no value when one is refused or malformed. */
  function Build(regs: seq<Registration>): (r: Option<Node>) {
    if regs == [] then Some(EMPTY_NODE)
    else
      var g := regs[|regs| - 1];
      match Build(regs[..|regs| - 1])
      case None => None
      case Some(n) => if Tokens(g.url, 0).None? then None else AddFrom(n, g.url, 0, g.rule, g.bp)
  }

  /** The routes asked for by a sequence of registrations; rule 0 registers nothing. */
  function Asked(regs: seq<Registration>): (rs: multiset<Route>)
    requires forall g :: g in regs ==> Tokens(g.url, 0).Some?
  {
    if regs == [] then multiset{}
    else
      var g := regs[|regs| - 1];
      Asked(regs[..|regs| - 1]) + if g.rule == 0 then multiset{} else multiset{Route(Tokens(g.url, 0).value, g.rule)}
  }

  lemma {:induction false} InsertedMultiset(rs: seq<Route>, x: Route, qs: seq<Route>)
    requires InsertedInto(rs, x, qs)
    ensures multiset(qs) == multiset(rs) + multiset{x}
  {
    var k :| 0 <= k <= |rs| && qs == rs[..k] + [x] + rs[k..];
    assert rs == rs[..k] + rs[k..];
  }

  /** A tree built by registrations holds exactly the routes asked for. */
  lemma {:induction false} BuildHoldsAsked(regs: seq<Registration>)
    requires Build(regs).Some?
    ensures forall g :: g in regs ==> Tokens(g.url, 0).Some?
    ensures OneTokenEdges(Build(regs).value)
    ensures multiset(Routes(Build(regs).value)) == Asked(regs)
  {
    if regs != [] {
      var init, g := regs[..|regs| - 1], regs[|regs| - 1];
      assert regs == init + [g];
      BuildHoldsAsked(init);
      var n := Build(init).value;
      AddFromRoutes(n, g.url, 0, g.rule, g.bp);
      AddFromShape(n, g.url, 0, g.rule, g.bp);
      if g.rule != 0 {
        InsertedMultiset(Routes(n), Route(Tokens(g.url, 0).value, g.rule), Routes(Build(regs).value));
      }
    }
  }

  /** `rule` is the smallest rule among the patterns asked for that match the url. */
  ghost predicate SmallestAsked(regs: seq<Registration>, url: string, strtod: Strtod, rule: nat, args: seq<Arg>)
    requires forall g :: g in regs ==> Tokens(g.url, 0).Some?
  {
    && (exists x :: x in Asked(regs) && x.rule == rule && Capture(x.tokens, url, 0, strtod) == Some(args))
    && (forall x :: x in Asked(regs) && Capture(x.tokens, url, 0, strtod).Some? ==> rule <= x.rule)
  }

  /**
    For every sequence of successful registrations and every url, the search
    over the built tree, collapsed or not, yields the smallest rule among the
    patterns that match and the arguments of such a pattern, and nothing
    exactly when no pattern matches.
   */
  lemma {:induction false} SearchIsTryEveryPattern(regs: seq<Registration>, url: string, strtod: Strtod)
    requires Build(regs).Some?
    ensures forall g :: g in regs ==> Tokens(g.url, 0).Some?
    ensures var n := Build(regs).value;
            && Best(Routes(n.(children := OptimizedAll(n.children))), url, 0, strtod) == Best(Routes(n), url, 0, strtod)
            && match Best(Routes(n), url, 0, strtod)
               case NotFound => forall x :: x in Asked(regs) ==> Capture(x.tokens, url, 0, strtod).None?
               case Hit(rule, args) => rule != 0 && SmallestAsked(regs, url, strtod, rule, args)
  {
    hide Best, Routes, Build, Asked, Capture;
    BuildHoldsAsked(regs);
    var n := Build(regs).value;
    HeadRoutes(n);
    BestIsSmallest(Routes(n), url, strtod);
    SameMembers(Routes(n), Asked(regs));
    RoutesNonZero(n);
  }

  lemma {:induction false} SameMembers(rs: seq<Route>, ms: multiset<Route>)
    requires multiset(rs) == ms
    ensures forall x :: x in rs <==> x in ms
  {
    assert forall x :: x in rs <==> x in multiset(rs);
  }

  lemma {:induction false} RoutesNonZero(n: Node)
    ensures forall x :: x in Routes(n) ==> x.rule != 0
    decreases n, 1
  {
    RoutesOfNonZero(n.children);
  }

  lemma {:induction false} RoutesOfNonZero(cs: seq<Node>)
    ensures forall x :: x in RoutesOf(cs) ==> x.rule != 0
    decreases cs, 0
  {
    if cs != [] {
      RoutesNonZero(cs[0]);
      RoutesOfNonZero(cs[1..]);
    }
  }
}
