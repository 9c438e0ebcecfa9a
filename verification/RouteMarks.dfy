/** Blueprint indices: which node registration marks, and that collapsing leaves every mark where it was. */
module RouteMarks {
  import opened Options
  import opened Text
  import opened RoutePattern
  import opened RouteTrie
  import opened RouteOptimize

  /** The blueprint indices of a tree, each with the tokens that lead to it. */
  function Marks(n: Node): (rs: seq<Route>)
    decreases n, 1
  {
    (if n.bp != INVALID_BP_ID then [Route([], n.bp)] else []) + MarksOf(n.children)
  }

  function MarksOf(cs: seq<Node>): (rs: seq<Route>)
    decreases cs, 0
  {
    if cs == [] then [] else Prefixed(Label(cs[0]), Marks(cs[0])) + MarksOf(cs[1..])
  }

  // ---------------------------------------------------------------- registration

  /** A node stands at the end of these tokens. */
  ghost predicate HasPath(n: Node, ts: seq<Token>)
    decreases |ts|
  {
    ts == [] || exists k :: 0 <= k < |n.children| && Label(n.children[k]) == [ts[0]] && HasPath(n.children[k], ts[1..])
  }

  /** The tokens of `url[i..]` up to the character after the prefix, if that is one the pattern spells out. */
  function Marked(url: string, i: nat, bp: BpInfo): (r: Option<seq<Token>>) {
    var p := bp.prefixLength;
    if p == 0 || bp.index == 0xffff || p < i || |url| <= p then None
    else
      match Tokens(url[..p + 1], i)
      case None => None
      case Some(ts) => if ts[|ts| - 1].Lit? then Some(ts) else None
  }

  lemma {:induction false} HereCut(url: string, i: nat, n: nat, w: string)
    requires n <= |url|
    ensures Here(url[..n], i, w) <==> Here(url, i, w) && i + |w| <= n
  {
    if i + |w| <= n {
      assert url[..n][i..i + |w|] == url[i..i + |w|];
    }
  }

  /** The letters that tell the tags apart. */
  lemma {:induction false} HereLetters(url: string, i: nat, w: string)
    requires Here(url, i, w) && |w| >= 5
    ensures i + 5 <= |url| && url[i + 1] == w[1] && url[i + 4] == w[4]
  {
    assert url[i..i + |w|][1] == w[1] && url[i..i + |w|][4] == w[4];
  }

  lemma {:induction false} TagCut(url: string, i: nat, n: nat)
    requires n <= |url| && TagAt(url, i).Some?
    ensures TagAt(url[..n], i) == if i + TagAt(url, i).value.1 <= n then TagAt(url, i) else None
  {
    hide Here;
    var tags := ["<int>", "<uint>", "<float>", "<double>", "<str>", "<string>", "<path>"];
    forall k | 0 <= k < |tags|
      ensures Here(url[..n], i, tags[k]) <==> Here(url, i, tags[k]) && i + |tags[k]| <= n
      ensures Here(url, i, tags[k]) ==> i + 5 <= |url| && url[i + 1] == tags[k][1] && url[i + 4] == tags[k][4]
    {
      HereCut(url, i, n, tags[k]);
      if Here(url, i, tags[k]) {
        HereLetters(url, i, tags[k]);
      }
    }
    assert tags[0] == "<int>" && tags[1] == "<uint>" && tags[2] == "<float>" && tags[3] == "<double>";
    assert tags[4] == "<str>" && tags[5] == "<string>" && tags[6] == "<path>";
  }

  /** Cutting the text leaves the token at `i` alone, or leaves none. */
  lemma {:induction false} TokenCut(url: string, i: nat, n: nat)
    requires i < n <= |url| && TokenAt(url, i).Some?
    ensures var (t, j) := TokenAt(url, i).value;
            TokenAt(url[..n], i) == if j <= n then Some((t, j)) else None
  {
    if url[i] == '<' {
      TagCut(url, i, n);
    }
  }

  lemma {:induction false} MarkedStep(url: string, i: nat, bp: BpInfo)
    requires i < |url| && Tokens(url, i).Some?
    ensures var (t, j) := TokenAt(url, i).value;
            Marked(url, i, bp) ==
            if bp.prefixLength != 0 && bp.index != 0xffff && bp.prefixLength == i && t.Lit? then Some([t])
            else match Marked(url, j, bp) case None => None case Some(ts) => Some([t] + ts)
  {
    hide TokenAt;
    var (t, j) := TokenAt(url, i).value;
    var p := bp.prefixLength;
    TokenEnd(url, i);
    if i <= p < |url| {
      var cut := url[..p + 1];
      TokenCut(url, i, p + 1);
      if p < j {
        assert j == p + 1 ==> Tokens(cut, j) == Some([]);
        assert [t] + [] == [t];
        assert Tokens(cut, i) == if j == p + 1 then Some([t]) else None;
      } else if Tokens(cut, j).Some? {
        var ts := Tokens(cut, j).value;
        assert Tokens(cut, i) == Some([t] + ts) && ts != [];
      }
    }
  }

  lemma {:induction false} TokenEnd(url: string, i: nat)
    requires i < |url| && TokenAt(url, i).Some?
    ensures var (t, j) := TokenAt(url, i).value; if t.Lit? then j == i + 1 else i + 1 < j
  {
  }

  /** The list gains one element, or nothing. */
  ghost predicate Grown(before: seq<Route>, x: Option<Route>, after: seq<Route>) {
    match x case None => after == before case Some(r) => InsertedInto(before, r, after)
  }

  function Below(l: seq<Token>, x: Option<Route>): (r: Option<Route>) {
    match x case None => None case Some(m) => Some(Route(l + m.tokens, m.rule))
  }

  lemma {:induction false} GrownAround(a: seq<Route>, rs: seq<Route>, b: seq<Route>, x: Option<Route>, qs: seq<Route>)
    requires Grown(rs, x, qs)
    ensures Grown(a + rs + b, x, a + qs + b)
  {
    if x.Some? {
      InsertedAround(a, rs, b, x.value, qs);
    }
  }

  lemma {:induction false} MarksOfReplaced(cs: seq<Node>, k: nat, c: Node, x: Option<Route>)
    requires k < |cs| && Label(c) == Label(cs[k]) && Grown(Marks(cs[k]), x, Marks(c))
    ensures Grown(MarksOf(cs), Below(Label(c), x), MarksOf(cs[k := c]))
  {
    hide Grown, Marks, Label, Prefixed;
    var ds := cs[k := c];
    var head, tail := Prefixed(Label(cs[0]), Marks(cs[0])), MarksOf(cs[1..]);
    assert MarksOf(cs) == [] + head + tail == head + tail + [];
    if k == 0 {
      GrownPrefixed(Label(c), Marks(cs[0]), x, Marks(c));
      GrownAround([], head, tail, Below(Label(c), x), Prefixed(Label(c), Marks(c)));
      assert MarksOf(ds) == [] + Prefixed(Label(c), Marks(c)) + tail;
    } else {
      MarksOfReplaced(cs[1..], k - 1, c, x);
      assert ds[1..] == cs[1..][k - 1 := c];
      GrownAround(head, tail, [], Below(Label(c), x), MarksOf(ds[1..]));
      assert MarksOf(ds) == head + MarksOf(ds[1..]) + [];
    }
  }

  lemma {:induction false} GrownPrefixed(l: seq<Token>, rs: seq<Route>, x: Option<Route>, qs: seq<Route>)
    requires Grown(rs, x, qs)
    ensures Grown(Prefixed(l, rs), Below(l, x), Prefixed(l, qs))
  {
    if x.Some? {
      InsertedPrefixed(l, rs, x.value, qs);
    }
  }

  lemma {:induction false} MarksOfAppended(cs: seq<Node>, c: Node)
    ensures MarksOf(cs + [c]) == MarksOf(cs) + Prefixed(Label(c), Marks(c))
  {
    if cs == [] {
      assert cs + [c] == [c] && [c][1..] == [];
    } else {
      assert (cs + [c])[0] == cs[0] && (cs + [c])[1..] == cs[1..] + [c];
      MarksOfAppended(cs[1..], c);
    }
  }

  /** What a registration marks: the place one character past the prefix, if the tree did not reach it yet. */
  ghost function NewMark(n: Node, url: string, i: nat, bp: BpInfo): (x: Option<Route>) {
    match Marked(url, i, bp)
    case None => None
    case Some(ts) => if HasPath(n, ts) then None else Some(Route(ts, bp.index))
  }

  /** With one token per edge and no two siblings alike, the first token decides the child. */
  lemma {:induction false} PathBelow(n: Node, k: nat, t: Token, ts: seq<Token>)
    requires OneTokenEdges(n) && k < |n.children| && Label(n.children[k]) == [t]
    ensures HasPath(n, [t] + ts) <==> HasPath(n.children[k], ts)
  {
    hide OneToken, Label;
    assert ([t] + ts)[1..] == ts;
  }

  lemma {:induction false} NoPathBelow(n: Node, t: Token, ts: seq<Token>)
    requires forall k :: 0 <= k < |n.children| ==> Label(n.children[k]) != [t]
    ensures !HasPath(n, [t] + ts)
  {
  }

  /** Along an existing edge nothing is marked at its end, and below it what is marked below its node. */
  lemma {:induction false} NewMarkInChild(n: Node, k: nat, url: string, i: nat, bp: BpInfo)
    requires i < |url| && Tokens(url, i).Some?
    requires OneTokenEdges(n) && k < |n.children| && Label(n.children[k]) == [TokenAt(url, i).value.0]
    ensures var (t, j) := TokenAt(url, i).value;
            NewMark(n, url, i, bp) == Below([t], NewMark(n.children[k], url, j, bp))
  {
    hide Marked, TokenAt, OneToken, Label;
    var (t, j) := TokenAt(url, i).value;
    MarkedStep(url, i, bp);
    TokenEnd(url, i);
    if bp.prefixLength == i && t.Lit? {
      assert Marked(url, j, bp) == None by { MarkedFrom(url, j, bp); }
      assert [t] + [] == [t];
      PathBelow(n, k, t, []);
    } else if Marked(url, j, bp).Some? {
      PathBelow(n, k, t, Marked(url, j, bp).value);
    }
  }

  lemma {:induction false} MarkedFrom(url: string, i: nat, bp: BpInfo)
    ensures Marked(url, i, bp).Some? ==> bp.prefixLength >= i && Marked(url, i, bp).value != []
  {
  }

  /** A new edge is marked at its end, or below it. */
  lemma {:induction false} NewMarkInNew(n: Node, url: string, i: nat, bp: BpInfo)
    requires i < |url| && Tokens(url, i).Some?
    requires forall k :: 0 <= k < |n.children| ==> Label(n.children[k]) != [TokenAt(url, i).value.0]
    ensures var (t, j) := TokenAt(url, i).value;
            var x := NewNode(t, i, bp);
            || (Marks(x) == [] && NewMark(n, url, i, bp) == Below([t], NewMark(x, url, j, bp)))
            || (Marks(x) == [Route([], bp.index)] && NewMark(x, url, j, bp) == None && NewMark(n, url, i, bp) == Some(Route([t], bp.index)))
  {
    hide Marked, TokenAt, Label;
    var (t, j) := TokenAt(url, i).value;
    var x := NewNode(t, i, bp);
    MarkedStep(url, i, bp);
    TokenEnd(url, i);
    MarkedFrom(url, j, bp);
    assert x.children == [] && MarksOf([]) == [];
    if Marked(url, j, bp).Some? {
      var ts := Marked(url, j, bp).value;
      assert !HasPath(x, ts);
      NoPathBelow(n, t, ts);
    }
    if Marked(url, i, bp) == Some([t]) {
      assert [t] + [] == [t];
      NoPathBelow(n, t, []);
    }
  }

  lemma {:induction false} GrownByNew(before: seq<Route>, l: seq<Token>, was: seq<Route>, x: Option<Route>, now: seq<Route>, y: Option<Route>)
    requires Grown(was, x, now)
    requires (was == [] && y == Below(l, x)) || (exists r :: was == [Route([], r)] && x == None && y == Some(Route(l, r)))
    ensures Grown(before, y, before + Prefixed(l, now))
  {
    assert before + [] == before && before[..|before|] == before && before[|before|..] == [];
    var m := Prefixed(l, now);
    if y.Some? {
      assert l + [] == l;
      assert now == if was == [] then [x.value] else was;
      assert m == [y.value];
      assert before + m == before[..|before|] + [y.value] + before[|before|..];
    }
  }

  lemma {:induction false} GrownInParent(n: Node, k: nat, c: Node, x: Option<Route>)
    requires k < |n.children| && Label(c) == Label(n.children[k]) && Grown(Marks(n.children[k]), x, Marks(c))
    ensures Grown(Marks(n), Below(Label(c), x), Marks(n.(children := n.children[k := c])))
  {
    hide Grown, MarksOf, Label;
    var own: seq<Route> := if n.bp != INVALID_BP_ID then [Route([], n.bp)] else [];
    var was, now := MarksOf(n.children), MarksOf(n.children[k := c]);
    MarksOfReplaced(n.children, k, c, x);
    GrownAround(own, was, [], Below(Label(c), x), now);
    assert own + was + [] == own + was && own + now + [] == own + now;
  }

  lemma {:induction false} MarksWithNew(n: Node, c: Node)
    ensures Marks(n.(children := n.children + [c])) == Marks(n) + Prefixed(Label(c), Marks(c))
  {
    hide MarksOf, Label, Prefixed;
    var own: seq<Route> := if n.bp != INVALID_BP_ID then [Route([], n.bp)] else [];
    MarksOfAppended(n.children, c);
    assert own + (MarksOf(n.children) + Prefixed(Label(c), Marks(c))) == own + MarksOf(n.children) + Prefixed(Label(c), Marks(c));
  }

  /** Registration marks exactly that place, with the blueprint's index, and moves no other mark. */
  lemma {:induction false} AddedMarks(n: Node, url: string, i: nat, rule: nat, bp: BpInfo)
    requires i <= |url| && Tokens(url, i).Some?
    requires OneTokenEdges(n)
    requires AddFrom(n, url, i, rule, bp).Some?
    ensures var m := AddFrom(n, url, i, rule, bp).value;
            Label(m) == Label(n) && Grown(Marks(n), NewMark(n, url, i, bp), Marks(m))
    decreases |url| - i
  {
    hide NewMark, TokenAt, ChildFor, OneToken, OneTokenEdges, Grown, NewNode, MarksOf, Marks, Prefixed;
    if i == |url| {
      MarkedAtEnd(n, url, rule, bp);
    } else {
      var (t, j) := TokenAt(url, i).value;
      var k := ChildFor(n.children, t);
      MarkChild(n, url, i);
      if k < |n.children| {
        AddedMarks(n.children[k], url, j, rule, bp);
        NewMarkInChild(n, k, url, i, bp);
        GrownInParent(n, k, AddFrom(n.children[k], url, j, rule, bp).value, NewMark(n.children[k], url, j, bp));
      } else {
        var leaf := NewNode(t, i, bp);
        var c := AddFrom(leaf, url, j, rule, bp).value;
        AddedMarks(leaf, url, j, rule, bp);
        NewMarkInNew(n, url, i, bp);
        MarksWithNew(n, c);
        GrownByNew(Marks(n), [t], Marks(leaf), NewMark(leaf, url, j, bp), Marks(c), NewMark(n, url, i, bp));
      }
    }
  }

  lemma {:induction false} MarkedAtEnd(n: Node, url: string, rule: nat, bp: BpInfo)
    ensures Label(n.(rule := rule)) == Label(n) && Grown(Marks(n), NewMark(n, url, |url|, bp), Marks(n.(rule := rule)))
  {
  }

  /** The child a registration follows, in the shape registration relies on. */
  lemma {:induction false} MarkChild(n: Node, url: string, i: nat)
    requires i < |url| && Tokens(url, i).Some? && OneTokenEdges(n)
    ensures var (t, j) := TokenAt(url, i).value;
            var k := ChildFor(n.children, t);
            && Tokens(url, j).Some?
            && (if k < |n.children| then Label(n.children[k]) == [t] && OneTokenEdges(n.children[k])
                else forall k :: 0 <= k < |n.children| ==> Label(n.children[k]) != [t])
            && forall bp :: Label(NewNode(t, i, bp)) == [t] && OneTokenEdges(NewNode(t, i, bp))
  {
    hide TokenAt, ChildFor, Label, OneToken;
    ChildForLabel(n.children, TokenAt(url, i).value.0);
  }

  // ---------------------------------------------------------------- collapsing

  lemma {:induction false} MergedMarks(n: Node)
    requires IsSimpleNode(n) && n.children != []
    ensures Prefixed(Label(Merged(n)), Marks(Merged(n))) == Prefixed(Label(n), Marks(n))
  {
    var c := n.children[0];
    assert n.children == [c] && [c][1..] == [];
    var below := Prefixed(Label(c), Marks(c));
    assert MarksOf([c]) == below + [] == below;
    assert Marks(n) == below;
    PrefixedTwice(Lits(n.key), Lits(c.key), Marks(c));
    assert Lits(n.key) + Lits(c.key) == Lits(n.key + c.key);
    assert Marks(Merged(n)) == Marks(c);
  }

  /** Collapsing leaves every blueprint index where it was. */
  lemma {:induction false} OptimizedMarks(n: Node)
    ensures Prefixed(Label(Optimized(n)), Marks(Optimized(n))) == Prefixed(Label(n), Marks(n))
    decreases Size(n), 0
  {
    if n.children == [] {
    } else if IsSimpleNode(n) {
      MergedMarks(n);
      OptimizedMarks(Merged(n));
    } else {
      OptimizedAllMarks(n.children);
    }
  }

  lemma {:induction false} OptimizedAllMarks(cs: seq<Node>)
    ensures MarksOf(OptimizedAll(cs)) == MarksOf(cs)
    decreases SizeOf(cs), 1
  {
    if cs != [] {
      OptimizedMarks(cs[0]);
      OptimizedAllMarks(cs[1..]);
      assert OptimizedAll(cs)[1..] == OptimizedAll(cs[1..]);
    }
  }
}
