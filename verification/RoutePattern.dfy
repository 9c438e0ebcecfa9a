/**
  Route patterns and their meaning.

  A pattern text such as "/file/<int>/<path>" is a list of tokens. Each token
  consumes a determined stretch of the url, so a pattern either fails on a url
  or matches it in exactly one way, capturing one argument per parameter.
 */
module RoutePattern {
  import opened Options
  import opened Limits
  import opened Text
  import opened Decimal

  datatype ParamType = INT | UINT | DOUBLE | STRING | PATH

  datatype Token = Lit(c: char) | Param(t: ParamType)

  /** An argument captured from a url. A double is kept as the text handed to `strtod`. */
  datatype Arg = IntArg(i: int) | UintArg(u: nat) | DoubleArg(text: string) | StrArg(s: string)

  /** How many characters `strtod` converts at the front of a text; 0 for no conversion or a range error. */
  type Strtod = f: string -> nat | forall s :: f(s) <= |s| witness (s => 0)

  // ---------------------------------------------------------------- pattern text

  /** The parameter tag that starts at `i`, with the length of its text. */
  function TagAt(url: string, i: nat): (r: Option<(ParamType, nat)>)
    ensures r.Some? ==> 0 < r.value.1 && i + r.value.1 <= |url|
  {
    if Here(url, i, "<int>") then Some((INT, 5))
    else if Here(url, i, "<uint>") then Some((UINT, 6))
    else if Here(url, i, "<float>") then Some((DOUBLE, 7))
    else if Here(url, i, "<double>") then Some((DOUBLE, 8))
    else if Here(url, i, "<str>") then Some((STRING, 5))
    else if Here(url, i, "<string>") then Some((STRING, 8))
    else if Here(url, i, "<path>") then Some((PATH, 6))
    else None
  }

  /**
    The token at position `i` and the position after it. There is no value when
    a '<' does not open a known tag (registration then never returns) or for a
    NUL, which the trie uses as the key of a parameter.
   */
  function TokenAt(url: string, i: nat): (r: Option<(Token, nat)>)
    requires i < |url|
    ensures r.Some? ==> i < r.value.1 <= |url|
    ensures r.Some? && r.value.0.Lit? ==> r.value.0.c != '\0'
  {
    if url[i] == '<' then
      match TagAt(url, i)
      case None => None
      case Some((t, n)) => Some((Param(t), i + n))
    else if url[i] == '\0' then None
    else Some((Lit(url[i]), i + 1))
  }

  /** The tokens of a pattern text from position `i` on. */
  function Tokens(url: string, i: nat): (r: Option<seq<Token>>)
    requires i <= |url|
    decreases |url| - i
  {
    if i == |url| then Some([])
    else
      match TokenAt(url, i)
      case None => None
      case Some((t, j)) =>
        match Tokens(url, j)
        case None => None
        case Some(rest) => Some([t] + rest)
  }

  // ---------------------------------------------------------------- scanning a url

  /** The guard character test and `strtoll`: end of the number and its value. */
  function ScanInt(url: string, pos: nat): (r: Option<(nat, int)>)
    requires pos < |url|
    ensures r.Some? ==> pos < r.value.0 <= |url| && INT64_MIN <= r.value.1 <= INT64_MAX
  {
    var start := if url[pos] == '+' || url[pos] == '-' then pos + 1 else pos;
    var end := RunEnd(url, start);
    if end == start then None
    else
      var n: int := Value(url[start..end]);
      var v: int := if url[pos] == '-' then -n else n;
      if INT64_MIN <= v <= INT64_MAX then Some((end, v)) else None
  }

  /** The guard character test and `strtoull`. */
  function ScanUint(url: string, pos: nat): (r: Option<(nat, nat)>)
    requires pos < |url|
    ensures r.Some? ==> pos < r.value.0 <= |url| && r.value.1 <= UINT64_MAX
  {
    var start := if url[pos] == '+' then pos + 1 else pos;
    var end := RunEnd(url, start);
    if end == start then None
    else
      var n := Value(url[start..end]);
      if n <= UINT64_MAX then Some((end, n)) else None
  }

  /** The guard character test and `strtod`. */
  function ScanDouble(url: string, pos: nat, strtod: Strtod): (r: Option<nat>)
    requires pos < |url|
    ensures r.Some? ==> pos < r.value <= |url|
  {
    var c := url[pos];
    if IsDigit(c) || c == '+' || c == '-' || c == '.' then
      var n := strtod(url[pos..]);
      if n == 0 then None else Some(pos + n)
    else None
  }

  function SlashFrom(url: string, pos: nat): (e: nat)
    requires pos <= |url|
    ensures pos <= e <= |url|
    ensures forall k :: pos <= k < e ==> url[k] != '/'
    ensures e < |url| ==> url[e] == '/'
    decreases |url| - pos
  {
    if pos < |url| && url[pos] != '/' then SlashFrom(url, pos + 1) else pos
  }

  // ---------------------------------------------------------------- meaning of a pattern

  /** What one token takes from the url at `pos`: the position after it and what it captures. */
  function Eat(t: Token, url: string, pos: nat, strtod: Strtod): (r: Option<(nat, seq<Arg>)>)
    requires pos <= |url|
    ensures r.Some? ==> pos < r.value.0 <= |url|
  {
    if pos == |url| then None
    else
      match t
      case Lit(c) => if url[pos] == c then Some((pos + 1, [])) else None
      case Param(INT) =>
        (match ScanInt(url, pos) case None => None case Some((e, v)) => Some((e, [IntArg(v)])))
      case Param(UINT) =>
        (match ScanUint(url, pos) case None => None case Some((e, v)) => Some((e, [UintArg(v)])))
      case Param(DOUBLE) =>
        (match ScanDouble(url, pos, strtod) case None => None case Some(e) => Some((e, [DoubleArg(url[pos..e])])))
      case Param(STRING) =>
        var e := SlashFrom(url, pos);
        if e == pos then None else Some((e, [StrArg(url[pos..e])]))
      case Param(PATH) => Some((|url|, [StrArg(url[pos..])]))
  }

  /** What a list of tokens takes. */
  function EatAll(ts: seq<Token>, url: string, pos: nat, strtod: Strtod): (r: Option<(nat, seq<Arg>)>)
    requires pos <= |url|
    ensures r.Some? ==> pos <= r.value.0 <= |url|
    ensures r.Some? && ts != [] ==> pos < r.value.0
  {
    if ts == [] then Some((pos, []))
    else
      match Eat(ts[0], url, pos, strtod)
      case None => None
      case Some((p, a)) =>
        match EatAll(ts[1..], url, p, strtod)
        case None => None
        case Some((q, b)) => Some((q, a + b))
  }

  /** The arguments a pattern captures from the whole of `url[pos..]`, if it matches. */
  function Capture(ts: seq<Token>, url: string, pos: nat, strtod: Strtod): (r: Option<seq<Arg>>)
    requires pos <= |url|
  {
    match EatAll(ts, url, pos, strtod)
    case None => None
    case Some((p, a)) => if p == |url| then Some(a) else None
  }

  lemma {:induction false} EatAllConcat(xs: seq<Token>, ys: seq<Token>, url: string, pos: nat, strtod: Strtod)
    requires pos <= |url|
    ensures EatAll(xs + ys, url, pos, strtod) ==
            match EatAll(xs, url, pos, strtod)
            case None => None
            case Some((p, a)) =>
              match EatAll(ys, url, p, strtod)
              case None => None
              case Some((q, b)) => Some((q, a + b))
  {
    if xs == [] {
      assert xs + ys == ys;
      var r := EatAll(ys, url, pos, strtod);
      assert r.Some? ==> [] + r.value.1 == r.value.1;
    } else {
      assert (xs + ys)[0] == xs[0] && (xs + ys)[1..] == xs[1..] + ys;
      match Eat(xs[0], url, pos, strtod)
      case None =>
      case Some((p, a)) =>
        EatAllConcat(xs[1..], ys, url, p, strtod);
        match EatAll(xs[1..], url, p, strtod)
        case None =>
        case Some((q, b)) =>
          var r := EatAll(ys, url, q, strtod);
          assert r.Some? ==> a + (b + r.value.1) == (a + b) + r.value.1;
    }
  }

  /** A literal text as tokens. */
  function Lits(s: string): (ts: seq<Token>)
    ensures |ts| == |s| && forall k :: 0 <= k < |s| ==> ts[k] == Lit(s[k])
  {
    seq(|s|, k requires 0 <= k < |s| => Lit(s[k]))
  }

  lemma {:induction false} HereStep(url: string, pos: nat, key: string)
    requires key != ""
    ensures Here(url, pos, key) <==> pos < |url| && url[pos] == key[0] && Here(url, pos + 1, key[1..])
  {
    assert key == [key[0]] + key[1..];
    if pos + |key| <= |url| {
      assert url[pos..pos + |key|] == [url[pos]] + url[pos + 1..pos + |key|];
    }
  }

  lemma {:induction false} EatLit(c: char, url: string, pos: nat, strtod: Strtod)
    requires pos <= |url|
    ensures Eat(Lit(c), url, pos, strtod) == if pos < |url| && url[pos] == c then Some((pos + 1, [])) else None
  {
  }

  /** A run of literals is the substring comparison made by the search. */
  lemma {:induction false} EatLits(key: string, url: string, pos: nat, strtod: Strtod)
    requires pos <= |url|
    ensures EatAll(Lits(key), url, pos, strtod) ==
            if Here(url, pos, key) then Some((pos + |key|, [])) else None
  {
    if key != "" {
      hide Eat, Here;
      assert Lits(key)[0] == Lit(key[0]) && Lits(key)[1..] == Lits(key[1..]);
      EatLit(key[0], url, pos, strtod);
      HereStep(url, pos, key);
      if pos < |url| && url[pos] == key[0] {
        EatLits(key[1..], url, pos + 1, strtod);
      }
    }
  }
}
