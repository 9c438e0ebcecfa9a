/**
  Parameter tags and typed dispatch: the base-6 number computed from a pattern
  text, the list of C++ types decoded from it, and the handler call that takes
  each argument from the list of its type.
 */
module RouteTags {
  import opened Options
  import opened Limits
  import opened Text
  import opened RoutePattern
  import opened RouteFind

  /** The handler argument types: int64_t, uint64_t, double, std::string. */
  datatype CppType = I64 | U64 | F64 | Str

  // ---------------------------------------------------------------- the tag of a pattern text

  function Code(t: ParamType): (d: nat)
    ensures 1 <= d <= 5
  {
    match t
    case INT => 1
    case UINT => 2
    case DOUBLE => 3
    case STRING => 4
    case PATH => 5
  }

  /** The position of the '>' that closes a tag; no value stands for the out-of-range exception. */
  function ClosingTag(s: string, p: nat): (r: Option<nat>)
    decreases |s| - p
  {
    if p >= |s| then None else if s[p] == '>' then Some(p) else ClosingTag(s, p + 1)
  }

  /** The tag computed on the pattern text in 64-bit arithmetic; no value stands for an exception. */
  function ParameterTag(s: string, p: nat): (r: Option<nat>)
    decreases |s| - p
  {
    if p >= |s| then Some(0)
    else if s[p] == '<' then
      match TagAt(s, p)
      case None => None
      case Some((t, _)) =>
        (match ClosingTag(s, p)
         case None => None
         case Some(q) =>
           if q <= p then None
           else
             match ParameterTag(s, q)
             case None => None
             case Some(rest) => Some((rest * 6 + Code(t)) % (UINT64_MAX + 1)))
    else ParameterTag(s, p + 1)
  }

  function ParamTypes(ts: seq<Token>): (ps: seq<ParamType>) {
    if ts == [] then []
    else (match ts[0] case Param(t) => [t] case Lit(_) => []) + ParamTypes(ts[1..])
  }

  /** The exact base-6 number of a list of types, the first type in the lowest digit. */
  function TagOf(ps: seq<ParamType>): (n: nat) {
    if ps == [] then 0 else TagOf(ps[1..]) * 6 + Code(ps[0])
  }

  function Pow6(k: nat): (n: nat) { if k == 0 then 1 else 6 * Pow6(k - 1) }

  lemma {:induction false} TagBound(ps: seq<ParamType>)
    ensures TagOf(ps) < Pow6(|ps|)
  {
    if ps != [] {
      TagBound(ps[1..]);
    }
  }

  lemma {:induction false} Pow6Monotone(j: nat, k: nat)
    requires j <= k
    ensures Pow6(j) <= Pow6(k)
  {
    if j < k {
      Pow6Monotone(j, k - 1);
    }
  }

  lemma {:induction false} Pow6At24()
    ensures Pow6(24) < UINT64_MAX
  {
    assert Pow6(8) == 1679616;
    assert Pow6(16) == 2821109907456;
    assert Pow6(24) == 4738381338321616896;
  }

  /** With at most 24 parameters the tag fits in 64 bits. */
  lemma {:induction false} TagFits(ps: seq<ParamType>)
    requires |ps| <= 24
    ensures TagOf(ps) <= UINT64_MAX
  {
    TagBound(ps);
    Pow6Monotone(|ps|, 24);
    Pow6At24();
  }

  lemma {:induction false} ClosingTagAt(s: string, p: nat, q: nat)
    requires p <= q < |s| && s[q] == '>'
    requires forall k :: p <= k < q ==> s[k] != '>'
    ensures ClosingTag(s, p) == Some(q)
    decreases q - p
  {
    if p < q {
      ClosingTagAt(s, p + 1, q);
    }
  }

  /** A text that starts with a tag name reaches its '>' at the end of the name. */
  lemma {:induction false} NameCloses(s: string, p: nat, w: string)
    requires Here(s, p, w) && w != "" && w[|w| - 1] == '>'
    requires forall k :: 0 <= k < |w| - 1 ==> w[k] != '>'
    ensures ClosingTag(s, p) == Some(p + |w| - 1)
  {
    forall k | p <= k < p + |w| ensures s[k] == w[k - p] {
      assert s[p..p + |w|][k - p] == w[k - p];
    }
    ClosingTagAt(s, p, p + |w| - 1);
  }

  /** The text of the tag found at a position. */
  function TagName(s: string, p: nat): (w: string) {
    if Here(s, p, "<int>") then "<int>"
    else if Here(s, p, "<uint>") then "<uint>"
    else if Here(s, p, "<float>") then "<float>"
    else if Here(s, p, "<double>") then "<double>"
    else if Here(s, p, "<str>") then "<str>"
    else if Here(s, p, "<string>") then "<string>"
    else "<path>"
  }

  lemma {:induction false} TagNameFound(s: string, p: nat)
    requires TagAt(s, p).Some?
    ensures Here(s, p, TagName(s, p)) && |TagName(s, p)| == TagAt(s, p).value.1
  {
    hide Here;
  }

  lemma {:induction false} TagNameCloses(s: string, p: nat)
    ensures var w := TagName(s, p);
            |w| >= 2 && w[|w| - 1] == '>' && forall k :: 0 <= k < |w| - 1 ==> w[k] != '>'
  {
    hide Here;
  }

  lemma {:induction false} TagCloses(s: string, p: nat)
    requires TagAt(s, p).Some?
    ensures ClosingTag(s, p) == Some(p + TagAt(s, p).value.1 - 1)
    ensures 2 <= TagAt(s, p).value.1 && s[p + TagAt(s, p).value.1 - 1] == '>'
  {
    hide TagAt, TagName, ClosingTag;
    var w := TagName(s, p);
    TagNameFound(s, p);
    TagNameCloses(s, p);
    NameCloses(s, p, w);
    assert s[p..p + |w|][|w| - 1] == w[|w| - 1];
  }

  /** One tag of the text is one digit. */
  lemma {:induction false} ParameterTagStep(s: string, p: nat)
    requires p < |s| && s[p] == '<' && TagAt(s, p).Some?
    ensures var (t, n) := TagAt(s, p).value;
            ParameterTag(s, p) ==
            match ParameterTag(s, p + n)
            case None => None
            case Some(rest) => Some((rest * 6 + Code(t)) % (UINT64_MAX + 1))
  {
    hide TagAt, ClosingTag, Code;
    TagCloses(s, p);
    var (t, n) := TagAt(s, p).value;
    assert ParameterTag(s, p + n - 1) == ParameterTag(s, p + n);
  }

  lemma {:induction false} ModuloMultiple(k: nat, x: nat)
    ensures (k * (UINT64_MAX + 1) + x) % (UINT64_MAX + 1) == x % (UINT64_MAX + 1)
  {
    var m := UINT64_MAX + 1;
    assert k * m + x == (k + x / m) * m + x % m;
  }

  /** Adding a digit to a number cut to 64 bits is adding it and cutting then. */
  lemma {:induction false} DigitModulo(n: nat, d: nat)
    ensures (n % (UINT64_MAX + 1) * 6 + d) % (UINT64_MAX + 1) == (n * 6 + d) % (UINT64_MAX + 1)
  {
    var m := UINT64_MAX + 1;
    assert n * 6 + d == 6 * (n / m) * m + (n % m * 6 + d);
    ModuloMultiple(6 * (n / m), n % m * 6 + d);
  }

  /** A parameter in front is one more digit; a character is none. */
  lemma {:induction false} TagOfFront(t: Token, ts: seq<Token>)
    ensures TagOf(ParamTypes([t] + ts)) ==
            if t.Lit? then TagOf(ParamTypes(ts)) else TagOf(ParamTypes(ts)) * 6 + Code(t.t)
  {
    hide Code;
    assert ([t] + ts)[1..] == ts;
    if t.Param? {
      var ps := [t.t] + ParamTypes(ts);
      assert ParamTypes([t] + ts) == ps && ps[0] == t.t && ps[1..] == ParamTypes(ts);
    } else {
      assert ParamTypes([t] + ts) == [] + ParamTypes(ts) == ParamTypes(ts);
    }
  }

  /** The text-level computation yields the number of the pattern's parameter types, cut to 64 bits. */
  lemma {:induction false} ParameterTagOf(s: string, p: nat)
    requires p <= |s| && Tokens(s, p).Some?
    ensures ParameterTag(s, p) == Some(TagOf(ParamTypes(Tokens(s, p).value)) % (UINT64_MAX + 1))
    decreases |s| - p
  {
    hide TagAt, ClosingTag, Code, TagOf, ParamTypes;
    if p == |s| {
      assert TagOf(ParamTypes([])) == 0 by { NoTag(); }
    } else {
      var (t, j) := TokenAt(s, p).value;
      var rest := Tokens(s, j).value;
      ParameterTagOf(s, j);
      TagOfFront(t, rest);
      if s[p] == '<' {
        ParameterTagStep(s, p);
        DigitModulo(TagOf(ParamTypes(rest)), Code(t.t));
      }
    }
  }

  lemma {:induction false} NoTag()
    ensures TagOf(ParamTypes([])) == 0
  {
  }

  /** So it is exact if and only if that number fits, as it does for up to 24 parameters. */
  lemma {:induction false} ParameterTagExact(s: string, p: nat)
    requires p <= |s| && Tokens(s, p).Some?
    ensures var ps := ParamTypes(Tokens(s, p).value);
            && (ParameterTag(s, p) == Some(TagOf(ps)) <==> TagOf(ps) <= UINT64_MAX)
            && (|ps| <= 24 ==> TagOf(ps) <= UINT64_MAX)
  {
    hide TagOf, ParamTypes, Tokens, ParameterTag;
    var ps := ParamTypes(Tokens(s, p).value);
    ParameterTagOf(s, p);
    SmallModulo(TagOf(ps));
    if |ps| <= 24 {
      TagFits(ps);
    }
  }

  lemma {:induction false} SmallModulo(n: nat)
    ensures n % (UINT64_MAX + 1) == n <==> n <= UINT64_MAX
  {
  }

  // ---------------------------------------------------------------- decoding

  function TypeOfCode(d: nat): (t: CppType) {
    if d == 1 then I64 else if d == 2 then U64 else if d == 3 then F64 else Str
  }

  /** The argument type list: the lowest digit first. */
  function Arguments(tag: nat): (ts: seq<CppType>) {
    if tag == 0 then [] else [TypeOfCode(tag % 6)] + Arguments(tag / 6)
  }

  function TypeOf(t: ParamType): (c: CppType) {
    match t
    case INT => I64
    case UINT => U64
    case DOUBLE => F64
    case STRING => Str
    case PATH => Str
  }

  function TypesOf(ps: seq<ParamType>): (cs: seq<CppType>) {
    if ps == [] then [] else [TypeOf(ps[0])] + TypesOf(ps[1..])
  }

  /** The types decoded from a tag are the types of the pattern's parameters, in order. */
  lemma {:induction false} ArgumentsOfTag(ps: seq<ParamType>)
    ensures Arguments(TagOf(ps)) == TypesOf(ps)
  {
    hide Code, TypeOf, TypeOfCode;
    if ps != [] {
      ArgumentsOfTag(ps[1..]);
      LowDigit(TagOf(ps[1..]), Code(ps[0]));
      CodeDecodes(ps[0]);
    }
  }

  lemma {:induction false} LowDigit(n: nat, d: nat)
    requires d < 6
    ensures (n * 6 + d) % 6 == d && (n * 6 + d) / 6 == n
  {
  }

  lemma {:induction false} CodeDecodes(t: ParamType)
    ensures TypeOfCode(Code(t)) == TypeOf(t)
  {
  }

  // ---------------------------------------------------------------- dispatch

  /** Where the next argument of each type is taken from. */
  datatype Cursor = Cursor(ints: nat, uints: nat, doubles: nat, strings: nat)

  function Fetch(t: CppType, c: Cursor, p: Params): (r: Option<Arg>) {
    match t
    case I64 => if c.ints < |p.ints| then Some(IntArg(p.ints[c.ints])) else None
    case U64 => if c.uints < |p.uints| then Some(UintArg(p.uints[c.uints])) else None
    case F64 => if c.doubles < |p.doubles| then Some(DoubleArg(p.doubles[c.doubles])) else None
    case Str => if c.strings < |p.strings| then Some(StrArg(p.strings[c.strings])) else None
  }

  function Advance(t: CppType, c: Cursor): (d: Cursor) {
    match t
    case I64 => c.(ints := c.ints + 1)
    case U64 => c.(uints := c.uints + 1)
    case F64 => c.(doubles := c.doubles + 1)
    case Str => c.(strings := c.strings + 1)
  }

  /** The arguments a handler is called with; no value stands for an index out of range. */
  function Call(ts: seq<CppType>, c: Cursor, p: Params): (r: Option<seq<Arg>>) {
    if ts == [] then Some([])
    else
      match Fetch(ts[0], c, p)
      case None => None
      case Some(a) =>
        match Call(ts[1..], Advance(ts[0], c), p)
        case None => None
        case Some(rest) => Some([a] + rest)
  }

  function KindOf(a: Arg): (t: CppType) {
    match a
    case IntArg(_) => I64
    case UintArg(_) => U64
    case DoubleArg(_) => F64
    case StrArg(_) => Str
  }

  function KindsOf(args: seq<Arg>): (ts: seq<CppType>) {
    if args == [] then [] else [KindOf(args[0])] + KindsOf(args[1..])
  }

  function Counts(p: Params): (c: Cursor) {
    Cursor(|p.ints|, |p.uints|, |p.doubles|, |p.strings|)
  }

  /** Each list of `q` starts with the one of `p`. */
  predicate Extends(p: Params, q: Params) {
    p.ints <= q.ints && p.uints <= q.uints && p.doubles <= q.doubles && p.strings <= q.strings
  }

  lemma {:induction false} PushAllExtends(p: Params, args: seq<Arg>)
    ensures Extends(p, PushAll(p, args))
    decreases |args|
  {
    if args != [] {
      PushAllExtends(Push(p, args[0]), args[1..]);
    }
  }

  /** Pushing arguments on the per-type lists and fetching them back by type restores their order. */
  lemma {:induction false} CallRestores(args: seq<Arg>, base: Params)
    ensures Call(KindsOf(args), Counts(base), PushAll(base, args)) == Some(args)
    decreases |args|
  {
    if args != [] {
      var next := Push(base, args[0]);
      var all := PushAll(next, args[1..]);
      CallRestores(args[1..], next);
      PushAllExtends(next, args[1..]);
      FetchPushed(args[0], base, all);
      assert [args[0]] + args[1..] == args;
    }
  }

  lemma {:induction false} FetchPushed(a: Arg, base: Params, all: Params)
    requires Extends(Push(base, a), all)
    ensures Fetch(KindOf(a), Counts(base), all) == Some(a)
    ensures Advance(KindOf(a), Counts(base)) == Counts(Push(base, a))
  {
  }

  /** What a call yields has the types asked for. */
  lemma {:induction false} CallKinds(ts: seq<CppType>, c: Cursor, p: Params)
    requires Call(ts, c, p).Some?
    ensures KindsOf(Call(ts, c, p).value) == ts
    decreases |ts|
  {
    if ts != [] {
      CallKinds(ts[1..], Advance(ts[0], c), p);
      var rest := Call(ts[1..], Advance(ts[0], c), p).value;
      var a := Fetch(ts[0], c, p).value;
      assert ([a] + rest)[0] == a && ([a] + rest)[1..] == rest;
      assert [ts[0]] + ts[1..] == ts;
    }
  }

  /** A handler gets the captured arguments if and only if it asks for their types in their order. */
  lemma {:induction false} CallIffKinds(ts: seq<CppType>, args: seq<Arg>)
    ensures Call(ts, Cursor(0, 0, 0, 0), PushAll(NO_PARAMS, args)) == Some(args) <==> ts == KindsOf(args)
  {
    hide Call, KindsOf, PushAll;
    CallRestores(args, NO_PARAMS);
    if Call(ts, Cursor(0, 0, 0, 0), PushAll(NO_PARAMS, args)) == Some(args) {
      CallKinds(ts, Cursor(0, 0, 0, 0), PushAll(NO_PARAMS, args));
    }
  }

  /** A pattern captures exactly the types it declares. */
  lemma {:induction false} CapturedKinds(ts: seq<Token>, url: string, pos: nat, strtod: Strtod)
    requires pos <= |url| && EatAll(ts, url, pos, strtod).Some?
    ensures KindsOf(EatAll(ts, url, pos, strtod).value.1) == TypesOf(ParamTypes(ts))
  {
    if ts != [] {
      var (p, a) := Eat(ts[0], url, pos, strtod).value;
      CapturedKinds(ts[1..], url, p, strtod);
      var b := EatAll(ts[1..], url, p, strtod).value.1;
      match ts[0]
      case Lit(_) =>
        assert a + b == b;
        assert ParamTypes(ts) == ParamTypes(ts[1..]);
      case Param(t) =>
        EatCapturesOne(t, url, pos, strtod);
        EatKind(t, url, pos, strtod);
        assert (a + b)[0] == a[0] && (a + b)[1..] == b;
        assert ParamTypes(ts)[0] == t && ParamTypes(ts)[1..] == ParamTypes(ts[1..]);
    }
  }

  lemma {:induction false} EatKind(t: ParamType, url: string, pos: nat, strtod: Strtod)
    requires pos <= |url| && Eat(Param(t), url, pos, strtod).Some?
    ensures |Eat(Param(t), url, pos, strtod).value.1| == 1
    ensures KindOf(Eat(Param(t), url, pos, strtod).value.1[0]) == TypeOf(t)
  {
  }

  /**
    End to end: the handler registered with a pattern is called with the
    arguments the pattern captures, in the order they occur in the url.
   */
  lemma {:induction false} HandlerGetsArgumentsInOrder(pattern: string, url: string, strtod: Strtod)
    requires Tokens(pattern, 0).Some? && TagOf(ParamTypes(Tokens(pattern, 0).value)) <= UINT64_MAX
    requires Capture(Tokens(pattern, 0).value, url, 0, strtod).Some?
    ensures var args := Capture(Tokens(pattern, 0).value, url, 0, strtod).value;
            && ParameterTag(pattern, 0).Some?
            && Call(Arguments(ParameterTag(pattern, 0).value), Cursor(0, 0, 0, 0), PushAll(NO_PARAMS, args)) == Some(args)
  {
    var ts := Tokens(pattern, 0).value;
    ParameterTagExact(pattern, 0);
    ArgumentsOfTag(ParamTypes(ts));
    CapturedKinds(ts, url, 0, strtod);
    CallRestores(Capture(ts, url, 0, strtod).value, NO_PARAMS);
  }

  // ---------------------------------------------------------------- a handler's own tag

  /** The digit of a handler parameter of each type. */
  function HandlerCode(t: CppType): (d: nat) {
    match t
    case I64 => 1
    case U64 => 2
    case F64 => 3
    case Str => 4
  }

  /** The tag computed from a handler's parameter types, the first in the lowest digit. */
  function HandlerTag(ts: seq<CppType>): (n: nat) {
    if ts == [] then 0 else HandlerTag(ts[1..]) * 6 + HandlerCode(ts[0])
  }

  /** A pattern has the very tag of the handler that takes its arguments if and only if it has no `<path>`,
      which is a string to the handler but a digit of its own in the pattern. */
  lemma {:induction false} HandlerTagIff(ps: seq<ParamType>)
    ensures HandlerTag(TypesOf(ps)) == TagOf(ps) <==> PATH !in ps
    ensures HandlerTag(TypesOf(ps)) <= TagOf(ps)
    decreases |ps|
  {
    if ps != [] {
      HandlerTagIff(ps[1..]);
      assert TypesOf(ps)[1..] == TypesOf(ps[1..]);
      assert ps == [ps[0]] + ps[1..];
      assert HandlerCode(TypeOf(ps[0])) <= Code(ps[0]) && (HandlerCode(TypeOf(ps[0])) == Code(ps[0]) <==> ps[0] != PATH);
    }
  }

  // ---------------------------------------------------------------- the compatibility test

  /**
    The comparison of a pattern's tag with a handler's, as written: both digits
    are taken from the first tag.
   */
  predicate TagsCompatible(a: nat, b: nat) {
    if a == 0 then b == 0
    else if b == 0 then false
    else
      var sa := if a % 6 == 5 then 4 else a % 6;
      var sb := if a % 6 == 5 then 4 else a % 6;
      sa == sb && TagsCompatible(a / 6, b / 6)
  }

  /** Number of base-6 digits. */
  function DigitCount(n: nat): (k: nat) { if n == 0 then 0 else 1 + DigitCount(n / 6) }

  /** So the test accepts any two tags with the same number of parameters, whatever their types. */
  lemma {:induction false} CompatibleIffSameCount(a: nat, b: nat)
    ensures TagsCompatible(a, b) <==> DigitCount(a) == DigitCount(b)
  {
    if a != 0 && b != 0 {
      CompatibleIffSameCount(a / 6, b / 6);
    }
  }

  lemma {:induction false} DigitCountOfTag(ps: seq<ParamType>)
    ensures DigitCount(TagOf(ps)) == |ps|
  {
    if ps != [] {
      DigitCountOfTag(ps[1..]);
      var n, d := TagOf(ps[1..]), Code(ps[0]);
      assert (n * 6 + d) / 6 == n;
    }
  }

  /** Patterns of the same length pass for each other: `<int>` is accepted for a `<string>` handler. */
  lemma {:induction false} CompatibleIgnoresTypes(ps: seq<ParamType>, qs: seq<ParamType>)
    ensures TagsCompatible(TagOf(ps), TagOf(qs)) <==> |ps| == |qs|
    ensures TagsCompatible(TagOf([INT]), TagOf([STRING])) && TypesOf([INT]) != TypesOf([STRING])
  {
    CompatibleIffSameCount(TagOf(ps), TagOf(qs));
    DigitCountOfTag(ps);
    DigitCountOfTag(qs);
    CompatibleIffSameCount(TagOf([INT]), TagOf([STRING]));
    DigitCountOfTag([INT]);
    DigitCountOfTag([STRING]);
    assert TypesOf([INT])[0] == I64 && TypesOf([STRING])[0] == Str;
  }

  /** What accepting them means: a handler with the parameters `qs` on a pattern with the parameters of
      `ts` gets what the url spells exactly when the types agree, which the test does not check. */
  lemma {:induction false} AcceptedHandlerGetsArguments(ts: seq<Token>, qs: seq<ParamType>, url: string, strtod: Strtod)
    requires Capture(ts, url, 0, strtod).Some?
    ensures var args := Capture(ts, url, 0, strtod).value;
            Call(TypesOf(qs), Cursor(0, 0, 0, 0), PushAll(NO_PARAMS, args)) == Some(args) <==> TypesOf(qs) == TypesOf(ParamTypes(ts))
  {
    hide Call, KindsOf, PushAll, EatAll, TypesOf, ParamTypes;
    CapturedKinds(ts, url, 0, strtod);
    CallIffKinds(TypesOf(qs), Capture(ts, url, 0, strtod).value);
  }
}
