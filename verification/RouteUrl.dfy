/**
  What patterns say and what urls spell: the tags of a pattern text, the number
  or text each parameter reads, and urls made by filling in a pattern.
 */
module RouteUrl {
  import opened Options
  import opened Decimal
  import opened Text
  import opened Limits
  import opened RoutePattern
  import opened RouteFind
  import opened RouteTags

  // ---------------------------------------------------------------- pattern texts

  /** A piece of a pattern as written: a character or a tag in one of its spellings. */
  datatype Written = Char(c: char) | Tag(spelling: string)

  /** The seven tags. */
  function TagMeaning(spelling: string): (t: Option<ParamType>) {
    match spelling
    case "<int>" => Some(INT)
    case "<uint>" => Some(UINT)
    case "<float>" => Some(DOUBLE)
    case "<double>" => Some(DOUBLE)
    case "<str>" => Some(STRING)
    case "<string>" => Some(STRING)
    case "<path>" => Some(PATH)
    case _ => None
  }

  predicate Proper(w: Written) { if w.Char? then w.c != '<' && w.c != '\0' else TagMeaning(w.spelling).Some? }

  function Meaning(w: Written): (t: Token)
    requires Proper(w)
  {
    if w.Char? then Lit(w.c) else Param(TagMeaning(w.spelling).value)
  }

  function Spelling(w: Written): (s: string) { if w.Char? then [w.c] else w.spelling }

  function PatternText(ws: seq<Written>): (s: string) { if ws == [] then "" else Spelling(ws[0]) + PatternText(ws[1..]) }

  function Meanings(ws: seq<Written>): (ts: seq<Token>)
    requires forall k :: 0 <= k < |ws| ==> Proper(ws[k])
  {
    if ws == [] then [] else [Meaning(ws[0])] + Meanings(ws[1..])
  }

  /** The second and the fifth character tell the tags apart. */
  lemma {:induction false} TwoChars(url: string, i: nat, w: string)
    requires |w| >= 5
    ensures Here(url, i, w) ==> i + 4 < |url| && url[i + 1] == w[1] && url[i + 4] == w[4]
  {
    if Here(url, i, w) {
      assert url[i..i + |w|][1] == w[1] && url[i..i + |w|][4] == w[4];
    }
  }

  lemma {:induction false} TagStart(url: string, i: nat, a: string, rest: string)
    requires TagMeaning(a).Some? && i <= |url| && url[i..] == a + rest
    ensures TagAt(url, i) == Some((TagMeaning(a).value, |a|)) && i < |url| && url[i] == '<'
  {
    assert Here(url, i, a) by {
      assert url[i..i + |a|] == url[i..][..|a|] == a;
    }
    assert url[i] == url[i..][0] == a[0];
    hide Here;
    TwoChars(url, i, a);
    TwoChars(url, i, "<int>");
    TwoChars(url, i, "<uint>");
    TwoChars(url, i, "<float>");
    TwoChars(url, i, "<double>");
    TwoChars(url, i, "<str>");
    TwoChars(url, i, "<string>");
    TwoChars(url, i, "<path>");
  }

  lemma {:induction false} TokenOfPiece(w: Written, url: string, i: nat, rest: string)
    requires Proper(w) && i <= |url| && url[i..] == Spelling(w) + rest
    ensures i < |url| && TokenAt(url, i) == Some((Meaning(w), i + |Spelling(w)|))
    ensures url[i + |Spelling(w)|..] == rest
  {
    hide TagAt, TagMeaning;
    SpellingNotEmpty(w);
    assert url[i + |Spelling(w)|..] == url[i..][|Spelling(w)|..] == rest;
    if w.Char? {
      assert url[i] == url[i..][0] == w.c;
    } else {
      TagStart(url, i, w.spelling, rest);
    }
  }

  /** A pattern text says what its pieces say. */
  lemma {:induction false} TokensOfText(ws: seq<Written>, url: string, i: nat)
    requires forall k :: 0 <= k < |ws| ==> Proper(ws[k])
    requires i <= |url| && url[i..] == PatternText(ws)
    ensures Tokens(url, i) == Some(Meanings(ws))
    decreases |ws|
  {
    hide TokenAt, Proper, Spelling, Meaning;
    if ws != [] {
      TokenOfPiece(ws[0], url, i, PatternText(ws[1..]));
      TokensOfText(ws[1..], url, i + |Spelling(ws[0])|);
    }
  }

  lemma {:induction false} SpellingNotEmpty(w: Written)
    requires Proper(w)
    ensures Spelling(w) != ""
  {
  }

  // ---------------------------------------------------------------- numbers

  predicate EndsNumber(rest: string) { rest == "" || !IsDigit(rest[0]) }

  lemma {:induction false} RunAt(url: string, pos: nat, ds: string, rest: string)
    requires pos <= |url| && url[pos..] == ds + rest && AllDigits(ds) && EndsNumber(rest)
    ensures RunEnd(url, pos) == pos + |ds| && url[pos..pos + |ds|] == ds
  {
    assert url[pos..pos + |ds|] == url[pos..][..|ds|] == ds;
    assert rest != "" ==> url[pos + |ds|] == url[pos..][|ds|] == rest[0];
    RunEndExact(url, pos, pos + |ds|);
  }

  lemma {:induction false} SignAt(url: string, pos: nat, sign: string, ds: string, rest: string)
    requires pos <= |url| && url[pos..] == sign + ds + rest && |sign| <= 1
    ensures sign != "" ==> pos < |url| && url[pos] == sign[0] && url[pos + 1..] == ds + rest
    ensures ds != "" ==> pos + |sign| < |url| && url[pos + |sign|] == ds[0]
  {
    assert sign != "" ==> url[pos] == url[pos..][0] && url[pos + 1..] == url[pos..][1..];
    assert ds != "" ==> url[pos + |sign|] == url[pos..][|sign|];
  }

  lemma {:induction false} NumberAt(url: string, pos: nat, sign: string, ds: string, rest: string)
    requires pos <= |url| && url[pos..] == sign + ds + rest
    requires sign in ["", "+", "-"] && ds != "" && AllDigits(ds) && EndsNumber(rest)
    ensures pos < |url| && url[pos] == (if sign == "" then ds[0] else sign[0]) && IsDigit(ds[0])
    ensures var start := pos + |sign|;
            RunEnd(url, start) == start + |ds| && url[start..start + |ds|] == ds
  {
    SignAt(url, pos, sign, ds, rest);
    assert sign == "" ==> sign + ds + rest == ds + rest;
    RunAt(url, pos + |sign|, ds, rest);
  }

  /** An `<int>` reads an optional sign and a run of digits as the number they spell, and refuses one outside 64 bits. */
  lemma {:induction false} IntEaten(url: string, pos: nat, sign: string, ds: string, rest: string, strtod: Strtod)
    requires pos <= |url| && url[pos..] == sign + ds + rest
    requires sign in ["", "+", "-"] && ds != "" && AllDigits(ds) && EndsNumber(rest)
    ensures var v: int := if sign == "-" then 0 - Value(ds) else Value(ds);
            Eat(Param(INT), url, pos, strtod) ==
            if -0x8000_0000_0000_0000 <= v < 0x8000_0000_0000_0000 then Some((pos + |sign| + |ds|, [IntArg(v)])) else None
  {
    NumberAt(url, pos, sign, ds, rest);
    hide Value, RunEnd, AllDigits;
  }

  /** A `<uint>` takes no minus sign. */
  lemma {:induction false} UintEaten(url: string, pos: nat, sign: string, ds: string, rest: string, strtod: Strtod)
    requires pos <= |url| && url[pos..] == sign + ds + rest
    requires sign in ["", "+", "-"] && ds != "" && AllDigits(ds) && EndsNumber(rest)
    ensures Eat(Param(UINT), url, pos, strtod) ==
            if sign != "-" && Value(ds) < 0x1_0000_0000_0000_0000 then Some((pos + |sign| + |ds|, [UintArg(Value(ds))])) else None
  {
    NumberAt(url, pos, sign, ds, rest);
    hide Value, AllDigits;
    if sign == "-" {
      NoRun(url, pos);
    }
  }

  lemma {:induction false} NoRun(url: string, pos: nat)
    requires pos < |url| && !IsDigit(url[pos])
    ensures RunEnd(url, pos) == pos
  {
  }

  /** Where no digit follows the optional sign, neither reads anything. */
  lemma {:induction false} NoNumberEaten(url: string, pos: nat, sign: string, rest: string, strtod: Strtod)
    requires pos <= |url| && url[pos..] == sign + "" + rest
    requires sign in ["", "+", "-"] && EndsNumber(rest) && (sign == "" ==> rest == "" || (rest[0] != '+' && rest[0] != '-'))
    ensures Eat(Param(INT), url, pos, strtod) == None && Eat(Param(UINT), url, pos, strtod) == None
  {
    SignAt(url, pos, sign, "", rest);
    assert sign == "" ==> url[pos..] == rest;
    assert sign == "" && rest != "" ==> url[pos] == url[pos..][0];
    assert sign != "" && rest != "" ==> url[pos + 1] == url[pos + 1..][0];
  }

  // ---------------------------------------------------------------- urls from patterns

  /** The text that an argument has in a url. */
  function ArgText(a: Arg): (s: string) {
    match a
    case IntArg(i) => IntText(i)
    case UintArg(u) => Digits(u)
    case DoubleArg(text) => text
    case StrArg(s) => s
  }

  /** An argument that a parameter can read in front of the rest of a url: of its type and range, and with an end that shows. */
  predicate Readable(t: ParamType, a: Arg, rest: string, strtod: Strtod) {
    match t
    case INT => a.IntArg? && -0x8000_0000_0000_0000 <= a.i < 0x8000_0000_0000_0000 && EndsNumber(rest)
    case UINT => a.UintArg? && a.u < 0x1_0000_0000_0000_0000 && EndsNumber(rest)
    case DOUBLE =>
      && a.DoubleArg? && a.text != "" && (IsDigit(a.text[0]) || a.text[0] == '+' || a.text[0] == '-' || a.text[0] == '.')
      && strtod(a.text + rest) == |a.text|
    case STRING => a.StrArg? && a.s != "" && '/' !in a.s && (rest == "" || rest[0] == '/')
    case PATH => a.StrArg? && a.s != "" && rest == ""
  }

  lemma {:induction false} PrintedIntEaten(i: int, url: string, pos: nat, rest: string, strtod: Strtod)
    requires -0x8000_0000_0000_0000 <= i < 0x8000_0000_0000_0000 && EndsNumber(rest)
    requires pos <= |url| && url[pos..] == IntText(i) + rest
    ensures Eat(Param(INT), url, pos, strtod) == Some((pos + |IntText(i)|, [IntArg(i)]))
  {
    hide Eat, Value, Digits;
    var n := if i < 0 then -i else i;
    var sign := if i < 0 then "-" else "";
    assert IntText(i) == sign + Digits(n);
    ValueOfDigits(n);
    IntEaten(url, pos, sign, Digits(n), rest, strtod);
  }

  lemma {:induction false} PrintedUintEaten(u: nat, url: string, pos: nat, rest: string, strtod: Strtod)
    requires u < 0x1_0000_0000_0000_0000 && EndsNumber(rest)
    requires pos <= |url| && url[pos..] == Digits(u) + rest
    ensures Eat(Param(UINT), url, pos, strtod) == Some((pos + |Digits(u)|, [UintArg(u)]))
  {
    hide Eat, Value, Digits;
    assert Digits(u) + rest == "" + Digits(u) + rest;
    ValueOfDigits(u);
    UintEaten(url, pos, "", Digits(u), rest, strtod);
  }

  lemma {:induction false} TextEaten(t: ParamType, a: Arg, url: string, pos: nat, rest: string, strtod: Strtod)
    requires t.DOUBLE? || t.STRING? || t.PATH?
    requires Readable(t, a, rest, strtod) && pos <= |url| && url[pos..] == ArgText(a) + rest
    ensures Eat(Param(t), url, pos, strtod) == Some((pos + |ArgText(a)|, [a]))
  {
    hide RunEnd, IntText, Digits;
    var s := ArgText(a);
    assert url[pos] == url[pos..][0] == s[0];
    assert url[pos..pos + |s|] == url[pos..][..|s|] == s;
    if t.STRING? {
      SlashAt(url, pos, s, rest);
    } else if t.PATH? {
      assert s + rest == s;
    }
  }

  lemma {:induction false} ArgEaten(t: ParamType, a: Arg, url: string, pos: nat, rest: string, strtod: Strtod)
    requires Readable(t, a, rest, strtod) && pos <= |url| && url[pos..] == ArgText(a) + rest
    ensures Eat(Param(t), url, pos, strtod) == Some((pos + |ArgText(a)|, [a]))
  {
    hide Eat, Digits, IntText, EndsNumber;
    match t
    case INT => PrintedIntEaten(a.i, url, pos, rest, strtod);
    case UINT => PrintedUintEaten(a.u, url, pos, rest, strtod);
    case _ => TextEaten(t, a, url, pos, rest, strtod);
  }

  lemma {:induction false} SlashAt(url: string, pos: nat, s: string, rest: string)
    requires pos <= |url| && url[pos..] == s + rest && '/' !in s && (rest == "" || rest[0] == '/')
    ensures SlashFrom(url, pos) == pos + |s|
  {
    var e := SlashFrom(url, pos);
    assert forall k :: pos <= k < pos + |s| ==> url[k] == url[pos..][k - pos] == s[k - pos];
    assert rest != "" ==> url[pos + |s|] == url[pos..][|s|] == '/';
  }

  /** A `<string>` reads nothing where there is nothing before the next slash, and a `<path>` nothing at the end. */
  lemma {:induction false} NoTextEaten(url: string, pos: nat, strtod: Strtod)
    requires pos <= |url|
    ensures Eat(Param(PATH), url, pos, strtod) == None <==> pos == |url|
    ensures Eat(Param(STRING), url, pos, strtod) == None <==> pos == |url| || url[pos] == '/'
  {
  }

  /** The url that a pattern makes of arguments, one for each of its parameters. */
  function Filled(ts: seq<Token>, args: seq<Arg>): (url: string) {
    if ts == [] then ""
    else if ts[0].Lit? then [ts[0].c] + Filled(ts[1..], args)
    else if args == [] then ""
    else ArgText(args[0]) + Filled(ts[1..], args[1..])
  }

  /** Every parameter can read its argument where it stands. */
  predicate AllReadable(ts: seq<Token>, args: seq<Arg>, strtod: Strtod) {
    if ts == [] then args == []
    else if ts[0].Lit? then AllReadable(ts[1..], args, strtod)
    else args != [] && Readable(ts[0].t, args[0], Filled(ts[1..], args[1..]), strtod) && AllReadable(ts[1..], args[1..], strtod)
  }

  lemma {:induction false} FilledEaten(ts: seq<Token>, args: seq<Arg>, url: string, pos: nat, strtod: Strtod)
    requires AllReadable(ts, args, strtod) && pos <= |url| && url[pos..] == Filled(ts, args)
    ensures EatAll(ts, url, pos, strtod) == Some((|url|, args))
    decreases |ts|
  {
    hide Eat, Readable, ArgText;
    if ts != [] {
      if ts[0].Lit? {
        assert url[pos] == url[pos..][0] == ts[0].c;
        LitEaten(ts[0].c, url, pos, strtod);
        assert url[pos + 1..] == url[pos..][1..];
        FilledEaten(ts[1..], args, url, pos + 1, strtod);
        assert [] + args == args;
      } else {
        var rest := Filled(ts[1..], args[1..]);
        ArgEaten(ts[0].t, args[0], url, pos, rest, strtod);
        var s := ArgText(args[0]);
        assert url[pos + |s|..] == url[pos..][|s|..] == rest;
        FilledEaten(ts[1..], args[1..], url, pos + |s|, strtod);
        assert [args[0]] + args[1..] == args;
      }
    }
  }

  lemma {:induction false} LitEaten(c: char, url: string, pos: nat, strtod: Strtod)
    requires pos < |url|
    ensures Eat(Lit(c), url, pos, strtod) == if url[pos] == c then Some((pos + 1, [])) else None
  {
  }

  /** The url made by filling in a pattern matches it and gives the arguments back. */
  lemma {:induction false} FilledCaptured(ts: seq<Token>, args: seq<Arg>, strtod: Strtod)
    requires AllReadable(ts, args, strtod)
    ensures Capture(ts, Filled(ts, args), 0, strtod) == Some(args)
  {
    hide EatAll;
    var url := Filled(ts, args);
    assert url[0..] == url;
    FilledEaten(ts, args, url, 0, strtod);
  }

  /**
    From text to handler: a pattern text, filled in with arguments its parameters
    can read, is matched by its url, and a handler of the pattern's types is called
    with exactly these arguments.
   */
  lemma {:induction false} FilledUrlCallsHandler(ws: seq<Written>, args: seq<Arg>, strtod: Strtod)
    requires forall k :: 0 <= k < |ws| ==> Proper(ws[k])
    requires AllReadable(Meanings(ws), args, strtod) && TagOf(ParamTypes(Meanings(ws))) <= UINT64_MAX
    ensures Tokens(PatternText(ws), 0) == Some(Meanings(ws))
    ensures Capture(Meanings(ws), Filled(Meanings(ws), args), 0, strtod) == Some(args)
    ensures ParameterTag(PatternText(ws), 0).Some?
    ensures Call(Arguments(ParameterTag(PatternText(ws), 0).value), Cursor(0, 0, 0, 0), PushAll(NO_PARAMS, args)) == Some(args)
  {
    hide Tokens, Capture, ParameterTag, Call, Arguments, PushAll, Meanings, PatternText, Filled, AllReadable, TagOf, ParamTypes, Proper;
    var text := PatternText(ws);
    assert text[0..] == text;
    TokensOfText(ws, text, 0);
    FilledCaptured(Meanings(ws), args, strtod);
    HandlerGetsArgumentsInOrder(text, Filled(Meanings(ws), args), strtod);
  }
}
