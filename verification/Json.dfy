/**
  JSON values: the printer, the parser as functions on texts, with its
  depth bound, and what a printed value reads as.
 */
module Json {
  import opened Options
  import opened Text
  import opened JsonString
  import Decimal

  // ---------------------------------------------------------------- values

  /** A value to be printed. An object lists its members in the order they are printed. */
  datatype WValue =
    | WNull
    | WBool(b: bool)
    | WInt(i: int)
    | WUint(u: nat)
    | WStr(s: string)
    | WList(items: seq<WValue>)
    | WObj(members: seq<Member>)

  datatype Member = Member(key: string, value: WValue)

  datatype NumType = SignedInteger | UnsignedInteger | FloatingPoint

  /** What a parsed value shows its reader. A number keeps its text. */
  datatype RView =
    | VNull
    | VBool(b: bool)
    | VNum(nt: NumType, text: string)
    | VStr(s: string)
    | VList(items: seq<RView>)
    | VObj(members: seq<RMember>)

  datatype RMember = RMember(key: string, value: RView)

  // ---------------------------------------------------------------- printing

  function DumpString(s: string): (r: string) { "\"" + Escaped(s) + "\"" }

  function Dump(w: WValue): (r: string)
    ensures r != ""
    decreases w, 1
  {
    match w
    case WNull => "null"
    case WBool(b) => if b then "true" else "false"
    case WInt(i) => Decimal.IntText(i)
    case WUint(u) => Decimal.Digits(u)
    case WStr(s) => DumpString(s)
    case WList(items) => "[" + DumpItems(items) + "]"
    case WObj(members) => "{" + DumpMembers(members) + "}"
  }

  function DumpItems(ws: seq<WValue>): (r: string)
    decreases ws, 0
  {
    if ws == [] then "" else Dump(ws[0]) + if |ws| == 1 then "" else "," + DumpItems(ws[1..])
  }

  function DumpMember(m: Member): (r: string)
    decreases m, 1
  {
    DumpString(m.key) + ":" + Dump(m.value)
  }

  function DumpMembers(ms: seq<Member>): (r: string)
    decreases ms, 0
  {
    if ms == [] then "" else DumpMember(ms[0]) + if |ms| == 1 then "" else "," + DumpMembers(ms[1..])
  }

  /** Appends the printed form of a value to an output, container by container. */
  method DumpInternal(w: WValue, out: string) returns (r: string)
    ensures r == out + Dump(w)
    decreases w, 1
  {
    hide Escaped;
    match w {
      case WNull => r := out + "null";
      case WBool(b) => r := out + if b then "true" else "false";
      case WInt(i) => r := out + Decimal.IntText(i);
      case WUint(u) => r := out + Decimal.Digits(u);
      case WStr(s) => r := PutString(s, out);
      case WList(items) =>
        r := PutItems(items, out + "[");
        assert out + "[" + DumpItems(items) + "]" == out + ("[" + DumpItems(items) + "]");
        r := r + "]";
      case WObj(members) =>
        r := PutMembers(members, out + "{");
        assert out + "{" + DumpMembers(members) + "}" == out + ("{" + DumpMembers(members) + "}");
        r := r + "}";
    }
  }

  method PutString(s: string, out: string) returns (r: string)
    ensures r == out + DumpString(s)
  {
    r := Escape(s, out + "\"");
    assert out + "\"" + Escaped(s) + "\"" == out + ("\"" + Escaped(s) + "\"");
    r := r + "\"";
  }

  /** What is still to be printed of a list: a comma unless it is the first item. */
  function ItemsFrom(ws: seq<WValue>, k: nat): (r: string)
    requires k <= |ws|
    decreases ws, 1
  {
    if k == |ws| then "" else (if k == 0 then "" else ",") + DumpItems(ws[k..])
  }

  lemma {:induction false} ItemsFromStep(ws: seq<WValue>, k: nat)
    requires k < |ws|
    ensures ItemsFrom(ws, k) == (if k == 0 then "" else ",") + Dump(ws[k]) + ItemsFrom(ws, k + 1)
  {
    hide Dump;
    var sep := if k == 0 then "" else ",";
    assert ws[k..][0] == ws[k] && ws[k..][1..] == ws[k + 1..];
    assert ItemsFrom(ws, k) == sep + (Dump(ws[k]) + ItemsFrom(ws, k + 1));
    assert sep + (Dump(ws[k]) + ItemsFrom(ws, k + 1)) == sep + Dump(ws[k]) + ItemsFrom(ws, k + 1);
  }

  lemma {:induction false} Appended(was: string, sep: string, d: string, rest: string)
    ensures was + sep + d + rest == was + (sep + d + rest)
    ensures sep == "" ==> was + d + rest == was + (sep + d + rest)
  {
    if sep == "" {
      assert sep + d == d;
    }
  }

  method PutItems(ws: seq<WValue>, out: string) returns (r: string)
    ensures r == out + DumpItems(ws)
    decreases ws, 0
  {
    hide Dump, DumpItems, ItemsFrom;
    r := out;
    var first, k := true, 0;
    ItemsFromEnds(ws);
    while k < |ws|
      invariant 0 <= k <= |ws| && (first <==> k == 0)
      invariant r + ItemsFrom(ws, k) == out + DumpItems(ws)
    {
      ItemsFromStep(ws, k);
      ghost var was, sep := r, if k == 0 then "" else ",";
      if !first {
        r := r + ",";
      }
      first := false;
      r := DumpInternal(ws[k], r);
      k := k + 1;
      Appended(was, sep, Dump(ws[k - 1]), ItemsFrom(ws, k));
    }
    assert r + "" == r;
  }

  lemma {:induction false} ItemsFromEnds(ws: seq<WValue>)
    ensures ItemsFrom(ws, 0) == DumpItems(ws) && ItemsFrom(ws, |ws|) == ""
  {
    assert ws[0..] == ws;
    assert "" + DumpItems(ws) == DumpItems(ws);
  }

  function MembersFrom(ms: seq<Member>, k: nat): (r: string)
    requires k <= |ms|
    decreases ms, 1
  {
    if k == |ms| then "" else (if k == 0 then "" else ",") + DumpMembers(ms[k..])
  }

  lemma {:induction false} MembersFromStep(ms: seq<Member>, k: nat)
    requires k < |ms|
    ensures MembersFrom(ms, k) == (if k == 0 then "" else ",") + DumpMember(ms[k]) + MembersFrom(ms, k + 1)
  {
    hide DumpMember;
    var sep := if k == 0 then "" else ",";
    assert ms[k..][0] == ms[k] && ms[k..][1..] == ms[k + 1..];
    assert MembersFrom(ms, k) == sep + (DumpMember(ms[k]) + MembersFrom(ms, k + 1));
    assert sep + (DumpMember(ms[k]) + MembersFrom(ms, k + 1)) == sep + DumpMember(ms[k]) + MembersFrom(ms, k + 1);
  }

  method PutMember(m: Member, out: string) returns (r: string)
    ensures r == out + DumpMember(m)
    decreases m, 2
  {
    hide DumpString, Dump;
    r := PutString(m.key, out);
    r := DumpInternal(m.value, r + ":");
    assert out + DumpString(m.key) + ":" + Dump(m.value) == out + (DumpString(m.key) + ":" + Dump(m.value));
  }

  method PutMembers(ms: seq<Member>, out: string) returns (r: string)
    ensures r == out + DumpMembers(ms)
    decreases ms, 0
  {
    hide DumpMember, DumpMembers, MembersFrom;
    r := out;
    var first, k := true, 0;
    MembersFromEnds(ms);
    while k < |ms|
      invariant 0 <= k <= |ms| && (first <==> k == 0)
      invariant r + MembersFrom(ms, k) == out + DumpMembers(ms)
    {
      MembersFromStep(ms, k);
      ghost var was, sep := r, if k == 0 then "" else ",";
      if !first {
        r := r + ",";
      }
      first := false;
      r := PutMember(ms[k], r);
      k := k + 1;
      Appended(was, sep, DumpMember(ms[k - 1]), MembersFrom(ms, k));
    }
    assert r + "" == r;
  }

  lemma {:induction false} MembersFromEnds(ms: seq<Member>)
    ensures MembersFrom(ms, 0) == DumpMembers(ms) && MembersFrom(ms, |ms|) == ""
  {
    assert ms[0..] == ms;
    assert "" + DumpMembers(ms) == DumpMembers(ms);
  }

  // ---------------------------------------------------------------- the parser on texts

  const MAX_DEPTH := 10000

  predicate IsWs(c: char) { c == ' ' || c == '\t' || c == '\r' || c == '\n' }

  function SkipWs(t: string, pos: nat): (p: nat)
    requires pos <= |t|
    ensures pos <= p <= |t|
    ensures !IsWs(At(t, p))
    decreases |t| - pos
  {
    if IsWs(At(t, pos)) then SkipWs(t, pos + 1) else pos
  }

  /** The number automaton. */
  datatype NumState = Minus | AfterMinus | ZeroFirst | Digits | AfterPoint | Exp | AfterExp | Invalid

  predicate IsNumChar(c: char) { Decimal.IsDigit(c) || c == '.' || c == '-' || c == '+' || c == 'e' || c == 'E' }

  function NumStep(s: NumState, c: char): (r: NumState) {
    if c == '0' then
      match s
      case Minus => ZeroFirst case AfterMinus => ZeroFirst case Digits => Digits
      case AfterPoint => AfterPoint case Exp => AfterExp case AfterExp => AfterExp case _ => Invalid
    else if Decimal.IsDigit(c) then
      match s
      case Minus => Digits case AfterMinus => Digits case Digits => Digits
      case AfterPoint => AfterPoint case Exp => AfterExp case AfterExp => AfterExp case _ => Invalid
    else if c == '.' then (match s case ZeroFirst => AfterPoint case Digits => AfterPoint case _ => Invalid)
    else if c == '-' then (match s case Minus => AfterMinus case Exp => AfterExp case _ => Invalid)
    else if c == '+' then (match s case Exp => AfterExp case _ => Invalid)
    else (match s case Digits => Exp case AfterPoint => Exp case _ => Invalid)
  }

  /** Where the number that is in state `s` at `pos` ends; no value when it is rejected. */
  function NumEnd(t: string, pos: nat, s: NumState): (r: Option<nat>)
    requires pos <= |t|
    ensures r.Some? ==> pos <= r.value <= |t|
    ensures r.Some? && (s.Minus? || s.AfterMinus?) ==> pos < r.value
    decreases |t| - pos
  {
    if s.Invalid? then None
    else if IsNumChar(At(t, pos)) then NumEnd(t, pos + 1, NumStep(s, At(t, pos)))
    else if s.ZeroFirst? || s.Digits? || s.AfterPoint? || s.AfterExp? then Some(pos)
    else None
  }

  function NumTypeOf(text: string): (nt: NumType) {
    if '.' in text || 'e' in text || 'E' in text then FloatingPoint
    else if '-' in text then SignedInteger
    else UnsignedInteger
  }

  /** The body of the string that starts at `pos`, and the position after its closing quote. */
  function ParseString(t: string, pos: nat): (r: Option<(string, nat)>)
    requires pos <= |t|
    ensures r.Some? ==> pos < r.value.1 <= |t|
  {
    if At(t, pos) != '"' then None
    else
      match BodyLength(t[pos + 1..])
      case None => None
      case Some(n) =>
        BodyWellEscaped(t[pos + 1..]);
        Some((Unescaped(t[pos + 1..][..n]), pos + 1 + n + 1))
  }

  function ParseValue(t: string, pos: nat, depth: nat): (r: Option<(RView, nat)>)
    requires pos <= |t|
    ensures r.Some? ==> pos < r.value.1 <= |t|
    decreases |t| - pos, 2
  {
    var c := At(t, pos);
    if c == '[' then ParseList(t, pos, depth + 1)
    else if c == '{' then ParseObject(t, pos, depth + 1)
    else if c == '"' then
      match ParseString(t, pos) case None => None case Some((s, q)) => Some((VStr(s), q))
    else if c == 't' then if Here(t, pos, "true") then Some((VBool(true), pos + 4)) else None
    else if c == 'f' then if Here(t, pos, "false") then Some((VBool(false), pos + 5)) else None
    else if c == 'n' then if Here(t, pos, "null") then Some((VNull, pos + 4)) else None
    else
      match NumEnd(t, pos, Minus)
      case None => None
      case Some(e) => Some((VNum(NumTypeOf(t[pos..e]), t[pos..e]), e))
  }

  function ParseList(t: string, pos: nat, depth: nat): (r: Option<(RView, nat)>)
    requires pos < |t| && t[pos] == '['
    ensures r.Some? ==> pos < r.value.1 <= |t|
    decreases |t| - pos, 1
  {
    if depth > MAX_DEPTH then None
    else
      var p := SkipWs(t, pos + 1);
      if At(t, p) == ']' then Some((VList([]), p + 1))
      else match ParseItems(t, p, depth) case None => None case Some((vs, q)) => Some((VList(vs), q))
  }

  function ParseItems(t: string, pos: nat, depth: nat): (r: Option<(seq<RView>, nat)>)
    requires pos <= |t|
    ensures r.Some? ==> pos < r.value.1 <= |t|
    decreases |t| - pos, 3
  {
    match ParseValue(t, pos, depth + 1)
    case None => None
    case Some((v, p)) =>
      var q := SkipWs(t, p);
      if At(t, q) == ']' then Some(([v], q + 1))
      else if At(t, q) != ',' then None
      else match ParseItems(t, SkipWs(t, q + 1), depth) case None => None case Some((vs, e)) => Some(([v] + vs, e))
  }

  function ParseObject(t: string, pos: nat, depth: nat): (r: Option<(RView, nat)>)
    requires pos < |t| && t[pos] == '{'
    ensures r.Some? ==> pos < r.value.1 <= |t|
    decreases |t| - pos, 1
  {
    if depth > MAX_DEPTH then None
    else
      var p := SkipWs(t, pos + 1);
      if At(t, p) == '}' then Some((VObj([]), p + 1))
      else match ParseMembers(t, p, depth) case None => None case Some((ms, q)) => Some((VObj(ms), q))
  }

  /** One `"key": value`, up to the end of the value. */
  function ParseMember(t: string, pos: nat, depth: nat): (r: Option<(RMember, nat)>)
    requires pos <= |t|
    ensures r.Some? ==> pos < r.value.1 <= |t|
    decreases |t| - pos, 3
  {
    match ParseString(t, pos)
    case None => None
    case Some((k, p)) =>
      var q := SkipWs(t, p);
      if At(t, q) != ':' then None
      else match ParseValue(t, SkipWs(t, q + 1), depth + 1) case None => None case Some((v, e)) => Some((RMember(k, v), e))
  }

  function ParseMembers(t: string, pos: nat, depth: nat): (r: Option<(seq<RMember>, nat)>)
    requires pos <= |t|
    ensures r.Some? ==> pos < r.value.1 <= |t|
    decreases |t| - pos, 4
  {
    match ParseMember(t, pos, depth)
    case None => None
    case Some((m, p)) =>
      var q := SkipWs(t, p);
      if At(t, q) == '}' then Some(([m], q + 1))
      else if At(t, q) != ',' then None
      else match ParseMembers(t, SkipWs(t, q + 1), depth) case None => None case Some((ms, e)) => Some(([m] + ms, e))
  }

  /** The whole text: one value, surrounded by blanks, up to a NUL. */
  function ParseText(t: string): (r: Option<RView>) {
    match ParseValue(t, SkipWs(t, 0), 0)
    case None => None
    case Some((v, p)) => if At(t, SkipWs(t, p)) == '\0' then Some(v) else None
  }

  /** `load` copies the bytes and adds a NUL before it parses. */
  function Load(text: string): (r: Option<RView>) { ParseText(text + ['\0']) }

  // ---------------------------------------------------------------- what a printed value parses to

  function Shown(w: WValue): (v: RView)
    decreases w, 1
  {
    match w
    case WNull => VNull
    case WBool(b) => VBool(b)
    case WInt(i) => VNum(if i < 0 then SignedInteger else UnsignedInteger, Decimal.IntText(i))
    case WUint(u) => VNum(UnsignedInteger, Decimal.Digits(u))
    case WStr(s) => VStr(s)
    case WList(items) => VList(ShownItems(items))
    case WObj(members) => VObj(ShownMembers(members))
  }

  function ShownItems(ws: seq<WValue>): (vs: seq<RView>)
    decreases ws, 0
  {
    if ws == [] then [] else [Shown(ws[0])] + ShownItems(ws[1..])
  }

  function ShownMember(m: Member): (v: RMember)
    decreases m, 1
  {
    RMember(m.key, Shown(m.value))
  }

  function ShownMembers(ms: seq<Member>): (vs: seq<RMember>)
    decreases ms, 0
  {
    if ms == [] then [] else [ShownMember(ms[0])] + ShownMembers(ms[1..])
  }
}
