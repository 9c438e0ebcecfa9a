/**
  The texts that are JSON to the parser, as they are written: every blank, every
  spelling of a number, every escape. A text is accepted if and only if it is one
  of these and not nested too deep, and it is read as what it says.
 */
module JsonGrammar {
  import opened Options
  import opened JsonString
  import opened JsonText
  import opened JsonNumber
  import opened Json

  /** A text: words, numbers, string bodies, and containers with the blanks between their tokens. */
  datatype Doc =
    | Null
    | Bool(b: bool)
    | Number(numeral: Numeral)
    | Str(body: string)
    | Arr(gap: string, items: seq<Item>)
    | Obj(gap: string, fields: seq<Field>)

  datatype Item = Item(before: string, value: Doc, after: string)

  datatype Field = Field(before: string, key: string, beforeColon: string, afterColon: string, value: Doc, after: string)

  predicate Blank(s: string) { forall k :: 0 <= k < |s| ==> s[k] in " \t\r\n" }

  predicate Written(d: Doc)
    decreases d, 1
  {
    match d
    case Number(n) => JsonNumber.Proper(n)
    case Str(body) => WellEscaped(body)
    case Arr(gap, items) => Blank(gap) && WrittenItems(items)
    case Obj(gap, fields) => Blank(gap) && WrittenFields(fields)
    case _ => true
  }

  predicate WrittenItem(i: Item)
    decreases i, 1
  {
    Blank(i.before) && Written(i.value) && Blank(i.after)
  }

  predicate WrittenItems(items: seq<Item>)
    decreases items, 0
  {
    items == [] || (WrittenItem(items[0]) && WrittenItems(items[1..]))
  }

  predicate WrittenField(f: Field)
    decreases f, 1
  {
    && Blank(f.before) && WellEscaped(f.key) && Blank(f.beforeColon)
    && Blank(f.afterColon) && Written(f.value) && Blank(f.after)
  }

  predicate WrittenFields(fields: seq<Field>)
    decreases fields, 0
  {
    fields == [] || (WrittenField(fields[0]) && WrittenFields(fields[1..]))
  }

  function Print(d: Doc): (s: string)
    decreases d, 1
  {
    match d
    case Null => "null"
    case Bool(b) => if b then "true" else "false"
    case Number(n) => Spelled(n)
    case Str(body) => "\"" + body + "\""
    case Arr(gap, items) => if items == [] then "[" + gap + "]" else "[" + PrintItems(items)
    case Obj(gap, fields) => if fields == [] then "{" + gap + "}" else "{" + PrintFields(fields)
  }

  function PrintItem(i: Item): (s: string)
    decreases i, 1
  {
    i.before + Print(i.value) + i.after
  }

  /** The items and the end of their list. */
  function PrintItems(items: seq<Item>): (s: string)
    decreases items, 0
  {
    if items == [] then "" else PrintItem(items[0]) + if |items| == 1 then "]" else "," + PrintItems(items[1..])
  }

  function PrintField(f: Field): (s: string)
    decreases f, 1
  {
    f.before + "\"" + f.key + "\"" + f.beforeColon + ":" + f.afterColon + Print(f.value) + f.after
  }

  function PrintFields(fields: seq<Field>): (s: string)
    decreases fields, 0
  {
    if fields == [] then "" else PrintField(fields[0]) + if |fields| == 1 then "}" else "," + PrintFields(fields[1..])
  }

  /** What a text says. */
  function Says(d: Doc): (v: RView)
    requires Written(d)
    decreases d, 1
  {
    match d
    case Null => VNull
    case Bool(b) => VBool(b)
    case Number(n) => VNum(NumTypeOf(Spelled(n)), Spelled(n))
    case Str(body) => VStr(Unescaped(body))
    case Arr(_, items) => VList(SaysItems(items))
    case Obj(_, fields) => VObj(SaysFields(fields))
  }

  function SaysItems(items: seq<Item>): (vs: seq<RView>)
    requires WrittenItems(items)
    decreases items, 0
  {
    if items == [] then [] else [SaysItem(items[0])] + SaysItems(items[1..])
  }

  function SaysItem(i: Item): (v: RView)
    requires WrittenItem(i)
    decreases i, 1
  {
    Says(i.value)
  }

  function SaysField(f: Field): (m: RMember)
    requires WrittenField(f)
    decreases f, 1
  {
    RMember(Unescaped(f.key), Says(f.value))
  }

  function SaysFields(fields: seq<Field>): (ms: seq<RMember>)
    requires WrittenFields(fields)
    decreases fields, 0
  {
    if fields == [] then [] else [SaysField(fields[0])] + SaysFields(fields[1..])
  }

  // ---------------------------------------------------------------- nesting

  function Max(a: nat, b: nat): (m: nat) { if a < b then b else a }

  /** How many containers lie inside one another. */
  function Nesting(d: Doc): (n: nat)
    decreases d, 1
  {
    match d
    case Arr(_, items) => 1 + NestingItems(items)
    case Obj(_, fields) => 1 + NestingFields(fields)
    case _ => 0
  }

  function NestingItems(items: seq<Item>): (n: nat)
    decreases items, 0
  {
    if items == [] then 0 else Max(Nesting(items[0].value), NestingItems(items[1..]))
  }

  function NestingFields(fields: seq<Field>): (n: nat)
    decreases fields, 0
  {
    if fields == [] then 0 else Max(Nesting(fields[0].value), NestingFields(fields[1..]))
  }

  /** `n` levels starting at this depth stay within the limit: each level costs two. */
  predicate Room(n: nat, depth: nat) { n == 0 || depth + 2 * n - 1 <= 10000 }

  // ---------------------------------------------------------------- blanks

  /** From `pos` on, the text `t` reads `s`. */
  predicate From(t: string, pos: nat, s: string) { pos <= |t| && t[pos..] == s }

  lemma {:induction false} BlankIsWs(c: char)
    ensures IsWs(c) <==> c in " \t\r\n"
  {
  }

  lemma {:induction false} SkipBlank(t: string, pos: nat, b: string, rest: string)
    requires From(t, pos, b + rest) && Blank(b) && (rest != "" ==> !IsWs(rest[0]))
    ensures SkipWs(t, pos) == pos + |b| && From(t, pos + |b|, rest)
    decreases |b|
  {
    if b == "" {
      assert b + rest == rest;
      assert rest != "" ==> t[pos] == t[pos..][0];
    } else {
      BlankIsWs(b[0]);
      assert t[pos] == t[pos..][0] == b[0];
      assert t[pos + 1..] == t[pos..][1..] == b[1..] + rest;
      SkipBlank(t, pos + 1, b[1..], rest);
    }
  }

  lemma {:induction false} AtFront(t: string, pos: nat, c: char, rest: string)
    requires From(t, pos, [c] + rest)
    ensures pos < |t| && At(t, pos) == c == t[pos] && From(t, pos + 1, rest)
  {
    assert t[pos] == t[pos..][0];
    assert t[pos + 1..] == t[pos..][1..];
  }

  lemma {:induction false} Suffix(t: string, pos: nat, a: string, rest: string)
    requires From(t, pos, a + rest)
    ensures pos + |a| <= |t| && From(t, pos + |a|, rest) && t[pos..pos + |a|] == a
  {
    assert t[pos + |a|..] == t[pos..][|a|..];
    assert t[pos..pos + |a|] == t[pos..][..|a|];
  }

  /** How a value begins: with no blank and no closing bracket. */
  lemma {:induction false} DocStart(d: Doc)
    requires Written(d)
    ensures Print(d) != "" && !IsWs(Print(d)[0]) && Print(d)[0] != ']' && Print(d)[0] != '}'
  {
    match d
    case Number(n) =>
      hide FractionText, ExponentText;
      assert Spelled(n)[0] == if n.minus then '-' else n.whole[0];
      assert Decimal.IsDigit(n.whole[0]);
    case _ =>
  }

  // ---------------------------------------------------------------- written texts are accepted

  lemma {:induction false} ParseStringAt(t: string, pos: nat, body: string, rest: string)
    requires WellEscaped(body) && From(t, pos, "\"" + body + "\"" + rest)
    ensures ParseString(t, pos) == Some((Unescaped(body), pos + |body| + 2)) && At(t, pos) == '"'
    ensures From(t, pos + |body| + 2, rest)
  {
    hide BodyLength, WellEscaped, Unescaped;
    var after := body + "\"" + rest;
    assert t[pos..] == ['"'] + after;
    AtFront(t, pos, '"', after);
    BodyEnds(body, rest);
    assert after[..|body|] == body;
    Suffix(t, pos + 1, body + "\"", rest);
  }

  lemma {:induction false} ParseLeaf(d: Doc, t: string, pos: nat, depth: nat, rest: string)
    requires Written(d) && !d.Arr? && !d.Obj? && From(t, pos, Print(d) + rest) && (d.Number? ==> Ends(rest))
    ensures ParseValue(t, pos, depth) == Some((Says(d), pos + |Print(d)|))
  {
    hide ParseList, ParseObject, ParseString, NumEnd, Ends, JsonNumber.Proper, NumTypeOf, WellEscaped, Unescaped;
    DocStart(d);
    Suffix(t, pos, Print(d), rest);
    assert At(t, pos) == Print(d)[0] by {
      assert t[pos] == t[pos..][0];
    }
    match d
    case Number(n) =>
      NumberStart(n);
      NumberAccepted(t, pos, n, rest);
    case Str(body) =>
      assert Print(d) + rest == "\"" + body + "\"" + rest;
      ParseStringAt(t, pos, body, rest);
    case _ =>
  }

  lemma {:induction false} NumberStart(n: Numeral)
    requires JsonNumber.Proper(n)
    ensures Spelled(n) != "" && (Spelled(n)[0] == '-' || Decimal.IsDigit(Spelled(n)[0]))
  {
    hide FractionText, ExponentText;
    assert Spelled(n)[0] == if n.minus then '-' else n.whole[0];
  }

  lemma {:induction false} ParsePrinted(d: Doc, t: string, pos: nat, depth: nat, rest: string)
    requires Written(d) && From(t, pos, Print(d) + rest) && (d.Number? ==> Ends(rest))
    ensures ParseValue(t, pos, depth) == if Room(Nesting(d), depth) then Some((Says(d), pos + |Print(d)|)) else None
    decreases d, 2
  {
    hide ParseValue, Ends;
    match d
    case Arr(gap, items) => ParsePrintedArr(gap, items, t, pos, depth, rest);
    case Obj(gap, fields) => ParsePrintedObj(gap, fields, t, pos, depth, rest);
    case _ => ParseLeaf(d, t, pos, depth, rest);
  }

  lemma {:induction false} ValueIsList(t: string, pos: nat, depth: nat)
    requires pos < |t| && t[pos] == '['
    ensures depth + 1 > 10000 ==> ParseValue(t, pos, depth) == None
    ensures depth + 1 <= 10000 ==>
              var p := SkipWs(t, pos + 1);
              ParseValue(t, pos, depth) ==
              if At(t, p) == ']' then Some((VList([]), p + 1))
              else match ParseItems(t, p, depth + 1) case None => None case Some((vs, q)) => Some((VList(vs), q))
  {
    hide ParseItems, SkipWs;
  }

  lemma {:induction false} ParsePrintedArr(gap: string, items: seq<Item>, t: string, pos: nat, depth: nat, rest: string)
    requires Written(Arr(gap, items)) && From(t, pos, Print(Arr(gap, items)) + rest)
    ensures var d := Arr(gap, items);
            ParseValue(t, pos, depth) == if Room(Nesting(d), depth) then Some((Says(d), pos + |Print(d)|)) else None
    decreases items, 3
  {
    hide ParseItems, ParseValue, SkipWs, PrintItems, SaysItems, WrittenItems, NestingItems, Blank;
    if items == [] {
      NoItems();
      assert Print(Arr(gap, items)) + rest == ['['] + (gap + ([']'] + rest));
      AtFront(t, pos, '[', gap + ([']'] + rest));
      ValueIsList(t, pos, depth);
      SkipBlank(t, pos + 1, gap, [']'] + rest);
      AtFront(t, pos + 1 + |gap|, ']', rest);
    } else {
      var body := PrintItems(items);
      assert Print(Arr(gap, items)) + rest == ['['] + (body + rest);
      AtFront(t, pos, '[', body + rest);
      ValueIsList(t, pos, depth);
      ParsePrintedItems(items, t, pos + 1, depth + 1, rest);
    }
  }

  lemma {:induction false} NoItems()
    ensures SaysItems([]) == [] && NestingItems([]) == 0 && SaysFields([]) == [] && NestingFields([]) == 0
  {
  }

  /** What follows the text of an item: its end blank, then the end of the list or a comma and the other items. */
  function AfterItem(items: seq<Item>, rest: string): (s: string)
    requires items != []
  {
    if |items| == 1 then "]" + rest else "," + (PrintItems(items[1..]) + rest)
  }

  lemma {:induction false} SplitItems(items: seq<Item>, rest: string)
    requires items != []
    ensures PrintItems(items) + rest ==
            items[0].before + (Print(items[0].value) + (items[0].after + AfterItem(items, rest)))
    ensures |PrintItems(items)| == |items[0].before| + |Print(items[0].value)| + |items[0].after| + 1 +
                                   if |items| == 1 then 0 else |PrintItems(items[1..])|
  {
    hide Print;
    var i := items[0];
    Regroup(i.before, Print(i.value), i.after, if |items| == 1 then "]" else "," + PrintItems(items[1..]), rest);
    assert |items| > 1 ==> "," + PrintItems(items[1..]) + rest == "," + (PrintItems(items[1..]) + rest);
  }

  lemma {:induction false} Regroup(a: string, b: string, c: string, d: string, e: string)
    ensures a + b + c + d + e == a + (b + (c + (d + e)))
  {
  }

  /** What comes after an item cannot go on a number, and is no blank after its own. */
  lemma {:induction false} AfterEnds(blank: string, next: char, rest: string)
    requires Blank(blank) && (next == ',' || next == ']' || next == '}')
    ensures Ends(blank + ([next] + rest)) && !IsWs(next)
  {
    if blank != "" {
      assert (blank + ([next] + rest))[0] == blank[0];
      BlankNoNumber(blank[0]);
    }
  }

  lemma {:induction false} BlankNoNumber(c: char)
    requires c in " \t\r\n"
    ensures !NumberChar(c)
  {
  }

  lemma {:induction false} ItemsUnfold(t: string, pos: nat, depth: nat)
    requires pos <= |t|
    ensures match ParseValue(t, pos, depth + 1)
            case None => ParseItems(t, pos, depth) == None
            case Some((v, p)) =>
              var q := SkipWs(t, p);
              ParseItems(t, pos, depth) ==
              if At(t, q) == ']' then Some(([v], q + 1))
              else if At(t, q) != ',' then None
              else match ParseItems(t, SkipWs(t, q + 1), depth) case None => None case Some((vs, e)) => Some(([v] + vs, e))
  {
    hide ParseValue, SkipWs;
  }

  lemma {:induction false} RoomOfMax(a: nat, b: nat, depth: nat)
    ensures Room(Max(a, b), depth) <==> Room(a, depth) && Room(b, depth)
  {
  }

  /** One item, with the blanks around it. */
  lemma {:induction false} ParsePrintedItem(i: Item, t: string, pos: nat, depth: nat, next: char, more: string)
    requires WrittenItem(i) && (next == ',' || next == ']')
    requires From(t, pos, i.before + (Print(i.value) + (i.after + ([next] + more))))
    ensures var p := SkipWs(t, pos);
            var q := pos + |i.before| + |Print(i.value)|;
            && p == pos + |i.before| <= |t| && At(t, p) != ']'
            && ParseValue(t, p, depth) == (if Room(Nesting(i.value), depth) then Some((SaysItem(i), q)) else None)
            && q <= |t| && SkipWs(t, q) == q + |i.after| < |t| && At(t, q + |i.after|) == next && From(t, q + |i.after| + 1, more)
    decreases i, 4
  {
    hide ParseValue, SkipWs, Blank, Ends, Print, Says, Room, IsWs, Written, From, At, Nesting;
    var tail := i.after + ([next] + more);
    var valued := Print(i.value) + tail;
    ValueFront(i.value, tail);
    SkipBlank(t, pos, i.before, valued);
    var p := pos + |i.before|;
    AfterEnds(i.after, next, more);
    ParsePrinted(i.value, t, p, depth, tail);
    AtFront(t, p, valued[0], valued[1..]);
    Suffix(t, p, Print(i.value), tail);
    SkipBlank(t, p + |Print(i.value)|, i.after, [next] + more);
    AtFront(t, p + |Print(i.value)| + |i.after|, next, more);
  }

  lemma {:induction false} ValueFront(d: Doc, tail: string)
    requires Written(d)
    ensures var valued := Print(d) + tail;
            valued != "" && valued == [valued[0]] + valued[1..] && !IsWs(valued[0]) && valued[0] != ']' && valued[0] != '}'
  {
    hide Print, Written, IsWs;
    DocStart(d);
  }

  lemma {:induction false} ParsePrintedItems(items: seq<Item>, t: string, pos: nat, depth: nat, rest: string)
    requires items != [] && WrittenItems(items) && From(t, pos, PrintItems(items) + rest)
    ensures var p := SkipWs(t, pos);
            && At(t, p) != ']'
            && ParseItems(t, p, depth) ==
               if Room(NestingItems(items), depth + 1) then Some((SaysItems(items), pos + |PrintItems(items)|)) else None
    decreases items, 2
  {
    hide ParseItems, ParseValue, SkipWs, PrintItems, Blank, Print, SaysItem, Room, IsWs, From, At, Nesting, WrittenItem;
    var i := items[0];
    var next := if |items| == 1 then ']' else ',';
    var more := if |items| == 1 then rest else PrintItems(items[1..]) + rest;
    assert AfterItem(items, rest) == [next] + more;
    SplitItems(items, rest);
    ParsePrintedItem(i, t, pos, depth + 1, next, more);
    ItemsUnfold(t, pos + |i.before|, depth);
    RoomOfMax(Nesting(i.value), NestingItems(items[1..]), depth + 1);
    if |items| == 1 {
      LastItem(items);
      NoRoomNeeded(depth + 1);
    } else {
      ParsePrintedItems(items[1..], t, pos + |i.before| + |Print(i.value)| + |i.after| + 1, depth, rest);
    }
  }

  lemma {:induction false} LastItem(items: seq<Item>)
    requires |items| == 1 && WrittenItems(items)
    ensures SaysItems(items) == [SaysItem(items[0])] && NestingItems(items[1..]) == 0
  {
    hide SaysItem, WrittenItem;
    assert items[1..] == [];
    assert [SaysItem(items[0])] + [] == [SaysItem(items[0])];
  }

  lemma {:induction false} LastField(fields: seq<Field>)
    requires |fields| == 1 && WrittenFields(fields)
    ensures SaysFields(fields) == [SaysField(fields[0])] && NestingFields(fields[1..]) == 0
  {
    hide SaysField, WrittenField;
    assert fields[1..] == [];
    assert [SaysField(fields[0])] + [] == [SaysField(fields[0])];
  }

  lemma {:induction false} NoRoomNeeded(depth: nat)
    ensures Room(0, depth)
  {
  }

  // ---------------------------------------------------------------- objects

  lemma {:induction false} ValueIsObject(t: string, pos: nat, depth: nat)
    requires pos < |t| && t[pos] == '{'
    ensures depth + 1 > 10000 ==> ParseValue(t, pos, depth) == None
    ensures depth + 1 <= 10000 ==>
              var p := SkipWs(t, pos + 1);
              ParseValue(t, pos, depth) ==
              if At(t, p) == '}' then Some((VObj([]), p + 1))
              else match ParseMembers(t, p, depth + 1) case None => None case Some((ms, q)) => Some((VObj(ms), q))
  {
    hide ParseMembers, SkipWs;
  }

  lemma {:induction false} ParsePrintedObj(gap: string, fields: seq<Field>, t: string, pos: nat, depth: nat, rest: string)
    requires Written(Obj(gap, fields)) && From(t, pos, Print(Obj(gap, fields)) + rest)
    ensures var d := Obj(gap, fields);
            ParseValue(t, pos, depth) == if Room(Nesting(d), depth) then Some((Says(d), pos + |Print(d)|)) else None
    decreases fields, 5
  {
    hide ParseMembers, ParseValue, SkipWs, PrintFields, SaysFields, WrittenFields, NestingFields, Blank;
    if fields == [] {
      NoItems();
      assert Print(Obj(gap, fields)) + rest == ['{'] + (gap + (['}'] + rest));
      AtFront(t, pos, '{', gap + (['}'] + rest));
      ValueIsObject(t, pos, depth);
      SkipBlank(t, pos + 1, gap, ['}'] + rest);
      AtFront(t, pos + 1 + |gap|, '}', rest);
    } else {
      var body := PrintFields(fields);
      assert Print(Obj(gap, fields)) + rest == ['{'] + (body + rest);
      AtFront(t, pos, '{', body + rest);
      ValueIsObject(t, pos, depth);
      ParsePrintedFields(fields, t, pos + 1, depth + 1, rest);
    }
  }

  function AfterField(fields: seq<Field>, rest: string): (s: string)
    requires fields != []
  {
    if |fields| == 1 then "}" + rest else "," + (PrintFields(fields[1..]) + rest)
  }

  /** A field from its key on, with what follows it. */
  function KeyOn(f: Field, after: string): (s: string) {
    "\"" + f.key + "\"" + (f.beforeColon + ([':'] + (f.afterColon + (Print(f.value) + (f.after + after)))))
  }

  lemma {:induction false} SplitFields(fields: seq<Field>, rest: string)
    requires fields != []
    ensures PrintFields(fields) + rest == fields[0].before + KeyOn(fields[0], AfterField(fields, rest))
    ensures |PrintFields(fields)| == |PrintField(fields[0])| + 1 + if |fields| == 1 then 0 else |PrintFields(fields[1..])|
    ensures var f := fields[0];
            |PrintField(f)| == |f.before| + |f.key| + 2 + |f.beforeColon| + 1 + |f.afterColon| + |Print(f.value)| + |f.after|
  {
    hide Print;
    var f := fields[0];
    var next := if |fields| == 1 then "}" else "," + PrintFields(fields[1..]);
    RegroupField(f.before, "\"" + f.key + "\"", f.beforeColon, f.afterColon, Print(f.value), f.after, next + rest);
    assert f.before + "\"" + f.key + "\"" == f.before + ("\"" + f.key + "\"");
    assert PrintField(f) + next + rest == PrintField(f) + (next + rest);
    assert |fields| > 1 ==> "," + PrintFields(fields[1..]) + rest == "," + (PrintFields(fields[1..]) + rest);
  }

  lemma {:induction false} RegroupField(a: string, k: string, b: string, c: string, v: string, d: string, e: string)
    ensures a + k + b + ":" + c + v + d + e == a + (k + (b + ([':'] + (c + (v + (d + e))))))
  {
  }

  lemma {:induction false} KeyFront(f: Field, after: string)
    ensures var keyed := KeyOn(f, after);
            keyed != "" && keyed[0] == '"' && keyed == ['"'] + keyed[1..]
  {
    hide Print;
  }

  lemma {:induction false} MemberUnfold(t: string, pos: nat, depth: nat)
    requires pos <= |t|
    ensures match ParseString(t, pos)
            case None => ParseMember(t, pos, depth) == None
            case Some((k, p)) =>
              var q := SkipWs(t, p);
              ParseMember(t, pos, depth) ==
              if At(t, q) != ':' then None
              else match ParseValue(t, SkipWs(t, q + 1), depth + 1) case None => None case Some((v, e)) => Some((RMember(k, v), e))
  {
    hide ParseValue, SkipWs, ParseString;
  }

  /** One field, from its key to the end of its value. */
  lemma {:induction false} ParsePrintedField(f: Field, t: string, pos: nat, depth: nat, after: string)
    requires WrittenField(f) && From(t, pos, KeyOn(f, after)) && Ends(f.after + after)
    ensures var e := pos + |f.key| + 2 + |f.beforeColon| + 1 + |f.afterColon| + |Print(f.value)|;
            && ParseMember(t, pos, depth) == (if Room(Nesting(f.value), depth + 1) then Some((SaysField(f), e)) else None)
            && From(t, e, f.after + after)
    decreases f, 4
  {
    hide ParseMember, ParseValue, ParseString, SkipWs, Blank, Ends, Print, Says, Room, IsWs, WellEscaped, Unescaped, From, At, Nesting, Written;
    var valued := Print(f.value) + (f.after + after);
    var fromColon := [':'] + (f.afterColon + valued);
    ParseStringAt(t, pos, f.key, f.beforeColon + fromColon);
    var p := pos + |f.key| + 2;
    assert !IsWs(':') by {
      BlankIsWs(':');
    }
    SkipBlank(t, p, f.beforeColon, fromColon);
    var q := p + |f.beforeColon|;
    AtFront(t, q, ':', f.afterColon + valued);
    ValueFront(f.value, f.after + after);
    SkipBlank(t, q + 1, f.afterColon, valued);
    var r := q + 1 + |f.afterColon|;
    ParsePrinted(f.value, t, r, depth + 1, f.after + after);
    Suffix(t, r, Print(f.value), f.after + after);
    MemberUnfold(t, pos, depth);
  }

  lemma {:induction false} MembersUnfold(t: string, pos: nat, depth: nat)
    requires pos <= |t|
    ensures match ParseMember(t, pos, depth)
            case None => ParseMembers(t, pos, depth) == None
            case Some((m, p)) =>
              var q := SkipWs(t, p);
              ParseMembers(t, pos, depth) ==
              if At(t, q) == '}' then Some(([m], q + 1))
              else if At(t, q) != ',' then None
              else match ParseMembers(t, SkipWs(t, q + 1), depth) case None => None case Some((ms, e)) => Some(([m] + ms, e))
  {
    hide ParseMember, SkipWs;
  }

  /** One field, with the blanks around it. */
  lemma {:induction false} ParsePrintedEntry(f: Field, t: string, pos: nat, depth: nat, next: char, more: string)
    requires WrittenField(f) && (next == ',' || next == '}') && From(t, pos, f.before + KeyOn(f, [next] + more))
    ensures var p := SkipWs(t, pos);
            var q := pos + |f.before| + |f.key| + 2 + |f.beforeColon| + 1 + |f.afterColon| + |Print(f.value)|;
            && p == pos + |f.before| <= |t| && At(t, p) != '}'
            && ParseMember(t, p, depth) == (if Room(Nesting(f.value), depth + 1) then Some((SaysField(f), q)) else None)
            && q <= |t| && SkipWs(t, q) == q + |f.after| < |t| && At(t, q + |f.after|) == next && From(t, q + |f.after| + 1, more)
    decreases f, 5
  {
    hide ParseMember, SkipWs, Blank, Ends, Print, SaysField, Room, IsWs, From, At, Nesting, KeyOn;
    var keyed := KeyOn(f, [next] + more);
    KeyFront(f, [next] + more);
    assert !IsWs('"') by {
      BlankIsWs('"');
    }
    SkipBlank(t, pos, f.before, keyed);
    var p := pos + |f.before|;
    AtFront(t, p, '"', keyed[1..]);
    AfterEnds(f.after, next, more);
    ParsePrintedField(f, t, p, depth, [next] + more);
    var q := p + |f.key| + 2 + |f.beforeColon| + 1 + |f.afterColon| + |Print(f.value)|;
    SkipBlank(t, q, f.after, [next] + more);
    AtFront(t, q + |f.after|, next, more);
  }

  lemma {:induction false} ParsePrintedFields(fields: seq<Field>, t: string, pos: nat, depth: nat, rest: string)
    requires fields != [] && WrittenFields(fields) && From(t, pos, PrintFields(fields) + rest)
    ensures var p := SkipWs(t, pos);
            && At(t, p) != '}'
            && ParseMembers(t, p, depth) ==
               if Room(NestingFields(fields), depth + 1) then Some((SaysFields(fields), pos + |PrintFields(fields)|)) else None
    decreases fields, 3
  {
    hide ParseMembers, ParseMember, SkipWs, PrintFields, Print, SaysField, Room, IsWs, PrintField, From, At, Nesting, KeyOn, WrittenField;
    var f := fields[0];
    var next := if |fields| == 1 then '}' else ',';
    var more := if |fields| == 1 then rest else PrintFields(fields[1..]) + rest;
    assert AfterField(fields, rest) == [next] + more;
    SplitFields(fields, rest);
    ParsePrintedEntry(f, t, pos, depth, next, more);
    MembersUnfold(t, pos + |f.before|, depth);
    RoomOfMax(Nesting(f.value), NestingFields(fields[1..]), depth + 1);
    if |fields| == 1 {
      LastField(fields);
      NoRoomNeeded(depth + 1);
    } else {
      var q := pos + |f.before| + |f.key| + 2 + |f.beforeColon| + 1 + |f.afterColon| + |Print(f.value)|;
      ParsePrintedFields(fields[1..], t, q + |f.after| + 1, depth, rest);
    }
  }

  // ---------------------------------------------------------------- whole texts

  lemma {:induction false} ParseTextPrinted(d: Doc, before: string, after: string, t: string, more: string)
    requires Written(d) && Blank(before) && Blank(after) && more != "" && more[0] == '\0'
    requires From(t, 0, before + (Print(d) + (after + more)))
    ensures ParseText(t) == if Room(Nesting(d), 0) then Some(Says(d)) else None
  {
    hide ParseValue, SkipWs, Blank, Ends, Print, Says, Nesting, IsWs, At, Written, From, Room;
    var tail := after + more;
    ValueFront(d, tail);
    NulEnds(after, more);
    SkipBlank(t, 0, before, Print(d) + tail);
    ParsePrinted(d, t, |before|, 0, tail);
    Suffix(t, |before|, Print(d), tail);
    var q := |before| + |Print(d)|;
    SkipBlank(t, q, after, more);
    assert more == [more[0]] + more[1..];
    AtFront(t, q + |after|, more[0], more[1..]);
  }

  /**
    A written value, with any blanks around it, is loaded as what it says up to 5000
    levels of nesting and refused beyond. A NUL ends the text, whatever follows it.
   */
  lemma {:induction false} LoadPrinted(d: Doc, before: string, after: string, rest: string)
    requires Written(d) && Blank(before) && Blank(after) && (rest == "" || rest[0] == '\0')
    ensures Load(before + Print(d) + after + rest) == if Nesting(d) <= 5000 then Some(Says(d)) else None
  {
    hide ParseText, Blank, Print, Says, Nesting, Written, From;
    WholeText(before, Print(d), after, rest);
    ParseTextPrinted(d, before, after, before + Print(d) + after + rest + ['\0'], rest + ['\0']);
  }

  lemma {:induction false} WholeText(a: string, b: string, c: string, d: string)
    ensures From(a + b + c + d + ['\0'], 0, a + (b + (c + (d + ['\0']))))
  {
  }

  lemma {:induction false} NulEnds(blank: string, rest: string)
    requires Blank(blank) && rest != "" && rest[0] == '\0'
    ensures Ends(blank + rest) && !IsWs('\0')
  {
    if blank != "" {
      assert (blank + rest)[0] == blank[0];
      BlankNoNumber(blank[0]);
    }
  }
}
