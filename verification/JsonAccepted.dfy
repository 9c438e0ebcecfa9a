/** Every text the parser accepts is a written one, and so the accepted texts are exactly these. */
module JsonAccepted {
  import opened Options
  import opened JsonString
  import opened JsonNumber
  import opened Json
  import opened JsonGrammar

  // ---------------------------------------------------------------- pieces of the text

  lemma {:induction false} SkippedBlank(t: string, pos: nat)
    requires pos <= |t|
    ensures Blank(t[pos..SkipWs(t, pos)])
    decreases |t| - pos
  {
    if IsWs(At(t, pos)) {
      BlankIsWs(t[pos]);
      SkippedBlank(t, pos + 1);
      var e := SkipWs(t, pos + 1);
      forall k | 0 <= k < |t[pos..e]|
        ensures t[pos..e][k] in " \t\r\n"
      {
        assert k > 0 ==> t[pos..e][k] == t[pos + 1..e][k - 1];
      }
    }
  }

  lemma {:induction false} Cut(t: string, a: nat, b: nat, c: nat)
    requires a <= b <= c <= |t|
    ensures t[a..c] == t[a..b] + t[b..c]
  {
  }

  lemma {:induction false} CutChar(t: string, a: nat, c: nat)
    requires a < c <= |t|
    ensures t[a..c] == [t[a]] + t[a + 1..c]
  {
  }

  lemma {:induction false} AtIs(t: string, pos: nat, c: char)
    requires At(t, pos) == c != '\0'
    ensures pos < |t| && t[pos] == c
  {
  }

  // ---------------------------------------------------------------- values

  lemma {:induction false} StringParsed(t: string, pos: nat) returns (body: string)
    requires pos <= |t| && ParseString(t, pos).Some?
    ensures var (s, e) := ParseString(t, pos).value;
            WellEscaped(body) && s == Unescaped(body) && t[pos..e] == "\"" + body + "\""
  {
    hide BodyLength, WellEscaped, Unescaped;
    AtIs(t, pos, '"');
    var after := t[pos + 1..];
    BodyWellEscaped(after);
    var n := BodyLength(after).value;
    body := after[..n];
    assert after[n] == t[pos + 1 + n] == '"';
    assert t[pos..pos + n + 2] == [t[pos]] + body + [t[pos + 1 + n]];
  }

  lemma {:induction false} LeafParsed(t: string, pos: nat, depth: nat) returns (d: Doc)
    requires pos <= |t| && ParseValue(t, pos, depth).Some? && At(t, pos) != '[' && At(t, pos) != '{'
    ensures var (v, e) := ParseValue(t, pos, depth).value;
            Written(d) && t[pos..e] == Print(d) && Says(d) == v && Room(Nesting(d), depth)
  {
    hide ParseList, ParseObject, ParseString, NumEnd, JsonNumber.Proper, NumTypeOf, WellEscaped, Unescaped, Spelled;
    var c := At(t, pos);
    if c == '"' {
      var body := StringParsed(t, pos);
      d := Str(body);
    } else if c == 't' {
      d := Bool(true);
    } else if c == 'f' {
      d := Bool(false);
    } else if c == 'n' {
      d := Null;
    } else {
      var n := NumberSpelled(t, pos);
      d := Number(n);
    }
  }

  lemma {:induction false} ValueParsed(t: string, pos: nat, depth: nat) returns (d: Doc)
    requires pos <= |t| && ParseValue(t, pos, depth).Some?
    ensures var (v, e) := ParseValue(t, pos, depth).value;
            Written(d) && t[pos..e] == Print(d) && Says(d) == v && Room(Nesting(d), depth)
    decreases |t| - pos, 2
  {
    hide ParseValue;
    if At(t, pos) == '[' {
      d := ListParsed(t, pos, depth);
    } else if At(t, pos) == '{' {
      d := ObjectParsed(t, pos, depth);
    } else {
      d := LeafParsed(t, pos, depth);
    }
  }

  lemma {:induction false} ListParsed(t: string, pos: nat, depth: nat) returns (d: Doc)
    requires pos <= |t| && ParseValue(t, pos, depth).Some? && At(t, pos) == '['
    ensures var (v, e) := ParseValue(t, pos, depth).value;
            Written(d) && t[pos..e] == Print(d) && Says(d) == v && Room(Nesting(d), depth)
    decreases |t| - pos, 1
  {
    hide ParseValue, ParseItems, SkipWs, Blank, PrintItems, SaysItems, NestingItems, WrittenItems;
    AtIs(t, pos, '[');
    ValueIsList(t, pos, depth);
    SkippedBlank(t, pos + 1);
    var p := SkipWs(t, pos + 1);
    var e := ParseValue(t, pos, depth).value.1;
    CutChar(t, pos, e);
    if At(t, p) == ']' {
      AtIs(t, p, ']');
      NoItems();
      NothingWritten();
      d := Arr(t[pos + 1..p], []);
      Cut(t, pos + 1, p, e);
      CutChar(t, p, e);
      assert t[p + 1..e] == "";
      assert "[" + t[pos + 1..p] + "]" == ['['] + (t[pos + 1..p] + ([']'] + ""));
    } else {
      var items := ItemsParsed(t, pos + 1, depth + 1);
      NothingBlank();
      d := Arr("", items);
    }
  }

  lemma {:induction false} NothingWritten()
    ensures WrittenItems([]) && WrittenFields([])
  {
  }

  lemma {:induction false} NothingBlank()
    ensures Blank("")
  {
  }

  /** The items from the blank before the first to the end of their list. */
  lemma {:induction false} ItemsParsed(t: string, pos: nat, depth: nat) returns (items: seq<Item>)
    requires pos <= |t| && ParseItems(t, SkipWs(t, pos), depth).Some?
    ensures var (vs, e) := ParseItems(t, SkipWs(t, pos), depth).value;
            && items != [] && WrittenItems(items) && t[pos..e] == PrintItems(items)
            && SaysItems(items) == vs && Room(NestingItems(items), depth + 1)
    decreases |t| - pos, 3
  {
    hide ParseValue, ParseItems, SkipWs, Blank, Print, Says, Nesting, Written, Room, SaysItems, PrintItems, WrittenItems, NestingItems;
    var p := SkipWs(t, pos);
    SkippedBlank(t, pos);
    ItemsUnfold(t, p, depth);
    var q := ParseValue(t, p, depth + 1).value.1;
    var v := ValueParsed(t, p, depth + 1);
    var r := SkipWs(t, q);
    SkippedBlank(t, q);
    var i := Item(t[pos..p], v, t[q..r]);
    ItemText(t, pos, p, q, r, i);
    AtIs(t, r, if At(t, r) == ']' then ']' else ',');
    if At(t, r) == ']' {
      items := [i];
      OneItem(i);
      Cut(t, pos, r, r + 1);
      assert t[r..r + 1] == [t[r]] == "]";
    } else {
      var rest := ItemsParsed(t, r + 1, depth);
      items := [i] + rest;
      MoreItems(i, rest, depth + 1);
      var e := ParseItems(t, p, depth).value.1;
      Cut(t, pos, r, e);
      CutChar(t, r, e);
      assert "," + PrintItems(rest) == [','] + t[r + 1..e];
    }
  }

  lemma {:induction false} ItemText(t: string, pos: nat, p: nat, q: nat, r: nat, i: Item)
    requires pos <= p <= q <= r <= |t|
    requires i.before == t[pos..p] && Print(i.value) == t[p..q] && i.after == t[q..r]
    ensures PrintItem(i) == t[pos..r]
  {
    hide Print;
    Cut(t, pos, p, q);
    Cut(t, pos, q, r);
  }

  lemma {:induction false} OneItem(i: Item)
    requires WrittenItem(i)
    ensures WrittenItems([i]) && PrintItems([i]) == PrintItem(i) + "]"
    ensures SaysItems([i]) == [SaysItem(i)] && NestingItems([i]) == Nesting(i.value)
  {
    hide WrittenItem, PrintItem, SaysItem, Nesting;
    assert [i][1..] == [];
    NothingWritten();
    NoItems();
    LastItem([i]);
    MaxZero(Nesting(i.value));
  }

  lemma {:induction false} MaxZero(n: nat)
    ensures Max(n, 0) == n
  {
  }

  lemma {:induction false} MoreItems(i: Item, rest: seq<Item>, depth: nat)
    requires WrittenItem(i) && WrittenItems(rest) && rest != []
    ensures var items := [i] + rest;
            && WrittenItems(items) && PrintItems(items) == PrintItem(i) + ("," + PrintItems(rest))
            && SaysItems(items) == [SaysItem(i)] + SaysItems(rest)
            && (Room(NestingItems(items), depth) <==> Room(Nesting(i.value), depth) && Room(NestingItems(rest), depth))
  {
    hide WrittenItem, PrintItem, SaysItem, Nesting, Room;
    assert ([i] + rest)[1..] == rest;
    RoomOfMax(Nesting(i.value), NestingItems(rest), depth);
  }

  lemma {:induction false} ObjectParsed(t: string, pos: nat, depth: nat) returns (d: Doc)
    requires pos <= |t| && ParseValue(t, pos, depth).Some? && At(t, pos) == '{'
    ensures var (v, e) := ParseValue(t, pos, depth).value;
            Written(d) && t[pos..e] == Print(d) && Says(d) == v && Room(Nesting(d), depth)
    decreases |t| - pos, 1
  {
    hide ParseValue, ParseMembers, SkipWs, Blank, PrintFields, SaysFields, NestingFields, WrittenFields;
    AtIs(t, pos, '{');
    ValueIsObject(t, pos, depth);
    SkippedBlank(t, pos + 1);
    var p := SkipWs(t, pos + 1);
    var e := ParseValue(t, pos, depth).value.1;
    CutChar(t, pos, e);
    if At(t, p) == '}' {
      AtIs(t, p, '}');
      NoItems();
      NothingWritten();
      d := Obj(t[pos + 1..p], []);
      Cut(t, pos + 1, p, e);
      CutChar(t, p, e);
      assert t[p + 1..e] == "";
      assert "{" + t[pos + 1..p] + "}" == ['{'] + (t[pos + 1..p] + (['}'] + ""));
    } else {
      var fields := FieldsParsed(t, pos + 1, depth + 1);
      NothingBlank();
      d := Obj("", fields);
    }
  }

  /** A field, from the blank before it to the blank after it. */
  lemma {:induction false} FieldParsed(t: string, pos: nat, depth: nat) returns (f: Field)
    requires pos <= |t| && ParseMember(t, SkipWs(t, pos), depth).Some?
    ensures var (m, e) := ParseMember(t, SkipWs(t, pos), depth).value;
            && WrittenField(f) && SaysField(f) == m && Room(Nesting(f.value), depth + 1)
            && f.after == t[e..SkipWs(t, e)] && t[pos..SkipWs(t, e)] == PrintField(f)
    decreases |t| - pos, 3
  {
    hide ParseValue, ParseMember, ParseString, SkipWs, Blank, Print, Says, Nesting, Written, Room, WellEscaped, Unescaped, PrintField;
    var p := SkipWs(t, pos);
    SkippedBlank(t, pos);
    MemberUnfold(t, p, depth);
    var key := StringParsed(t, p);
    var k := ParseString(t, p).value.1;
    var q := SkipWs(t, k);
    SkippedBlank(t, k);
    AtIs(t, q, ':');
    var r := SkipWs(t, q + 1);
    SkippedBlank(t, q + 1);
    var v := ValueParsed(t, r, depth + 1);
    var e := ParseValue(t, r, depth + 1).value.1;
    var s := SkipWs(t, e);
    SkippedBlank(t, e);
    f := Field(t[pos..p], key, t[k..q], t[q + 1..r], v, t[e..s]);
    FieldText(t, pos, p, k, q, r, e, s, f);
  }

  lemma {:induction false} FieldText(t: string, pos: nat, p: nat, k: nat, q: nat, r: nat, e: nat, s: nat, f: Field)
    requires pos <= p <= k <= q < r <= e <= s <= |t| && t[q] == ':'
    requires f.before == t[pos..p] && "\"" + f.key + "\"" == t[p..k] && f.beforeColon == t[k..q] && f.afterColon == t[q + 1..r]
    requires Print(f.value) == t[r..e] && f.after == t[e..s]
    ensures PrintField(f) == t[pos..s]
  {
    hide Print;
    Cut(t, pos, p, k);
    Cut(t, pos, k, q);
    Cut(t, pos, q, q + 1);
    assert t[q..q + 1] == ":";
    Cut(t, pos, q + 1, r);
    Cut(t, pos, r, e);
    Cut(t, pos, e, s);
    assert f.before + "\"" + f.key + "\"" == f.before + ("\"" + f.key + "\"");
  }

  lemma {:induction false} FieldsParsed(t: string, pos: nat, depth: nat) returns (fields: seq<Field>)
    requires pos <= |t| && ParseMembers(t, SkipWs(t, pos), depth).Some?
    ensures var (ms, e) := ParseMembers(t, SkipWs(t, pos), depth).value;
            && fields != [] && WrittenFields(fields) && t[pos..e] == PrintFields(fields)
            && SaysFields(fields) == ms && Room(NestingFields(fields), depth + 1)
    decreases |t| - pos, 4
  {
    hide ParseMember, ParseMembers, SkipWs, Blank, PrintField, SaysField, Nesting, WrittenField, Room;
    var p := SkipWs(t, pos);
    MembersUnfold(t, p, depth);
    var q := ParseMember(t, p, depth).value.1;
    var f := FieldParsed(t, pos, depth);
    var r := SkipWs(t, q);
    AtIs(t, r, if At(t, r) == '}' then '}' else ',');
    if At(t, r) == '}' {
      fields := [f];
      OneField(f);
      Cut(t, pos, r, r + 1);
      assert t[r..r + 1] == [t[r]] == "}";
    } else {
      var rest := FieldsParsed(t, r + 1, depth);
      fields := [f] + rest;
      MoreFields(f, rest, depth + 1);
      var e := ParseMembers(t, p, depth).value.1;
      Cut(t, pos, r, e);
      CutChar(t, r, e);
      assert "," + PrintFields(rest) == [','] + t[r + 1..e];
    }
  }

  lemma {:induction false} OneField(f: Field)
    requires WrittenField(f)
    ensures WrittenFields([f]) && PrintFields([f]) == PrintField(f) + "}"
    ensures SaysFields([f]) == [SaysField(f)] && NestingFields([f]) == Nesting(f.value)
  {
    hide WrittenField, PrintField, SaysField, Nesting;
    assert [f][1..] == [];
    NothingWritten();
    NoItems();
    LastField([f]);
    MaxZero(Nesting(f.value));
  }

  lemma {:induction false} MoreFields(f: Field, rest: seq<Field>, depth: nat)
    requires WrittenField(f) && WrittenFields(rest) && rest != []
    ensures var fields := [f] + rest;
            && WrittenFields(fields) && PrintFields(fields) == PrintField(f) + ("," + PrintFields(rest))
            && SaysFields(fields) == [SaysField(f)] + SaysFields(rest)
            && (Room(NestingFields(fields), depth) <==> Room(Nesting(f.value), depth) && Room(NestingFields(rest), depth))
  {
    hide WrittenField, PrintField, SaysField, Nesting, Room;
    assert ([f] + rest)[1..] == rest;
    RoomOfMax(Nesting(f.value), NestingFields(rest), depth);
  }

  // ---------------------------------------------------------------- whole texts

  predicate Surrounded(x: string, d: Doc, before: string, after: string, rest: string) {
    && Blank(before) && Blank(after) && (rest == "" || rest[0] == '\0')
    && x == before + Print(d) + after + rest
  }

  /** `x` is a written text, with blanks around it, up to its end or a NUL. */
  ghost predicate Spells(x: string, d: Doc) { exists before, after, rest :: Surrounded(x, d, before, after, rest) }

  lemma {:induction false} SpelledNoNul(n: Numeral)
    requires JsonNumber.Proper(n)
    ensures forall c :: c in Spelled(n) ==> c != '\0'
  {
    var s := Spelled(n);
    assert '\0' !in n.whole;
    assert '\0' !in FractionText(n.fraction);
    assert '\0' !in ExponentText(n.exponent);
  }

  /** No value ends with a NUL. */
  lemma {:induction false} DocEnd(d: Doc)
    requires Written(d)
    ensures Print(d) != "" && Print(d)[|Print(d)| - 1] != '\0'
  {
    DocStart(d);
    match d
    case Number(n) =>
      SpelledNoNul(n);
      hide Spelled;
      assert Print(d)[|Print(d)| - 1] in Spelled(n);
    case Arr(gap, items) =>
      if items != [] {
        ItemsEnd(items);
      }
    case Obj(gap, fields) =>
      if fields != [] {
        FieldsEnd(fields);
      }
    case _ =>
  }

  lemma {:induction false} ItemsEnd(items: seq<Item>)
    requires items != []
    ensures PrintItems(items) != "" && PrintItems(items)[|PrintItems(items)| - 1] == ']'
  {
    hide PrintItem;
    if |items| > 1 {
      ItemsEnd(items[1..]);
    }
  }

  lemma {:induction false} FieldsEnd(fields: seq<Field>)
    requires fields != []
    ensures PrintFields(fields) != "" && PrintFields(fields)[|PrintFields(fields)| - 1] == '}'
  {
    hide PrintField;
    if |fields| > 1 {
      FieldsEnd(fields[1..]);
    }
  }

  lemma {:induction false} TextParsed(x: string) returns (d: Doc)
    requires Load(x).Some?
    ensures Written(d) && Nesting(d) <= 5000 && Says(d) == Load(x).value && Spells(x, d)
  {
    hide ParseValue, SkipWs, Blank, Print, Says, Nesting, Written;
    var t := x + ['\0'];
    var p := SkipWs(t, 0);
    SkippedBlank(t, 0);
    var q := ParseValue(t, p, 0).value.1;
    d := ValueParsed(t, p, 0);
    DocEnd(d);
    assert t[p..q][q - p - 1] == t[q - 1];
    assert q <= |x|;
    var r := SkipWs(t, q);
    BeforeNul(t, q);
    SkippedBlank(t, q);
    Cut(t, 0, p, q);
    Cut(t, 0, q, r);
    var rest := x[r..];
    assert rest != "" ==> rest[0] == t[r];
    assert x == t[0..p] + Print(d) + t[q..r] + rest;
    assert Surrounded(x, d, t[0..p], t[q..r], rest);
  }

  lemma {:induction false} BeforeNul(t: string, pos: nat)
    requires pos < |t| && t[|t| - 1] == '\0'
    ensures SkipWs(t, pos) < |t|
    decreases |t| - pos
  {
    if IsWs(t[pos]) {
      BeforeNul(t, pos + 1);
    }
  }

  /**
    What loading accepts and what it makes of it: a text loads if and only if it
    spells a written value nested at most 5000 deep, and then it loads as what that says.
   */
  lemma {:induction false} LoadIff(x: string, v: RView)
    ensures Load(x) == Some(v) <==> exists d :: Written(d) && Nesting(d) <= 5000 && Says(d) == v && Spells(x, d)
  {
    hide Load, Blank, Print, Says, Nesting, Written;
    if Load(x) == Some(v) {
      var d := TextParsed(x);
    }
    if d :| Written(d) && Nesting(d) <= 5000 && Says(d) == v && Spells(x, d) {
      var before, after, rest :| Surrounded(x, d, before, after, rest);
      LoadPrinted(d, before, after, rest);
    }
  }
}
