/** Parsing a printed value gives the value back, exactly up to 5000 levels of nesting. */
module JsonRoundTrip {
  import opened Options
  import opened Limits
  import opened JsonString
  import opened JsonNumber
  import opened JsonGrammar
  import opened Json
  import Decimal

  // ---------------------------------------------------------------- a printed value as a text

  /** The numeral of a printed integer. */
  function IntNumeral(i: int): (n: Numeral) { Numeral(i < 0, Decimal.Digits(if i < 0 then -i else i), None, None) }

  /** A printed value is a text without blanks, with plain integers and the printer's escapes. */
  function Bare(w: WValue): (d: Doc)
    decreases w, 1
  {
    match w
    case WNull => Null
    case WBool(b) => Bool(b)
    case WInt(i) => Number(IntNumeral(i))
    case WUint(u) => Number(IntNumeral(u))
    case WStr(s) => Str(Escaped(s))
    case WList(items) => Arr("", BareItems(items))
    case WObj(members) => Obj("", BareFields(members))
  }

  function BareItems(ws: seq<WValue>): (items: seq<Item>)
    ensures |items| == |ws|
    decreases ws, 0
  {
    if ws == [] then [] else [Item("", Bare(ws[0]), "")] + BareItems(ws[1..])
  }

  function BareField(m: Member): (f: Field)
    decreases m, 1
  {
    Field("", Escaped(m.key), "", "", Bare(m.value), "")
  }

  function BareFields(ms: seq<Member>): (fields: seq<Field>)
    ensures |fields| == |ms|
    decreases ms, 0
  {
    if ms == [] then [] else [BareField(ms[0])] + BareFields(ms[1..])
  }

  lemma {:induction false} BareInt(i: int)
    ensures var d := Number(IntNumeral(i));
            && Written(d) && Print(d) == Decimal.IntText(i)
            && Says(d) == VNum(if i < 0 then SignedInteger else UnsignedInteger, Decimal.IntText(i))
  {
    var n := IntNumeral(i);
    var s := Decimal.Digits(if i < 0 then -i else i);
    assert "" + s == s && s + "" == s && "-" + s + "" == "-" + s;
    NumberType(n);
  }

  /** The text of a printed value is what the printer writes, and says what the value shows. */
  lemma {:induction false} BareIs(w: WValue)
    ensures Written(Bare(w)) && Print(Bare(w)) == Dump(w) && Says(Bare(w)) == Shown(w)
    decreases w, 1
  {
    hide Unit, UnitBytes, WellEscaped, Unescaped, Escaped;
    match w
    case WInt(i) => BareInt(i);
    case WUint(u) => BareInt(u);
    case WStr(s) => UnescapeEscaped(s);
    case WList(items) =>
      BareItemsAre(items);
      assert items != [] ==> "[" + (DumpItems(items) + "]") == "[" + DumpItems(items) + "]";
      assert "[" + "" + "]" == "[" + "]";
    case WObj(members) =>
      BareFieldsAre(members);
      assert members != [] ==> "{" + (DumpMembers(members) + "}") == "{" + DumpMembers(members) + "}";
      assert "{" + "" + "}" == "{" + "}";
    case _ =>
  }

  lemma {:induction false} BareItemsAre(ws: seq<WValue>)
    ensures WrittenItems(BareItems(ws)) && SaysItems(BareItems(ws)) == ShownItems(ws)
    ensures ws != [] ==> PrintItems(BareItems(ws)) == DumpItems(ws) + "]"
    decreases ws, 0
  {
    hide Bare, Dump, Shown, Print, Says, Written;
    if ws != [] {
      BareIs(ws[0]);
      BareItemsAre(ws[1..]);
      var i := Item("", Bare(ws[0]), "");
      var rest := BareItems(ws[1..]);
      assert ([i] + rest)[1..] == rest;
      var d := Dump(ws[0]);
      assert "" + d + "" == d;
      if |ws| == 1 {
        assert d + "" == d;
      } else {
        assert d + ("," + (DumpItems(ws[1..]) + "]")) == d + ("," + DumpItems(ws[1..])) + "]";
      }
    }
  }

  lemma {:induction false} BareFieldIs(m: Member)
    ensures WrittenField(BareField(m)) && SaysField(BareField(m)) == ShownMember(m) && PrintField(BareField(m)) == DumpMember(m)
    decreases m, 1
  {
    hide Dump, Shown, Print, Says, Written, WellEscaped, Unescaped, Escaped;
    BareIs(m.value);
    UnescapeEscaped(m.key);
    var k, v := "\"" + Escaped(m.key) + "\"", Dump(m.value);
    assert "" + "\"" + Escaped(m.key) + "\"" == k;
    assert k + "" + ":" + "" + v + "" == k + ":" + v;
  }

  lemma {:induction false} BareFieldsAre(ms: seq<Member>)
    ensures WrittenFields(BareFields(ms)) && SaysFields(BareFields(ms)) == ShownMembers(ms)
    ensures ms != [] ==> PrintFields(BareFields(ms)) == DumpMembers(ms) + "}"
    decreases ms, 0
  {
    hide BareField, DumpMember, ShownMember, PrintField, SaysField, WrittenField;
    if ms != [] {
      BareFieldIs(ms[0]);
      BareFieldsAre(ms[1..]);
      var rest := BareFields(ms[1..]);
      assert ([BareField(ms[0])] + rest)[1..] == rest;
      var d := DumpMember(ms[0]);
      if |ms| == 1 {
        assert d + "" == d;
      } else {
        assert d + ("," + (DumpMembers(ms[1..]) + "}")) == d + ("," + DumpMembers(ms[1..])) + "}";
      }
    }
  }

  /** Loading a printed value shows that value up to 5000 levels of nesting, and is refused beyond. */
  lemma {:induction false} LoadDumped(w: WValue)
    ensures Load(Dump(w)) == if Nesting(Bare(w)) <= 5000 then Some(Shown(w)) else None
  {
    hide Load, Shown, Nesting, Bare, Print, Written, Says;
    BareIs(w);
    LoadPrinted(Bare(w), "", "", "");
    assert "" + Dump(w) + "" + "" == Dump(w);
  }

  // ---------------------------------------------------------------- reading the value back

  /** The values whose printed form is exact: integers within 64 bits, objects with distinct keys. */
  predicate Printable(w: WValue)
    decreases w, 1
  {
    match w
    case WInt(i) => INT64_MIN <= i <= INT64_MAX
    case WUint(u) => u <= UINT64_MAX
    case WList(items) => PrintableItems(items)
    case WObj(members) => PrintableMembers(members)
    case _ => true
  }

  predicate PrintableItems(ws: seq<WValue>)
    decreases ws, 0
  {
    ws == [] || (Printable(ws[0]) && PrintableItems(ws[1..]))
  }

  predicate PrintableMember(m: Member)
    decreases m, 1
  {
    Printable(m.value)
  }

  predicate PrintableMembers(ms: seq<Member>)
    decreases ms, 0
  {
    ms == [] || (PrintableMember(ms[0]) && (forall k :: 1 <= k < |ms| ==> ms[k].key != ms[0].key) && PrintableMembers(ms[1..]))
  }

  /** The 64-bit number a parsed text denotes, read as its kind of number says. */
  function ReadNumber(nt: NumType, text: string): (r: Option<WValue>) {
    match nt
    case UnsignedInteger =>
      if text != "" && Decimal.AllDigits(text) && Decimal.Value(text) <= UINT64_MAX then Some(WUint(Decimal.Value(text))) else None
    case SignedInteger =>
      if |text| > 1 && text[0] == '-' && Decimal.AllDigits(text[1..]) && 0 - Decimal.Value(text[1..]) >= INT64_MIN
      then Some(WInt(0 - Decimal.Value(text[1..]))) else None
    case FloatingPoint => None
  }

  /** A write value made from a parsed one; an object keeps the first member of each key. */
  function ReadBack(v: RView): (r: Option<WValue>)
    decreases v, 1
  {
    match v
    case VNull => Some(WNull)
    case VBool(b) => Some(WBool(b))
    case VNum(nt, text) => ReadNumber(nt, text)
    case VStr(s) => Some(WStr(s))
    case VList(items) => (match ReadItems(items) case None => None case Some(ws) => Some(WList(ws)))
    case VObj(members) => (match ReadMembers(members, {}) case None => None case Some(ms) => Some(WObj(ms)))
  }

  function ReadItems(vs: seq<RView>): (r: Option<seq<WValue>>)
    decreases vs, 0
  {
    if vs == [] then Some([])
    else
      match (ReadBack(vs[0]), ReadItems(vs[1..]))
      case (Some(w), Some(ws)) => Some([w] + ws)
      case _ => None
  }

  function ReadMember(v: RMember): (r: Option<Member>)
    decreases v, 1
  {
    match ReadBack(v.value) case None => None case Some(w) => Some(Member(v.key, w))
  }

  /** `seen` are the keys already emplaced. */
  function ReadMembers(vs: seq<RMember>, seen: set<string>): (r: Option<seq<Member>>)
    decreases vs, 0
  {
    if vs == [] then Some([])
    else
      match (ReadMember(vs[0]), ReadMembers(vs[1..], seen + {vs[0].key}))
      case (Some(m), Some(ms)) => Some((if m.key in seen then [] else [m]) + ms)
      case _ => None
  }

  predicate FirstOfKey(vs: seq<RMember>, k: nat)
    requires k < |vs|
  {
    forall j :: 0 <= j < k ==> vs[j].key != vs[k].key
  }

  /** Of several members with one key an object keeps exactly the first. */
  lemma {:induction false} FirstMembersKept(vs: seq<RMember>, seen: set<string>)
    requires ReadMembers(vs, seen).Some?
    ensures var ms := ReadMembers(vs, seen).value;
            forall m :: m in ms <==>
              exists k :: 0 <= k < |vs| && FirstOfKey(vs, k) && vs[k].key !in seen && ReadMember(vs[k]) == Some(m)
    decreases |vs|
  {
    hide ReadMember;
    if vs != [] {
      var v, rest := vs[0], vs[1..];
      FirstMembersKept(rest, seen + {v.key});
      MemberKey(v);
      forall k | 0 <= k < |rest|
        ensures FirstOfKey(vs, k + 1) && vs[k + 1].key !in seen <==> FirstOfKey(rest, k) && rest[k].key !in seen + {v.key}
      {
        assert vs[k + 1] == rest[k];
        assert forall j :: 0 < j < k + 1 ==> vs[j] == rest[j - 1];
        assert forall j :: 0 <= j < k ==> rest[j] == vs[j + 1];
      }
      assert FirstOfKey(vs, 0);
      var ms := ReadMembers(vs, seen).value;
      var tail := ReadMembers(rest, seen + {v.key}).value;
      forall m
        ensures m in ms <==> exists k :: 0 <= k < |vs| && FirstOfKey(vs, k) && vs[k].key !in seen && ReadMember(vs[k]) == Some(m)
      {
        if m in tail {
          var k :| 0 <= k < |rest| && FirstOfKey(rest, k) && rest[k].key !in seen + {v.key} && ReadMember(rest[k]) == Some(m);
          assert FirstOfKey(vs, k + 1) && vs[k + 1] == rest[k];
        }
        if k :| 0 <= k < |vs| && FirstOfKey(vs, k) && vs[k].key !in seen && ReadMember(vs[k]) == Some(m) {
          if k > 0 {
            assert FirstOfKey(rest, k - 1) && rest[k - 1] == vs[k];
          }
        }
      }
    }
  }

  lemma {:induction false} MemberKey(v: RMember)
    ensures ReadMember(v).Some? ==> ReadMember(v).value.key == v.key
  {
  }

  /** The value up to the signed/unsigned mark, which the text does not keep for non-negative numbers. */
  function Normal(w: WValue): (r: WValue)
    decreases w, 1
  {
    match w
    case WInt(i) => if i >= 0 then WUint(i) else w
    case WList(items) => WList(NormalItems(items))
    case WObj(members) => WObj(NormalMembers(members))
    case _ => w
  }

  function NormalItems(ws: seq<WValue>): (r: seq<WValue>)
    decreases ws, 0
  {
    if ws == [] then [] else [Normal(ws[0])] + NormalItems(ws[1..])
  }

  function NormalMember(m: Member): (r: Member)
    decreases m, 1
  {
    Member(m.key, Normal(m.value))
  }

  function NormalMembers(ms: seq<Member>): (r: seq<Member>)
    decreases ms, 0
  {
    if ms == [] then [] else [NormalMember(ms[0])] + NormalMembers(ms[1..])
  }

  lemma {:induction false} ReadPrintedInt(i: int)
    requires INT64_MIN <= i <= UINT64_MAX
    ensures ReadNumber(if i < 0 then SignedInteger else UnsignedInteger, Decimal.IntText(i)) ==
            Some(if i < 0 then WInt(i) else WUint(i))
  {
    if i < 0 {
      Decimal.ValueOfDigits(-i);
      assert Decimal.IntText(i)[1..] == Decimal.Digits(-i);
    } else {
      Decimal.ValueOfDigits(i);
    }
  }

  lemma {:induction false} ReadShown(w: WValue)
    requires Printable(w)
    ensures ReadBack(Shown(w)) == Some(Normal(w))
    decreases w, 1
  {
    match w
    case WInt(i) => ReadPrintedInt(i);
    case WUint(u) => ReadPrintedInt(u);
    case WList(items) => ReadShownItems(items);
    case WObj(members) => ReadShownMembers(members, {});
    case _ =>
  }

  lemma {:induction false} ReadShownItems(ws: seq<WValue>)
    requires PrintableItems(ws)
    ensures ReadItems(ShownItems(ws)) == Some(NormalItems(ws))
    decreases ws, 0
  {
    if ws != [] {
      ReadShown(ws[0]);
      ReadShownItems(ws[1..]);
      assert ShownItems(ws)[1..] == ShownItems(ws[1..]);
    }
  }

  lemma {:induction false} ReadShownMember(m: Member)
    requires PrintableMember(m)
    ensures ReadMember(ShownMember(m)) == Some(NormalMember(m))
    decreases m, 1
  {
    ReadShown(m.value);
  }

  lemma {:induction false} ReadShownMembers(ms: seq<Member>, seen: set<string>)
    requires PrintableMembers(ms)
    requires forall k :: 0 <= k < |ms| ==> ms[k].key !in seen
    ensures ReadMembers(ShownMembers(ms), seen) == Some(NormalMembers(ms))
    decreases ms, 0
  {
    if ms != [] {
      ReadShownMember(ms[0]);
      ReadShownMembers(ms[1..], seen + {ms[0].key});
      assert ShownMembers(ms)[0] == ShownMember(ms[0]) && ShownMembers(ms)[1..] == ShownMembers(ms[1..]);
    }
  }

  /** Printing, loading and reading back is the identity up to the signed/unsigned mark. */
  lemma {:induction false} RoundTrip(w: WValue)
    requires Printable(w) && Nesting(Bare(w)) <= 5000
    ensures Load(Dump(w)).Some? && ReadBack(Load(Dump(w)).value) == Some(Normal(w))
  {
    LoadDumped(w);
    ReadShown(w);
  }
}
