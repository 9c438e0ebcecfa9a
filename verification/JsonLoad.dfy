/** The recursive parser over its buffer, proved against the grammar. */
module JsonLoad {
  import opened Options
  import opened Text
  import opened JsonString
  import opened Json
  import opened JsonParser
  import Decimal

  // ---------------------------------------------------------------- steps of the grammar

  /** A body length seen from `k` bytes earlier. */
  function Later(k: nat, r: Option<nat>): (q: Option<nat>) {
    match r case None => None case Some(n) => Some(k + n)
  }

  lemma {:induction false} BodyUnfold(s: string)
    requires s != "" && s[0] != '"'
    ensures BodyLength(s) == if Unit(s) == 0 then None else Later(Unit(s), BodyLength(s[Unit(s)..]))
  {
    hide Unit;
  }

  lemma {:induction false} BodyStep(t: string, start: nat, pos: nat)
    requires start <= pos < |t| && t[pos] != '"'
    requires BodyLength(t[start..]) == Later(pos - start, BodyLength(t[pos..]))
    ensures var u := Unit(t[pos..]);
            && (u == 0 ==> BodyLength(t[start..]) == None)
            && (u != 0 ==> pos + u <= |t| && BodyLength(t[start..]) == Later(pos + u - start, BodyLength(t[pos + u..])))
  {
    hide Unit, BodyLength;
    BodyUnfold(t[pos..]);
    var u := Unit(t[pos..]);
    if u != 0 {
      assert t[pos..][u..] == t[pos + u..];
    }
  }

  lemma {:induction false} UnitAt(t: string, pos: nat)
    requires pos < |t|
    ensures Unit(t[pos..]) ==
            if t[pos] == '\\' then
              if At(t, pos + 1) == 'u' then
                if IsHex(At(t, pos + 2)) && IsHex(At(t, pos + 3)) && IsHex(At(t, pos + 4)) && IsHex(At(t, pos + 5)) then 6 else 0
              else if IsSimpleEscape(At(t, pos + 1)) then 2 else 0
            else if t[pos] == '"' || t[pos] == '\0' then 0 else 1
  {
    forall k: nat ensures At(t[pos..], k) == At(t, pos + k) {
    }
  }

  lemma {:induction false} PlainAt(t: string, pos: nat)
    requires pos < |t| && t[pos] != '\\' && t[pos] != '"'
    ensures Unit(t[pos..]) == if t[pos] == '\0' then 0 else 1
  {
  }

  /** More digits leave the state reached by a first non-zero digit as it is. */
  lemma {:induction false} DigitsAbsorbed(s: NumState, c: char, d: char)
    requires Decimal.IsDigit(c) && c != '0' && Decimal.IsDigit(d)
    ensures NumStep(NumStep(s, c), d) == NumStep(s, c)
  {
  }

  /** A list of items seen from after `done` of them. */
  function Prepend(done: seq<RView>, r: Option<(seq<RView>, nat)>): (q: Option<(seq<RView>, nat)>) {
    match r case None => None case Some((vs, e)) => Some((done + vs, e))
  }

  lemma {:induction false} ItemsStep(t: string, p0: nat, pos: nat, depth: nat, done: seq<RView>)
    requires p0 <= pos <= |t|
    requires ParseItems(t, p0, depth) == Prepend(done, ParseItems(t, pos, depth))
    ensures match ParseValue(t, pos, depth + 1)
            case None => ParseItems(t, p0, depth) == None
            case Some((v, p)) =>
              var q := SkipWs(t, p);
              if At(t, q) == ']' then ParseItems(t, p0, depth) == Some((done + [v], q + 1))
              else if At(t, q) != ',' then ParseItems(t, p0, depth) == None
              else ParseItems(t, p0, depth) == Prepend(done + [v], ParseItems(t, SkipWs(t, q + 1), depth))
  {
    hide ParseValue;
    match ParseValue(t, pos, depth + 1)
    case None =>
    case Some((v, p)) =>
      var q := SkipWs(t, p);
      if At(t, q) == ',' {
        match ParseItems(t, SkipWs(t, q + 1), depth)
        case None =>
        case Some((vs, e)) => assert done + ([v] + vs) == done + [v] + vs;
      }
  }

  function PrependMembers(done: seq<RMember>, r: Option<(seq<RMember>, nat)>): (q: Option<(seq<RMember>, nat)>) {
    match r case None => None case Some((vs, e)) => Some((done + vs, e))
  }

  lemma {:induction false} MembersStep(t: string, p0: nat, pos: nat, depth: nat, done: seq<RMember>)
    requires p0 <= pos <= |t|
    requires ParseMembers(t, p0, depth) == PrependMembers(done, ParseMembers(t, pos, depth))
    ensures match ParseMember(t, pos, depth)
            case None => ParseMembers(t, p0, depth) == None
            case Some((m, p)) =>
              var q := SkipWs(t, p);
              if At(t, q) == '}' then ParseMembers(t, p0, depth) == Some((done + [m], q + 1))
              else if At(t, q) != ',' then ParseMembers(t, p0, depth) == None
              else ParseMembers(t, p0, depth) == PrependMembers(done + [m], ParseMembers(t, SkipWs(t, q + 1), depth))
  {
    hide ParseMember;
    match ParseMember(t, pos, depth)
    case None =>
    case Some((m, p)) =>
      var q := SkipWs(t, p);
      if At(t, q) == ',' {
        match ParseMembers(t, SkipWs(t, q + 1), depth)
        case None =>
        case Some((ms, e)) => assert done + ([m] + ms) == done + [m] + ms;
      }
  }

  // ---------------------------------------------------------------- the parser

  class Parser {
    const buf: array<char>
    var data: nat
    /** The text the buffer held before parsing started. */
    ghost const text: string

    /** The bytes from the read position on are still the original ones, and the last byte is NUL. */
    ghost predicate Valid()
      reads this, buf
    {
      && 0 < |text| == buf.Length
      && text[|text| - 1] == '\0'
      && data < buf.Length
      && forall i :: data <= i < buf.Length ==> buf[i] == text[i]
    }

    constructor (buffer: array<char>)
      requires 0 < buffer.Length && buffer[buffer.Length - 1] == '\0'
      ensures Valid() && buf == buffer && text == buffer[..] && data == 0
    {
      buf, data := buffer, 0;
      text := buffer[..];
    }

    method Ws()
      requires Valid()
      modifies `data
      ensures Valid() && data == SkipWs(text, old(data))
    {
      while IsWs(buf[data])
        invariant Valid() && SkipWs(text, data) == SkipWs(text, old(data))
        decreases buf.Length - data
      {
        data := data + 1;
      }
    }

    /** The length of the escape at the read position, 0 when it is not accepted. */
    method EscapeLength() returns (n: nat)
      requires Valid() && buf[data] == '\\'
      ensures n == Unit(text[data..]) && data + n < buf.Length
    {
      hide Unit;
      UnitAt(text, data);
      if buf[data + 1] == 'u' {
        if IsHex(buf[data + 2]) && IsHex(buf[data + 3]) && IsHex(buf[data + 4]) && IsHex(buf[data + 5]) {
          n := 6;
        } else {
          n := 0;
        }
      } else if IsSimpleEscape(buf[data + 1]) {
        n := 2;
      } else {
        n := 0;
      }
    }

    /** Moves over a string body up to its closing quote. */
    method ScanBody() returns (ok: bool, escaping: bool)
      requires Valid()
      modifies `data
      ensures Valid()
      ensures ok <==> BodyLength(text[old(data)..]).Some?
      ensures ok ==> data == old(data) + BodyLength(text[old(data)..]).value && text[data] == '"'
      ensures ok && !escaping ==> '\\' !in text[old(data)..data]
    {
      hide BodyLength, Unit;
      escaping := false;
      ghost var start := data;
      assert text[start..data] == "";
      assert BodyLength(text[start..]).Some? ==> 0 + BodyLength(text[start..]).value == BodyLength(text[start..]).value;
      while buf[data] != '"'
        invariant Valid() && start <= data
        invariant BodyLength(text[start..]) == Later(data - start, BodyLength(text[data..]))
        invariant !escaping ==> '\\' !in text[start..data]
        decreases buf.Length - data
      {
        BodyStep(text, start, data);
        assert text[start..data + 1] == text[start..data] + [text[data]];
        if buf[data] == '\\' {
          escaping := true;
          var n := EscapeLength();
          if n == 0 {
            return false, escaping;
          }
          data := data + n;
        } else {
          PlainAt(text, data);
          if buf[data] == '\0' {
            return false, escaping;
          }
          data := data + 1;
        }
      }
      BodyEnds(text, data);
      ok := true;
    }

    /** A string: a flag replaces its opening quote and a NUL its closing one. */
    method DecodeString() returns (ok: bool, start: nat, end: nat)
      requires Valid()
      modifies `data, buf
      ensures ok <==> ParseString(text, old(data)).Some?
      ensures ok ==> Valid() && data == ParseString(text, old(data)).value.1 && old(data) < start <= end < data
      ensures ok ==> StrView(buf[..], start, end) == ParseString(text, old(data)).value.0
      ensures ok ==> buf[start - 1] != '\0' ==> WellEscaped(buf[start..end])
      ensures forall i :: 0 <= i < old(data) ==> buf[i] == old(buf[i])
    {
      hide BodyLength, Unit, WellEscaped, Unescaped, StrView;
      start, end := 0, 0;
      if buf[data] != '"' {
        return false, 0, 0;
      }
      ghost var p := data;
      data := data + 1;
      start := data;
      var escaping;
      ok, escaping := ScanBody();
      if !ok {
        return;
      }
      end := data;
      ghost var body := text[start..end];
      assert text[start..][..end - start] == body;
      BodyWellEscaped(text[start..]);
      buf[end] := '\0';
      buf[start - 1] := if escaping then '\U{0001}' else '\0';
      data := data + 1;
      assert buf[..][start..end] == buf[start..end] == body;
      StrViewOf(buf[..], start, end, body, escaping);
    }

    /** A number: the text accepted by the automaton. */
    method DecodeNumber() returns (ok: bool, start: nat)
      requires Valid()
      modifies `data
      ensures start == old(data)
      ensures ok <==> NumEnd(text, old(data), Minus).Some?
      ensures ok ==> Valid() && data == NumEnd(text, old(data), Minus).value
    {
      start := data;
      var state := Minus;
      while !state.Invalid?
        invariant start <= data <= buf.Length && (!state.Invalid? ==> data < buf.Length)
        invariant forall i :: 0 <= i < buf.Length ==> buf[i] == old(buf[i])
        invariant NumEnd(text, start, Minus) == NumEnd(text, data, state)
        decreases buf.Length - data
      {
        var c := buf[data];
        if !IsNumChar(c) {
          ok := state.ZeroFirst? || state.Digits? || state.AfterPoint? || state.AfterExp?;
          return;
        }
        state := NumStep(state, c);
        if Decimal.IsDigit(c) && c != '0' {
          data := MoreDigits(data, state, c);
        }
        data := data + 1;
      }
      ok := false;
    }

    /** The inner loop over the digits that follow a non-zero digit. */
    method MoreDigits(from: nat, state: NumState, ghost c: char) returns (last: nat)
      requires Valid() && data <= from < buf.Length - 1 && Decimal.IsDigit(c) && c != '0'
      requires exists s :: state == NumStep(s, c)
      ensures from <= last < buf.Length - 1
      ensures NumEnd(text, from + 1, state) == NumEnd(text, last + 1, state)
    {
      last := from;
      ghost var s :| state == NumStep(s, c);
      while Decimal.IsDigit(buf[last + 1])
        invariant from <= last < buf.Length - 1
        invariant NumEnd(text, from + 1, state) == NumEnd(text, last + 1, state)
        decreases buf.Length - last
      {
        DigitsAbsorbed(s, c, buf[last + 1]);
        last := last + 1;
      }
    }

    /** A fixed word, compared byte by byte. */
    method DecodeWord(w: string) returns (ok: bool)
      requires Valid() && forall k :: 0 <= k < |w| ==> w[k] != '\0'
      modifies `data
      ensures Valid() && (ok <==> Here(text, old(data), w))
      ensures data == if ok then old(data) + |w| else old(data)
    {
      var k := 0;
      while k < |w|
        invariant 0 <= k <= |w| && data + k < buf.Length
        invariant text[data..data + k] == w[..k]
      {
        assert Here(text, data, w) ==> text[data..data + |w|][k] == text[data + k];
        if buf[data + k] != w[k] {
          return false;
        }
        assert text[data..data + k + 1] == text[data..data + k] + [text[data + k]];
        k := k + 1;
      }
      data := data + |w|;
      ok := true;
    }

    method DecodeNumberValue() returns (ok: bool, r: RValue)
      requires Valid()
      modifies `data
      ensures ok <==> NumEnd(text, old(data), Minus).Some?
      ensures ok ==> Valid() && data == NumEnd(text, old(data), Minus).value && Within(r, old(data), data)
      ensures ok ==> ViewOf(r, buf[..]) == VNum(NumTypeOf(text[old(data)..data]), text[old(data)..data])
    {
      hide NumEnd;
      var start;
      ok, start := DecodeNumber();
      r := RNull;
      if ok {
        assert forall i :: 0 <= i < buf.Length ==> buf[i] == old(buf[i]);
        assert buf[start..data] == text[start..data];
        assert Slice(buf[..], start, data) == text[start..data];
        r := RNum(start, data, NumTypeOf(buf[start..data]));
      }
    }

    method DecodeList(depth: nat) returns (ok: bool, r: RValue)
      requires Valid() && buf[data] == '['
      modifies `data, buf
      ensures ok <==> ParseList(text, old(data), depth).Some?
      ensures ok ==> Valid() && data == ParseList(text, old(data), depth).value.1 && old(data) <= data
      ensures ok ==> Within(r, old(data), data) && ViewOf(r, buf[..]) == ParseList(text, old(data), depth).value.0
      ensures forall i :: 0 <= i < old(data) ==> buf[i] == old(buf[i])
      decreases buf.Length - data, 1
    {
      hide ParseItems;
      r := RList([]);
      if depth > MAX_DEPTH {
        return false, r;
      }
      data := data + 1;
      Ws();
      if buf[data] == ']' {
        data := data + 1;
        return true, r;
      }
      var items;
      ok, items := DecodeItems(depth, old(data));
      r := RList(items);
    }

    /** The loop over the items of a list. */
    method DecodeItems(depth: nat, ghost lo: nat) returns (ok: bool, items: seq<RValue>)
      requires Valid() && lo < data
      modifies `data, buf
      ensures ok <==> ParseItems(text, old(data), depth).Some?
      ensures ok ==> Valid() && data == ParseItems(text, old(data), depth).value.1 && old(data) <= data
      ensures ok ==> WithinItems(items, lo, data) && ViewItems(items, buf[..]) == ParseItems(text, old(data), depth).value.0
      ensures forall i :: 0 <= i <= lo ==> buf[i] == old(buf[i])
      decreases buf.Length - data, 3
    {
      hide ParseItems, ParseValue, WithinItems, ViewItems, Within, ViewOf;
      items := [];
      ghost var p0, done := data, [];
      NoItems(lo, data, buf[..]);
      PrependNothing(ParseItems(text, p0, depth));
      while true
        invariant Valid() && p0 <= data
        invariant forall i :: 0 <= i <= lo ==> buf[i] == old(buf[i])
        invariant WithinItems(items, lo, data) && ViewItems(items, buf[..]) == done
        invariant ParseItems(text, p0, depth) == Prepend(done, ParseItems(text, data, depth))
        decreases buf.Length - data
      {
        ItemsStep(text, p0, data, depth, done);
        ghost var pos, was := data, buf[..];
        var v;
        ok, v := DecodeValue(depth + 1);
        if !ok {
          return;
        }
        KeepItems(items, v, was, buf[..], lo, pos, data);
        ghost var next := data;
        Ws();
        items := items + [v];
        done := done + [ParseValue(text, pos, depth + 1).value.0];
        if buf[data] == ']' {
          data := data + 1;
          WithinItemsWider(items, lo, next, lo, data);
          return;
        }
        if buf[data] != ',' {
          ok := false;
          return;
        }
        data := data + 1;
        Ws();
        WithinItemsWider(items, lo, next, lo, data);
      }
    }

    method DecodeObject(depth: nat) returns (ok: bool, r: RValue)
      requires Valid() && buf[data] == '{'
      modifies `data, buf
      ensures ok <==> ParseObject(text, old(data), depth).Some?
      ensures ok ==> Valid() && data == ParseObject(text, old(data), depth).value.1 && old(data) <= data
      ensures ok ==> Within(r, old(data), data) && ViewOf(r, buf[..]) == ParseObject(text, old(data), depth).value.0
      ensures forall i :: 0 <= i < old(data) ==> buf[i] == old(buf[i])
      decreases buf.Length - data, 1
    {
      hide ParseMembers;
      r := RObj([]);
      if depth > MAX_DEPTH {
        return false, r;
      }
      data := data + 1;
      Ws();
      if buf[data] == '}' {
        data := data + 1;
        return true, r;
      }
      var members;
      ok, members := DecodeMembers(depth, old(data));
      r := RObj(members);
    }

    /** A key and its colon; the key is unescaped in place at once. */
    method DecodeKey() returns (ok: bool, start: nat, end: nat)
      requires Valid()
      modifies `data, buf
      ensures ok <==> ParseString(text, old(data)).Some? && At(text, SkipWs(text, ParseString(text, old(data)).value.1)) == ':'
      ensures ok ==> Valid() && data == SkipWs(text, ParseString(text, old(data)).value.1) + 1
      ensures ok ==> old(data) < start <= end < data && StrView(buf[..], start, end) == ParseString(text, old(data)).value.0
      ensures forall i :: 0 <= i < old(data) ==> buf[i] == old(buf[i])
    {
      hide ParseString, StrView, WellEscaped, Unescaped, SkipWs;
      ok, start, end := DecodeString();
      if !ok {
        return;
      }
      Ws();
      if buf[data] != ':' {
        ok := false;
        return;
      }
      data := data + 1;
      ghost var was, e := buf[..], end;
      end := Unescape(buf, start, end);
      KeyRead(was, buf[..], start, e, end);
    }

    /** One `"key": value` member. */
    method DecodeMember(depth: nat) returns (ok: bool, m: RKeyed)
      requires Valid()
      modifies `data, buf
      ensures ok <==> ParseMember(text, old(data), depth).Some?
      ensures ok ==> Valid() && data == ParseMember(text, old(data), depth).value.1 && old(data) <= data
      ensures ok ==> WithinMember(m, old(data), data) && ViewMember(m, buf[..]) == ParseMember(text, old(data), depth).value.0
      ensures forall i :: 0 <= i < old(data) ==> buf[i] == old(buf[i])
      decreases buf.Length - data, 3
    {
      hide ParseString, ParseValue, StrView, ViewOf, Within, SkipWs;
      m := RKeyed(0, 0, RNull);
      ghost var p := data;
      var start, end;
      ok, start, end := DecodeKey();
      if !ok {
        return;
      }
      Ws();
      ghost var pos, key := data, buf[..];
      var v;
      ok, v := DecodeValue(depth + 1);
      if ok {
        StrViewLocal(key, buf[..], p, pos, start, end);
        WithinWider(v, pos, data, p, data);
        m := RKeyed(start, end, v);
      }
    }

    /** The loop over the members of an object. */
    method DecodeMembers(depth: nat, ghost lo: nat) returns (ok: bool, members: seq<RKeyed>)
      requires Valid() && lo < data
      modifies `data, buf
      ensures ok <==> ParseMembers(text, old(data), depth).Some?
      ensures ok ==> Valid() && data == ParseMembers(text, old(data), depth).value.1 && old(data) <= data
      ensures ok ==> WithinMembers(members, lo, data) && ViewMembers(members, buf[..]) == ParseMembers(text, old(data), depth).value.0
      ensures forall i :: 0 <= i <= lo ==> buf[i] == old(buf[i])
      decreases buf.Length - data, 4
    {
      hide ParseMembers, ParseMember, WithinMembers, ViewMembers, WithinMember, ViewMember;
      members := [];
      ghost var p0, done := data, [];
      NoMembers(lo, data, buf[..]);
      PrependNoMembers(ParseMembers(text, p0, depth));
      while true
        invariant Valid() && p0 <= data
        invariant forall i :: 0 <= i <= lo ==> buf[i] == old(buf[i])
        invariant WithinMembers(members, lo, data) && ViewMembers(members, buf[..]) == done
        invariant ParseMembers(text, p0, depth) == PrependMembers(done, ParseMembers(text, data, depth))
        decreases buf.Length - data
      {
        MembersStep(text, p0, data, depth, done);
        ghost var pos, was := data, buf[..];
        var m;
        ok, m := DecodeMember(depth);
        if !ok {
          return;
        }
        KeepMembers(members, m, was, buf[..], lo, pos, data);
        ghost var next := data;
        Ws();
        members := members + [m];
        done := done + [ParseMember(text, pos, depth).value.0];
        if buf[data] == '}' {
          data := data + 1;
          WithinMembersWider(members, lo, next, lo, data);
          return;
        }
        if buf[data] != ',' {
          ok := false;
          return;
        }
        data := data + 1;
        Ws();
        WithinMembersWider(members, lo, next, lo, data);
      }
    }

    /** A value of any kind. */
    method DecodeValue(depth: nat) returns (ok: bool, r: RValue)
      requires Valid()
      modifies `data, buf
      ensures ok <==> ParseValue(text, old(data), depth).Some?
      ensures ok ==> Valid() && data == ParseValue(text, old(data), depth).value.1 && old(data) <= data
      ensures ok ==> Within(r, old(data), data) && ViewOf(r, buf[..]) == ParseValue(text, old(data), depth).value.0
      ensures forall i :: 0 <= i < old(data) ==> buf[i] == old(buf[i])
      decreases buf.Length - data, 2
    {
      hide ParseString, ParseList, ParseObject, NumEnd, StrView;
      var c := buf[data];
      if c == '[' {
        ok, r := DecodeList(depth + 1);
      } else if c == '{' {
        ok, r := DecodeObject(depth + 1);
      } else if c == '"' {
        var s, e;
        ok, s, e := DecodeString();
        r := RStr(s, e);
      } else if c == 't' {
        ok := DecodeWord("true");
        r := RBool(true);
      } else if c == 'f' {
        ok := DecodeWord("false");
        r := RBool(false);
      } else if c == 'n' {
        ok := DecodeWord("null");
        r := RNull;
      } else {
        ok, r := DecodeNumberValue();
      }
    }

    /** The whole buffer: one value surrounded by blanks, up to a NUL. */
    method Parse() returns (ok: bool, r: RValue)
      requires Valid() && data == 0
      modifies `data, buf
      ensures ok <==> ParseText(text).Some?
      ensures ok ==> ViewOf(r, buf[..]) == ParseText(text).value
    {
      hide ParseValue, ViewOf;
      Ws();
      ok, r := DecodeValue(0);
      if ok {
        Ws();
        ok := buf[data] == '\0';
      }
    }
  }

  /** Copies a text into a fresh NUL-terminated buffer and parses it there. */
  method LoadText(input: string) returns (ok: bool, r: RValue, buf: array<char>)
    ensures ok <==> Load(input).Some?
    ensures ok ==> ViewOf(r, buf[..]) == Load(input).value
    ensures fresh(buf)
  {
    hide ParseText, ViewOf;
    var n := |input|;
    buf := new char[n + 1](i requires 0 <= i <= n => if i < n then input[i] else '\0');
    assert buf[..] == input + ['\0'];
    var parser := new Parser(buf);
    ok, r := parser.Parse();
  }

  lemma {:induction false} NoItems(lo: nat, hi: nat, b: string)
    ensures WithinItems([], lo, hi) && ViewItems([], b) == []
  {
  }

  lemma {:induction false} PrependNothing(r: Option<(seq<RView>, nat)>)
    ensures Prepend([], r) == r
  {
    match r case None => case Some((vs, e)) => assert [] + vs == vs;
  }

  /** The items read so far keep what they show while the next one is parsed behind them. */
  lemma {:induction false} KeepItems(items: seq<RValue>, v: RValue, was: string, now: string, lo: nat, pos: nat, hi: nat)
    requires WithinItems(items, lo, pos) && Within(v, pos, hi) && lo <= pos <= hi <= |was| == |now|
    requires forall i :: 0 <= i < pos ==> was[i] == now[i]
    ensures WithinItems(items + [v], lo, hi)
    ensures ViewItems(items + [v], now) == ViewItems(items, was) + [ViewOf(v, now)]
  {
    ViewItemsLocal(items, was, now, lo, pos);
    WithinItemsWider(items, lo, pos, lo, hi);
    WithinWider(v, pos, hi, lo, hi);
    ItemsSnoc(items, v, now, lo, hi);
  }

  lemma {:induction false} NoMembers(lo: nat, hi: nat, b: string)
    ensures WithinMembers([], lo, hi) && ViewMembers([], b) == []
  {
  }

  lemma {:induction false} PrependNoMembers(r: Option<(seq<RMember>, nat)>)
    ensures PrependMembers([], r) == r
  {
    match r case None => case Some((vs, e)) => assert [] + vs == vs;
  }

  lemma {:induction false} KeepMembers(ms: seq<RKeyed>, m: RKeyed, was: string, now: string, lo: nat, pos: nat, hi: nat)
    requires WithinMembers(ms, lo, pos) && WithinMember(m, pos, hi) && lo <= pos <= hi <= |was| == |now|
    requires forall i :: 0 <= i < pos ==> was[i] == now[i]
    ensures WithinMembers(ms + [m], lo, hi)
    ensures ViewMembers(ms + [m], now) == ViewMembers(ms, was) + [ViewMember(m, now)]
  {
    ViewMembersLocal(ms, was, now, lo, pos);
    WithinMembersWider(ms, lo, pos, lo, hi);
    WithinMemberWider(m, pos, hi, lo, hi);
    MembersSnoc(ms, m, now, lo, hi);
  }

  /** Unescaping a string in place does not change what it shows. */
  lemma {:induction false} KeyRead(was: string, now: string, s: nat, e: nat, newEnd: nat)
    requires 0 < s <= newEnd <= e < |was| == |now|
    requires was[s - 1] != '\0' ==> WellEscaped(was[s..e]) && now[s..newEnd] == Unescaped(was[s..e])
    requires was[s - 1] == '\0' ==> newEnd == e && now == was
    requires now[s - 1] == '\0'
    ensures StrView(now, s, newEnd) == StrView(was, s, e)
  {
  }

  lemma {:induction false} StrViewOf(b: string, s: nat, e: nat, body: string, escaping: bool)
    requires 0 < s <= e <= |b| && b[s..e] == body && WellEscaped(body)
    requires b[s - 1] != '\0' <==> escaping
    requires !escaping ==> '\\' !in body
    ensures StrView(b, s, e) == Unescaped(body)
  {
    if !escaping {
      NothingToUnescape(body);
    }
  }

  lemma {:induction false} BodyEnds(t: string, pos: nat)
    requires pos < |t| && t[pos] == '"'
    ensures BodyLength(t[pos..]) == Some(0)
  {
  }
}
