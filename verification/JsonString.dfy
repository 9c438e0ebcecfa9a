/**
  JSON string bodies: escaping when a value is printed, the scan that accepts
  a body when a text is parsed, and the in-place unescaping done when a parsed
  string is read. Each `char` stands for one byte of the program's `char`
  buffers.
 */
module JsonString {
  import opened Options
  import opened Text

  // ---------------------------------------------------------------- escaping

  function HexChar(d: nat): (c: char)
    requires d < 16
  {
    if d < 10 then ('0' as int + d) as char else ('a' as int + d - 10) as char
  }

  function EscapeChar(c: char): (s: string)
    ensures s != ""
  {
    match c
    case '"' => "\\\""
    case '\\' => "\\\\"
    case '\n' => "\\n"
    case '\U{0008}' => "\\b"
    case '\U{000c}' => "\\f"
    case '\r' => "\\r"
    case '\t' => "\\t"
    case _ => if c as int < 0x20 then "\\u00" + [HexChar(c as int / 16), HexChar(c as int % 16)] else [c]
  }

  function Escaped(s: string): (r: string) {
    if s == "" then "" else EscapeChar(s[0]) + Escaped(s[1..])
  }

  /** Appends the escaped text to an output, one byte at a time. */
  method Escape(str: string, out: string) returns (r: string)
    ensures r == out + Escaped(str)
  {
    r := out;
    var k := 0;
    while k < |str|
      invariant 0 <= k <= |str|
      invariant r + Escaped(str[k..]) == out + Escaped(str)
    {
      assert str[k..][0] == str[k] && str[k..][1..] == str[k + 1..];
      ghost var was := r;
      r := r + EscapeChar(str[k]);
      assert was + (EscapeChar(str[k]) + Escaped(str[k + 1..])) == r + Escaped(str[k + 1..]);
      k := k + 1;
    }
    assert str[k..] == "" && r + "" == r;
  }

  // ---------------------------------------------------------------- accepted bodies

  /** The byte at `i`, NUL past the end, as a NUL-terminated buffer reads. */
  function At(s: string, i: nat): (c: char) { if i < |s| then s[i] else '\0' }

  predicate IsSimpleEscape(c: char) {
    c == '"' || c == '\\' || c == '/' || c == 'b' || c == 'f' || c == 'n' || c == 'r' || c == 't'
  }

  /** The length of the unit at the front of a body: 1 plain, 2 or 6 for an escape, 0 when none is accepted. */
  function Unit(s: string): (n: nat)
    ensures n != 0 ==> n <= |s|
    ensures n == 0 || n == 1 || n == 2 || n == 6
  {
    var c := At(s, 0);
    if c == '\\' then
      if At(s, 1) == 'u' then
        if IsHex(At(s, 2)) && IsHex(At(s, 3)) && IsHex(At(s, 4)) && IsHex(At(s, 5)) then 6 else 0
      else if IsSimpleEscape(At(s, 1)) then 2
      else 0
    else if c == '"' || c == '\0' then 0
    else 1
  }

  /** The length of the string body at the front of a text, up to its closing quote. */
  function BodyLength(s: string): (r: Option<nat>)
    ensures r.Some? ==> r.value < |s| && s[r.value] == '"'
  {
    if At(s, 0) == '"' then Some(0)
    else
      var u := Unit(s);
      if u == 0 then None
      else
        match BodyLength(s[u..])
        case None => None
        case Some(n) => Some(u + n)
  }

  /** A body made of accepted units only. */
  predicate WellEscaped(b: string) {
    b == "" || (Unit(b) != 0 && WellEscaped(b[Unit(b)..]))
  }

  /** A unit is judged by its own bytes: what follows does not matter. */
  lemma {:induction false} UnitLocal(a: string, b: string)
    requires Unit(a) != 0 && Unit(a) <= |b| && a[..Unit(a)] == b[..Unit(a)]
    ensures Unit(b) == Unit(a)
  {
    var u := Unit(a);
    assert forall i :: 0 <= i < u ==> a[i] == a[..u][i] == b[..u][i] == b[i];
  }

  lemma {:induction false} BodyWellEscaped(s: string)
    requires BodyLength(s).Some?
    ensures WellEscaped(s[..BodyLength(s).value])
  {
    var n := BodyLength(s).value;
    if n != 0 {
      var u := Unit(s);
      BodyWellEscaped(s[u..]);
      assert s[u..][..n - u] == s[..n][u..];
      UnitLocal(s, s[..n]);
    }
  }

  // ---------------------------------------------------------------- unescaping

  function HexVal(c: char): (n: int) {
    if c >= 'a' then c as int - 'a' as int + 10
    else if c >= 'A' then c as int - 'A' as int + 10
    else c as int - '0' as int
  }

  lemma HexValRange(c: char)
    requires IsHex(c)
    ensures 0 <= HexVal(c) < 16
  {
  }

  /** The code of the `\uXXXX` escape at the front of a body. */
  function CodeOf(s: string): (code: nat)
    requires Unit(s) == 6
    ensures code < 0x10000
  {
    HexValRange(s[2]);
    HexValRange(s[3]);
    HexValRange(s[4]);
    HexValRange(s[5]);
    HexVal(s[2]) * 4096 + HexVal(s[3]) * 256 + HexVal(s[4]) * 16 + HexVal(s[5])
  }

  /** The bytes written for a code: one, two or three. */
  function CodeBytes(code: nat): (s: string)
    requires code < 0x10000
    ensures 1 <= |s| <= 3
  {
    if code >= 0x800 then
      [(0xE0 + code / 4096) as char, (0x80 + code / 64 % 64) as char, (0x80 + code % 64) as char]
    else if code >= 0x80 then
      [(0xC0 + code / 64) as char, (0x80 + code % 64) as char]
    else [code as char]
  }

  function SimpleChar(c: char): (r: char) {
    match c
    case 'b' => '\U{0008}'
    case 'f' => '\U{000c}'
    case 'n' => '\n'
    case 'r' => '\r'
    case 't' => '\t'
    case _ => c
  }

  /** What the unit at the front of a body stands for; never longer than the unit. */
  function UnitBytes(s: string): (r: string)
    requires Unit(s) != 0
    ensures 1 <= |r| <= Unit(s)
  {
    if Unit(s) == 1 then [s[0]] else if Unit(s) == 2 then [SimpleChar(s[1])] else CodeBytes(CodeOf(s))
  }

  function Unescaped(b: string): (r: string)
    requires WellEscaped(b)
    ensures |r| <= |b|
  {
    if b == "" then "" else UnitBytes(b) + Unescaped(b[Unit(b)..])
  }

  // ---------------------------------------------------------------- round trip

  /** The escape of one byte is one accepted unit that stands for that byte. */
  lemma {:induction false} EscapeCharIsUnit(c: char, rest: string)
    ensures var e := EscapeChar(c) + rest;
            Unit(e) == |EscapeChar(c)| && UnitBytes(e) == [c]
  {
    var e := EscapeChar(c) + rest;
    if c as int < 0x20 && Unit(e) == 6 {
      var n := c as int;
      assert e[..6] == EscapeChar(c);
      assert e[2] == '0' && e[3] == '0' && e[4] == HexChar(n / 16) && e[5] == HexChar(n % 16);
      assert HexVal(e[4]) == n / 16 && HexVal(e[5]) == n % 16;
      assert CodeOf(e) == n;
    }
  }

  /** Unescaping the escaped text gives the original back. */
  lemma {:induction false} UnescapeEscaped(s: string)
    ensures WellEscaped(Escaped(s)) && Unescaped(Escaped(s)) == s
  {
    if s != "" {
      var e := Escaped(s);
      EscapeCharIsUnit(s[0], Escaped(s[1..]));
      UnescapeEscaped(s[1..]);
      assert e[Unit(e)..] == Escaped(s[1..]);
      assert [s[0]] + s[1..] == s;
    }
  }

  lemma {:induction false} BodyLengthAfter(e: string, tail: string)
    requires e != "" && Unit(e + tail) == |e| && At(e + tail, 0) != '"' && BodyLength(tail).Some?
    ensures BodyLength(e + tail) == Some(|e| + BodyLength(tail).value)
  {
    hide Unit;
    assert (e + tail)[|e|..] == tail;
  }

  lemma {:induction false} Regroup(a: string, b: string, c: string)
    ensures a + b + "\"" + c == a + (b + "\"" + c)
  {
  }

  /** The scan of a printed string stops exactly at the quote that was printed after it. */
  lemma {:induction false} BodyOfEscaped(s: string, rest: string)
    ensures BodyLength(Escaped(s) + "\"" + rest) == Some(|Escaped(s)|)
  {
    hide Unit, UnitBytes, EscapeChar, At, BodyLength;
    if s == "" {
      assert Escaped(s) + "\"" + rest == "\"" + rest;
      EmptyBody(rest);
    } else {
      var tail := Escaped(s[1..]) + "\"" + rest;
      Regroup(EscapeChar(s[0]), Escaped(s[1..]), rest);
      EscapeCharIsUnit(s[0], tail);
      EscapeCharNotQuote(s[0], tail);
      BodyOfEscaped(s[1..], rest);
      BodyLengthAfter(EscapeChar(s[0]), tail);
    }
  }

  lemma {:induction false} EmptyBody(rest: string)
    ensures BodyLength("\"" + rest) == Some(0)
  {
  }

  lemma {:induction false} EscapeCharNotQuote(c: char, rest: string)
    ensures At(EscapeChar(c) + rest, 0) != '"'
  {
  }

  lemma {:induction false} PlainUnit(b: string)
    requires b != "" && WellEscaped(b) && b[0] != '\\'
    ensures Unit(b) == 1 && UnitBytes(b) == [b[0]] && WellEscaped(b[1..])
  {
  }

  /** Without a backslash there is nothing to undo. */
  lemma {:induction false} NothingToUnescape(b: string)
    requires WellEscaped(b) && '\\' !in b
    ensures Unescaped(b) == b
  {
    if b != "" {
      hide Unit, UnitBytes;
      PlainUnit(b);
      NothingToUnescape(b[1..]);
      assert [b[0]] + b[1..] == b;
    }
  }

  // ---------------------------------------------------------------- in place

  /** Writes the bytes of a `\uXXXX` code at `tail`. */
  method WriteCode(buf: array<char>, tail: nat, code: nat) returns (newTail: nat)
    requires code < 0x10000 && tail + 3 <= buf.Length
    modifies buf
    ensures newTail == tail + |CodeBytes(code)|
    ensures buf[tail..newTail] == CodeBytes(code)
    ensures forall i :: 0 <= i < buf.Length && !(tail <= i < newTail) ==> buf[i] == old(buf[i])
  {
    if code >= 0x800 {
      buf[tail] := (0xE0 + code / 4096) as char;
      buf[tail + 1] := (0x80 + code / 64 % 64) as char;
      buf[tail + 2] := (0x80 + code % 64) as char;
      newTail := tail + 3;
    } else if code >= 0x80 {
      buf[tail] := (0xC0 + code / 64) as char;
      buf[tail + 1] := (0x80 + code % 64) as char;
      newTail := tail + 2;
    } else {
      buf[tail] := code as char;
      newTail := tail + 1;
    }
  }

  /** Moves one unit from `head` to `tail`: the write position never passes the read position. */
  method MoveUnit(buf: array<char>, head: nat, tail: nat, ghost rest: string) returns (newHead: nat, newTail: nat)
    requires tail <= head && head + |rest| < buf.Length && rest == buf[head..head + |rest|]
    requires Unit(rest) != 0
    modifies buf
    ensures newHead == head + Unit(rest)
    ensures newTail == tail + |UnitBytes(rest)| <= newHead
    ensures buf[tail..newTail] == UnitBytes(rest)
    ensures forall i :: 0 <= i < buf.Length && !(tail <= i < newTail) ==> buf[i] == old(buf[i])
  {
    assert forall i :: 0 <= i < |rest| ==> buf[head + i] == rest[i];
    if buf[head] == '\\' {
      if buf[head + 1] == 'u' {
        assert Unit(rest) == 6;
        var code := HexVal(buf[head + 2]) * 4096 + HexVal(buf[head + 3]) * 256 + HexVal(buf[head + 4]) * 16 + HexVal(buf[head + 5]);
        assert code == CodeOf(rest);
        newTail := WriteCode(buf, tail, code);
        newHead := head + 6;
      } else {
        buf[tail] := SimpleChar(buf[head + 1]);
        newHead, newTail := head + 2, tail + 1;
      }
    } else {
      buf[tail] := buf[head];
      newHead, newTail := head + 1, tail + 1;
    }
  }

  lemma {:induction false} UnescapedStep(body: string, k: nat, done: string)
    requires k < |body| && WellEscaped(body[k..])
    ensures var rest := body[k..];
            && k + Unit(rest) <= |body| && WellEscaped(body[k + Unit(rest)..])
            && (done + UnitBytes(rest)) + Unescaped(body[k + Unit(rest)..]) == done + Unescaped(rest)
  {
    var rest := body[k..];
    assert rest[Unit(rest)..] == body[k + Unit(rest)..];
    assert done + (UnitBytes(rest) + Unescaped(rest[Unit(rest)..])) == (done + UnitBytes(rest)) + Unescaped(rest[Unit(rest)..]);
  }

  /** The rewriting loop: the body ends up unescaped between `start` and the new end. */
  method UnescapeBody(buf: array<char>, start: nat, end: nat) returns (tail: nat)
    requires 0 < start <= end < buf.Length && WellEscaped(buf[start..end])
    modifies buf
    ensures start <= tail <= end
    ensures buf[start..tail] == Unescaped(old(buf[start..end]))
    ensures forall i :: 0 <= i < start || end <= i < buf.Length ==> buf[i] == old(buf[i])
  {
    hide Unit, UnitBytes, WellEscaped, Unescaped;
    ghost var body := buf[start..end];
    assert body[0..] == body;
    var head := start;
    tail := start;
    assert buf[start..tail] == "";
    while head != end
      invariant start <= tail <= head <= end
      invariant forall i :: 0 <= i < start || head <= i < buf.Length ==> buf[i] == old(buf[i])
      invariant WellEscaped(body[head - start..])
      invariant buf[start..tail] + Unescaped(body[head - start..]) == Unescaped(body)
      decreases end - head
    {
      ghost var rest, done, t0 := body[head - start..], buf[start..tail], tail;
      assert rest == buf[head..end];
      UnescapedStep(body, head - start, done);
      WellEscapedUnit(rest);
      head, tail := MoveUnit(buf, head, tail, rest);
      assert buf[start..tail] == done + buf[t0..tail];
    }
    UnescapedNothing(body[head - start..]);
  }

  /**
    Reads a parsed string: rewrites its body in place and returns the new end.
    The byte before the body says whether there is anything to do and is
    cleared afterwards, so that a second call changes nothing.
   */
  method Unescape(buf: array<char>, start: nat, end: nat) returns (newEnd: nat)
    requires 0 < start <= end < buf.Length
    requires buf[start - 1] != '\0' ==> WellEscaped(buf[start..end])
    modifies buf
    ensures start <= newEnd <= end
    ensures old(buf[start - 1]) == '\0' ==> newEnd == end && buf[..] == old(buf[..])
    ensures old(buf[start - 1]) != '\0' ==> buf[start..newEnd] == Unescaped(old(buf[start..end])) && buf[newEnd] == '\0'
    ensures buf[start - 1] == '\0'
    ensures forall i :: 0 <= i < start - 1 || end < i < buf.Length ==> buf[i] == old(buf[i])
  {
    hide WellEscaped, Unescaped;
    if buf[start - 1] == '\0' {
      return end;
    }
    newEnd := UnescapeBody(buf, start, end);
    buf[newEnd] := '\0';
    buf[start - 1] := '\0';
  }

  lemma {:induction false} WellEscapedUnit(b: string)
    requires b != "" && WellEscaped(b)
    ensures Unit(b) != 0
  {
  }

  lemma {:induction false} UnescapedNothing(b: string)
    requires b == ""
    ensures WellEscaped(b) && Unescaped(b) == ""
  {
  }
}
