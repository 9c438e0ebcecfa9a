/** String bodies by their pieces: plain bytes, short escapes and codes, and what each stands for. */
module JsonText {
  import opened Options
  import opened Text
  import opened Hexadecimal
  import opened JsonString

  datatype Hex = Hex(value: nat, upper: bool)

  datatype Piece = Plain(c: char) | Short(letter: char) | Code(digits: seq<Hex>)

  const SHORT_LETTERS := "\"\\/bfnrt"

  /** The codes of the bytes the short escapes stand for, in the same order. */
  const SHORT_CODES: seq<nat> := [34, 92, 47, 8, 12, 10, 13, 9]

  predicate Proper(p: Piece) {
    match p
    case Plain(c) => c != '"' && c != '\\' && c != '\0'
    case Short(letter) => letter in SHORT_LETTERS
    case Code(digits) => |digits| == 4 && forall k :: 0 <= k < 4 ==> digits[k].value < 16
  }

  function PieceText(p: Piece): (s: string)
    requires Proper(p)
  {
    match p
    case Plain(c) => [c]
    case Short(letter) => ['\\', letter]
    case Code(h) => ['\\', 'u', LetterOf(h[0]), LetterOf(h[1]), LetterOf(h[2]), LetterOf(h[3])]
  }

  function LetterOf(h: Hex): (c: char)
    requires h.value < 16
  {
    HexLetter(h.value, h.upper)
  }

  /** The number of a code. */
  function CodeNumber(h: seq<Hex>): (n: nat)
    requires |h| == 4
  {
    ((h[0].value * 16 + h[1].value) * 16 + h[2].value) * 16 + h[3].value
  }

  /** The bytes of a code in UTF-8, in one, two or three bytes, the fewest that do. */
  predicate IsUtf8(s: string, code: nat) {
    if code < 0x80 then |s| == 1 && s[0] as int == code
    else if code < 0x800 then
      && |s| == 2 && 0xC0 <= s[0] as int < 0xE0 && 0x80 <= s[1] as int < 0xC0
      && code == (s[0] as int - 0xC0) * 64 + (s[1] as int - 0x80)
    else
      && |s| == 3 && 0xE0 <= s[0] as int < 0xF0 && 0x80 <= s[1] as int < 0xC0 && 0x80 <= s[2] as int < 0xC0
      && code == ((s[0] as int - 0xE0) * 64 + (s[1] as int - 0x80)) * 64 + (s[2] as int - 0x80)
  }

  predicate Means(p: Piece, s: string)
    requires Proper(p)
  {
    match p
    case Plain(c) => s == [c]
    case Short(letter) => |s| == 1 && exists k :: 0 <= k < |SHORT_LETTERS| && letter == SHORT_LETTERS[k] && s[0] as int == SHORT_CODES[k]
    case Code(h) => IsUtf8(s, CodeNumber(h))
  }

  predicate AllProper(ps: seq<Piece>) { forall k :: 0 <= k < |ps| ==> Proper(ps[k]) }

  function BodyText(ps: seq<Piece>): (b: string)
    requires AllProper(ps)
  {
    if ps == [] then "" else PieceText(ps[0]) + BodyText(ps[1..])
  }

  /** What a body stands for: what its pieces stand for, one after another. */
  predicate BodyMeans(ps: seq<Piece>, s: string)
    requires AllProper(ps)
  {
    if ps == [] then s == ""
    else exists k :: 0 <= k <= |s| && Means(ps[0], s[..k]) && BodyMeans(ps[1..], s[k..])
  }

  // ---------------------------------------------------------------- one piece

  lemma {:induction false} CodeBytesAreUtf8(code: nat)
    requires code < 0x10000
    ensures IsUtf8(CodeBytes(code), code)
  {
    var a, b := code / 64, code / 4096;
    assert code == a * 64 + code % 64 && a == b * 64 + a % 64 && a / 64 == b;
  }

  lemma {:induction false} LetterValue(h: Hex)
    requires h.value < 16
    ensures IsHex(LetterOf(h)) && HexVal(LetterOf(h)) == h.value
  {
    LetterCode(h.value, h.upper);
  }

  lemma {:induction false} CodeUnit(p: Piece, rest: string)
    requires Proper(p) && p.Code?
    ensures var e := PieceText(p) + rest;
            Unit(e) == 6 && CodeOf(e) == CodeNumber(p.digits)
  {
    hide LetterOf, HexVal, IsHex;
    var h := p.digits;
    LetterValue(h[0]);
    LetterValue(h[1]);
    LetterValue(h[2]);
    LetterValue(h[3]);
    var e := PieceText(p) + rest;
    assert e[2] == LetterOf(h[0]) && e[3] == LetterOf(h[1]) && e[4] == LetterOf(h[2]) && e[5] == LetterOf(h[3]);
  }

  lemma {:induction false} ShortUnit(p: Piece, rest: string)
    requires Proper(p) && p.Short?
    ensures var e := PieceText(p) + rest;
            Unit(e) == 2 && Means(p, UnitBytes(e))
  {
    var e := PieceText(p) + rest;
    assert e[0] == '\\' && e[1] == p.letter;
    var k :| 0 <= k < |SHORT_LETTERS| && p.letter == SHORT_LETTERS[k];
    assert SimpleChar(p.letter) as int == SHORT_CODES[k];
  }

  /** A piece is one accepted unit and stands for what it means. */
  lemma {:induction false} PieceUnit(p: Piece, rest: string)
    requires Proper(p)
    ensures var e := PieceText(p) + rest;
            Unit(e) == |PieceText(p)| && Means(p, UnitBytes(e)) && e[Unit(e)..] == rest
  {
    match p
    case Plain(_) =>
    case Short(_) => ShortUnit(p, rest);
    case Code(h) =>
      hide Unit, CodeOf, CodeBytes, PieceText, LetterOf, IsUtf8;
      CodeUnit(p, rest);
      CodeBytesAreUtf8(CodeNumber(h));
      TextLength(p);
  }

  lemma {:induction false} TextLength(p: Piece)
    requires Proper(p)
    ensures |PieceText(p)| == if p.Plain? then 1 else if p.Short? then 2 else 6
  {
  }

  // ---------------------------------------------------------------- whole bodies

  /** A body made of pieces is accepted and stands for what they mean. */
  lemma {:induction false} SpelledBody(ps: seq<Piece>)
    requires AllProper(ps)
    ensures WellEscaped(BodyText(ps)) && BodyMeans(ps, Unescaped(BodyText(ps)))
    decreases |ps|
  {
    hide Unit, UnitBytes, Means, PieceText, Proper;
    if ps != [] {
      PieceUnit(ps[0], BodyText(ps[1..]));
      SpelledBody(ps[1..]);
      var b := BodyText(ps);
      TextLength(ps[0]);
      var s := Unescaped(b);
      var u := UnitBytes(b);
      assert s[..|u|] == u && s[|u|..] == Unescaped(BodyText(ps[1..]));
    }
  }

  /** The unit at the front of a body is a piece. */
  lemma {:induction false} UnitSpelled(b: string) returns (p: Piece)
    requires Unit(b) != 0
    ensures Proper(p) && PieceText(p) == b[..Unit(b)]
  {
    var u := Unit(b);
    if u == 1 {
      p := Plain(b[0]);
      assert b[..1] == [b[0]];
    } else if u == 2 {
      p := Short(b[1]);
      ShortIsSimple(b[1]);
      assert b[..2] == ['\\', b[1]];
    } else {
      p := CodeSpelled(b);
    }
  }

  lemma {:induction false} ShortIsSimple(c: char)
    ensures IsSimpleEscape(c) <==> c in SHORT_LETTERS
  {
    assert SHORT_LETTERS[0] == '"' && SHORT_LETTERS[1] == '\\' && SHORT_LETTERS[2] == '/' && SHORT_LETTERS[3] == 'b';
    assert SHORT_LETTERS[4] == 'f' && SHORT_LETTERS[5] == 'n' && SHORT_LETTERS[6] == 'r' && SHORT_LETTERS[7] == 't';
  }

  lemma {:induction false} CodeSpelled(b: string) returns (p: Piece)
    requires Unit(b) == 6
    ensures Proper(p) && PieceText(p) == b[..6]
  {
    hide HexLetter, IsHex;
    var v2, u2 := HexIsLetter(b[2]);
    var v3, u3 := HexIsLetter(b[3]);
    var v4, u4 := HexIsLetter(b[4]);
    var v5, u5 := HexIsLetter(b[5]);
    p := Code([Hex(v2, u2), Hex(v3, u3), Hex(v4, u4), Hex(v5, u5)]);
    assert b[..6] == [b[0], b[1], b[2], b[3], b[4], b[5]];
  }

  /** Every accepted body is made of pieces. */
  lemma {:induction false} BodySpelled(b: string) returns (ps: seq<Piece>)
    requires WellEscaped(b)
    ensures AllProper(ps) && BodyText(ps) == b
    decreases |b|
  {
    hide Unit, PieceText, Proper;
    if b == "" {
      ps := [];
    } else {
      var p := UnitSpelled(b);
      var rest := BodySpelled(b[Unit(b)..]);
      ps := [p] + rest;
      assert ps[1..] == rest;
      assert b == b[..Unit(b)] + b[Unit(b)..];
    }
  }

  /** The scan of a string stops at the quote after its body. */
  lemma {:induction false} BodyEnds(b: string, rest: string)
    requires WellEscaped(b)
    ensures BodyLength(b + "\"" + rest) == Some(|b|)
    decreases |b|
  {
    hide Unit, At, BodyLength;
    if b == "" {
      assert b + "\"" + rest == "\"" + rest;
      EmptyBody(rest);
    } else {
      var u := Unit(b);
      var tail := b[u..] + "\"" + rest;
      assert b + "\"" + rest == b[..u] + tail;
      UnitLocal(b, b[..u] + tail);
      UnitNotQuote(b[..u] + tail);
      BodyEnds(b[u..], rest);
      BodyLengthAfter(b[..u], tail);
    }
  }

  lemma {:induction false} UnitNotQuote(s: string)
    requires Unit(s) != 0
    ensures At(s, 0) != '"'
  {
  }

  // ---------------------------------------------------------------- the printer's escapes

  /** The piece the printer writes for a byte: a short escape for the seven that have one to themselves, a code in
      small letters for the other control bytes, and the byte itself for the rest. */
  function PieceOf(c: char): (p: Piece) {
    if c in "\"\\" then Short(c)
    else if c as int == 8 then Short('b')
    else if c as int == 12 then Short('f')
    else if c as int == 10 then Short('n')
    else if c as int == 13 then Short('r')
    else if c as int == 9 then Short('t')
    else if c as int < 0x20 then Code([Hex(0, false), Hex(0, false), Hex(c as int / 16, false), Hex(c as int % 16, false)])
    else Plain(c)
  }

  lemma {:induction false} EscapeIsPiece(c: char)
    ensures Proper(PieceOf(c)) && EscapeChar(c) == PieceText(PieceOf(c))
  {
    ShortIsSimple('"');
    ShortIsSimple('\\');
    ShortIsSimple('b');
    ShortIsSimple('f');
    ShortIsSimple('n');
    ShortIsSimple('r');
    ShortIsSimple('t');
    hide SHORT_LETTERS;
    if c as int < 0x20 {
      LetterCode(0, false);
      LetterCode(c as int / 16, false);
      LetterCode(c as int % 16, false);
    }
  }
}
