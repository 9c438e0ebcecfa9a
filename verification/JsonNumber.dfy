/** Which texts are numbers to the parser, said without its automaton. */
module JsonNumber {
  import opened Options
  import opened Decimal
  import opened JsonString
  import opened Json

  datatype Exponent = Exponent(letter: char, sign: string, digits: string)

  /** The parts of a number as it is spelled. */
  datatype Numeral = Numeral(minus: bool, whole: string, fraction: Option<string>, exponent: Option<Exponent>)

  /**
    No leading zero. The parser also takes a point without digits ("1."), an
    exponent with a sign and no digits ("1e+"), and no exponent right after a
    single zero ("0e5" is refused, "0.e5" is not).
   */
  predicate Proper(n: Numeral) {
    && n.whole != "" && AllDigits(n.whole) && (n.whole[0] == '0' ==> n.whole == "0")
    && (n.fraction.Some? ==> AllDigits(n.fraction.value))
    && (n.exponent.Some? ==> ProperExponent(n.exponent.value) && (n.fraction.None? ==> n.whole != "0"))
  }

  predicate ProperExponent(x: Exponent) {
    x.letter in "eE" && x.sign in ["", "+", "-"] && AllDigits(x.digits) && (x.sign == "" ==> x.digits != "")
  }

  function ExponentText(x: Option<Exponent>): (s: string) {
    if x.None? then "" else [x.value.letter] + x.value.sign + x.value.digits
  }

  function FractionText(f: Option<string>): (s: string) { if f.None? then "" else "." + f.value }

  function Spelled(n: Numeral): (s: string) {
    (if n.minus then "-" else "") + n.whole + FractionText(n.fraction) + ExponentText(n.exponent)
  }

  predicate NumberChar(c: char) { c in "0123456789.+-eE" }

  /** No character that could go on a number follows. */
  predicate Ends(rest: string) { rest == "" || !NumberChar(rest[0]) }

  // ---------------------------------------------------------------- spelled numbers are accepted

  lemma {:induction false} NumCharIff(t: string, pos: nat)
    requires pos <= |t|
    ensures IsNumChar(At(t, pos)) <==> !Ends(t[pos..])
  {
    if pos < |t| {
      assert t[pos..][0] == t[pos];
    }
  }

  /** Whether a number may end in this state. */
  predicate Final(s: NumState) { s.ZeroFirst? || s.Digits? || s.AfterPoint? || s.AfterExp? }

  lemma {:induction false} EndsHere(t: string, pos: nat, s: NumState)
    requires pos <= |t| && Ends(t[pos..]) && !s.Invalid?
    ensures NumEnd(t, pos, s) == if Final(s) then Some(pos) else None
  {
    NumCharIff(t, pos);
  }

  lemma {:induction false} OtherNumberChars()
    ensures NumberChar('.') && NumberChar('+') && NumberChar('-') && NumberChar('e') && NumberChar('E')
  {
  }

  /** The steps on the characters that are no digits. */
  lemma {:induction false} Steps(s: NumState, c: char)
    ensures (s.Digits? || s.ZeroFirst?) && c == '.' ==> NumStep(s, c) == AfterPoint
    ensures (s.Digits? || s.AfterPoint?) && c in "eE" ==> NumStep(s, c) == Exp
    ensures s.Exp? && (c == '+' || c == '-') ==> NumStep(s, c) == AfterExp
    ensures s.Minus? && c == '-' ==> NumStep(s, c) == AfterMinus
    ensures c in "eE" ==> NumberChar(c)
  {
  }

  lemma {:induction false} NoExponent()
    ensures ExponentText(None) == ""
  {
  }

  lemma {:induction false} NoFraction()
    ensures FractionText(None) == ""
  {
  }

  lemma {:induction false} SplitExponent(e: Exponent, rest: string)
    ensures ExponentText(Some(e)) + rest == [e.letter] + (e.sign + (e.digits + rest))
    ensures |ExponentText(Some(e))| == 1 + |e.sign| + |e.digits|
  {
    assert [e.letter] + e.sign + e.digits + rest == [e.letter] + (e.sign + (e.digits + rest));
  }

  lemma {:induction false} SplitFraction(f: string, x: string, rest: string)
    ensures FractionText(Some(f)) + x + rest == ['.'] + (f + (x + rest))
    ensures |FractionText(Some(f))| == 1 + |f|
  {
    assert "." + f + x + rest == ['.'] + (f + (x + rest));
  }

  lemma {:induction false} OneStep(t: string, pos: nat, s: NumState, c: char, rest: string)
    requires pos <= |t| && t[pos..] == [c] + rest && NumberChar(c) && !s.Invalid?
    ensures NumEnd(t, pos, s) == NumEnd(t, pos + 1, NumStep(s, c))
    ensures t[pos + 1..] == rest
  {
    NumCharIff(t, pos);
    assert t[pos] == t[pos..][0];
    assert t[pos + 1..] == t[pos..][1..];
  }

  lemma {:induction false} DigitsPass(t: string, pos: nat, s: NumState, ds: string, rest: string)
    requires pos <= |t| && t[pos..] == ds + rest && AllDigits(ds)
    requires s.Digits? || s.AfterPoint? || s.AfterExp?
    ensures NumEnd(t, pos, s) == NumEnd(t, pos + |ds|, s) && t[pos + |ds|..] == rest
    decreases |ds|
  {
    if ds == "" {
      assert ds + rest == rest;
    } else {
      assert IsDigit(ds[0]);
      assert ds + rest == [ds[0]] + (ds[1..] + rest);
      DigitIsNumChar(ds[0]);
      OneStep(t, pos, s, ds[0], ds[1..] + rest);
      DigitsPass(t, pos + 1, s, ds[1..], rest);
    }
  }

  lemma {:induction false} DigitIsNumChar(c: char)
    ensures IsDigit(c) <==> c in "0123456789"
    ensures IsDigit(c) ==> NumberChar(c)
  {
    if IsDigit(c) {
      Numerals(DigitVal(c), "");
      assert c == DigitChar(DigitVal(c));
    }
  }

  /** The digits of an exponent without a sign. */
  lemma {:induction false} BareExponentPasses(t: string, pos: nat, ds: string, rest: string)
    requires pos <= |t| && ds != "" && AllDigits(ds) && t[pos..] == ds + rest && Ends(rest)
    ensures NumEnd(t, pos, Exp) == Some(pos + |ds|)
  {
    hide NumEnd, Ends, NumberChar;
    DigitIsNumChar(ds[0]);
    assert ds + rest == [ds[0]] + (ds[1..] + rest);
    OneStep(t, pos, Exp, ds[0], ds[1..] + rest);
    DigitsPass(t, pos + 1, AfterExp, ds[1..], rest);
    EndsHere(t, pos + |ds|, AfterExp);
  }

  lemma {:induction false} SignedExponentPasses(t: string, pos: nat, sign: char, ds: string, rest: string)
    requires pos <= |t| && (sign == '+' || sign == '-') && AllDigits(ds) && t[pos..] == [sign] + (ds + rest) && Ends(rest)
    ensures NumEnd(t, pos, Exp) == Some(pos + 1 + |ds|)
  {
    hide NumEnd, Ends, NumberChar, NumStep;
    OtherNumberChars();
    Steps(Exp, sign);
    OneStep(t, pos, Exp, sign, ds + rest);
    DigitsPass(t, pos + 1, AfterExp, ds, rest);
    EndsHere(t, pos + 1 + |ds|, AfterExp);
  }

  lemma {:induction false} ExponentPasses(t: string, pos: nat, s: NumState, x: Option<Exponent>, rest: string)
    requires pos <= |t| && t[pos..] == ExponentText(x) + rest && Ends(rest)
    requires s.Digits? || s.AfterPoint? || (s.ZeroFirst? && x.None?)
    requires x.Some? ==> ProperExponent(x.value)
    ensures NumEnd(t, pos, s) == Some(pos + |ExponentText(x)|)
  {
    hide NumEnd, Ends, NumberChar, NumStep, ExponentText;
    if x.None? {
      NoExponent();
      assert "" + rest == rest;
      EndsHere(t, pos, s);
    } else {
      var e := x.value;
      SplitExponent(e, rest);
      Steps(s, e.letter);
      var more := e.sign + (e.digits + rest);
      OneStep(t, pos, s, e.letter, more);
      if e.sign == "" {
        assert more == e.digits + rest;
        BareExponentPasses(t, pos + 1, e.digits, rest);
      } else {
        assert more == [e.sign[0]] + (e.digits + rest);
        SignedExponentPasses(t, pos + 1, e.sign[0], e.digits, rest);
      }
    }
  }

  lemma {:induction false} FractionPasses(t: string, pos: nat, s: NumState, f: Option<string>, x: Option<Exponent>, rest: string)
    requires pos <= |t| && t[pos..] == FractionText(f) + ExponentText(x) + rest && Ends(rest)
    requires s.Digits? || (s.ZeroFirst? && (f.None? ==> x.None?))
    requires (f.Some? ==> AllDigits(f.value)) && (x.Some? ==> ProperExponent(x.value))
    ensures NumEnd(t, pos, s) == Some(pos + |FractionText(f)| + |ExponentText(x)|)
  {
    hide NumEnd, Ends, ExponentText, NumberChar, ProperExponent, NumStep, FractionText;
    if f.None? {
      NoFraction();
      assert "" + ExponentText(x) + rest == ExponentText(x) + rest;
      ExponentPasses(t, pos, s, x, rest);
    } else {
      OtherNumberChars();
      Steps(s, '.');
      var more := f.value + (ExponentText(x) + rest);
      SplitFraction(f.value, ExponentText(x), rest);
      OneStep(t, pos, s, '.', more);
      DigitsPass(t, pos + 1, AfterPoint, f.value, ExponentText(x) + rest);
      ExponentPasses(t, pos + 1 + |f.value|, AfterPoint, x, rest);
    }
  }

  lemma {:induction false} FirstDigit(s: NumState, c: char)
    requires IsDigit(c) && (s.Minus? || s.AfterMinus?)
    ensures NumStep(s, c) == if c == '0' then ZeroFirst else Json.Digits
  {
  }

  lemma {:induction false} SplitWhole(w: string, f: string, x: string, rest: string)
    requires w != ""
    ensures w + f + x + rest == [w[0]] + (w[1..] + (f + x + rest))
  {
    assert w == [w[0]] + w[1..];
  }

  lemma {:induction false} WholePasses(t: string, pos: nat, s: NumState, n: Numeral, rest: string)
    requires Proper(n) && (s.Minus? || s.AfterMinus?)
    requires pos <= |t| && t[pos..] == n.whole + FractionText(n.fraction) + ExponentText(n.exponent) + rest && Ends(rest)
    ensures NumEnd(t, pos, s) == Some(pos + |n.whole| + |FractionText(n.fraction)| + |ExponentText(n.exponent)|)
  {
    hide NumEnd, Ends, ExponentText, FractionText, ProperExponent, NumberChar, NumStep;
    var tail := FractionText(n.fraction) + ExponentText(n.exponent) + rest;
    var c := n.whole[0];
    DigitIsNumChar(c);
    FirstDigit(s, c);
    SplitWhole(n.whole, FractionText(n.fraction), ExponentText(n.exponent), rest);
    OneStep(t, pos, s, c, n.whole[1..] + tail);
    if c == '0' {
      assert n.whole[1..] + tail == tail;
      FractionPasses(t, pos + 1, ZeroFirst, n.fraction, n.exponent, rest);
    } else {
      DigitsPass(t, pos + 1, Json.Digits, n.whole[1..], tail);
      FractionPasses(t, pos + |n.whole|, Json.Digits, n.fraction, n.exponent, rest);
    }
  }

  /** A spelled number is accepted to its end. */
  lemma {:induction false} NumberAccepted(t: string, pos: nat, n: Numeral, rest: string)
    requires Proper(n) && pos <= |t| && t[pos..] == Spelled(n) + rest && Ends(rest)
    ensures NumEnd(t, pos, Minus) == Some(pos + |Spelled(n)|)
  {
    hide NumEnd, Ends, ExponentText, FractionText, Proper, NumberChar;
    OtherNumberChars();
    var body := n.whole + FractionText(n.fraction) + ExponentText(n.exponent) + rest;
    if n.minus {
      assert Spelled(n) + rest == ['-'] + body;
      OneStep(t, pos, Minus, '-', body);
      WholePasses(t, pos + 1, AfterMinus, n, rest);
    } else {
      assert Spelled(n) + rest == body;
      WholePasses(t, pos, Minus, n, rest);
    }
  }

  // ---------------------------------------------------------------- accepted numbers are spelled

  lemma {:induction false} RunPasses(t: string, pos: nat, s: NumState)
    requires pos <= |t| && (s.Digits? || s.AfterPoint? || s.AfterExp?)
    ensures NumEnd(t, pos, s) == NumEnd(t, RunEnd(t, pos), s)
    ensures RunEnd(t, pos) < |t| ==> !IsDigit(t[RunEnd(t, pos)])
  {
    var e := RunEnd(t, pos);
    hide NumEnd;
    assert t[pos..] == t[pos..e] + t[e..];
    DigitsPass(t, pos, s, t[pos..e], t[e..]);
  }

  /** The state after one more character decides. */
  lemma {:induction false} Decides(t: string, pos: nat, s: NumState)
    requires pos <= |t| && NumEnd(t, pos, s).Some?
    ensures !s.Invalid?
    ensures !IsNumChar(At(t, pos)) ==> Final(s) && NumEnd(t, pos, s) == Some(pos) && Ends(t[pos..])
    ensures IsNumChar(At(t, pos)) ==>
              pos < |t| && NumEnd(t, pos, s) == NumEnd(t, pos + 1, NumStep(s, t[pos])) && !NumStep(s, t[pos]).Invalid?
  {
    NumCharIff(t, pos);
  }

  /** Which characters can come next, state by state. */
  lemma {:induction false} Nexts(s: NumState, c: char)
    requires IsNumChar(c) && !NumStep(s, c).Invalid?
    ensures s.AfterExp? || s.Digits? || s.AfterPoint? ==> IsDigit(c) || (!s.AfterExp? && c in "eE" && NumStep(s, c) == Exp) || (s.Digits? && c == '.' && NumStep(s, c) == AfterPoint)
    ensures s.ZeroFirst? ==> c == '.' && NumStep(s, c) == AfterPoint
    ensures s.Exp? ==> (IsDigit(c) || c == '+' || c == '-') && NumStep(s, c) == AfterExp
    ensures s.Minus? || s.AfterMinus? ==> IsDigit(c) || (s.Minus? && c == '-' && NumStep(s, c) == AfterMinus)
    ensures (s.Minus? || s.AfterMinus?) && IsDigit(c) ==> NumStep(s, c) == if c == '0' then ZeroFirst else Json.Digits
  {
  }

  lemma {:induction false} AfterExpSpelled(t: string, pos: nat) returns (ds: string)
    requires pos <= |t| && NumEnd(t, pos, AfterExp).Some?
    ensures var e := NumEnd(t, pos, AfterExp).value;
            AllDigits(ds) && t[pos..e] == ds && Ends(t[e..])
  {
    hide NumEnd, Ends, IsNumChar, NumStep;
    RunPasses(t, pos, AfterExp);
    var e := RunEnd(t, pos);
    Decides(t, e, AfterExp);
    if IsNumChar(At(t, e)) {
      Nexts(AfterExp, t[e]);
    }
    ds := t[pos..e];
  }

  lemma {:induction false} ExpSpelled(t: string, pos: nat, letter: char) returns (x: Exponent)
    requires pos <= |t| && letter in "eE" && NumEnd(t, pos, Exp).Some?
    ensures var e := NumEnd(t, pos, Exp).value;
            ProperExponent(x) && x.letter == letter && t[pos..e] == x.sign + x.digits && Ends(t[e..])
  {
    hide NumEnd, Ends, IsNumChar, NumStep;
    Decides(t, pos, Exp);
    if IsNumChar(At(t, pos)) {
      Nexts(Exp, t[pos]);
    }
    var c := t[pos];
    var e := NumEnd(t, pos, Exp).value;
    var ds := AfterExpSpelled(t, pos + 1);
    assert t[pos..e] == [c] + t[pos + 1..e];
    x := if IsDigit(c) then Exponent(letter, "", [c] + ds) else Exponent(letter, [c], ds);
  }

  lemma {:induction false} PointIsNumChar()
    ensures IsNumChar('.')
  {
  }

  lemma {:induction false} LetterFirst(x: Exponent)
    ensures ExponentText(Some(x)) == [x.letter] + (x.sign + x.digits)
  {
    assert [x.letter] + x.sign + x.digits == [x.letter] + (x.sign + x.digits);
  }

  /** What may follow the digits after the point, or whole digits. */
  lemma {:induction false} MaybeExpSpelled(t: string, pos: nat, s: NumState) returns (x: Option<Exponent>)
    requires pos <= |t| && NumEnd(t, pos, s).Some? && (s.Digits? || s.AfterPoint?)
    requires pos < |t| ==> !IsDigit(t[pos]) && (t[pos] == '.' ==> s.AfterPoint?)
    ensures var e := NumEnd(t, pos, s).value;
            (x.Some? ==> ProperExponent(x.value)) && t[pos..e] == ExponentText(x) && Ends(t[e..])
  {
    hide NumEnd, Ends, IsNumChar, NumStep, ExponentText, ProperExponent;
    Decides(t, pos, s);
    if IsNumChar(At(t, pos)) {
      Nexts(s, t[pos]);
    }
    var e := NumEnd(t, pos, s).value;
    if IsNumChar(At(t, pos)) {
      var y := ExpSpelled(t, pos + 1, t[pos]);
      LetterFirst(y);
      assert t[pos..e] == [t[pos]] + t[pos + 1..e];
      x := Some(y);
    } else {
      NoExponent();
      x := None;
    }
  }

  lemma {:induction false} AfterPointSpelled(t: string, pos: nat) returns (f: string, x: Option<Exponent>)
    requires pos <= |t| && NumEnd(t, pos, AfterPoint).Some?
    ensures var e := NumEnd(t, pos, AfterPoint).value;
            AllDigits(f) && (x.Some? ==> ProperExponent(x.value)) && t[pos..e] == f + ExponentText(x) && Ends(t[e..])
  {
    hide NumEnd, Ends, IsNumChar, NumStep, ExponentText;
    RunPasses(t, pos, AfterPoint);
    var r := RunEnd(t, pos);
    f := t[pos..r];
    x := MaybeExpSpelled(t, r, AfterPoint);
    var e := NumEnd(t, pos, AfterPoint).value;
    assert t[pos..e] == t[pos..r] + t[r..e];
  }

  lemma {:induction false} RestSpelled(t: string, pos: nat, s: NumState) returns (f: Option<string>, x: Option<Exponent>)
    requires pos <= |t| && NumEnd(t, pos, s).Some? && (s.Digits? || s.ZeroFirst?)
    requires s.Digits? && pos < |t| ==> !IsDigit(t[pos])
    ensures var e := NumEnd(t, pos, s).value;
            && (f.Some? ==> AllDigits(f.value)) && (x.Some? ==> ProperExponent(x.value) && (s.ZeroFirst? ==> f.Some?))
            && t[pos..e] == FractionText(f) + ExponentText(x) && Ends(t[e..])
  {
    hide NumEnd, Ends, IsNumChar, NumStep, ExponentText;
    Decides(t, pos, s);
    if IsNumChar(At(t, pos)) {
      Nexts(s, t[pos]);
    }
    var e := NumEnd(t, pos, s).value;
    PointIsNumChar();
    if pos < |t| && t[pos] == '.' {
      var g, y := AfterPointSpelled(t, pos + 1);
      f, x := Some(g), y;
      assert t[pos..e] == ['.'] + t[pos + 1..e];
      assert ['.'] + (g + ExponentText(y)) == "." + g + ExponentText(y);
    } else if s.Digits? {
      f := None;
      x := MaybeExpSpelled(t, pos, s);
      assert "" + ExponentText(x) == ExponentText(x);
    } else {
      f, x := None, None;
      NoExponent();
    }
  }

  lemma {:induction false} WholeSpelled(t: string, pos: nat, s: NumState, minus: bool) returns (n: Numeral)
    requires pos <= |t| && NumEnd(t, pos, s).Some? && (s.AfterMinus? || (s.Minus? && At(t, pos) != '-'))
    ensures var e := NumEnd(t, pos, s).value;
            Proper(n) && n.minus == minus && Ends(t[e..])
            && t[pos..e] == n.whole + FractionText(n.fraction) + ExponentText(n.exponent)
  {
    hide NumEnd, Ends, IsNumChar, NumStep, ExponentText, FractionText, ProperExponent, NumberChar;
    Decides(t, pos, s);
    if IsNumChar(At(t, pos)) {
      Nexts(s, t[pos]);
    }
    var e := NumEnd(t, pos, s).value;
    if t[pos] == '0' {
      var f, x := RestSpelled(t, pos + 1, ZeroFirst);
      n := Numeral(minus, "0", f, x);
      assert t[pos..e] == ['0'] + t[pos + 1..e];
      assert "0" + (FractionText(f) + ExponentText(x)) == "0" + FractionText(f) + ExponentText(x);
    } else {
      RunPasses(t, pos + 1, Json.Digits);
      var r := RunEnd(t, pos + 1);
      var f, x := RestSpelled(t, r, Json.Digits);
      var whole := [t[pos]] + t[pos + 1..r];
      n := Numeral(minus, whole, f, x);
      assert t[pos..e] == whole + t[r..e];
      assert whole + (FractionText(f) + ExponentText(x)) == whole + FractionText(f) + ExponentText(x);
    }
  }

  /** An accepted number is a spelled one. */
  lemma {:induction false} NumberSpelled(t: string, pos: nat) returns (n: Numeral)
    requires pos <= |t| && NumEnd(t, pos, Minus).Some?
    ensures var e := NumEnd(t, pos, Minus).value;
            Proper(n) && t[pos..e] == Spelled(n) && Ends(t[e..])
  {
    hide NumEnd, Ends, IsNumChar, NumStep, ExponentText, FractionText, Proper;
    Decides(t, pos, Minus);
    if IsNumChar(At(t, pos)) {
      Nexts(Minus, t[pos]);
    }
    var e := NumEnd(t, pos, Minus).value;
    if t[pos] == '-' {
      n := WholeSpelled(t, pos + 1, AfterMinus, true);
      assert t[pos..e] == ['-'] + t[pos + 1..e];
      assert ['-'] + (n.whole + FractionText(n.fraction) + ExponentText(n.exponent)) == Spelled(n);
    } else {
      n := WholeSpelled(t, pos, Minus, false);
      assert "" + n.whole == n.whole;
    }
  }

  /** The number that starts at a position ends after `w` if and only if `w` spells a number and nothing after it could go on with it. */
  lemma {:induction false} NumberIff(t: string, pos: nat, w: string)
    requires pos + |w| <= |t| && t[pos..pos + |w|] == w
    ensures NumEnd(t, pos, Minus) == Some(pos + |w|) <==> Ends(t[pos + |w|..]) && exists n :: Proper(n) && w == Spelled(n)
  {
    hide NumEnd, Ends, Proper, Spelled;
    if NumEnd(t, pos, Minus) == Some(pos + |w|) {
      var n := NumberSpelled(t, pos);
    }
    if n :| Proper(n) && w == Spelled(n) {
      assert t[pos..] == w + t[pos + |w|..];
      if Ends(t[pos + |w|..]) {
        NumberAccepted(t, pos, n, t[pos + |w|..]);
      }
    }
  }

  /** A number is a floating-point one exactly when it has a point or an exponent, otherwise signed exactly when it has a minus. */
  lemma {:induction false} NumberType(n: Numeral)
    requires Proper(n)
    ensures NumTypeOf(Spelled(n)) ==
            if n.fraction.Some? || n.exponent.Some? then FloatingPoint else if n.minus then SignedInteger else UnsignedInteger
  {
    var s := Spelled(n);
    var head := if n.minus then "-" else "";
    assert forall c :: c in n.whole ==> IsDigit(c);
    assert forall c :: c in s <==> c in head || c in n.whole || c in FractionText(n.fraction) || c in ExponentText(n.exponent);
    assert n.fraction.Some? ==> FractionText(n.fraction)[0] == '.';
    assert n.exponent.Some? ==> ExponentText(n.exponent)[0] == n.exponent.value.letter;
    assert n.minus ==> head[0] == '-';
  }
}
