/** Decimal digit strings and the numbers they denote (`std::to_string` and the C number scanners). */
module Decimal {
  predicate IsDigit(c: char) { '0' <= c <= '9' }

  predicate AllDigits(s: string) { forall k :: 0 <= k < |s| ==> IsDigit(s[k]) }

  function DigitVal(c: char): (d: nat)
    requires IsDigit(c)
    ensures d < 10
  {
    c as int - '0' as int
  }

  function DigitChar(d: nat): (c: char)
    requires d < 10
    ensures IsDigit(c) && DigitVal(c) == d
  {
    (d + '0' as int) as char
  }

  /** The number a digit string denotes. */
  function Value(s: string): (n: nat)
    requires AllDigits(s)
  {
    if s == "" then 0 else 10 * Value(s[..|s| - 1]) + DigitVal(s[|s| - 1])
  }

  /** The shortest digit string of a number. */
  function Digits(n: nat): (s: string)
    ensures s != "" && AllDigits(s)
    ensures |s| > 1 ==> s[0] != '0'
    ensures n > 0 ==> s[0] != '0'
  {
    if n < 10 then [DigitChar(n)] else Digits(n / 10) + [DigitChar(n % 10)]
  }

  lemma {:induction false} ValueOfDigits(n: nat)
    ensures Value(Digits(n)) == n
  {
    var s := Digits(n);
    if n < 10 {
      assert s[..|s| - 1] == "";
    } else {
      ValueOfDigits(n / 10);
      assert s[..|s| - 1] == Digits(n / 10);
    }
  }

  /** Where the run of digits that starts at `pos` ends. */
  function RunEnd(s: string, pos: nat): (e: nat)
    requires pos <= |s|
    ensures pos <= e <= |s|
    ensures AllDigits(s[pos..e])
    ensures e < |s| ==> !IsDigit(s[e])
    ensures pos < |s| && IsDigit(s[pos]) ==> pos < e
    decreases |s| - pos
  {
    if pos < |s| && IsDigit(s[pos]) then
      var e := RunEnd(s, pos + 1);
      assert forall k :: pos < k < e ==> s[k] == s[pos + 1..e][k - pos - 1];
      e
    else pos
  }

  /** A run of digits followed by something else ends exactly there. */
  lemma {:induction false} RunEndExact(s: string, pos: nat, e: nat)
    requires pos <= e <= |s|
    requires AllDigits(s[pos..e])
    requires e < |s| ==> !IsDigit(s[e])
    ensures RunEnd(s, pos) == e
    decreases e - pos
  {
    if pos < e {
      assert s[pos] == s[pos..e][0];
      assert s[pos + 1..e] == s[pos..e][1..];
      RunEndExact(s, pos + 1, e);
    }
  }

  /** The digits are those of the usual numerals, and a leading zero changes nothing. */
  lemma {:induction false} Numerals(d: nat, s: string)
    requires d < 10 && AllDigits(s)
    ensures DigitChar(d) == "0123456789"[d]
    ensures AllDigits("0" + s) && Value("0" + s) == Value(s)
    decreases |s|
  {
    var z := "0" + s;
    if s == "" {
      assert z[..0] == "" && Value("") == 0;
    } else {
      Numerals(d, s[..|s| - 1]);
      assert z[..|z| - 1] == "0" + s[..|s| - 1];
    }
  }

  /** An integer as `std::to_string` prints it. */
  function IntText(i: int): (s: string) { if i < 0 then "-" + Digits(-i) else Digits(i) }
}
