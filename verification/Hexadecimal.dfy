/** Hexadecimal numerals, from the letters they are written with. */
module Hexadecimal {
  import opened Text

  function HexLetter(v: nat, upper: bool): (c: char)
    requires v < 16
  {
    if upper then "0123456789ABCDEF"[v] else "0123456789abcdef"[v]
  }

  /** The shortest numeral of a number. */
  function HexDigits(n: nat, upper: bool): (s: string)
    ensures s != ""
  {
    if n < 16 then [HexLetter(n, upper)] else HexDigits(n / 16, upper) + [HexLetter(n % 16, upper)]
  }

  /** The letters by their codes. */
  lemma {:induction false} LetterCode(v: nat, upper: bool)
    requires v < 16
    ensures HexLetter(v, upper) as int == if v < 10 then '0' as int + v else if upper then 'A' as int + v - 10 else 'a' as int + v - 10
    ensures IsHex(HexLetter(v, upper))
  {
  }

  /** Every hexadecimal digit is one of the letters. */
  lemma {:induction false} HexIsLetter(c: char) returns (v: nat, upper: bool)
    requires IsHex(c)
    ensures v < 16 && c == HexLetter(v, upper)
  {
    upper := 'A' <= c <= 'F';
    v := if c <= '9' then c as int - '0' as int else if upper then c as int - 'A' as int + 10 else c as int - 'a' as int + 10;
    LetterCode(v, upper);
  }
}
