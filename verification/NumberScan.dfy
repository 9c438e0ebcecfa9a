/** Whitespace and signed decimal fields, as `std::stoi` and stream extraction scan them. */
module NumberScan {
  import opened Options
  import opened Decimal

  predicate IsSpace(c: char) { c == ' ' || 9 <= c as int <= 13 }

  /** The first position at or after `i` that is not whitespace. */
  function SkipSpace(s: string, i: nat): (j: nat)
    requires i <= |s|
    ensures i <= j <= |s|
    ensures j < |s| ==> !IsSpace(s[j])
    ensures forall k :: i <= k < j ==> IsSpace(s[k])
    decreases |s| - i
  {
    if i < |s| && IsSpace(s[i]) then SkipSpace(s, i + 1) else i
  }

  /** An optional sign and a run of digits: its value and where it ends. */
  datatype Scan = Scan(negative: bool, magnitude: nat, end: nat)

  function ScanNumber(s: string, i: nat): (r: Option<Scan>)
    requires i <= |s|
    ensures r.Some? ==> i < r.value.end <= |s|
  {
    var start := if i < |s| && (s[i] == '-' || s[i] == '+') then i + 1 else i;
    var end := RunEnd(s, start);
    if end == start then None
    else Some(Scan(i < start && s[i] == '-', Value(s[start..end]), end))
  }

  /** A plain number followed by something else is read whole. */
  lemma {:induction false} ScanDigits(s: string, i: nat, n: nat)
    requires i + |Digits(n)| <= |s| && s[i..i + |Digits(n)|] == Digits(n)
    requires i + |Digits(n)| < |s| ==> !IsDigit(s[i + |Digits(n)|])
    ensures ScanNumber(s, i) == Some(Scan(false, n, i + |Digits(n)|))
  {
    hide Digits;
    var e := i + |Digits(n)|;
    RunEndExact(s, i, e);
    ValueOfDigits(n);
    assert s[i] == s[i..e][0];
    assert IsDigit(s[i]);
  }

  /** `std::stoi`: none when it throws, for want of digits or because an `int` cannot hold the number. */
  function Stoi(s: string): (r: Option<int>) {
    match ScanNumber(s, SkipSpace(s, 0))
    case None => None
    case Some(scan) =>
      var m: int := scan.magnitude;
      var n := if scan.negative then -m else m;
      if -0x8000_0000 <= n < 0x8000_0000 then Some(n) else None
  }

  lemma {:induction false} StoiDigits(n: nat)
    ensures Stoi(Digits(n)) == if n < 0x8000_0000 then Some(n) else None
  {
    hide Digits;
    var s := Digits(n);
    assert IsDigit(s[0]);
    assert SkipSpace(s, 0) == 0;
    assert s[0..|s|] == s;
    ScanDigits(s, 0, n);
  }

  // ---------------------------------------------------------------- spelled numbers

  /** The six characters that are whitespace. */
  lemma {:induction false} Whitespace(c: char)
    ensures IsSpace(c) <==> c as int in {9, 10, 11, 12, 13, 32}
  {
  }

  /** An optional sign and a run of digits are read as the number they spell. */
  lemma {:induction false} ScanSpelled(s: string, pos: nat, sign: string, ds: string, rest: string)
    requires pos <= |s| && s[pos..] == sign + ds + rest
    requires sign in ["", "+", "-"] && AllDigits(ds) && (rest != "" ==> !IsDigit(rest[0]))
    requires sign == "" && ds == "" ==> rest == "" || (rest[0] != '+' && rest[0] != '-')
    ensures ScanNumber(s, pos) == if ds == "" then None else Some(Scan(sign == "-", Value(ds), pos + |sign| + |ds|))
  {
    hide Value;
    var start := pos + |sign|;
    var e := start + |ds|;
    assert s[start..e] == s[pos..][|sign|..|sign| + |ds|] == ds;
    assert sign != "" ==> s[pos] == s[pos..][0];
    assert sign == "" && ds != "" ==> s[pos] == s[pos..][0] && IsDigit(ds[0]);
    assert sign == "" && ds == "" && rest != "" ==> s[pos] == s[pos..][0];
    assert rest != "" ==> s[e] == s[pos..][|sign| + |ds|] == rest[0];
    RunEndExact(s, start, e);
  }

  /** The same behind whitespace. */
  lemma {:induction false} ScanAfterSpace(ws: string, sign: string, ds: string, rest: string)
    requires forall k :: 0 <= k < |ws| ==> IsSpace(ws[k])
    requires sign in ["", "+", "-"] && ds != "" && AllDigits(ds) && (rest != "" ==> !IsDigit(rest[0]))
    ensures var s := ws + sign + ds + rest;
            var e := |ws| + |sign| + |ds|;
            && SkipSpace(s, 0) == |ws| && ScanNumber(s, |ws|) == Some(Scan(sign == "-", Value(ds), e))
            && s[e..] == rest
  {
    hide Value, ScanNumber;
    var s := ws + sign + ds + rest;
    assert s[|ws|..] == sign + ds + rest;
    assert !IsSpace(s[|ws|]) by {
      assert s[|ws|] == if sign != "" then sign[0] else ds[0];
      assert IsDigit(ds[0]);
    }
    SkipTo(s, 0, |ws|);
    ScanSpelled(s, |ws|, sign, ds, rest);
  }

  /** `std::stoi` on whitespace, an optional sign, digits and anything after them. */
  lemma {:induction false} StoiSpelled(ws: string, sign: string, ds: string, rest: string)
    requires forall k :: 0 <= k < |ws| ==> IsSpace(ws[k])
    requires sign in ["", "+", "-"] && ds != "" && AllDigits(ds) && (rest != "" ==> !IsDigit(rest[0]))
    ensures var v: int := if sign == "-" then 0 - Value(ds) else Value(ds);
            Stoi(ws + sign + ds + rest) == if -0x8000_0000 <= v < 0x8000_0000 then Some(v) else None
  {
    hide Value, ScanNumber, SkipSpace;
    ScanAfterSpace(ws, sign, ds, rest);
  }

  lemma {:induction false} SkipTo(s: string, i: nat, j: nat)
    requires i <= j < |s| && !IsSpace(s[j]) && forall k :: i <= k < j ==> IsSpace(s[k])
    ensures SkipSpace(s, i) == j
  {
  }
}
