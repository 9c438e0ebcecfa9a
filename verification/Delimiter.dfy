/** Searching strings, and the `</>` separated fields of a request. */
module Delimiter {
  import opened Options
  import opened Text

  const SEPARATOR := "</>"

  predicate Absent(s: string, p: string) { forall i :: 0 <= i <= |s| ==> !Here(s, i, p) }

  /** `std::string::find`: the first occurrence at or after `from`. */
  function Find(s: string, p: string, from: nat): (r: Option<nat>)
    ensures r.Some? ==> from <= r.value && Here(s, r.value, p) && forall i :: from <= i < r.value ==> !Here(s, i, p)
    ensures r.None? ==> forall i :: from <= i <= |s| ==> !Here(s, i, p)
    decreases |s| - from
  {
    if from > |s| then None
    else if Here(s, from, p) then Some(from)
    else Find(s, p, from + 1)
  }

  /** The first occurrence is the only one with none before it. */
  lemma {:induction false} FindExact(s: string, p: string, from: nat, i: nat)
    requires from <= i && Here(s, i, p)
    requires forall k :: from <= k < i ==> !Here(s, k, p)
    ensures Find(s, p, from) == Some(i)
  {
  }

  // ---------------------------------------------------------------- fields

  /** The terminated fields of a request; what follows the last separator is dropped. */
  function Tokens(s: string): (ts: seq<string>)
    decreases |s|
  {
    match Find(s, SEPARATOR, 0)
    case None => []
    case Some(pos) => [s[..pos]] + Tokens(s[pos + 3..])
  }

  function Rest(s: string): (r: string)
    decreases |s|
  {
    match Find(s, SEPARATOR, 0)
    case None => s
    case Some(pos) => Rest(s[pos + 3..])
  }

  function Joined(ts: seq<string>): (s: string) {
    if ts == [] then "" else ts[0] + SEPARATOR + Joined(ts[1..])
  }

  predicate AllFree(ts: seq<string>) { forall k :: 0 <= k < |ts| ==> Absent(ts[k], SEPARATOR) }

  /** The separator does not overlap itself, so the first one after a free field is the field's own. */
  lemma {:induction false} FirstSeparator(t: string, rest: string)
    requires Absent(t, SEPARATOR)
    ensures Find(t + SEPARATOR + rest, SEPARATOR, 0) == Some(|t|)
  {
    var s := t + SEPARATOR + rest;
    assert s[|t|..|t| + 3] == SEPARATOR;
    forall k | 0 <= k < |t|
      ensures !Here(s, k, SEPARATOR)
    {
      if k + 3 <= |t| {
        assert s[k..k + 3] == t[k..k + 3];
        assert !Here(t, k, SEPARATOR);
      } else {
        assert s[|t|] == '<';
        assert s[k..k + 3][|t| - k] == s[|t|];
      }
    }
    FindExact(s, SEPARATOR, 0, |t|);
  }

  /** A separator-free tail yields no field. */
  lemma {:induction false} TokensOfTail(s: string)
    requires Absent(s, SEPARATOR)
    ensures Tokens(s) == [] && Rest(s) == s
  {
  }

  lemma {:induction false} TokensJoined(ts: seq<string>, tail: string)
    requires AllFree(ts) && Absent(tail, SEPARATOR)
    ensures Tokens(Joined(ts) + tail) == ts && Rest(Joined(ts) + tail) == tail
    decreases |ts|
  {
    hide Find, Absent;
    if ts == [] {
      assert Joined(ts) + tail == tail;
      TokensOfTail(tail);
    } else {
      var more := Joined(ts[1..]) + tail;
      var s := ts[0] + SEPARATOR + more;
      assert Joined(ts) + tail == s;
      FirstSeparator(ts[0], more);
      assert s[..|ts[0]|] == ts[0] && s[|ts[0]| + 3..] == more;
      TokensJoined(ts[1..], tail);
    }
  }

  /** Splitting loses nothing. */
  lemma {:induction false} Lossless(s: string)
    ensures Joined(Tokens(s)) + Rest(s) == s
    decreases |s|
  {
    hide Find, Joined;
    match Find(s, SEPARATOR, 0)
    case None =>
      assert Joined([]) == "" by { NothingJoined(); }
    case Some(pos) =>
      Lossless(s[pos + 3..]);
      SplitAt(s, pos);
      JoinedInFront(s[..pos], Tokens(s[pos + 3..]), Rest(s[pos + 3..]));
  }

  lemma {:induction false} SplitAt(s: string, pos: nat)
    requires Here(s, pos, SEPARATOR)
    ensures s == s[..pos] + SEPARATOR + s[pos + 3..]
  {
    assert s == s[..pos] + s[pos..pos + 3] + s[pos + 3..];
  }

  lemma {:induction false} JoinedInFront(t: string, ts: seq<string>, rest: string)
    ensures Joined([t] + ts) + rest == t + SEPARATOR + (Joined(ts) + rest)
  {
    hide Joined;
    JoinedCons(t, ts);
    var j := Joined(ts);
    assert t + SEPARATOR + j + rest == t + SEPARATOR + (j + rest);
  }

  lemma {:induction false} NothingJoined()
    ensures Joined([]) == ""
  {
  }

  lemma {:induction false} JoinedCons(t: string, ts: seq<string>)
    ensures Joined([t] + ts) == t + SEPARATOR + Joined(ts)
  {
    assert ([t] + ts)[1..] == ts;
  }

  /** No field that splitting yields holds a separator. */
  lemma {:induction false} TokensFree(s: string)
    ensures AllFree(Tokens(s)) && Absent(Rest(s), SEPARATOR)
    decreases |s|
  {
    hide Find, Here;
    match Find(s, SEPARATOR, 0)
    case None =>
    case Some(pos) =>
      assert pos + 3 <= |s| by {
        assert Here(s, pos, SEPARATOR);
        HereFits(s, SEPARATOR, pos);
      }
      TokensFree(s[pos + 3..]);
      FreePrefix(s, pos);
  }

  lemma {:induction false} HereFits(s: string, p: string, i: nat)
    ensures Here(s, i, p) ==> i + |p| <= |s|
  {
  }

  lemma {:induction false} FreePrefix(s: string, pos: nat)
    requires pos <= |s| && forall i :: 0 <= i < pos ==> !Here(s, i, SEPARATOR)
    ensures Absent(s[..pos], SEPARATOR)
  {
    forall i | 0 <= i <= pos
      ensures !Here(s[..pos], i, SEPARATOR)
    {
      if i + 3 <= pos {
        assert s[..pos][i..i + 3] == s[i..i + 3];
        assert !Here(s, i, SEPARATOR);
      }
    }
  }

  /** Joining then splitting gives the fields back exactly when none of them holds a separator. */
  lemma {:induction false} TokensJoinedIff(ts: seq<string>)
    ensures Tokens(Joined(ts)) == ts <==> AllFree(ts)
  {
    hide Find, Tokens, Joined;
    TokensFree(Joined(ts));
    if AllFree(ts) {
      TokensJoined(ts, "");
      assert Joined(ts) + "" == Joined(ts);
    }
  }

  /** The loop that cuts fields off the front of the string. */
  method Split(request: string) returns (tokens: seq<string>)
    ensures tokens == Tokens(request)
  {
    hide Find;
    var s := request;
    tokens := [];
    var pos := Find(s, SEPARATOR, 0);
    while pos.Some?
      invariant pos == Find(s, SEPARATOR, 0)
      invariant tokens + Tokens(s) == Tokens(request)
      decreases |s|
    {
      tokens := tokens + [s[..pos.value]];
      s := s[pos.value + |SEPARATOR|..];
      pos := Find(s, SEPARATOR, 0);
    }
  }
}
