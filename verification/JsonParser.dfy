/**
  The parser as the program runs it: a read position moving over a
  NUL-terminated buffer that the parser itself rewrites. Each string body is
  delimited in place (a flag over its opening quote, a NUL over its closing
  one) and the parsed values are ranges of the buffer.
 */
module JsonParser {
  import opened JsonString
  import opened Json

  /** A parsed value: ranges of the buffer. */
  datatype RValue =
    | RNull
    | RBool(b: bool)
    | RNum(start: nat, end: nat, nt: NumType)
    | RStr(start: nat, end: nat)
    | RList(items: seq<RValue>)
    | RObj(members: seq<RKeyed>)

  datatype RKeyed = RKeyed(start: nat, end: nat, value: RValue)

  // ---------------------------------------------------------------- what a parsed value shows

  function Slice(b: string, s: nat, e: nat): (r: string) { if s <= e <= |b| then b[s..e] else "" }

  /** A string as its reader sees it: unescaped when the byte before it says so. */
  function StrView(b: string, s: nat, e: nat): (r: string) {
    if 0 < s <= |b| && b[s - 1] != '\0' && WellEscaped(Slice(b, s, e)) then Unescaped(Slice(b, s, e)) else Slice(b, s, e)
  }

  function ViewOf(r: RValue, b: string): (v: RView)
    decreases r, 1
  {
    match r
    case RNull => VNull
    case RBool(x) => VBool(x)
    case RNum(s, e, nt) => VNum(nt, Slice(b, s, e))
    case RStr(s, e) => VStr(StrView(b, s, e))
    case RList(items) => VList(ViewItems(items, b))
    case RObj(members) => VObj(ViewMembers(members, b))
  }

  function ViewItems(rs: seq<RValue>, b: string): (vs: seq<RView>)
    decreases rs, 0
  {
    if rs == [] then [] else [ViewOf(rs[0], b)] + ViewItems(rs[1..], b)
  }

  function ViewMember(m: RKeyed, b: string): (v: RMember)
    decreases m, 1
  {
    RMember(StrView(b, m.start, m.end), ViewOf(m.value, b))
  }

  function ViewMembers(ms: seq<RKeyed>, b: string): (vs: seq<RMember>)
    decreases ms, 0
  {
    if ms == [] then [] else [ViewMember(ms[0], b)] + ViewMembers(ms[1..], b)
  }

  /** All ranges of a value, with the bytes around its strings, lie between `lo` and `hi`. */
  predicate Within(r: RValue, lo: nat, hi: nat)
    decreases r, 1
  {
    match r
    case RNum(s, e, _) => lo <= s <= e <= hi
    case RStr(s, e) => lo < s <= e < hi
    case RList(items) => WithinItems(items, lo, hi)
    case RObj(members) => WithinMembers(members, lo, hi)
    case _ => true
  }

  predicate WithinItems(rs: seq<RValue>, lo: nat, hi: nat)
    decreases rs, 0
  {
    rs == [] || (Within(rs[0], lo, hi) && WithinItems(rs[1..], lo, hi))
  }

  predicate WithinMember(m: RKeyed, lo: nat, hi: nat)
    decreases m, 1
  {
    lo < m.start <= m.end < hi && Within(m.value, lo, hi)
  }

  predicate WithinMembers(ms: seq<RKeyed>, lo: nat, hi: nat)
    decreases ms, 0
  {
    ms == [] || (WithinMember(ms[0], lo, hi) && WithinMembers(ms[1..], lo, hi))
  }

  /** Two buffers with the same bytes from `lo` to `hi`. */
  ghost predicate Agree(b: string, c: string, lo: nat, hi: nat) {
    |b| == |c| && hi <= |b| && forall i :: lo <= i < hi ==> b[i] == c[i]
  }

  lemma {:induction false} SliceLocal(b: string, c: string, lo: nat, hi: nat, s: nat, e: nat)
    requires Agree(b, c, lo, hi) && lo <= s <= e <= hi
    ensures Slice(b, s, e) == Slice(c, s, e)
  {
  }

  lemma {:induction false} StrViewLocal(b: string, c: string, lo: nat, hi: nat, s: nat, e: nat)
    requires Agree(b, c, lo, hi) && lo < s <= e < hi
    ensures StrView(b, s, e) == StrView(c, s, e)
  {
    hide Slice, WellEscaped, Unescaped;
    SliceLocal(b, c, lo, hi, s, e);
  }

  /** What a value shows depends only on the bytes around it. */
  lemma {:induction false} ViewLocal(r: RValue, b: string, c: string, lo: nat, hi: nat)
    requires Agree(b, c, lo, hi) && Within(r, lo, hi)
    ensures ViewOf(r, b) == ViewOf(r, c)
    decreases r, 1
  {
    match r
    case RNum(s, e, _) => SliceLocal(b, c, lo, hi, s, e);
    case RStr(s, e) => StrViewLocal(b, c, lo, hi, s, e);
    case RList(items) => ViewItemsLocal(items, b, c, lo, hi);
    case RObj(members) => ViewMembersLocal(members, b, c, lo, hi);
    case _ =>
  }

  lemma {:induction false} ViewItemsLocal(rs: seq<RValue>, b: string, c: string, lo: nat, hi: nat)
    requires Agree(b, c, lo, hi) && WithinItems(rs, lo, hi)
    ensures ViewItems(rs, b) == ViewItems(rs, c)
    decreases rs, 0
  {
    if rs != [] {
      ViewLocal(rs[0], b, c, lo, hi);
      ViewItemsLocal(rs[1..], b, c, lo, hi);
    }
  }

  lemma {:induction false} ViewMemberLocal(m: RKeyed, b: string, c: string, lo: nat, hi: nat)
    requires Agree(b, c, lo, hi) && WithinMember(m, lo, hi)
    ensures ViewMember(m, b) == ViewMember(m, c)
    decreases m, 1
  {
    StrViewLocal(b, c, lo, hi, m.start, m.end);
    ViewLocal(m.value, b, c, lo, hi);
  }

  lemma {:induction false} ViewMembersLocal(ms: seq<RKeyed>, b: string, c: string, lo: nat, hi: nat)
    requires Agree(b, c, lo, hi) && WithinMembers(ms, lo, hi)
    ensures ViewMembers(ms, b) == ViewMembers(ms, c)
    decreases ms, 0
  {
    if ms != [] {
      ViewMemberLocal(ms[0], b, c, lo, hi);
      ViewMembersLocal(ms[1..], b, c, lo, hi);
    }
  }

  lemma {:induction false} WithinWider(r: RValue, lo: nat, hi: nat, lo': nat, hi': nat)
    requires Within(r, lo, hi) && lo' <= lo && hi <= hi'
    ensures Within(r, lo', hi')
    decreases r, 1
  {
    match r
    case RList(items) => WithinItemsWider(items, lo, hi, lo', hi');
    case RObj(members) => WithinMembersWider(members, lo, hi, lo', hi');
    case _ =>
  }

  lemma {:induction false} WithinItemsWider(rs: seq<RValue>, lo: nat, hi: nat, lo': nat, hi': nat)
    requires WithinItems(rs, lo, hi) && lo' <= lo && hi <= hi'
    ensures WithinItems(rs, lo', hi')
    decreases rs, 0
  {
    if rs != [] {
      WithinWider(rs[0], lo, hi, lo', hi');
      WithinItemsWider(rs[1..], lo, hi, lo', hi');
    }
  }

  lemma {:induction false} WithinMemberWider(m: RKeyed, lo: nat, hi: nat, lo': nat, hi': nat)
    requires WithinMember(m, lo, hi) && lo' <= lo && hi <= hi'
    ensures WithinMember(m, lo', hi')
    decreases m, 1
  {
    WithinWider(m.value, lo, hi, lo', hi');
  }

  lemma {:induction false} WithinMembersWider(ms: seq<RKeyed>, lo: nat, hi: nat, lo': nat, hi': nat)
    requires WithinMembers(ms, lo, hi) && lo' <= lo && hi <= hi'
    ensures WithinMembers(ms, lo', hi')
    decreases ms, 0
  {
    if ms != [] {
      WithinMemberWider(ms[0], lo, hi, lo', hi');
      WithinMembersWider(ms[1..], lo, hi, lo', hi');
    }
  }

  lemma {:induction false} ItemsSnoc(rs: seq<RValue>, r: RValue, b: string, lo: nat, hi: nat)
    ensures ViewItems(rs + [r], b) == ViewItems(rs, b) + [ViewOf(r, b)]
    ensures WithinItems(rs, lo, hi) && Within(r, lo, hi) ==> WithinItems(rs + [r], lo, hi)
  {
    hide ViewOf, Within;
    if rs == [] {
      assert [] + [r] == [r] && [r][1..] == [];
      assert ViewItems([r][1..], b) == [] && WithinItems([r][1..], lo, hi);
    } else {
      assert (rs + [r])[0] == rs[0] && (rs + [r])[1..] == rs[1..] + [r];
      ItemsSnoc(rs[1..], r, b, lo, hi);
      assert [ViewOf(rs[0], b)] + (ViewItems(rs[1..], b) + [ViewOf(r, b)]) == [ViewOf(rs[0], b)] + ViewItems(rs[1..], b) + [ViewOf(r, b)];
    }
  }

  lemma {:induction false} MembersSnoc(ms: seq<RKeyed>, m: RKeyed, b: string, lo: nat, hi: nat)
    ensures ViewMembers(ms + [m], b) == ViewMembers(ms, b) + [ViewMember(m, b)]
    ensures WithinMembers(ms, lo, hi) && WithinMember(m, lo, hi) ==> WithinMembers(ms + [m], lo, hi)
  {
    hide ViewMember, WithinMember;
    if ms == [] {
      assert [] + [m] == [m] && [m][1..] == [];
      assert ViewMembers([m][1..], b) == [] && WithinMembers([m][1..], lo, hi);
    } else {
      assert (ms + [m])[0] == ms[0] && (ms + [m])[1..] == ms[1..] + [m];
      MembersSnoc(ms[1..], m, b, lo, hi);
      assert [ViewMember(ms[0], b)] + (ViewMembers(ms[1..], b) + [ViewMember(m, b)]) == [ViewMember(ms[0], b)] + ViewMembers(ms[1..], b) + [ViewMember(m, b)];
    }
  }
}
