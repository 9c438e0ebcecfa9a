/** The feed call: bulk steps over the input with a body mark, proved against the byte-by-byte run. */
module HttpFeed {
  import opened Options
  import opened Pieces
  import opened HttpBody

  /** The part of the input behind the body mark. */
  function Marked(data: string, mark: Option<nat>, p: nat): (s: string)
    requires p <= |data| && (mark.Some? ==> mark.value <= p)
  {
    if mark.Some? then data[mark.value..p] else ""
  }

  /**
    The body bytes a feed call loses: those of the current chunk that arrived in
    this call, when the call ends in an error. `pending` counts the ones seen so far.
   */
  function Dropped(p: Parser, data: string, pending: nat): (n: nat)
    decreases |data|
  {
    if data == "" then 0
    else
      var h := Byte(p, data[0]);
      if h.parser.errno != OK then pending else Dropped(h.parser, data[1..], if p.state.ChunkData? then pending + 1 else 0)
  }

  function Pending(mark: Option<nat>, p: nat): (n: nat)
    requires mark.Some? ==> mark.value <= p
  {
    if mark.Some? then p - mark.value else 0
  }

  /** A call took `data` from parser value `p`, body `b0` and `c0` completions to `q`, `b1` and `c1`: the
      byte-by-byte run's effect, less the body bytes an error loses. */
  ghost predicate Took(p: Parser, b0: string, c0: nat, data: string, q: Parser, b1: string, c1: nat) {
    var r := Run(p, data);
    var lost := Dropped(p, data, 0);
    && q == r.parser
    && c1 == c0 + r.completes
    && lost <= |r.body| && b1 == b0 + r.body[..|r.body| - lost]
  }

  class HttpParser {
    var state: State
    var contentLength: nat
    var nread: nat
    var errno: Errno
    /** The pieces handed to the body callback so far. */
    var pieces: seq<string>
    /** How often completion was signalled. */
    var completes: nat

    constructor (start: Parser)
      ensures Value() == start && pieces == [] && completes == 0
    {
      state, contentLength, nread, errno := start.state, start.contentLength, start.nread, start.errno;
      pieces, completes := [], 0;
    }

    function Value(): (p: Parser)
      reads this
    {
      Parser(state, contentLength, nread, errno)
    }

    /** The flag that the completion callback sets. */
    predicate MessageComplete()
      reads this
    {
      completes > 0
    }

    method Set(p: Parser)
      modifies `state, `contentLength, `nread, `errno
      ensures Value() == p
    {
      state, contentLength, nread, errno := p.state, p.contentLength, p.nread, p.errno;
    }

    /** Hands the marked bytes to the body callback and clears the mark. */
    method Flush(data: string, mark: Option<nat>, p: nat) returns (none: Option<nat>)
      requires p <= |data| && (mark.Some? ==> mark.value <= p)
      modifies `pieces
      ensures none == None
      ensures Joined(pieces) == Joined(old(pieces)) + Marked(data, mark, p)
      ensures mark.None? ==> pieces == old(pieces)
    {
      if mark.Some? {
        JoinedSnoc(pieces, data[mark.value..p]);
        pieces := pieces + [data[mark.value..p]];
      } else {
        assert Joined(pieces) + "" == Joined(pieces);
      }
      none := None;
    }

    /** The first `p` bytes of a call are dealt with, those behind the mark apart; the call began at
        `p0` with body `b0` and `c0` completions. */
    ghost predicate Synced(data: string, p: nat, mark: Option<nat>, p0: Parser, b0: string, c0: nat)
      reads this
    {
      && p <= |data| && errno == OK && CounterOk(Value())
      && (mark.Some? ==> mark.value <= p && (state.ChunkData? || state.ChunkDataAlmostDone? || (state.BodyIdentity? && p == |data|)))
      && |b0| <= |Joined(pieces)|
      && Dropped(p0, data, 0) == Dropped(Value(), data[p..], Pending(mark, p))
      && var r := Run(p0, data[..p]);
         Value() == r.parser && completes == c0 + r.completes && Joined(pieces) + Marked(data, mark, p) == b0 + r.body
    }

    /**
      One call of the parser. Its effect is the byte-by-byte run's: same parser
      state, same completions, same body bytes, except that an error loses
      exactly the body bytes behind a pending mark. None are lost if and only if
      the error is at the first byte or not right after a chunk's data.
     */
    method Execute(data: string) returns (n: nat)
      requires errno == OK ==> CounterOk(Value())
      modifies this
      ensures old(errno) != OK ==> n == 0 && Value() == old(Value()) && pieces == old(pieces) && completes == old(completes)
      ensures old(errno) == OK && data == "" ==> n == 1 && errno == InvalidEofState && pieces == old(pieces) && completes == old(completes)
      ensures data != "" ==> Took(old(Value()), Joined(old(pieces)), old(completes), data, Value(), Joined(pieces), completes)
      ensures errno == OK ==> n == |data| && Dropped(old(Value()), data, 0) == 0 && CounterOk(Value())
      ensures old(errno) == OK && data != "" && errno != OK ==>
        && n < |data| && Run(old(Value()), data[..n]).parser.errno == OK && Run(old(Value()), data[..n + 1]).parser.errno == errno
        && (Dropped(old(Value()), data, 0) == 0 <==> n == 0 || !Run(old(Value()), data[..n]).parser.state.ChunkDataAlmostDone?)
    {
      hide Run, Joined, CounterOk, Dropped, Synced, Took;
      if errno != OK {
        TookNothing(Value(), Joined(pieces), completes, data);
        return 0;
      }
      if data == "" {
        errno := InvalidEofState;
        return 1;
      }
      ghost var p0, b0, c0 := Value(), Joined(pieces), completes;
      var mark: Option<nat> := None;
      var p := 0;
      Begin(data);
      while p < |data|
        invariant 0 <= p <= |data| && errno == OK && Synced(data, p, mark, p0, b0, c0)
        decreases |data| - p
      {
        if state.ChunkData? || state.BodyIdentity? {
          p, mark := Bulk(data, p, mark, p0, b0, c0);
        } else {
          mark := Single(data, p, mark, p0, b0, c0);
          if errno != OK {
            return p;
          }
          p := p + 1;
        }
      }
      Finish(data, mark, p0, b0, c0);
      n := |data|;
    }

    lemma {:induction false} Begin(data: string)
      requires errno == OK && CounterOk(Value())
      ensures Synced(data, 0, None, Value(), Joined(pieces), completes)
    {
      hide Run, Joined, CounterOk, Dropped;
      RunNothing(Value(), data);
      assert data[0..] == data;
      assert Joined(pieces) + "" == Joined(pieces);
    }

    /** The end of the input hands on what is marked. */
    method Finish(data: string, mark: Option<nat>, ghost p0: Parser, ghost b0: string, ghost c0: nat)
      requires Synced(data, |data|, mark, p0, b0, c0)
      modifies `pieces
      ensures Took(p0, b0, c0, data, Value(), Joined(pieces), completes)
      ensures errno == OK && CounterOk(Value()) && Dropped(p0, data, 0) == 0
    {
      hide Run, Joined, CounterOk, Dropped, Marked;
      assert data[..|data|] == data && data[|data|..] == "";
      DroppedNothing(Value(), Pending(mark, |data|));
      var none := Flush(data, mark, |data|);
      var r := Run(p0, data);
      assert r.body[..|r.body|] == r.body;
    }

    /** A byte in a state that does not count: the parser takes it, or the call ends with its error. */
    method Single(data: string, p: nat, mark: Option<nat>, ghost p0: Parser, ghost b0: string, ghost c0: nat)
        returns (newMark: Option<nat>)
      requires p < |data| && p0.errno == OK && Synced(data, p, mark, p0, b0, c0) && !state.ChunkData? && !state.BodyIdentity?
      modifies this
      ensures errno == OK ==> Synced(data, p + 1, newMark, p0, b0, c0)
      ensures errno != OK ==>
        && Took(p0, b0, c0, data, Value(), Joined(pieces), completes)
        && Run(p0, data[..p]).parser.errno == OK && Run(p0, data[..p + 1]).parser.errno == errno
        && (Dropped(p0, data, 0) == 0 <==> p == 0 || !Run(p0, data[..p]).parser.state.ChunkDataAlmostDone?)
    {
      hide Run, Byte, Joined, CounterOk, Dropped, Marked;
      newMark := mark;
      var r := Byte(Value(), data[p]);
      RunSnoc(p0, data, p);
      DroppedStep(Value(), data, p, Pending(mark, p));
      ghost var body := Run(p0, data[..p]).body;
      assert body + "" == body;
      if r.parser.errno != OK {
        ErrorEnds(p0, data, p);
        ErrorIsQuiet(Value(), data[p]);
        MarkedLength(data, mark, p);
        AllButLast(Joined(pieces), Marked(data, mark, p), b0, body);
        DroppedWhen(p0, data, p);
        Set(r.parser);
        return;
      }
      ByteKeepsCounter(Value(), data[p]);
      OtherStatesDeliverNothing(Value(), data[p]);
      if state.ChunkDataAlmostDone? {
        newMark := Flush(data, mark, p);
      }
      NothingMarked(data, p, Joined(pieces));
      NothingMarked(data, p + 1, Joined(pieces));
      Set(r.parser);
      completes := completes + r.completes;
    }

    /** The counted states: take as many bytes as there are, and finish a fixed-length body at once. */
    method Bulk(data: string, from: nat, mark: Option<nat>, ghost p0: Parser, ghost b0: string, ghost c0: nat)
        returns (p: nat, newMark: Option<nat>)
      requires from < |data| && (state.ChunkData? || state.BodyIdentity?) && Synced(data, from, mark, p0, b0, c0)
      modifies this
      ensures from < p <= |data| && errno == OK && Synced(data, p, newMark, p0, b0, c0)
    {
      hide Run, Joined, Marked, Dropped;
      var toRead := if contentLength < |data| - from then contentLength else |data| - from;
      newMark := if mark.Some? then mark else Some(from);
      p := from + toRead;
      ghost var took := data[from..p];
      RunCounted(Value(), took);
      DroppedCounted(Value(), data, from, p, Pending(mark, from));
      DroppedNothing(Run(Value(), took).parser, Pending(newMark, p));
      DroppedNothing(Run(Value(), took).parser, 0);
      assert p == |data| ==> data[p..] == "";
      BulkRun(p0, data, from, p);
      MarkGrows(data, mark, from, p);
      BothGrow(Joined(pieces), Marked(data, mark, from), b0, Run(p0, data[..from]).body, took);
      contentLength := contentLength - toRead;
      if contentLength == 0 {
        if state.BodyIdentity? {
          state := MessageDone;
          newMark := Flush(data, newMark, p);
          NothingMarked(data, p, Joined(pieces));
          completes := completes + 1;
        } else {
          state := ChunkDataAlmostDone;
        }
      }
    }

    /** What the connection calls: once the message is complete every further call is ignored. */
    method Feed(data: string) returns (ok: bool)
      requires errno == OK ==> CounterOk(Value())
      modifies this
      ensures old(MessageComplete()) ==> ok && Value() == old(Value()) && pieces == old(pieces) && completes == old(completes)
      ensures !old(MessageComplete()) ==> (ok <==> errno == OK)
      ensures !old(MessageComplete()) && data != "" ==>
                Took(old(Value()), Joined(old(pieces)), old(completes), data, Value(), Joined(pieces), completes)
      ensures errno == OK ==> CounterOk(Value())
      ensures !old(MessageComplete()) && errno == OK ==> Dropped(old(Value()), data, 0) == 0
    {
      hide Run, Joined, CounterOk, Dropped, Took;
      if MessageComplete() {
        return true;
      }
      var n := Execute(data);
      if errno != OK {
        return false;
      }
      return n == |data|;
    }
  }

  // ---------------------------------------------------------------- the steps of the proof

  lemma {:induction false} RunNothing(p: Parser, data: string)
    ensures Run(p, data[..0]) == Effect(p, "", 0)
  {
  }

  lemma {:induction false} BulkRun(p0: Parser, data: string, from: nat, p: nat)
    requires from <= p <= |data|
    ensures var x := Run(p0, data[..from]);
            var y := Run(x.parser, data[from..p]);
            Run(p0, data[..p]) == Effect(y.parser, x.body + y.body, x.completes + y.completes)
  {
    hide Run;
    assert data[..p] == data[..from] + data[from..p];
    RunConcat(p0, data[..from], data[from..p]);
  }

  lemma {:induction false} TookNothing(p: Parser, b: string, c: nat, data: string)
    requires p.errno != OK
    ensures Took(p, b, c, data, p, b, c)
    ensures Dropped(p, data, 0) == 0
  {
    RunAfterError(p, data);
    assert b + "" == b;
  }

  lemma {:induction false} MarkedLength(data: string, mark: Option<nat>, p: nat)
    requires p <= |data| && (mark.Some? ==> mark.value <= p)
    ensures |Marked(data, mark, p)| == Pending(mark, p)
  {
  }

  lemma {:induction false} MarkGrows(data: string, mark: Option<nat>, from: nat, p: nat)
    requires from <= p <= |data| && (mark.Some? ==> mark.value <= from)
    ensures Marked(data, if mark.Some? then mark else Some(from), p) == Marked(data, mark, from) + data[from..p]
  {
  }

  lemma {:induction false} NothingMarked(data: string, p: nat, j: string)
    requires p <= |data|
    ensures j + Marked(data, None, p) == j
  {
  }

  lemma {:induction false} BothGrow(j: string, m: string, b: string, r: string, x: string)
    requires j + m == b + r
    ensures j + (m + x) == b + (r + x)
  {
    assert j + (m + x) == (j + m) + x && b + (r + x) == (b + r) + x;
  }

  lemma {:induction false} ErrorEnds(p0: Parser, data: string, p: nat)
    requires p < |data| && Run(p0, data[..p + 1]).parser.errno != OK
    ensures Run(p0, data) == Run(p0, data[..p + 1])
  {
    hide Run;
    BulkRun(p0, data, p + 1, |data|);
    assert data[..|data|] == data;
    var x := Run(p0, data[..p + 1]);
    RunAfterError(x.parser, data[p + 1..|data|]);
    assert x.body + "" == x.body;
  }

  /** A byte that causes an error delivers nothing. */
  lemma {:induction false} ErrorIsQuiet(p: Parser, ch: char)
    requires p.errno == OK && Byte(p, ch).parser.errno != OK
    ensures Byte(p, ch).body == "" && Byte(p, ch).completes == 0
  {
  }

  /** Outside the counted states a byte delivers no body bytes. */
  lemma {:induction false} OtherStatesDeliverNothing(p: Parser, ch: char)
    requires !p.state.ChunkData? && !p.state.BodyIdentity?
    ensures Byte(p, ch).body == ""
  {
  }

  lemma {:induction false} AllButLast(j: string, m: string, b: string, r: string)
    requires j + m == b + r && |b| <= |j|
    ensures |m| <= |r| && j == b + r[..|r| - |m|]
  {
    assert |j| + |m| == |b| + |r|;
    assert j == (j + m)[..|j|] == (b + r)[..|j|];
  }

  // ---------------------------------------------------------------- what an error loses

  lemma {:induction false} DroppedNothing(p: Parser, pending: nat)
    ensures Dropped(p, "", pending) == 0
  {
  }

  lemma {:induction false} DroppedStep(v: Parser, data: string, p: nat, pending: nat)
    requires p < |data|
    ensures var h := Byte(v, data[p]);
            Dropped(v, data[p..], pending) ==
            if h.parser.errno != OK then pending else Dropped(h.parser, data[p + 1..], if v.state.ChunkData? then pending + 1 else 0)
  {
    hide Byte;
    assert data[p..][1..] == data[p + 1..];
  }

  /** Counted bytes add to what is pending in a chunk and to nothing in a fixed-length body. */
  lemma {:induction false} DroppedCounted(v: Parser, data: string, from: nat, p: nat, pending: nat)
    requires from < p <= |data| && v.errno == OK && (v.state.ChunkData? || v.state.BodyIdentity?) && p - from <= v.contentLength
    ensures Dropped(v, data[from..], pending) ==
            Dropped(Run(v, data[from..p]).parser, data[p..], if v.state.ChunkData? then pending + (p - from) else 0)
    decreases p - from
  {
    hide Dropped;
    DroppedStep(v, data, from, pending);
    var h := Byte(v, data[from]).parser;
    assert data[from..p][1..] == data[from + 1..p];
    assert Run(v, data[from..p]).parser == Run(h, data[from + 1..p]).parser;
    if from + 1 < p {
      DroppedCounted(h, data, from + 1, p, if v.state.ChunkData? then pending + 1 else 0);
    } else {
      assert data[from + 1..p] == "";
    }
  }

  /** A chunk's data is the only way to its end, and taking data is no error. */
  lemma {:induction false} EndOfData(p: Parser, ch: char)
    ensures var q := Byte(p, ch).parser;
            && (p.errno == OK && p.state.ChunkData? ==> q.errno == OK && (q.state.ChunkData? || q.state.ChunkDataAlmostDone?))
            && (q.errno == OK && q.state.ChunkDataAlmostDone? ==> p.state.ChunkData?)
  {
  }

  lemma {:induction false} DroppedFrom(p: Parser, data: string, pending: nat, n: nat)
    requires p.errno == OK && n < |data| && Run(p, data[..n]).parser.errno == OK && Run(p, data[..n + 1]).parser.errno != OK
    requires pending > 0 ==> p.state.ChunkData? || p.state.ChunkDataAlmostDone?
    ensures Dropped(p, data, pending) == 0 <==> !(Run(p, data[..n]).parser.state.ChunkDataAlmostDone? && (n > 0 || pending > 0))
    decreases n
  {
    hide Byte;
    var h := Byte(p, data[0]);
    EndOfData(p, data[0]);
    DroppedStep(p, data, 0, pending);
    assert data[0..] == data;
    RunSnoc(p, data, n);
    if n > 0 {
      assert data[..n][1..] == data[1..][..n - 1] && data[..n + 1][1..] == data[1..][..n];
      if h.parser.errno != OK {
        RunAfterError(h.parser, data[1..][..n - 1]);
      } else {
        DroppedFrom(h.parser, data[1..], if p.state.ChunkData? then pending + 1 else 0, n - 1);
      }
    }
  }

  /** When the error is at byte `n`: nothing is lost exactly when that is the first byte of the
      call or the parser was not waiting for the end of a chunk's data. */
  lemma {:induction false} DroppedWhen(p: Parser, data: string, n: nat)
    requires p.errno == OK && n < |data| && Run(p, data[..n]).parser.errno == OK && Run(p, data[..n + 1]).parser.errno != OK
    ensures Dropped(p, data, 0) == 0 <==> n == 0 || !Run(p, data[..n]).parser.state.ChunkDataAlmostDone?
  {
    hide Run, Dropped;
    DroppedFrom(p, data, 0, n);
  }

  /** Without an error nothing is lost. */
  lemma {:induction false} NothingDropped(p: Parser, data: string, pending: nat)
    requires Run(p, data).parser.errno == OK
    ensures Dropped(p, data, pending) == 0
    decreases |data|
  {
    hide Byte;
    if data != "" {
      var h := Byte(p, data[0]);
      if h.parser.errno != OK {
        RunAfterError(h.parser, data[1..]);
      } else {
        NothingDropped(h.parser, data[1..], if p.state.ChunkData? then pending + 1 else 0);
      }
    }
  }
}
