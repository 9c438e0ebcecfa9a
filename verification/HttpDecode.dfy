/** Well-formed bodies, cut in any way, are decoded to their content with one completion at the last byte. */
module HttpDecode {
  import opened Options
  import opened Limits
  import opened Text
  import opened Hexadecimal
  import opened Pieces
  import opened HttpBody
  import opened HttpFeed
  import Decimal

  /** The largest chunk size the overflow test lets through. */
  const MAX_CHUNK_SIZE := 0xffff_ffff_ffff_ffef

  // ---------------------------------------------------------------- encoded bodies

  predicate HexText(s: string) { forall k :: 0 <= k < |s| ==> IsHex(s[k]) }

  function HexFold(acc: nat, s: string): (n: nat)
    requires HexText(s)
    decreases |s|
  {
    if s == "" then acc else HexFold(acc * 16 + Unhex(s[0]), s[1..])
  }

  /** Reading a numeral: the digits in turn, each worth its letter's place in the alphabet, independent of the digit table. */
  lemma {:induction false} HexFoldSnoc(acc: nat, s: string, c: char)
    requires HexText(s) && IsHex(c)
    ensures HexText(s + [c]) && HexFold(acc, s + [c]) == HexFold(acc, s) * 16 + Unhex(c)
    decreases |s|
  {
    if s == "" {
      assert s + [c] == [c] && [c][1..] == "";
    } else {
      assert (s + [c])[0] == s[0] && (s + [c])[1..] == s[1..] + [c];
      HexFoldSnoc(acc * 16 + Unhex(s[0]), s[1..], c);
    }
  }

  lemma {:induction false} LetterUnhex(v: nat, upper: bool)
    requires v < 16
    ensures IsHex(HexLetter(v, upper)) && Unhex(HexLetter(v, upper)) == v
  {
    LetterCode(v, upper);
  }

  /** A size line denotes the number whose hexadecimal numeral it is, in letters of either case and with leading zeros. */
  lemma {:induction false} HexFoldDigits(n: nat, upper: bool)
    ensures HexText(HexDigits(n, upper)) && HexFold(0, HexDigits(n, upper)) == n
  {
    hide HexLetter, Unhex;
    if n < 16 {
      LetterUnhex(n, upper);
      HexFoldSnoc(0, "", HexLetter(n, upper));
      assert "" + [HexLetter(n, upper)] == [HexLetter(n, upper)];
    } else {
      HexFoldDigits(n / 16, upper);
      LetterUnhex(n % 16, upper);
      HexFoldSnoc(0, HexDigits(n / 16, upper), HexLetter(n % 16, upper));
    }
  }

  lemma {:induction false} HexFoldZeros(zeros: string, s: string)
    requires HexText(s) && forall k :: 0 <= k < |zeros| ==> zeros[k] == '0'
    ensures HexText(zeros + s) && HexFold(0, zeros + s) == HexFold(0, s)
    decreases |zeros|
  {
    if zeros == "" {
      assert zeros + s == s;
    } else {
      assert (zeros + s)[0] == '0' && (zeros + s)[1..] == zeros[1..] + s;
      HexFoldZeros(zeros[1..], s);
    }
  }

  /** A chunk as a sender writes it: its size in hexadecimal, in either case, with any leading zeros. */
  predicate SizedChunk(c: Chunk) {
    && |c.data| <= MAX_CHUNK_SIZE && IsExtension(c.ext) && |c.size| + |c.ext| + 2 <= 81920
    && exists zeros: nat, upper :: zeros <= |c.size| && c.size == Zeros(zeros) + HexDigits(|c.data|, upper)
  }

  function Zeros(k: nat): (s: string)
    ensures |s| == k && forall i :: 0 <= i < k ==> s[i] == '0'
  {
    seq(k, _ => '0')
  }

  lemma {:induction false} SizedIsWellFormed(c: Chunk)
    requires SizedChunk(c)
    ensures c.data != "" ==> WellFormedChunk(c)
    ensures c.data == "" ==> WellFormedLast(c)
  {
    hide HexFold, HexText, HexDigits;
    var zeros: nat, upper :| zeros <= |c.size| && c.size == Zeros(zeros) + HexDigits(|c.data|, upper);
    HexFoldDigits(|c.data|, upper);
    HexFoldZeros(Zeros(zeros), HexDigits(|c.data|, upper));
  }

  /** A chunk extension: empty, or introduced by ';' or ' ' and free of CR. */
  predicate IsExtension(e: string) {
    e == "" || ((e[0] == ';' || e[0] == ' ') && '\r' !in e)
  }

  /** A chunk as written: the digits of its size, its extension, its data. */
  datatype Chunk = Chunk(size: string, ext: string, data: string)

  predicate WellFormedLine(c: Chunk) {
    && c.size != "" && HexText(c.size) && IsExtension(c.ext)
    && |c.size| + |c.ext| + 2 <= MAX_HEADER_SIZE
  }

  predicate WellFormedChunk(c: Chunk) {
    WellFormedLine(c) && HexFold(0, c.size) == |c.data| && 0 < |c.data| <= MAX_CHUNK_SIZE
  }

  predicate WellFormedLast(c: Chunk) {
    WellFormedLine(c) && HexFold(0, c.size) == 0 && c.data == ""
  }

  function Line(c: Chunk): (s: string) { c.size + c.ext + "\r\n" }

  function EncodeChunk(c: Chunk): (s: string) { Line(c) + c.data + "\r\n" }

  function Encode(cs: seq<Chunk>, last: Chunk): (s: string) {
    if cs == [] then Line(last) + "\r\n" else EncodeChunk(cs[0]) + Encode(cs[1..], last)
  }

  function Content(cs: seq<Chunk>): (s: string) {
    if cs == [] then "" else cs[0].data + Content(cs[1..])
  }

  /** The parser as the header part leaves it for a chunked body; the length field holds any earlier value. */
  function ChunkedStart(length: nat): (p: Parser) { Parser(ChunkSizeStart, length, 0, OK) }

  // ---------------------------------------------------------------- size lines

  lemma {:induction false} HexFoldGrows(acc: nat, s: string)
    requires HexText(s)
    ensures acc <= HexFold(acc, s)
    decreases |s|
  {
    if s != "" {
      HexFoldGrows(acc * 16 + Unhex(s[0]), s[1..]);
    }
  }

  lemma {:induction false} DigitByte(p: Parser, ch: char)
    requires p.errno == OK && p.state.ChunkSize? && IsHex(ch)
    requires p.nread < MAX_HEADER_SIZE && p.contentLength <= MAX_CHUNK_SIZE
    ensures var next := p.contentLength * 16 + Unhex(ch);
            && 0 <= Unhex(ch)
            && (next <= MAX_CHUNK_SIZE ==> Byte(p, ch) == Effect(p.(contentLength := next, nread := p.nread + 1), "", 0))
            && (next > MAX_CHUNK_SIZE ==> Byte(p, ch).parser.errno == InvalidContentLength)
  {
    var next := p.contentLength * 16 + Unhex(ch);
    assert (UINT64_MAX - 16) / 16 < p.contentLength <==> next > MAX_CHUNK_SIZE;
  }

  /** The digits of a size are accepted exactly up to the limit of the overflow test. */
  lemma {:induction false} RunDigits(p: Parser, s: string)
    requires p.errno == OK && p.state.ChunkSize? && HexText(s)
    requires p.nread + |s| <= MAX_HEADER_SIZE && p.contentLength <= MAX_CHUNK_SIZE
    ensures HexFold(p.contentLength, s) <= MAX_CHUNK_SIZE ==>
              Run(p, s) == Effect(p.(contentLength := HexFold(p.contentLength, s), nread := p.nread + |s|), "", 0)
    ensures HexFold(p.contentLength, s) > MAX_CHUNK_SIZE ==> Run(p, s).parser.errno == InvalidContentLength
    decreases |s|
  {
    hide Byte, Unhex;
    if s != "" {
      DigitByte(p, s[0]);
      var h := Byte(p, s[0]);
      var next := p.contentLength * 16 + Unhex(s[0]);
      HexFoldGrows(next, s[1..]);
      if next <= MAX_CHUNK_SIZE {
        RunDigits(h.parser, s[1..]);
      } else {
        RunAfterError(h.parser, s[1..]);
      }
    }
  }

  lemma {:induction false} RunParameters(p: Parser, s: string)
    requires p.errno == OK && p.state.ChunkParameters? && '\r' !in s && p.nread + |s| <= MAX_HEADER_SIZE
    ensures Run(p, s) == Effect(p.(nread := p.nread + |s|), "", 0)
    decreases |s|
  {
    if s != "" {
      assert s[0] in s;
      RunParameters(Byte(p, s[0]).parser, s[1..]);
    }
  }

  lemma {:induction false} RunExtension(p: Parser, e: string)
    requires p.errno == OK && p.state.ChunkSize? && IsExtension(e) && p.nread + |e| <= MAX_HEADER_SIZE
    ensures Run(p, e) == Effect(p.(nread := p.nread + |e|, state := if e == "" then ChunkSize else ChunkParameters), "", 0)
  {
    if e != "" {
      RunParameters(Byte(p, e[0]).parser, e[1..]);
    }
  }

  lemma {:induction false} RunEndOfLine(p: Parser)
    requires p.errno == OK && (p.state.ChunkSize? || p.state.ChunkParameters?) && p.nread + 2 <= MAX_HEADER_SIZE
    ensures Run(p, "\r\n") ==
            Effect(p.(nread := 0, state := if p.contentLength == 0 then HeaderFieldStart else ChunkData), "", 0)
  {
    var s := "\r\n";
    assert s[1..] == "\n" && s[1..][1..] == "";
    RunOne(Byte(p, '\r').parser, '\n');
  }

  /** Two stretches without body bytes or completions. */
  lemma {:induction false} RunTwo(p: Parser, a: string, b: string)
    ensures var x := Run(p, a);
            x == Effect(x.parser, "", 0) ==> Run(p, a + b) == Run(x.parser, b)
  {
    RunConcat(p, a, b);
    var y := Run(Run(p, a).parser, b);
    assert "" + y.body == y.body;
  }

  lemma {:induction false} RunFirstDigit(length: nat, s: string)
    requires s != "" && HexText(s) && |s| + 2 <= MAX_HEADER_SIZE && HexFold(0, s) <= MAX_CHUNK_SIZE
    ensures Run(ChunkedStart(length), s) == Effect(Parser(ChunkSize, HexFold(0, s), |s|, OK), "", 0)
  {
    hide Run;
    var p := ChunkedStart(length);
    assert s == [s[0]] + s[1..];
    RunOne(p, s[0]);
    RunTwo(p, [s[0]], s[1..]);
    RunDigits(Parser(ChunkSize, Unhex(s[0]), 1, OK), s[1..]);
  }

  lemma {:induction false} RunLine(length: nat, c: Chunk)
    requires WellFormedLine(c) && HexFold(0, c.size) <= MAX_CHUNK_SIZE
    ensures var v := HexFold(0, c.size);
            Run(ChunkedStart(length), Line(c)) == Effect(Parser(if v == 0 then HeaderFieldStart else ChunkData, v, 0, OK), "", 0)
  {
    hide Run, HexFold;
    var p, v := ChunkedStart(length), HexFold(0, c.size);
    RunFirstDigit(length, c.size);
    var q := Parser(ChunkSize, v, |c.size|, OK);
    RunExtension(q, c.ext);
    var r := q.(nread := |c.size| + |c.ext|, state := if c.ext == "" then ChunkSize else ChunkParameters);
    RunEndOfLine(r);
    RunTwo(p, c.size, c.ext);
    RunTwo(p, c.size + c.ext, "\r\n");
  }

  // ---------------------------------------------------------------- whole bodies

  lemma {:induction false} RunEndOfData(p: Parser)
    requires p.errno == OK && p.state.ChunkDataAlmostDone? && p.contentLength == 0
    ensures Run(p, "\r\n") == Effect(ChunkedStart(0), "", 0)
  {
    var s := "\r\n";
    assert s[1..] == "\n" && s[1..][1..] == "";
    RunOne(Byte(p, '\r').parser, '\n');
  }

  lemma {:induction false} RunChunk(length: nat, c: Chunk)
    requires WellFormedChunk(c)
    ensures Run(ChunkedStart(length), EncodeChunk(c)) == Effect(ChunkedStart(0), c.data, 0)
  {
    hide Run, HexFold, Line;
    var p := ChunkedStart(length);
    RunLine(length, c);
    var q := Parser(ChunkData, |c.data|, 0, OK);
    RunCounted(q, c.data);
    RunTwo(p, Line(c), c.data);
    RunConcat(p, Line(c) + c.data, "\r\n");
    RunEndOfData(Parser(ChunkDataAlmostDone, 0, 0, OK));
    assert c.data + "" == c.data;
  }

  /** The state just before the last byte of a chunked body. */
  const BEFORE_LAST_BYTE := Parser(HeadersAlmostDone, 0, 1, OK)

  lemma {:induction false} RunLast(length: nat, last: Chunk)
    requires WellFormedLast(last)
    ensures Run(ChunkedStart(length), Line(last) + "\r") == Effect(BEFORE_LAST_BYTE, "", 0)
  {
    hide Run, HexFold, Line;
    RunLine(length, last);
    RunTwo(ChunkedStart(length), Line(last), "\r");
    RunOne(Parser(HeaderFieldStart, 0, 0, OK), '\r');
  }

  /** All but the last byte of an encoded body. */
  function EncodeButLast(cs: seq<Chunk>, last: Chunk): (s: string) {
    if cs == [] then Line(last) + "\r" else EncodeChunk(cs[0]) + EncodeButLast(cs[1..], last)
  }

  lemma {:induction false} EncodeEnds(cs: seq<Chunk>, last: Chunk)
    ensures Encode(cs, last) == EncodeButLast(cs, last) + "\n"
  {
    hide EncodeChunk, Line;
    if cs == [] {
      assert Line(last) + "\r" + "\n" == Line(last) + "\r\n";
    } else {
      EncodeEnds(cs[1..], last);
      assert EncodeChunk(cs[0]) + (EncodeButLast(cs[1..], last) + "\n") == EncodeChunk(cs[0]) + EncodeButLast(cs[1..], last) + "\n";
    }
  }

  /** Everything up to the last byte delivers the whole content and no completion. */
  lemma {:induction false} RunButLast(length: nat, cs: seq<Chunk>, last: Chunk)
    requires WellFormedLast(last) && forall k :: 0 <= k < |cs| ==> WellFormedChunk(cs[k])
    ensures Run(ChunkedStart(length), EncodeButLast(cs, last)) == Effect(BEFORE_LAST_BYTE, Content(cs), 0)
    decreases |cs|
  {
    hide Run, EncodeChunk, WellFormedChunk, WellFormedLast;
    if cs == [] {
      RunLast(length, last);
    } else {
      RunChunk(length, cs[0]);
      RunButLast(0, cs[1..], last);
      RunConcat(ChunkedStart(length), EncodeChunk(cs[0]), EncodeButLast(cs[1..], last));
    }
  }

  /** A chunked body: its content, and one completion, signalled at the last byte. */
  lemma {:induction false} RunChunked(length: nat, cs: seq<Chunk>, last: Chunk)
    requires WellFormedLast(last) && forall k :: 0 <= k < |cs| ==> WellFormedChunk(cs[k])
    ensures var e := Encode(cs, last);
            && e != ""
            && Run(ChunkedStart(length), e[..|e| - 1]) == Effect(BEFORE_LAST_BYTE, Content(cs), 0)
            && Run(ChunkedStart(length), e) == Effect(Parser(HeadersAlmostDone, 0, 2, OK), Content(cs), 1)
  {
    hide Run, Encode, EncodeButLast, WellFormedChunk, WellFormedLast;
    var e := Encode(cs, last);
    EncodeEnds(cs, last);
    assert e[..|e| - 1] == EncodeButLast(cs, last);
    RunButLast(length, cs, last);
    RunConcat(ChunkedStart(length), EncodeButLast(cs, last), "\n");
    RunOne(BEFORE_LAST_BYTE, '\n');
    assert Content(cs) + "" == Content(cs);
  }

  /** A fixed-length body: the same bytes, and one completion at the last of them. */
  lemma {:induction false} RunFixed(body: string)
    requires 0 < |body| < UINT64_MAX
    ensures var p := Parser(BodyIdentity, |body|, 0, OK);
            && Run(p, body[..|body| - 1]).completes == 0
            && Run(p, body) == Effect(Parser(MessageDone, 0, 0, OK), body, 1)
  {
    var p := Parser(BodyIdentity, |body|, 0, OK);
    RunCounted(p, body);
    if |body| > 1 {
      RunCounted(p, body[..|body| - 1]);
    }
  }

  // ---------------------------------------------------------------- bytes after the body

  lemma {:induction false} RunDone(s: string)
    ensures Run(Parser(MessageDone, 0, 0, OK), s) == Effect(Parser(MessageDone, 0, 0, OK), "", |s|)
    decreases |s|
  {
    if s != "" {
      RunDone(s[1..]);
    }
  }

  /** In one run, every byte after a fixed-length body signals completion again. */
  lemma {:induction false} RunFixedMore(body: string, extra: string)
    requires 0 < |body| < UINT64_MAX
    ensures Run(Parser(BodyIdentity, |body|, 0, OK), body + extra) ==
            Effect(Parser(MessageDone, 0, 0, OK), body, 1 + |extra|)
  {
    hide Run;
    RunFixed(body);
    RunDone(extra);
    RunConcat(Parser(BodyIdentity, |body|, 0, OK), body, extra);
    assert body + "" == body;
  }

  function LeadingNewlines(s: string): (n: nat)
    ensures n <= |s|
  {
    if s != "" && s[0] == '\n' then 1 + LeadingNewlines(s[1..]) else 0
  }

  lemma {:induction false} RunNewlines(nread: nat, s: string)
    requires nread <= MAX_HEADER_SIZE
    ensures Run(Parser(HeadersAlmostDone, 0, nread, OK), s).completes ==
            if LeadingNewlines(s) <= MAX_HEADER_SIZE - nread then LeadingNewlines(s) else MAX_HEADER_SIZE - nread
    ensures Run(Parser(HeadersAlmostDone, 0, nread, OK), s).body == ""
    decreases |s|
  {
    if s != "" {
      var h := Byte(Parser(HeadersAlmostDone, 0, nread, OK), s[0]);
      if h.parser.errno != OK {
        RunAfterError(h.parser, s[1..]);
      } else {
        RunNewlines(nread + 1, s[1..]);
      }
    }
  }

  /** In one run, each line feed after a chunked body signals completion again, up to the header limit;
      any other byte is an error. */
  lemma {:induction false} RunChunkedMore(length: nat, cs: seq<Chunk>, last: Chunk, extra: string)
    requires WellFormedLast(last) && forall k :: 0 <= k < |cs| ==> WellFormedChunk(cs[k])
    ensures var r := Run(ChunkedStart(length), Encode(cs, last) + extra);
            && r.body == Content(cs)
            && r.completes == 1 + (if LeadingNewlines(extra) <= MAX_HEADER_SIZE - 2 then LeadingNewlines(extra) else MAX_HEADER_SIZE - 2)
            && (r.completes == 1 <==> extra == "" || extra[0] != '\n')
  {
    hide Run, Encode, WellFormedChunk, WellFormedLast;
    RunChunked(length, cs, last);
    RunNewlines(2, extra);
    RunConcat(ChunkedStart(length), Encode(cs, last), extra);
    assert Content(cs) + "" == Content(cs);
  }

  // ---------------------------------------------------------------- any cut into feed calls

  lemma {:induction false} RunJoined(p: Parser, cuts: seq<string>, k: nat)
    requires k < |cuts|
    ensures var x := Run(p, Joined(cuts[..k]));
            var y := Run(x.parser, cuts[k]);
            Run(p, Joined(cuts[..k + 1])) == Effect(y.parser, x.body + y.body, x.completes + y.completes)
  {
    hide Run;
    assert cuts[..k + 1] == cuts[..k] + [cuts[k]];
    JoinedSnoc(cuts[..k], cuts[k]);
    RunConcat(p, Joined(cuts[..k]), cuts[k]);
  }

  /** What all the feed calls of a cut input lose together; only the one that meets the error loses anything. */
  function Lost(p: Parser, cuts: seq<string>): (n: nat)
    decreases |cuts|
  {
    if cuts == [] then 0
    else
      var front := cuts[..|cuts| - 1];
      Lost(p, front) + Dropped(Run(p, Joined(front)).parser, cuts[|cuts| - 1], 0)
  }

  lemma {:induction false} LostSnoc(p: Parser, cuts: seq<string>, k: nat)
    requires k < |cuts|
    ensures Lost(p, cuts[..k + 1]) == Lost(p, cuts[..k]) + Dropped(Run(p, Joined(cuts[..k])).parser, cuts[k], 0)
  {
    hide Run, Dropped, Joined;
    assert cuts[..k + 1][..k] == cuts[..k];
  }

  lemma {:induction false} DroppedAfterError(p: Parser, data: string)
    requires p.errno != OK
    ensures Dropped(p, data, 0) == 0
  {
  }

  lemma {:induction false} CutBody(b: string, x: string, y: string, d: nat)
    requires d <= |y|
    ensures b + x + y[..|y| - d] == b + (x + y)[..|x + y| - d]
  {
  }

  /** How many of the calls from the `k`-th on get through: up to the first that leaves the message complete. */
  function HeardFrom(p: Parser, cuts: seq<string>, k: nat): (h: nat)
    requires k <= |cuts|
    ensures k <= h <= |cuts|
    ensures forall j :: k <= j < h ==> Run(p, Joined(cuts[..j])).completes == 0
    ensures h < |cuts| ==> Run(p, Joined(cuts[..h])).completes > 0
    decreases |cuts| - k
  {
    hide Run, Joined;
    if k == |cuts| || Run(p, Joined(cuts[..k])).completes > 0 then k else HeardFrom(p, cuts, k + 1)
  }

  function Heard(p: Parser, cuts: seq<string>): (h: nat)
    ensures h <= |cuts|
  {
    HeardFrom(p, cuts, 0)
  }

  /**
    Feeds an input in non-empty pieces to a parser whose message is not complete.
    However it is cut, and whether or not it ends in an error, the parser and the
    completions are those of the input up to the end of the first piece that
    completes the message; the pieces after it change nothing. The body is that
    of the same input except for the bytes lost by the call that meets an error.
   */
  method FeedAll(hp: HttpParser, cuts: seq<string>)
    requires hp.errno == OK ==> CounterOk(hp.Value())
    requires !hp.MessageComplete()
    requires forall k :: 0 <= k < |cuts| ==> cuts[k] != ""
    modifies hp
    ensures var heard := cuts[..Heard(old(hp.Value()), cuts)];
            var r := Run(old(hp.Value()), Joined(heard));
            var lost := Lost(old(hp.Value()), heard);
            && hp.Value() == r.parser
            && hp.completes == r.completes
            && lost <= |r.body| && Joined(hp.pieces) == Joined(old(hp.pieces)) + r.body[..|r.body| - lost]
            && (hp.errno == OK ==> lost == 0)
  {
    hide Run, Joined, CounterOk, Lost, Dropped, Told;
    ghost var p0, b0 := hp.Value(), Joined(hp.pieces);
    ghost var h := Heard(p0, cuts);
    ToldNothing(p0, cuts, b0);
    var k := 0;
    while k < |cuts|
      invariant 0 <= k <= |cuts| && h == Heard(p0, cuts)
      invariant Told(p0, cuts[..if k < h then k else h], b0, hp.Value(), Joined(hp.pieces), hp.completes)
      invariant hp.errno == OK ==> CounterOk(hp.Value())
    {
      ghost var q, b, c := hp.Value(), Joined(hp.pieces), hp.completes;
      ToldCompletes(p0, cuts[..if k < h then k else h], b0, q, b, c);
      var ok := hp.Feed(cuts[k]);
      if k < h {
        ToldNext(p0, cuts, k, b0, q, b, c, hp.Value(), Joined(hp.pieces), hp.completes);
      }
      k := k + 1;
    }
    ToldMeans(p0, cuts[..h], b0, hp.Value(), Joined(hp.pieces), hp.completes);
  }

  /** What has been heard so far took the parser `p` and the body `b0` to `q` and `b`, with `c` completions. */
  ghost predicate Told(p: Parser, heard: seq<string>, b0: string, q: Parser, b: string, c: nat) {
    var r := Run(p, Joined(heard));
    var lost := Lost(p, heard);
    && q == r.parser && c == r.completes
    && lost <= |r.body| && b == b0 + r.body[..|r.body| - lost]
    && (q.errno == OK ==> lost == 0)
  }

  lemma {:induction false} ToldNothing(p: Parser, cuts: seq<string>, b: string)
    ensures Told(p, cuts[..0], b, p, b, 0)
  {
    NothingJoined(p, cuts, b);
  }

  lemma {:induction false} ToldCompletes(p: Parser, heard: seq<string>, b0: string, q: Parser, b: string, c: nat)
    requires Told(p, heard, b0, q, b, c)
    ensures c == Run(p, Joined(heard)).completes
  {
  }

  lemma {:induction false} ToldMeans(p: Parser, heard: seq<string>, b0: string, q: Parser, b: string, c: nat)
    requires Told(p, heard, b0, q, b, c)
    ensures var r := Run(p, Joined(heard));
            var lost := Lost(p, heard);
            && q == r.parser && c == r.completes
            && lost <= |r.body| && b == b0 + r.body[..|r.body| - lost]
            && (q.errno == OK ==> lost == 0)
  {
  }

  lemma {:induction false} ToldNext(p: Parser, cuts: seq<string>, k: nat, b0: string, q: Parser, b: string, c: nat, q1: Parser, b1: string, c1: nat)
    requires k < |cuts| && Told(p, cuts[..k], b0, q, b, c)
    requires Took(q, b, c, cuts[k], q1, b1, c1)
    requires q1.errno == OK ==> Dropped(q, cuts[k], 0) == 0
    ensures Told(p, cuts[..k + 1], b0, q1, b1, c1)
  {
    hide Run, Joined, Lost, Dropped;
    RunJoined(p, cuts, k);
    LostSnoc(p, cuts, k);
    var x := Run(p, Joined(cuts[..k]));
    if q.errno != OK {
      RunAfterError(q, cuts[k]);
      DroppedAfterError(q, cuts[k]);
      assert x.body + "" == x.body;
    } else {
      assert x.body[..|x.body|] == x.body;
      CutBody(b0, x.body, Run(q, cuts[k]).body, Dropped(q, cuts[k], 0));
    }
  }

  lemma {:induction false} NothingJoined(p: Parser, cuts: seq<string>, b: string)
    ensures Run(p, Joined(cuts[..0])) == Effect(p, "", 0) && Lost(p, cuts[..0]) == 0 && b + ""[..0] == b
  {
  }

  // ---------------------------------------------------------------- where the message completes

  lemma {:induction false} PrefixCompletes(p: Parser, x: string, k: nat)
    requires k <= |x|
    ensures Run(p, x[..k]).completes <= Run(p, x).completes
  {
    hide Run;
    assert x == x[..k] + x[k..];
    RunConcat(p, x[..k], x[k..]);
  }

  lemma {:induction false} JoinedPrefix(cuts: seq<string>, k: nat)
    requires k <= |cuts|
    ensures Joined(cuts[..k]) <= Joined(cuts)
    decreases |cuts| - k
  {
    hide Joined;
    if k == |cuts| {
      assert cuts[..k] == cuts;
    } else {
      JoinedPrefix(cuts, k + 1);
      assert cuts[..k + 1] == cuts[..k] + [cuts[k]];
      JoinedSnoc(cuts[..k], cuts[k]);
    }
  }

  /** When the input completes the message at the last byte of its prefix `b` and not before, the pieces that
      get through are those up to the one with that byte. */
  lemma {:induction false} HeardReaches(p: Parser, cuts: seq<string>, b: string)
    requires b != "" && b <= Joined(cuts)
    requires Run(p, b[..|b| - 1]).completes == 0 && Run(p, b).completes > 0
    ensures var h := Heard(p, cuts);
            && 0 < h
            && |Joined(cuts[..h - 1])| < |b| <= |Joined(cuts[..h])|
            && Joined(cuts[..h]) <= Joined(cuts)
  {
    hide Run, Joined;
    var h := Heard(p, cuts);
    assert cuts[..|cuts|] == cuts;
    NoPieces(cuts);
    JoinedPrefix(cuts, h);
    ShortIsQuiet(p, Joined(cuts), b, Joined(cuts[..h]));
    if h > 0 {
      JoinedPrefix(cuts, h - 1);
      LongIsLoud(p, Joined(cuts), b, Joined(cuts[..h - 1]));
    }
  }

  lemma {:induction false} NoPieces(cuts: seq<string>)
    ensures Joined(cuts[..0]) == ""
  {
  }

  lemma {:induction false} ShortIsQuiet(p: Parser, x: string, b: string, y: string)
    requires b != "" && b <= x && y <= x && Run(p, b[..|b| - 1]).completes == 0
    ensures |y| < |b| ==> Run(p, y).completes == 0
  {
    hide Run;
    if |y| < |b| {
      assert y == x[..|y|] == b[..|b| - 1][..|y|];
      PrefixCompletes(p, b[..|b| - 1], |y|);
    }
  }

  lemma {:induction false} LongIsLoud(p: Parser, x: string, b: string, z: string)
    requires b <= x && z <= x && Run(p, b).completes > 0
    ensures |z| >= |b| ==> Run(p, z).completes > 0
  {
    hide Run;
    if |z| >= |b| {
      assert b == x[..|b|] == z[..|b|];
      PrefixCompletes(p, z, |b|);
    }
  }

  /** A fixed-length body followed by more: completion is signalled once for the body and once for every byte that
      follows it in the same piece; so it comes once if and only if that piece ends with the body. */
  lemma {:induction false} FixedSignals(body: string, extra: string, cuts: seq<string>)
    requires 0 < |body| < UINT64_MAX && Joined(cuts) == body + extra
    ensures var p := Parser(BodyIdentity, |body|, 0, OK);
            var heard := Joined(cuts[..Heard(p, cuts)]);
            && body <= heard
            && Run(p, heard).completes == 1 + |heard| - |body| && Run(p, heard).body == body
            && (Run(p, heard).completes == 1 <==> heard == body)
  {
    hide Run, Joined, Heard;
    var p := Parser(BodyIdentity, |body|, 0, OK);
    RunFixed(body);
    assert (body + extra)[..|body|] == body;
    HeardReaches(p, cuts, body);
    var heard := Joined(cuts[..Heard(p, cuts)]);
    assert heard == body + heard[|body|..];
    RunFixedMore(body, heard[|body|..]);
  }

  /** A chunked body followed by more: completion is signalled once if and only if no line feed follows it in the same piece. */
  lemma {:induction false} ChunkedSignals(length: nat, cs: seq<Chunk>, last: Chunk, extra: string, cuts: seq<string>)
    requires WellFormedLast(last) && forall k :: 0 <= k < |cs| ==> WellFormedChunk(cs[k])
    requires Joined(cuts) == Encode(cs, last) + extra
    ensures var p := ChunkedStart(length);
            var e := Encode(cs, last);
            var heard := Joined(cuts[..Heard(p, cuts)]);
            && e <= heard
            && Run(p, heard).body == Content(cs)
            && (Run(p, heard).completes == 1 <==> heard == e || heard[|e|] != '\n')
  {
    hide Run, Joined, Heard, Encode, WellFormedChunk, WellFormedLast;
    var p, e := ChunkedStart(length), Encode(cs, last);
    RunChunked(length, cs, last);
    assert (e + extra)[..|e|] == e;
    HeardReaches(p, cuts, e);
    var heard := Joined(cuts[..Heard(p, cuts)]);
    assert heard == e + heard[|e|..];
    RunChunkedMore(length, cs, last, heard[|e|..]);
  }

  /** When the whole input is the body, every piece of it gets through. */
  lemma {:induction false} AllHeard(p: Parser, cuts: seq<string>, b: string)
    requires b != "" && b == Joined(cuts)
    requires Run(p, b[..|b| - 1]).completes == 0 && Run(p, b).completes > 0
    ensures Joined(cuts[..Heard(p, cuts)]) == b
  {
    hide Run, Joined, Heard;
    assert b <= b;
    HeardReaches(p, cuts, b);
  }

  /** Every chunked body and every way of cutting it: the pieces add up to the content and completion comes once. */
  method DecodeChunked(length: nat, cs: seq<Chunk>, last: Chunk, cuts: seq<string>) returns (hp: HttpParser)
    requires length <= UINT64_MAX
    requires WellFormedLast(last) && forall k :: 0 <= k < |cs| ==> WellFormedChunk(cs[k])
    requires Joined(cuts) == Encode(cs, last) && forall k :: 0 <= k < |cuts| ==> cuts[k] != ""
    ensures fresh(hp) && hp.errno == OK && Joined(hp.pieces) == Content(cs) && hp.completes == 1
  {
    hide Run, Encode, WellFormedChunk, WellFormedLast, Heard, Lost, Joined, Content;
    RunChunked(length, cs, last);
    AllHeard(ChunkedStart(length), cuts, Encode(cs, last));
    hp := new HttpParser(ChunkedStart(length));
    NoPieces(hp.pieces);
    assert hp.pieces[..0] == hp.pieces;
    FeedAll(hp, cuts);
    Whole(Content(cs));
  }

  /** The same for a fixed-length body. */
  method DecodeFixed(body: string, cuts: seq<string>) returns (hp: HttpParser)
    requires 0 < |body| < UINT64_MAX && Joined(cuts) == body && forall k :: 0 <= k < |cuts| ==> cuts[k] != ""
    ensures fresh(hp) && hp.errno == OK && Joined(hp.pieces) == body && hp.completes == 1
  {
    hide Run, Heard, Lost, Joined;
    RunFixed(body);
    AllHeard(Parser(BodyIdentity, |body|, 0, OK), cuts, body);
    hp := new HttpParser(Parser(BodyIdentity, |body|, 0, OK));
    NoPieces(hp.pieces);
    assert hp.pieces[..0] == hp.pieces;
    FeedAll(hp, cuts);
    Whole(body);
  }

  lemma {:induction false} Whole(s: string)
    ensures "" + s[..|s| - 0] == s
  {
  }

  /** The same from the sender's side: any data in chunks sized in hexadecimal, ended by an empty chunk. */
  method DecodeSized(length: nat, cs: seq<Chunk>, last: Chunk, cuts: seq<string>) returns (hp: HttpParser)
    requires length <= UINT64_MAX
    requires SizedChunk(last) && last.data == "" && forall k :: 0 <= k < |cs| ==> SizedChunk(cs[k]) && cs[k].data != ""
    requires Joined(cuts) == Encode(cs, last) && forall k :: 0 <= k < |cuts| ==> cuts[k] != ""
    ensures fresh(hp) && hp.errno == OK && Joined(hp.pieces) == Content(cs) && hp.completes == 1
  {
    hide SizedChunk, WellFormedChunk, WellFormedLast, Encode, Joined, Content;
    forall k | 0 <= k < |cs|
      ensures WellFormedChunk(cs[k])
    {
      SizedIsWellFormed(cs[k]);
    }
    SizedIsWellFormed(last);
    hp := DecodeChunked(length, cs, last, cuts);
  }

  // ---------------------------------------------------------------- when the cut matters

  /** The error is at byte `n` of piece `k`: body bytes are lost exactly when the parser was
      waiting for the end of a chunk's data and that byte is not the first of its piece. */
  lemma {:induction false} LostWhen(p: Parser, cuts: seq<string>, k: nat, n: nat)
    requires k < |cuts| && n < |cuts[k]|
    requires var q := Run(p, Joined(cuts[..k])).parser;
             q.errno == OK && Run(q, cuts[k][..n]).parser.errno == OK && Run(q, cuts[k][..n + 1]).parser.errno != OK
    ensures var q := Run(p, Joined(cuts[..k])).parser;
            Lost(p, cuts) == 0 <==> n == 0 || !Run(q, cuts[k][..n]).parser.state.ChunkDataAlmostDone?
  {
    hide Run, Joined, Lost, Dropped;
    LostBefore(p, cuts, k);
    var q := Run(p, Joined(cuts[..k])).parser;
    DroppedWhen(q, cuts[k], n);
    LostSnoc(p, cuts, k);
    ErrorEnds(q, cuts[k], n);
    RunJoined(p, cuts, k);
    LostLater(p, cuts, k + 1, |cuts|);
    assert cuts[..|cuts|] == cuts;
  }

  /** As long as no error is recorded nothing is lost. */
  lemma {:induction false} LostBefore(p: Parser, cuts: seq<string>, k: nat)
    requires k <= |cuts| && Run(p, Joined(cuts[..k])).parser.errno == OK
    ensures Lost(p, cuts[..k]) == 0
    decreases k
  {
    hide Run, Joined, Dropped, Lost;
    if k == 0 {
      NothingJoined(p, cuts, "");
    } else {
      RunJoined(p, cuts, k - 1);
      LostSnoc(p, cuts, k - 1);
      var x := Run(p, Joined(cuts[..k - 1])).parser;
      if x.errno != OK {
        RunAfterError(x, cuts[k - 1]);
      } else {
        LostBefore(p, cuts, k - 1);
        NothingDropped(x, cuts[k - 1], 0);
      }
    }
  }

  /** Nor is anything lost after the error. */
  lemma {:induction false} LostLater(p: Parser, cuts: seq<string>, k: nat, m: nat)
    requires k <= m <= |cuts| && Run(p, Joined(cuts[..k])).parser.errno != OK
    ensures Run(p, Joined(cuts[..m])).parser.errno != OK && Lost(p, cuts[..m]) == Lost(p, cuts[..k])
    decreases m
  {
    hide Run, Joined, Dropped, Lost;
    if k < m {
      LostLater(p, cuts, k, m - 1);
      RunJoined(p, cuts, m - 1);
      LostSnoc(p, cuts, m - 1);
      var x := Run(p, Joined(cuts[..m - 1])).parser;
      RunAfterError(x, cuts[m - 1]);
      DroppedAfterError(x, cuts[m - 1]);
    }
  }

  /** The same two bytes, the second of them wrong: fed at once the first is lost, fed one by one it is not. */
  lemma {:induction false} CutDecidesLoss()
    ensures var p := Parser(ChunkData, 1, 0, OK);
            && Joined(["ax"]) == Joined(["a", "x"]) == "ax"
            && Run(p, "ax") == Effect(Parser(ChunkDataAlmostDone, 0, 0, Strict), "a", 0)
            && Lost(p, ["ax"]) == 1 && Lost(p, ["a", "x"]) == 0
  {
    hide Run, Dropped, Lost, Joined;
    var p := Parser(ChunkData, 1, 0, OK);
    JoinedAx();
    RunAx();
    DroppedAx();
    NothingJoined(p, ["ax"], "");
    NothingJoined(p, ["a", "x"], "");
    LostSnoc(p, ["ax"], 0);
    LostSnoc(p, ["a", "x"], 0);
    LostSnoc(p, ["a", "x"], 1);
    assert ["ax"][..1] == ["ax"] && ["a", "x"][..2] == ["a", "x"] && ["a", "x"][..1] == ["a"];
  }

  lemma {:induction false} JoinedAx()
    ensures Joined(["ax"]) == Joined(["a", "x"]) == "ax" && Joined(["a"]) == "a"
  {
    JoinedSnoc([], "ax");
    JoinedSnoc([], "a");
    JoinedSnoc(["a"], "x");
    assert [] + ["ax"] == ["ax"] && [] + ["a"] == ["a"] && ["a"] + ["x"] == ["a", "x"];
  }

  lemma {:induction false} RunAx()
    ensures var p := Parser(ChunkData, 1, 0, OK);
            && Run(p, "a") == Effect(Parser(ChunkDataAlmostDone, 0, 0, OK), "a", 0)
            && Run(p, "ax") == Effect(Parser(ChunkDataAlmostDone, 0, 0, Strict), "a", 0)
  {
    hide Run;
    var p := Parser(ChunkData, 1, 0, OK);
    var q := Parser(ChunkDataAlmostDone, 0, 0, OK);
    RunOne(p, 'a');
    RunOne(q, 'x');
    RunConcat(p, "a", "x");
    assert "a" + "x" == "ax" && "a" + "" == "a";
  }

  lemma {:induction false} DroppedAx()
    ensures var p := Parser(ChunkData, 1, 0, OK);
            var q := Parser(ChunkDataAlmostDone, 0, 0, OK);
            Dropped(p, "ax", 0) == 1 && Dropped(p, "a", 0) == 0 && Dropped(q, "x", 0) == 0
  {
    var p := Parser(ChunkData, 1, 0, OK);
    var q := Parser(ChunkDataAlmostDone, 0, 0, OK);
    assert "ax"[1..] == "x" && "a"[1..] == "" && "x"[1..] == "";
    assert Byte(p, 'a').parser == q && Byte(q, 'x').parser.errno == Strict;
    assert Dropped(q, "x", 1) == 1;
  }

  // ---------------------------------------------------------------- the Content-Length header

  /** The digits after the first one: multiply, add, and the test against a conservative limit. */
  function LengthDigits(length: nat, s: string): (r: Option<nat>)
    requires Decimal.AllDigits(s)
    decreases |s|
  {
    if s == "" then Some(length)
    else if (UINT64_MAX - 10) / 10 < length then None
    else LengthDigits((length * 10 + Decimal.DigitVal(s[0])) % (UINT64_MAX + 1), s[1..])
  }

  function DecFold(acc: nat, s: string): (n: nat)
    requires Decimal.AllDigits(s)
    decreases |s|
  {
    if s == "" then acc else DecFold(acc * 10 + Decimal.DigitVal(s[0]), s[1..])
  }

  /** The largest length the overflow test lets through, six below the mark for "no length". */
  const MAX_LENGTH := 18446744073709551609

  lemma {:induction false} DecFoldGrows(acc: nat, s: string)
    requires Decimal.AllDigits(s)
    ensures acc <= DecFold(acc, s)
    decreases |s|
  {
    if s != "" {
      DecFoldGrows(acc * 10 + Decimal.DigitVal(s[0]), s[1..]);
    }
  }

  /** The overflow test lets a digit through exactly when the new length is at most MAX_LENGTH, and nothing wraps then. */
  lemma {:induction false} LengthStep(length: nat, d: nat)
    requires length <= MAX_LENGTH && d < 10
    ensures (UINT64_MAX - 10) / 10 < length <==> length * 10 + d > MAX_LENGTH
    ensures length * 10 + d <= MAX_LENGTH ==> (length * 10 + d) % (UINT64_MAX + 1) == length * 10 + d
  {
    assert (UINT64_MAX - 10) / 10 == 1844674407370955160;
  }

  lemma {:induction false} LengthUnfold(length: nat, s: string)
    requires length <= MAX_LENGTH && Decimal.AllDigits(s) && s != ""
    ensures var next := length * 10 + Decimal.DigitVal(s[0]);
            && LengthDigits(length, s) == (if next <= MAX_LENGTH then LengthDigits(next, s[1..]) else None)
            && DecFold(length, s) == DecFold(next, s[1..])
  {
    LengthStep(length, Decimal.DigitVal(s[0]));
    hide Decimal.DigitVal;
  }

  /** A length is accepted exactly when it is at most MAX_LENGTH, and then it is exact. */
  lemma {:induction false} LengthExact(length: nat, s: string)
    requires length <= MAX_LENGTH && Decimal.AllDigits(s)
    ensures LengthDigits(length, s) == if DecFold(length, s) <= MAX_LENGTH then Some(DecFold(length, s)) else None
    ensures MAX_LENGTH < UINT64_MAX
    decreases |s|
  {
    if s != "" {
      hide LengthDigits, DecFold, Decimal.DigitVal;
      var next := length * 10 + Decimal.DigitVal(s[0]);
      LengthUnfold(length, s);
      DecFoldGrows(next, s[1..]);
      if next <= MAX_LENGTH {
        LengthExact(next, s[1..]);
      }
    }
  }

  lemma {:induction false} DecFoldSnoc(acc: nat, s: string, c: char)
    requires Decimal.AllDigits(s) && Decimal.IsDigit(c)
    ensures Decimal.AllDigits(s + [c]) && DecFold(acc, s + [c]) == DecFold(acc, s) * 10 + Decimal.DigitVal(c)
    decreases |s|
  {
    if s != "" {
      assert (s + [c])[1..] == s[1..] + [c];
      DecFoldSnoc(acc * 10 + Decimal.DigitVal(s[0]), s[1..], c);
    }
  }

  lemma {:induction false} DecFoldValue(s: string)
    requires Decimal.AllDigits(s)
    ensures DecFold(0, s) == Decimal.Value(s)
    decreases |s|
  {
    if s != "" {
      var n := |s| - 1;
      assert s == s[..n] + [s[n]];
      DecFoldValue(s[..n]);
      DecFoldSnoc(0, s[..n], s[n]);
    }
  }

  /** A length line is the number it spells, leading zeros allowed, and is accepted up to MAX_LENGTH. */
  lemma {:induction false} LengthSpelled(s: string)
    requires Decimal.AllDigits(s)
    ensures LengthDigits(0, s) == if Decimal.Value(s) <= MAX_LENGTH then Some(Decimal.Value(s)) else None
  {
    LengthExact(0, s);
    DecFoldValue(s);
  }
}
