/**
  The body part of the HTTP parser: what one byte does, what a run of bytes
  does, and the length counter.
  Each `char` stands for one byte.
 */
module HttpBody {
  import opened Limits

  const MAX_HEADER_SIZE := 80 * 1024

  datatype State =
    | BodyIdentity
    | MessageDone
    | ChunkSizeStart
    | ChunkSize
    | ChunkParameters
    | ChunkSizeAlmostDone
    | ChunkData
    | ChunkDataAlmostDone
    | ChunkDataDone
    | HeaderFieldStart
    | HeadersAlmostDone

  /** `TrailerField` marks where a trailer header begins, which this model does not follow. */
  datatype Errno = OK | InvalidChunkSize | InvalidContentLength | Strict | InvalidHeaderToken | HeaderOverflow | InvalidEofState | TrailerField

  datatype Parser = Parser(state: State, contentLength: nat, nread: nat, errno: Errno)

  /** States before the body proper count towards the header size limit. */
  predicate IsHeaderState(s: State) {
    s.ChunkSizeStart? || s.ChunkSize? || s.ChunkParameters? || s.ChunkSizeAlmostDone? || s.HeaderFieldStart? || s.HeadersAlmostDone?
  }

  /** The digit table: -1 for no digit; the entries from 128 on are left at 0. */
  function Unhex(c: char): (d: int)
    ensures -1 <= d < 16
  {
    if '0' <= c <= '9' then c as int - '0' as int
    else if 'a' <= c <= 'f' then c as int - 'a' as int + 10
    else if 'A' <= c <= 'F' then c as int - 'A' as int + 10
    else if c as int >= 128 then 0
    else -1
  }

  predicate IsToken(c: char) {
    || '0' <= c <= '9' || 'a' <= c <= 'z' || 'A' <= c <= 'Z'
    || c in "!#$%&'*+-.^_`|~"
  }

  // ---------------------------------------------------------------- one byte

  /** What a stretch of input does: the parser after it, the body bytes it delivers, the completions it signals. */
  datatype Effect = Effect(parser: Parser, body: string, completes: nat)

  function Fail(p: Parser, e: Errno): (r: Effect) { Effect(p.(errno := e), "", 0) }

  function Go(p: Parser, s: State): (r: Effect) { Effect(p.(state := s), "", 0) }

  function Complete(p: Parser, s: State): (r: Effect) { Effect(p.(state := s), "", 1) }

  /** The next byte of a chunk size. */
  function SizeDigit(p: Parser, ch: char): (r: Effect) {
    if ch == '\r' then Go(p, ChunkSizeAlmostDone)
    else if Unhex(ch) == -1 then
      if ch == ';' || ch == ' ' then Go(p, ChunkParameters) else Fail(p, InvalidChunkSize)
    else if (UINT64_MAX - 16) / 16 < p.contentLength then Fail(p, InvalidContentLength)
    else Effect(p.(contentLength := (p.contentLength * 16 + Unhex(ch)) % (UINT64_MAX + 1)), "", 0)
  }

  /** The byte after the last chunk's size line: end of message or a trailer. */
  function TrailerByte(p: Parser, ch: char): (r: Effect) {
    if ch == '\r' then Go(p, HeadersAlmostDone)
    else if ch == '\n' then Complete(p, HeadersAlmostDone)
    else if IsToken(ch) then Fail(p, TrailerField)
    else Fail(p, InvalidHeaderToken)
  }

  /** The switch over the states, for a byte that passed the header size test. */
  function InState(p: Parser, ch: char): (r: Effect) {
    match p.state
    case BodyIdentity =>
      var left := if p.contentLength == 0 then 0 else p.contentLength - 1;
      Effect(p.(contentLength := left, state := if left == 0 then MessageDone else BodyIdentity), [ch], if left == 0 then 1 else 0)
    case MessageDone => Complete(p, MessageDone)
    case ChunkSizeStart =>
      if Unhex(ch) == -1 then Fail(p, InvalidChunkSize)
      else Effect(p.(contentLength := Unhex(ch), state := ChunkSize), "", 0)
    case ChunkSize => SizeDigit(p, ch)
    case ChunkParameters => if ch == '\r' then Go(p, ChunkSizeAlmostDone) else Go(p, ChunkParameters)
    case ChunkSizeAlmostDone =>
      if ch != '\n' then Fail(p, Strict)
      else if p.contentLength == 0 then Go(p.(nread := 0), HeaderFieldStart)
      else Go(p.(nread := 0), ChunkData)
    case ChunkData =>
      var left := if p.contentLength == 0 then 0 else p.contentLength - 1;
      Effect(p.(contentLength := left, state := if left == 0 then ChunkDataAlmostDone else ChunkData), [ch], 0)
    case ChunkDataAlmostDone => if ch != '\r' then Fail(p, Strict) else Go(p, ChunkDataDone)
    case ChunkDataDone => if ch != '\n' then Fail(p, Strict) else Go(p.(nread := 0), ChunkSizeStart)
    case HeaderFieldStart => TrailerByte(p, ch)
    case HeadersAlmostDone => if ch != '\n' then Fail(p, Strict) else Complete(p, HeadersAlmostDone)
  }

  /** One byte; nothing happens once an error is recorded. */
  function Byte(p: Parser, ch: char): (r: Effect) {
    if p.errno != OK then Effect(p, "", 0)
    else if IsHeaderState(p.state) then
      var q := p.(nread := p.nread + 1);
      if q.nread > MAX_HEADER_SIZE then Fail(q, HeaderOverflow) else InState(q, ch)
    else InState(p, ch)
  }

  // ---------------------------------------------------------------- a run of bytes

  function Run(p: Parser, data: string): (r: Effect)
    decreases |data|
  {
    if data == "" then Effect(p, "", 0)
    else
      var h := Byte(p, data[0]);
      var t := Run(h.parser, data[1..]);
      Effect(t.parser, h.body + t.body, h.completes + t.completes)
  }

  lemma {:induction false} RunConcat(p: Parser, a: string, b: string)
    ensures var x := Run(p, a);
            var y := Run(x.parser, b);
            Run(p, a + b) == Effect(y.parser, x.body + y.body, x.completes + y.completes)
    decreases |a|
  {
    if a == "" {
      assert a + b == b;
      assert "" + Run(p, b).body == Run(p, b).body;
    } else {
      hide Byte;
      assert (a + b)[0] == a[0] && (a + b)[1..] == a[1..] + b;
      var h := Byte(p, a[0]);
      RunConcat(h.parser, a[1..], b);
      var x := Run(h.parser, a[1..]);
      var y := Run(x.parser, b);
      assert h.body + (x.body + y.body) == h.body + x.body + y.body;
    }
  }

  lemma {:induction false} RunOne(p: Parser, ch: char)
    ensures Run(p, [ch]) == Byte(p, ch)
  {
    hide Byte;
    assert [ch][1..] == "";
    assert Byte(p, ch).body + "" == Byte(p, ch).body;
  }

  lemma {:induction false} RunSnoc(p: Parser, data: string, k: nat)
    requires k < |data|
    ensures var x := Run(p, data[..k]);
            var y := Byte(x.parser, data[k]);
            Run(p, data[..k + 1]) == Effect(y.parser, x.body + y.body, x.completes + y.completes)
  {
    hide Byte, Run;
    assert data[..k + 1] == data[..k] + [data[k]];
    RunConcat(p, data[..k], [data[k]]);
    RunOne(Run(p, data[..k]).parser, data[k]);
  }

  /** After an error nothing more happens. */
  lemma {:induction false} RunAfterError(p: Parser, data: string)
    requires p.errno != OK
    ensures Run(p, data) == Effect(p, "", 0)
    decreases |data|
  {
    if data != "" {
      RunAfterError(p, data[1..]);
    }
  }

  // ---------------------------------------------------------------- stretches of body data

  /** Body bytes that are counted down: delivered as they are, until the count reaches 0. */
  lemma {:induction false} RunCounted(p: Parser, data: string)
    requires p.errno == OK && (p.state.BodyIdentity? || p.state.ChunkData?)
    requires 0 < |data| <= p.contentLength
    ensures var left := p.contentLength - |data|;
            Run(p, data) ==
            if left != 0 then Effect(p.(contentLength := left), data, 0)
            else if p.state.BodyIdentity? then Effect(p.(contentLength := 0, state := MessageDone), data, 1)
            else Effect(p.(contentLength := 0, state := ChunkDataAlmostDone), data, 0)
    decreases |data|
  {
    var h := Byte(p, data[0]);
    assert data == [data[0]] + data[1..];
    if |data| > 1 {
      RunCounted(h.parser, data[1..]);
    }
  }

  // ---------------------------------------------------------------- the length counter

  /** What the parser keeps true of its counter: it never wraps and never equals the mark for "no length". */
  predicate CounterOk(p: Parser) {
    && p.contentLength <= UINT64_MAX
    && (!p.state.ChunkSizeStart? ==> p.contentLength < UINT64_MAX)
    && (p.state.BodyIdentity? || p.state.ChunkData? ==> p.contentLength > 0)
    && (p.state.ChunkDataAlmostDone? ==> p.contentLength == 0)
    && (p.state.ChunkSizeStart? ==> p.nread == 0)
  }

  lemma {:induction false} ByteKeepsCounter(p: Parser, ch: char)
    requires CounterOk(p)
    ensures Byte(p, ch).parser.errno == OK ==> CounterOk(Byte(p, ch).parser)
  {
    if p.contentLength <= (UINT64_MAX - 16) / 16 {
      assert p.contentLength * 16 + 15 < UINT64_MAX;
    }
  }

  /** Over every run of bytes the length counter stays below 2^64-1. */
  lemma {:induction false} RunKeepsCounter(p: Parser, data: string)
    requires CounterOk(p)
    ensures Run(p, data).parser.errno == OK ==> CounterOk(Run(p, data).parser)
    decreases |data|
  {
    if data != "" {
      hide Byte, CounterOk;
      ByteKeepsCounter(p, data[0]);
      var q := Byte(p, data[0]).parser;
      if q.errno == OK {
        RunKeepsCounter(q, data[1..]);
      } else {
        RunAfterError(q, data[1..]);
      }
    }
  }

  // ---------------------------------------------------------------- which bytes are refused

  predicate Numeral(c: char) { c in "0123456789abcdefABCDEF" }

  lemma {:induction false} UnhexDigit(c: char)
    ensures Unhex(c) != -1 <==> Numeral(c) || c as int >= 128
  {
  }

  /** State by state, exactly which byte is an error; the header states also end after 81920 bytes. */
  lemma {:induction false} RefusedBytes(p: Parser, ch: char)
    requires p.errno == OK
    ensures Byte(p, ch).parser.errno != OK <==>
            || (IsHeaderState(p.state) && p.nread >= 81920)
            || match p.state
               case BodyIdentity => false
               case MessageDone => false
               case ChunkSizeStart => !Numeral(ch) && ch as int < 128
               case ChunkSize =>
                 && ch != '\r'
                 && if Numeral(ch) || ch as int >= 128 then p.contentLength > 0x0fff_ffff_ffff_fffe else ch != ';' && ch != ' '
               case ChunkParameters => false
               case ChunkSizeAlmostDone => ch != '\n'
               case ChunkData => false
               case ChunkDataAlmostDone => ch != '\r'
               case ChunkDataDone => ch != '\n'
               case HeaderFieldStart => ch != '\r' && ch != '\n'
               case HeadersAlmostDone => ch != '\n'
  {
    UnhexDigit(ch);
    hide Unhex, Numeral;
    assert (UINT64_MAX - 16) / 16 == 0x0fff_ffff_ffff_fffe;
    NumeralNoMark(ch);
  }

  /** The separators of RFC 2616, section 2.2, but for the two that are blank. */
  predicate Separator(c: char) {
    || c == '(' || c == ')' || c == ',' || c == '/' || c == '"' || c == '{' || c == '}'
    || ':' <= c <= '@' || '[' <= c <= ']'
  }

  /** A byte starts a field name exactly when it is visible and no separator. */
  lemma {:induction false} TokenIff(c: char)
    ensures IsToken(c) <==> '!' <= c <= '~' && !Separator(c)
  {
  }

  lemma {:induction false} NumeralNoMark(ch: char)
    ensures Numeral(ch) ==> ch != '\r' && ch != ';' && ch != ' '
  {
  }
}
