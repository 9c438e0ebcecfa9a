/** Frames in, messages out: the reader recovers what was framed, and reads the headers the writer builds. */
module WebSocketMessages {
  import opened Options
  import opened Pieces
  import opened ByteOrder
  import opened WebSocketFrame
  import opened WebSocketReader

  // ---------------------------------------------------------------- frames on the wire

  datatype LengthForm = Short | Medium | Long

  datatype Frame = Frame(fin: bool, reserved: nat, opcode: nat, mask: Option<Mask>, form: LengthForm, payload: seq<Byte>)

  predicate WellFormed(f: Frame) {
    && f.reserved < 8 && f.opcode < 16
    && match f.form
       case Short => |f.payload| < 126
       case Medium => |f.payload| < TWO_16
       case Long => |f.payload| < TWO_64
  }

  function FirstBytes(f: Frame): (h: seq<Byte>)
    requires WellFormed(f)
    ensures |h| == 2
  {
    [(if f.fin then 128 else 0) + 16 * f.reserved + f.opcode,
     (if f.mask.Some? then 128 else 0) + match f.form case Short => |f.payload| case Medium => 126 case Long => 127]
  }

  /** The extended length field, if any. */
  function LengthField(f: Frame): (bs: seq<seq<Byte>>) {
    match f.form
    case Short => []
    case Medium => [OnWire(2, |f.payload|)]
    case Long => [OnWire(8, |f.payload|)]
  }

  function MaskField(f: Frame): (bs: seq<seq<Byte>>) {
    if f.mask.Some? then [f.mask.value] else []
  }

  function WirePayload(f: Frame): (bs: seq<Byte>) {
    if f.mask.Some? then Masked(f.payload, f.mask.value) else f.payload
  }

  /** A way the payload can arrive: parts of 1 to 4096 bytes, or one empty read for an empty payload. */
  predicate Arrival(payload: seq<Byte>, cuts: seq<seq<Byte>>) {
    && Joined(cuts) == payload
    && (payload == [] ==> cuts == [[]])
    && (payload != [] ==> forall k :: 0 <= k < |cuts| ==> 0 < |cuts[k]| <= BUFFER_SIZE)
  }

  /** The completed reads of one frame. */
  function ReadsOf(f: Frame, cuts: seq<seq<Byte>>): (blocks: seq<seq<Byte>>)
    requires WellFormed(f)
  {
    [FirstBytes(f)] + LengthField(f) + MaskField(f) + cuts
  }

  // ---------------------------------------------------------------- header fields

  /** Two bytes read into memory and swapped give back the number they spell on the wire. */
  lemma {:induction false} ReadTwo(a: Byte, b: Byte)
    ensures FromMemory([a, b]) < TWO_16 && Swap16(FromMemory([a, b])) == 256 * a + b
  {
    var n := a + 256 * b;
    assert [a, b][1..] == [b] && [b][1..] == [];
    assert FromMemory([b]) == b;
    assert FromMemory([a, b]) == n;
    assert n % 256 == a && n / 256 == b;
  }

  lemma {:induction false} ReadSixteen(n: nat)
    requires n < TWO_16
    ensures FromMemory(OnWire(2, n)) < TWO_16 && Swap16(FromMemory(OnWire(2, n))) == n
  {
    Powers();
    Swap16OnWire(n);
    FromMemoryInMemory(2, Swap16(n));
  }

  lemma {:induction false} ReadSixtyFour(n: nat)
    requires n < TWO_64
    ensures FromMemory(OnWire(8, n)) < TWO_64 && Swap64(FromMemory(OnWire(8, n))) == n
  {
    hide OnWire, InMemory, FromMemory;
    Powers();
    Swap64OnWire(n);
    FromMemoryInMemory(8, Swap64(n));
    Swap64Twice(n);
  }

  lemma {:induction false} TwoBytes(a: Byte, b: Byte)
    ensures var mini: nat := 256 * a as int + b as int;
            && mini / 256 == a && mini % 128 == b % 128 && mini / 0x8000 == a / 128 && mini / 128 == 2 * a + b / 128
  {
  }

  lemma {:induction false} FlagBit(flag: bool, low: nat)
    requires low < 128
    ensures var n := (if flag then 128 else 0) + low; n % 128 == low && n / 128 == if flag then 1 else 0
  {
  }

  /** The bits of the mini header. */
  lemma {:induction false} MiniBits(f: Frame)
    requires WellFormed(f)
    ensures var h := FirstBytes(f);
            var mini: nat := 256 * h[0] as int + h[1] as int;
            && IsFin(mini) == f.fin && Opcode(mini) == f.opcode && (mini / 128 % 2 == 1 <==> f.mask.Some?)
            && mini % 128 == match f.form case Short => |f.payload| case Medium => 126 case Long => 127
  {
    var h := FirstBytes(f);
    var a: nat, b: nat := h[0], h[1];
    TwoBytes(a, b);
    FlagBit(f.fin, 16 * f.reserved + f.opcode);
    assert a % 16 == f.opcode;
    FlagBit(f.mask.Some?, match f.form case Short => |f.payload| case Medium => 126 case Long => 127);
  }

  /** A connection between two frames. */
  predicate Idle(c: Conn) { c.state.MiniHeader? && c.fragment == [] }

  /** A connection about to read the payload of a frame. */
  predicate ReadyFor(c: Conn, f: Frame) {
    && c.state.Payload? && c.fragment == [] && c.remaining == |f.payload|
    && IsFin(c.mini) == f.fin && Opcode(c.mini) == f.opcode
    && (c.hasMask <==> f.mask.Some?) && (f.mask.Some? ==> c.mask == f.mask.value)
  }

  /** The header up to the length: everything known but the mask. */
  predicate Sized(c: Conn, f: Frame) {
    && c.fragment == [] && c.remaining == |f.payload|
    && IsFin(c.mini) == f.fin && Opcode(c.mini) == f.opcode && (c.hasMask <==> f.mask.Some?)
    && c.state == if |f.payload| > c.maxPayload then Closed else if f.mask.Some? then MaskBytes else Payload
  }

  lemma {:induction false} OneRead(c: Conn, bs: seq<Byte>)
    requires Allowed(c, bs)
    ensures AllowedAll(c, [bs]) && OnReads(c, [bs]) == OnRead(c, bs)
  {
    hide OnRead, Allowed;
    assert [bs][1..] == [];
  }

  /** The header up to the length is read; too long a payload closes the connection there. */
  lemma {:induction false} ReadLength(c: Conn, f: Frame)
    requires Idle(c) && WellFormed(f)
    ensures var blocks := [FirstBytes(f)] + LengthField(f);
            && AllowedAll(c, blocks)
            && var d := OnReads(c, blocks);
               Sized(d, f) && d.maxPayload == c.maxPayload && d.seen == c.seen
  {
    hide IsFin, Opcode, OnWire, FromMemory, Swap16, Swap64;
    var h := FirstBytes(f);
    ReadTwo(h[0], h[1]);
    assert h == [h[0], h[1]];
    MiniBits(f);
    OneRead(c, h);
    var d := OnRead(c, h);
    match f.form
    case Short =>
      assert [h] + [] == [h];
    case Medium =>
      ReadSixteen(|f.payload|);
      OneRead(d, OnWire(2, |f.payload|));
      ReadsConcat(c, [h], LengthField(f));
    case Long =>
      ReadSixtyFour(|f.payload|);
      OneRead(d, OnWire(8, |f.payload|));
      ReadsConcat(c, [h], LengthField(f));
  }

  lemma {:induction false} ReadHeader(c: Conn, f: Frame)
    requires Idle(c) && WellFormed(f) && |f.payload| <= c.maxPayload
    ensures var blocks := [FirstBytes(f)] + LengthField(f) + MaskField(f);
            && AllowedAll(c, blocks)
            && var d := OnReads(c, blocks);
               ReadyFor(d, f) && d.maxPayload == c.maxPayload && d.seen == c.seen
  {
    hide FirstBytes, LengthField, AllowedAll, OnReads, IsFin, Opcode;
    ReadLength(c, f);
    var blocks := [FirstBytes(f)] + LengthField(f);
    var d := OnReads(c, blocks);
    if f.mask.Some? {
      OneRead(d, f.mask.value);
      ReadsConcat(c, blocks, [f.mask.value]);
    } else {
      assert blocks + [] == blocks;
    }
  }

  // ---------------------------------------------------------------- the payload

  /** The payload in parts: the fragment collects them, and the last one finishes the frame. */
  lemma {:induction false} ReadParts(c: Conn, cuts: seq<seq<Byte>>)
    requires c.state.Payload? && 0 < c.remaining == |Joined(cuts)|
    requires forall k :: 0 <= k < |cuts| ==> 0 < |cuts[k]| <= BUFFER_SIZE
    ensures AllowedAll(c, cuts)
    ensures var d := c.(fragment := c.fragment + Joined(cuts), remaining := 0);
            OnReads(c, cuts) == HandleFragment(d).(state := MiniHeader)
    decreases |cuts|
  {
    hide HandleFragment;
    assert cuts != [];
    JoinedFront(cuts);
    SomethingLeft(cuts);
    assert |cuts[0]| <= c.remaining;
    var d := OnRead(c, cuts[0]);
    if |Joined(cuts[1..])| == 0 {
      SomethingLeft(cuts[1..]);
      assert Joined(cuts) == cuts[0] + [];
      assert cuts[0] + [] == cuts[0];
    } else {
      ReadParts(d, cuts[1..]);
      assert c.fragment + (cuts[0] + Joined(cuts[1..])) == c.fragment + cuts[0] + Joined(cuts[1..]);
    }
  }

  lemma {:induction false} SomethingLeft(cuts: seq<seq<Byte>>)
    requires forall k :: 0 <= k < |cuts| ==> 0 < |cuts[k]|
    ensures cuts != [] ==> |Joined(cuts)| > 0
  {
    if cuts != [] {
      JoinedFront(cuts);
    }
  }

  lemma {:induction false} ReadPayload(c: Conn, f: Frame, cuts: seq<seq<Byte>>)
    requires ReadyFor(c, f) && Arrival(WirePayload(f), cuts)
    ensures AllowedAll(c, cuts)
    ensures var d := OnReads(c, cuts);
            Idle(d) && d.maxPayload == c.maxPayload && d.seen == Absorb(c.seen, f.opcode, f.fin, f.payload)
  {
    hide IsFin, Opcode, Absorb;
    var e := c.(fragment := c.fragment + WirePayload(f), remaining := 0);
    assert e.fragment == WirePayload(f);
    if f.payload == [] {
      assert cuts == [[]];
      OneRead(c, []);
      assert c.fragment + [] == c.fragment;
    } else {
      ReadParts(c, cuts);
    }
    if f.mask.Some? {
      MaskedTwice(f.payload, f.mask.value);
    }
  }

  /** One frame: whatever way its payload arrives, it is absorbed as it was framed. */
  lemma {:induction false} ReadFrame(c: Conn, f: Frame, cuts: seq<seq<Byte>>)
    requires Idle(c) && WellFormed(f) && |f.payload| <= c.maxPayload && Arrival(WirePayload(f), cuts)
    ensures AllowedAll(c, ReadsOf(f, cuts))
    ensures var d := OnReads(c, ReadsOf(f, cuts));
            Idle(d) && d.maxPayload == c.maxPayload && d.seen == Absorb(c.seen, f.opcode, f.fin, f.payload)
  {
    hide FirstBytes, LengthField, MaskField, AllowedAll, OnReads, Absorb, Arrival;
    ReadHeader(c, f);
    var blocks := [FirstBytes(f)] + LengthField(f) + MaskField(f);
    ReadPayload(OnReads(c, blocks), f, cuts);
    ReadsConcat(c, blocks, cuts);
  }

  /**
    The same from the wire: what a masked frame delivers has, in every bit, the
    difference of the wire byte and the mask byte of its position.
   */
  lemma {:induction false} ReadMasked(c: Conn, fin: bool, reserved: nat, opcode: nat, form: LengthForm, mask: Mask, wire: seq<Byte>, cuts: seq<seq<Byte>>)
      returns (data: seq<Byte>)
    requires var f := Frame(fin, reserved, opcode, Some(mask), form, wire);
             Idle(c) && WellFormed(f) && |wire| <= c.maxPayload && Arrival(wire, cuts)
    ensures |data| == |wire|
    ensures forall i, k :: 0 <= i < |wire| && 0 <= k < 8 ==>
              Bit(data[i], k) == if Bit(wire[i], k) != Bit(mask[i % 4], k) then 1 else 0
    ensures var f := Frame(fin, reserved, opcode, Some(mask), form, wire);
            var blocks := [FirstBytes(f)] + LengthField(f) + MaskField(f) + cuts;
            AllowedAll(c, blocks) && OnReads(c, blocks).seen == Absorb(c.seen, opcode, fin, data)
  {
    hide Xor, Bit, FirstBytes, AllowedAll, OnReads, Absorb, Arrival, Idle;
    data := Masked(wire, mask);
    forall i, k | 0 <= i < |wire| && 0 <= k < 8
      ensures Bit(data[i], k) == if Bit(wire[i], k) != Bit(mask[i % 4], k) then 1 else 0
    {
      XorBit(wire[i], mask[i % 4], k);
    }
    var f, g := Frame(fin, reserved, opcode, Some(mask), form, wire), Frame(fin, reserved, opcode, Some(mask), form, data);
    SameHeader(f, g);
    MaskedTwice(wire, mask);
    ReadFrame(c, g, cuts);
  }

  lemma {:induction false} SameHeader(f: Frame, g: Frame)
    requires WellFormed(f) && g == f.(payload := g.payload) && |g.payload| == |f.payload|
    ensures WellFormed(g) && FirstBytes(g) == FirstBytes(f) && LengthField(g) == LengthField(f)
  {
  }

  // ---------------------------------------------------------------- sequences of frames

  function AbsorbAll(s: Seen, fs: seq<Frame>): (r: Seen)
    decreases |fs|
  {
    if fs == [] then s else AbsorbAll(Absorb(s, fs[0].opcode, fs[0].fin, fs[0].payload), fs[1..])
  }

  lemma {:induction false} AbsorbConcat(s: Seen, fs: seq<Frame>, gs: seq<Frame>)
    ensures AbsorbAll(s, fs + gs) == AbsorbAll(AbsorbAll(s, fs), gs)
    decreases |fs|
  {
    hide Absorb;
    if fs == [] {
      assert fs + gs == gs;
    } else {
      assert (fs + gs)[0] == fs[0] && (fs + gs)[1..] == fs[1..] + gs;
      AbsorbConcat(Absorb(s, fs[0].opcode, fs[0].fin, fs[0].payload), fs[1..], gs);
    }
  }

  function ReadsOfAll(fs: seq<Frame>, cuts: seq<seq<seq<Byte>>>): (blocks: seq<seq<Byte>>)
    requires |fs| == |cuts| && forall k :: 0 <= k < |fs| ==> WellFormed(fs[k])
    decreases |fs|
  {
    if fs == [] then [] else ReadsOf(fs[0], cuts[0]) + ReadsOfAll(fs[1..], cuts[1..])
  }

  /** Any sequence of frames, each arriving in its own way, is absorbed in order. */
  lemma {:induction false} ReadFrames(c: Conn, fs: seq<Frame>, cuts: seq<seq<seq<Byte>>>)
    requires Idle(c) && |fs| == |cuts|
    requires forall k :: 0 <= k < |fs| ==> WellFormed(fs[k]) && |fs[k].payload| <= c.maxPayload && Arrival(WirePayload(fs[k]), cuts[k])
    ensures AllowedAll(c, ReadsOfAll(fs, cuts))
    ensures var d := OnReads(c, ReadsOfAll(fs, cuts));
            Idle(d) && d.maxPayload == c.maxPayload && d.seen == AbsorbAll(c.seen, fs)
    decreases |fs|
  {
    hide WellFormed, Arrival, ReadsOf, Absorb;
    if fs != [] {
      ReadFrame(c, fs[0], cuts[0]);
      var d := OnReads(c, ReadsOf(fs[0], cuts[0]));
      assert forall k :: 0 <= k < |fs[1..]| ==> fs[1..][k] == fs[k + 1] && cuts[1..][k] == cuts[k + 1];
      ReadFrames(d, fs[1..], cuts[1..]);
      ReadsConcat(c, ReadsOf(fs[0], cuts[0]), ReadsOfAll(fs[1..], cuts[1..]));
    }
  }

  // ---------------------------------------------------------------- messages

  /** A ping or a pong sent between the fragments of a message. */
  datatype Control = Control(ping: bool, reserved: nat, payload: seq<Byte>, mask: Option<Mask>, form: LengthForm)

  /** A fragment of a message, with the control frames sent before it. */
  datatype Part = Part(before: seq<Control>, reserved: nat, payload: seq<Byte>, mask: Option<Mask>, form: LengthForm)

  /** A message as it was sent: text or binary, in one or more fragments. */
  datatype Sent = Sent(binary: bool, first: Part, rest: seq<Part>)

  function ControlFrames(cs: seq<Control>): (fs: seq<Frame>) {
    if cs == [] then []
    else [Frame(true, cs[0].reserved, if cs[0].ping then 9 else 10, cs[0].mask, cs[0].form, cs[0].payload)] + ControlFrames(cs[1..])
  }

  function PartFrames(p: Part, opcode: nat, fin: bool): (fs: seq<Frame>) {
    ControlFrames(p.before) + [Frame(fin, p.reserved, opcode, p.mask, p.form, p.payload)]
  }

  /** The fragments after the first: continuation frames, the last one final. */
  function RestFrames(ps: seq<Part>): (fs: seq<Frame>) {
    if ps == [] then [] else PartFrames(ps[0], 0, |ps| == 1) + RestFrames(ps[1..])
  }

  function FramesOf(m: Sent): (fs: seq<Frame>) {
    PartFrames(m.first, if m.binary then 2 else 1, m.rest == []) + RestFrames(m.rest)
  }

  function FramesOfAll(ms: seq<Sent>): (fs: seq<Frame>) {
    if ms == [] then [] else FramesOf(ms[0]) + FramesOfAll(ms[1..])
  }

  function Pings(cs: seq<Control>): (ps: seq<seq<Byte>>) {
    if cs == [] then [] else OnePing(cs[0]) + Pings(cs[1..])
  }

  function PartPings(ps: seq<Part>): (r: seq<seq<Byte>>) {
    if ps == [] then [] else Pings(ps[0].before) + PartPings(ps[1..])
  }

  function Content(ps: seq<Part>): (bs: seq<Byte>) {
    if ps == [] then [] else ps[0].payload + Content(ps[1..])
  }

  function MessagesOf(ms: seq<Sent>): (r: seq<Message>) {
    if ms == [] then [] else [Message(ms[0].first.payload + Content(ms[0].rest), ms[0].binary)] + MessagesOf(ms[1..])
  }

  function PingsOf(ms: seq<Sent>): (r: seq<seq<Byte>>) {
    if ms == [] then [] else Pings(ms[0].first.before) + PartPings(ms[0].rest) + PingsOf(ms[1..])
  }

  lemma {:induction false} Assoc<T>(a: seq<T>, b: seq<T>, c: seq<T>)
    ensures a + (b + c) == a + b + c
  {
  }

  function OnePing(c: Control): (ps: seq<seq<Byte>>) { if c.ping then [c.payload] else [] }

  lemma {:induction false} AbsorbControl(s: Seen, c: Control)
    ensures var t := Absorb(s, if c.ping then 9 else 10, true, c.payload);
            t == s.(pongs := s.pongs + OnePing(c), pongReceived := t.pongReceived)
  {
    assert s.pongs + [] == s.pongs;
  }

  /** Control frames leave the message being assembled alone; pings are answered with their payload. */
  lemma {:induction false} AbsorbControls(s: Seen, cs: seq<Control>)
    ensures var t := AbsorbAll(s, ControlFrames(cs));
            t == s.(pongs := s.pongs + Pings(cs), pongReceived := t.pongReceived)
    decreases |cs|
  {
    hide Absorb;
    if cs == [] {
      assert s.pongs + [] == s.pongs;
    } else {
      assert ControlFrames(cs)[1..] == ControlFrames(cs[1..]);
      AbsorbControl(s, cs[0]);
      AbsorbControls(Absorb(s, if cs[0].ping then 9 else 10, true, cs[0].payload), cs[1..]);
      Assoc(s.pongs, OnePing(cs[0]), Pings(cs[1..]));
    }
  }

  lemma {:induction false} AbsorbPart(s: Seen, p: Part, opcode: nat, fin: bool)
    ensures var t := AbsorbAll(s, PartFrames(p, opcode, fin));
            exists b :: t == Absorb(s.(pongs := s.pongs + Pings(p.before), pongReceived := b), opcode, fin, p.payload)
  {
    hide Absorb;
    var f := Frame(fin, p.reserved, opcode, p.mask, p.form, p.payload);
    AbsorbControls(s, p.before);
    AbsorbConcat(s, ControlFrames(p.before), [f]);
    var t := AbsorbAll(s, ControlFrames(p.before));
    assert [f][1..] == [];
    assert AbsorbAll(t, [f]) == Absorb(t, opcode, fin, p.payload);
  }

  /** The remaining fragments complete the message that was begun. */
  lemma {:induction false} AbsorbRest(s: Seen, ps: seq<Part>)
    requires ps != []
    ensures var t := AbsorbAll(s, RestFrames(ps));
            && t.message == [] && t.binary == s.binary && t.closeReceived == s.closeReceived
            && t.delivered == s.delivered + [Message(s.message + Content(ps), s.binary)]
            && t.pongs == s.pongs + PartPings(ps)
    decreases |ps|
  {
    hide PartFrames, Pings;
    AbsorbPart(s, ps[0], 0, |ps| == 1);
    AbsorbConcat(s, PartFrames(ps[0], 0, |ps| == 1), RestFrames(ps[1..]));
    var t := AbsorbAll(s, PartFrames(ps[0], 0, |ps| == 1));
    if |ps| == 1 {
      assert ps[1..] == [];
      assert ps[0].payload + [] == ps[0].payload && Pings(ps[0].before) + [] == Pings(ps[0].before);
    } else {
      AbsorbRest(t, ps[1..]);
      Assoc(s.message, ps[0].payload, Content(ps[1..]));
      Assoc(s.pongs, Pings(ps[0].before), PartPings(ps[1..]));
    }
  }

  lemma {:induction false} AbsorbMessage(s: Seen, m: Sent)
    requires s.message == []
    ensures var t := AbsorbAll(s, FramesOf(m));
            && t.message == [] && t.closeReceived == s.closeReceived
            && t.delivered == s.delivered + [Message(m.first.payload + Content(m.rest), m.binary)]
            && t.pongs == s.pongs + (Pings(m.first.before) + PartPings(m.rest))
  {
    hide PartFrames, Pings;
    var op := if m.binary then 2 else 1;
    AbsorbPart(s, m.first, op, m.rest == []);
    AbsorbConcat(s, PartFrames(m.first, op, m.rest == []), RestFrames(m.rest));
    var t := AbsorbAll(s, PartFrames(m.first, op, m.rest == []));
    assert s.message + m.first.payload == m.first.payload;
    if m.rest == [] {
      assert m.first.payload + [] == m.first.payload && Pings(m.first.before) + [] == Pings(m.first.before);
    } else {
      AbsorbRest(t, m.rest);
      Assoc(s.pongs, Pings(m.first.before), PartPings(m.rest));
    }
  }

  lemma {:induction false} AbsorbMessages(s: Seen, ms: seq<Sent>)
    requires s.message == []
    ensures var t := AbsorbAll(s, FramesOfAll(ms));
            t.message == [] && t.delivered == s.delivered + MessagesOf(ms) && t.pongs == s.pongs + PingsOf(ms)
    decreases |ms|
  {
    hide FramesOf;
    if ms == [] {
      assert s.delivered + [] == s.delivered && s.pongs + [] == s.pongs;
    } else {
      AbsorbMessage(s, ms[0]);
      AbsorbConcat(s, FramesOf(ms[0]), FramesOfAll(ms[1..]));
      var t := AbsorbAll(s, FramesOf(ms[0]));
      AbsorbMessages(t, ms[1..]);
      var m, p := Message(ms[0].first.payload + Content(ms[0].rest), ms[0].binary), Pings(ms[0].first.before) + PartPings(ms[0].rest);
      Assoc(s.delivered, [m], MessagesOf(ms[1..]));
      Assoc(s.pongs, p, PingsOf(ms[1..]));
    }
  }

  /**
    Every sequence of messages, fragmented and masked in any way, with pings
    and pongs between the fragments and the payload bytes arriving in any
    parts, is delivered as sent: same messages, same order, same kind; every
    ping is answered with its payload.
   */
  lemma {:induction false} MessagesDelivered(c: Conn, ms: seq<Sent>, cuts: seq<seq<seq<Byte>>>)
    requires Idle(c) && c.seen.message == [] && |cuts| == |FramesOfAll(ms)|
    requires forall k :: 0 <= k < |cuts| ==>
               var f := FramesOfAll(ms)[k];
               WellFormed(f) && |f.payload| <= c.maxPayload && Arrival(WirePayload(f), cuts[k])
    ensures AllowedAll(c, ReadsOfAll(FramesOfAll(ms), cuts))
    ensures var d := OnReads(c, ReadsOfAll(FramesOfAll(ms), cuts));
            && Idle(d) && d.seen.message == []
            && d.seen.delivered == c.seen.delivered + MessagesOf(ms)
            && d.seen.pongs == c.seen.pongs + PingsOf(ms)
  {
    hide WellFormed, Arrival, FramesOfAll, AbsorbAll, ReadsOfAll, AllowedAll, OnReads;
    ReadFrames(c, FramesOfAll(ms), cuts);
    AbsorbMessages(c.seen, ms);
  }

  // ---------------------------------------------------------------- the writer's headers

  /** The length form the writer picks. */
  function FormFor(size: nat): (form: LengthForm) {
    if size < 126 then Short else if size < TWO_16 then Medium else Long
  }

  /** A built header is the header of an unmasked final frame, and its length field, read highest
      byte first, is the length. */
  lemma {:induction false} BuiltHeader(opcode: nat, payload: seq<Byte>)
    requires opcode < 16 && |payload| < TWO_64
    ensures var f := Frame(true, 0, opcode, None, FormFor(|payload|), payload);
            && WellFormed(f)
            && BuildHeader(opcode, |payload|) == FirstBytes(f) + Joined(LengthField(f))
            && (!f.form.Short? ==> FromWire(BuildHeader(opcode, |payload|)[2..]) == |payload|)
  {
    hide OnWire, InMemory, FromWire, Pow256, Swap16, Swap64;
    var n := |payload|;
    Powers();
    if 126 <= n < TWO_16 {
      FromWireOnWire(2, n);
      Swap16OnWire(n);
      JoinedOne(OnWire(2, n));
    } else if n >= TWO_16 {
      FromWireOnWire(8, n);
      Swap64OnWire(n);
      JoinedOne(OnWire(8, n));
    }
  }

  /** Reading back a built header gives the opcode and the length it was built for, in all three forms. */
  lemma {:induction false} BuiltHeaderReadBack(c: Conn, opcode: nat, payload: seq<Byte>)
    requires Idle(c) && opcode < 16 && |payload| < TWO_64 && |payload| <= c.maxPayload
    ensures var f := Frame(true, 0, opcode, None, FormFor(|payload|), payload);
            && WellFormed(f)
            && BuildHeader(opcode, |payload|) == Joined([FirstBytes(f)] + LengthField(f))
            && AllowedAll(c, [FirstBytes(f)] + LengthField(f))
            && var d := OnReads(c, [FirstBytes(f)] + LengthField(f));
               d.state.Payload? && Opcode(d.mini) == opcode && IsFin(d.mini) && d.remaining == |payload| && !d.hasMask
  {
    var f := Frame(true, 0, opcode, None, FormFor(|payload|), payload);
    BuiltHeader(opcode, payload);
    ReadLength(c, f);
    hide FirstBytes, AllowedAll, OnReads, BuildHeader;
    JoinedFront([FirstBytes(f)] + LengthField(f));
    assert ([FirstBytes(f)] + LengthField(f))[1..] == LengthField(f);
  }
}
