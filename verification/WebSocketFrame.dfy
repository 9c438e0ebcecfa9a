/**
  WebSocket frames on the wire (sections 5.2 and 5.3 of RFC 6455): header
  bytes and masking.
 */
module WebSocketFrame {
  import opened ByteOrder

  // ---------------------------------------------------------------- the header built for sending

  /** The header of an unmasked final frame: two bytes, then the length field stored by swapping. */
  function BuildHeader(opcode: nat, size: nat): (h: seq<Byte>)
    requires opcode < 16 && size < TWO_64
  {
    if size < 126 then [0x80 + opcode, size]
    else if size < TWO_16 then [0x80 + opcode, 126] + InMemory(2, Swap16(size))
    else [0x80 + opcode, 127] + InMemory(8, Swap64(size))
  }

  // ---------------------------------------------------------------- masking

  function XorBits(n: nat, a: nat, b: nat): (r: nat) {
    if n == 0 then 0 else (if a % 2 != b % 2 then 1 else 0) + 2 * XorBits(n - 1, a / 2, b / 2)
  }

  function Pow2(n: nat): (r: nat) { if n == 0 then 1 else 2 * Pow2(n - 1) }

  lemma {:induction false} XorBitsTwice(n: nat, a: nat, b: nat)
    requires a < Pow2(n)
    ensures XorBits(n, a, b) < Pow2(n) && XorBits(n, XorBits(n, a, b), b) == a
  {
    if n > 0 {
      XorBitsTwice(n - 1, a / 2, b / 2);
      var x := XorBits(n - 1, a / 2, b / 2);
      var y := XorBits(n, a, b);
      assert y / 2 == x && y % 2 == if a % 2 != b % 2 then 1 else 0;
    }
  }

  /** The exclusive or of two bytes. */
  function Xor(a: Byte, b: Byte): (r: Byte)
  {
    XorBitsTwice(8, a, b);
    assert Pow2(8) == 256;
    XorBits(8, a, b)
  }

  /** The `k`-th binary digit of a number, lowest first. */
  function Bit(n: nat, k: nat): (b: nat) { if k == 0 then n % 2 else Bit(n / 2, k - 1) }

  lemma {:induction false} XorBitsBit(n: nat, a: nat, b: nat, k: nat)
    requires k < n
    ensures Bit(XorBits(n, a, b), k) == if Bit(a, k) != Bit(b, k) then 1 else 0
    decreases n
  {
    var x := XorBits(n - 1, a / 2, b / 2);
    var y := XorBits(n, a, b);
    assert y % 2 == (if a % 2 != b % 2 then 1 else 0) && y / 2 == x;
    if k > 0 {
      XorBitsBit(n - 1, a / 2, b / 2, k - 1);
    }
  }

  /** Each bit of the result tells whether the bits of the two bytes differ. */
  lemma {:induction false} XorBit(a: Byte, b: Byte, k: nat)
    requires k < 8
    ensures Bit(Xor(a, b), k) == if Bit(a, k) != Bit(b, k) then 1 else 0
  {
    hide Bit;
    XorBitsBit(8, a, b, k);
  }

  lemma {:induction false} XorTwice(a: Byte, b: Byte)
    ensures Xor(Xor(a, b), b) == a
  {
    assert Pow2(8) == 256;
    XorBitsTwice(8, a, b);
  }

  type Mask = m: seq<Byte> | |m| == 4 witness [0, 0, 0, 0]

  /** Every byte combined with the mask byte of its position. */
  function Masked(payload: seq<Byte>, mask: Mask): (r: seq<Byte>)
    ensures |r| == |payload|
    ensures forall i :: 0 <= i < |r| ==> r[i] == Xor(payload[i], mask[i % 4])
  {
    seq(|payload|, i requires 0 <= i < |payload| => Xor(payload[i], mask[i % 4]))
  }

  /** Masking twice with the same mask is the identity. */
  lemma {:induction false} MaskedTwice(payload: seq<Byte>, mask: Mask)
    ensures Masked(Masked(payload, mask), mask) == payload
  {
    hide Xor;
    forall i | 0 <= i < |payload| ensures Masked(Masked(payload, mask), mask)[i] == payload[i] {
      XorTwice(payload[i], mask[i % 4]);
    }
  }
}
