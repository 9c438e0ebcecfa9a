/** Numbers as bytes: in the memory of a little-endian machine and on the wire, and the swaps between. */
module ByteOrder {
  type Byte = x: int | 0 <= x < 256

  const TWO_16 := 0x1_0000
  const TWO_32 := 0x1_0000_0000
  const TWO_64 := 0x1_0000_0000_0000_0000

  type Word16 = n: nat | n < TWO_16
  type Word32 = n: nat | n < TWO_32

  /** The bytes of a `k`-byte number in memory, lowest byte first. */
  function InMemory(k: nat, n: nat): (bs: seq<Byte>)
    ensures |bs| == k
  {
    if k == 0 then [] else [n % 256] + InMemory(k - 1, n / 256)
  }

  /** The number that `k` bytes of memory hold. */
  function FromMemory(bs: seq<Byte>): (n: nat) {
    if bs == [] then 0 else bs[0] + 256 * FromMemory(bs[1..])
  }

  /** The bytes of a `k`-byte number on the wire, highest byte first. */
  function OnWire(k: nat, n: nat): (bs: seq<Byte>)
    ensures |bs| == k
  {
    if k == 0 then [] else OnWire(k - 1, n / 256) + [n % 256]
  }

  /** The number that bytes on the wire stand for. */
  function FromWire(bs: seq<Byte>): (n: nat) {
    if bs == [] then 0 else 256 * FromWire(bs[..|bs| - 1]) + bs[|bs| - 1]
  }

  function Pow256(k: nat): (n: nat) ensures n > 0 { if k == 0 then 1 else 256 * Pow256(k - 1) }

  lemma {:induction false} FromWireOnWire(k: nat, n: nat)
    requires n < Pow256(k)
    ensures FromWire(OnWire(k, n)) == n
  {
    if k > 0 {
      FromWireOnWire(k - 1, n / 256);
      var bs := OnWire(k, n);
      assert bs[..|bs| - 1] == OnWire(k - 1, n / 256);
    }
  }

  /** `htons`/`ntohs`. */
  function Swap16(n: nat): (r: nat)
    requires n < TWO_16
    ensures r < TWO_16
  {
    n % 256 * 256 + n / 256
  }

  /** `htonl`/`ntohl`. */
  function Swap32(n: nat): (r: nat)
    requires n < TWO_32
    ensures r < TWO_32
  {
    n % 256 * 16777216 + n / 256 % 256 * 65536 + n / 65536 % 256 * 256 + n / 16777216
  }

  /** The 64-bit swap made of two 32-bit ones. */
  function Swap64(n: nat): (r: nat)
    requires n < TWO_64
    ensures r < TWO_64
  {
    Swap32(n % TWO_32) * TWO_32 + Swap32(n / TWO_32)
  }

  lemma {:induction false} Swap16OnWire(n: nat)
    requires n < TWO_16
    ensures InMemory(2, Swap16(n)) == OnWire(2, n)
  {
    var s := Swap16(n);
    assert InMemory(2, s) == [s % 256] + ([s / 256 % 256] + InMemory(0, s / 256 / 256));
    assert OnWire(2, n) == (OnWire(0, n / 256 / 256) + [n / 256 % 256]) + [n % 256];
    assert s % 256 == n / 256 && s / 256 == n % 256;
  }

  lemma {:induction false} FourBytes(n: nat)
    requires n < TWO_32
    ensures InMemory(4, n) == [n % 256, n / 256 % 256, n / 65536 % 256, n / 16777216]
    ensures OnWire(4, n) == [n / 16777216, n / 65536 % 256, n / 256 % 256, n % 256]
  {
    var a, b, c := n / 256, n / 65536, n / 16777216;
    assert a / 256 == b && b / 256 == c && c / 256 == 0;
    assert InMemory(4, n) == [n % 256] + InMemory(3, a);
    assert InMemory(3, a) == [a % 256] + InMemory(2, b);
    assert InMemory(2, b) == [b % 256] + InMemory(1, c);
    assert InMemory(1, c) == [c % 256] + InMemory(0, 0);
    assert OnWire(4, n) == OnWire(3, a) + [n % 256];
    assert OnWire(3, a) == OnWire(2, b) + [a % 256];
    assert OnWire(2, b) == OnWire(1, c) + [b % 256];
    assert OnWire(1, c) == OnWire(0, 0) + [c % 256];
  }

  /** The digits of a swapped 32-bit number. */
  lemma {:induction false} Swap32Digits(n: nat)
    requires n < TWO_32
    ensures var s := Swap32(n);
            s % 256 == n / 16777216 && s / 256 % 256 == n / 65536 % 256 && s / 65536 % 256 == n / 256 % 256 && s / 16777216 == n % 256
  {
    var d0, d1, d2, d3 := n % 256, n / 256 % 256, n / 65536 % 256, n / 16777216;
    Digits4(d0, d1, d2, d3);
  }

  lemma {:induction false} Digits4(a: nat, b: nat, c: nat, d: nat)
    requires a < 256 && b < 256 && c < 256 && d < 256
    ensures var s := a * 16777216 + b * 65536 + c * 256 + d;
            s % 256 == d && s / 256 % 256 == c && s / 65536 % 256 == b && s / 16777216 == a
  {
    var s := a * 16777216 + b * 65536 + c * 256 + d;
    assert s == 256 * (a * 65536 + b * 256 + c) + d;
    assert s / 256 == a * 65536 + b * 256 + c;
    assert s == 65536 * (a * 256 + b) + (c * 256 + d);
    assert s / 65536 == a * 256 + b;
    assert s == 16777216 * a + (b * 65536 + c * 256 + d);
  }

  lemma {:induction false} Swap32OnWire(n: nat)
    requires n < TWO_32
    ensures InMemory(4, Swap32(n)) == OnWire(4, n)
  {
    hide Swap32, InMemory, OnWire;
    FourBytes(n);
    FourBytes(Swap32(n));
    Swap32Digits(n);
  }

  lemma {:induction false} Recompose(n: nat)
    requires n < TWO_32
    ensures n == n / 16777216 * 16777216 + n / 65536 % 256 * 65536 + n / 256 % 256 * 256 + n % 256
  {
    var a, b := n / 256, n / 65536;
    assert b == a / 256 && n / 16777216 == b / 256;
    assert n == 256 * a + n % 256 && a == 256 * b + a % 256 && b == 256 * (b / 256) + b % 256;
  }

  lemma {:induction false} Swap32Twice(n: nat)
    requires n < TWO_32
    ensures Swap32(Swap32(n)) == n
  {
    Swap32Digits(n);
    Recompose(n);
    var s := Swap32(n);
    assert Swap32(s) == s % 256 * 16777216 + s / 256 % 256 * 65536 + s / 65536 % 256 * 256 + s / 16777216;
  }

  /** Unfolds the four lowest bytes of an eight-byte number. */
  lemma {:induction false} FourOfEight(n: nat)
    ensures InMemory(8, n) == [n % 256, n / 256 % 256, n / 65536 % 256, n / 16777216 % 256] + InMemory(4, n / TWO_32)
    ensures OnWire(8, n) == OnWire(4, n / TWO_32) + [n / 16777216 % 256, n / 65536 % 256, n / 256 % 256, n % 256]
  {
    var a, b, c, d := n / 256, n / 65536, n / 16777216, n / TWO_32;
    assert a / 256 == b && b / 256 == c && c / 256 == d;
    assert InMemory(8, n) == [n % 256] + InMemory(7, a);
    assert InMemory(7, a) == [a % 256] + InMemory(6, b);
    assert InMemory(6, b) == [b % 256] + InMemory(5, c);
    assert InMemory(5, c) == [c % 256] + InMemory(4, d);
    assert OnWire(8, n) == OnWire(7, a) + [n % 256];
    assert OnWire(7, a) == OnWire(6, b) + [a % 256];
    assert OnWire(6, b) == OnWire(5, c) + [b % 256];
    assert OnWire(5, c) == OnWire(4, d) + [c % 256];
  }

  lemma {:induction false} ShiftByte(q: nat, r: nat)
    ensures (256 * q + r) / 256 == q + r / 256 && (256 * q + r) % 256 == r % 256
  {
  }

  /** The four low bytes of a number do not depend on its high part. */
  lemma {:induction false} LowBytes(n: nat)
    ensures var m := n % TWO_32;
            m % 256 == n % 256 && m / 256 % 256 == n / 256 % 256 && m / 65536 % 256 == n / 65536 % 256 && m / 16777216 == n / 16777216 % 256
  {
    var m, h := n % TWO_32, n / TWO_32;
    ShiftByte(16777216 * h, m);
    ShiftByte(65536 * h, m / 256);
    ShiftByte(256 * h, m / 256 / 256);
    ShiftByte(h, m / 256 / 256 / 256);
    assert n / 256 / 256 == n / 65536 && n / 65536 / 256 == n / 16777216;
    assert m / 256 / 256 == m / 65536 && m / 65536 / 256 == m / 16777216 < 256;
  }

  /** The low and the high half of an eight-byte number. */
  lemma {:induction false} EightBytes(n: nat)
    ensures InMemory(8, n) == InMemory(4, n % TWO_32) + InMemory(4, n / TWO_32)
    ensures OnWire(8, n) == OnWire(4, n / TWO_32) + OnWire(4, n % TWO_32)
  {
    hide InMemory, OnWire;
    FourOfEight(n);
    LowBytes(n);
    FourBytes(n % TWO_32);
  }

  /** Storing the swapped 64-bit number puts its bytes in wire order. */
  lemma {:induction false} Swap64OnWire(n: nat)
    requires n < TWO_64
    ensures InMemory(8, Swap64(n)) == OnWire(8, n)
  {
    hide InMemory, OnWire, Swap32;
    var lo, hi, s := n % TWO_32, n / TWO_32, Swap64(n);
    assert s % TWO_32 == Swap32(hi) && s / TWO_32 == Swap32(lo);
    EightBytes(s);
    EightBytes(n);
    Swap32OnWire(lo);
    Swap32OnWire(hi);
  }

  lemma {:induction false} Swap64Twice(n: nat)
    requires n < TWO_64
    ensures Swap64(Swap64(n)) == n
  {
    hide Swap32;
    var s := Swap64(n);
    assert s % TWO_32 == Swap32(n / TWO_32) && s / TWO_32 == Swap32(n % TWO_32);
    Swap32Twice(n % TWO_32);
    Swap32Twice(n / TWO_32);
  }

  lemma {:induction false} FromMemoryInMemory(k: nat, n: nat)
    requires n < Pow256(k)
    ensures FromMemory(InMemory(k, n)) == n
  {
    if k > 0 {
      FromMemoryInMemory(k - 1, n / 256);
      assert InMemory(k, n)[1..] == InMemory(k - 1, n / 256);
    }
  }
}
