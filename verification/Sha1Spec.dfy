/** SHA-1 as sections 4.1.1, 5.1.1 and 6.1.2 of FIPS 180-4 define it, on byte strings. */
module Sha1Spec {
  import opened Bits

  type Word = bv32
  type Block = b: seq<Byte> | |b| == 64 witness seq(64, _ => 0)

  datatype Digest = Digest(a: Word, b: Word, c: Word, d: Word, e: Word)

  const IV := Digest(0x67452301, 0xEFCDAB89, 0x98BADCFE, 0x10325476, 0xC3D2E1F0)

  function RotL1(x: Word): (r: Word) { (x << 1) | (x >> 31) }

  function RotL5(x: Word): (r: Word) { (x << 5) | (x >> 27) }

  function RotL30(x: Word): (r: Word) { (x << 30) | (x >> 2) }

  function Ch(x: Word, y: Word, z: Word): (r: Word) { (x & y) ^ (!x & z) }

  function Parity(x: Word, y: Word, z: Word): (r: Word) { x ^ y ^ z }

  function Maj(x: Word, y: Word, z: Word): (r: Word) { (x & y) ^ (x & z) ^ (y & z) }

  function F(t: nat, x: Word, y: Word, z: Word): (r: Word) {
    if t < 20 then Ch(x, y, z) else if t < 40 then Parity(x, y, z) else if t < 60 then Maj(x, y, z) else Parity(x, y, z)
  }

  function K(t: nat): (r: Word) {
    if t < 20 then 0x5A827999 else if t < 40 then 0x6ED9EBA1 else if t < 60 then 0x8F1BBCDC else 0xCA62C1D6
  }

  /** The `t`-th word of a block, highest byte first. */
  function BlockWord(b: Block, t: nat): (r: Word)
    requires t < 16
  {
    (b[4 * t] as Word << 24) | (b[4 * t + 1] as Word << 16) | (b[4 * t + 2] as Word << 8) | (b[4 * t + 3] as Word)
  }

  function Mix(x: Word, y: Word, z: Word, w: Word): (r: Word) { RotL1(x ^ y ^ z ^ w) }

  /** The message schedule. */
  function W(b: Block, t: nat): (r: Word) {
    if t < 16 then BlockWord(b, t) else Mix(W(b, t - 3), W(b, t - 8), W(b, t - 14), W(b, t - 16))
  }

  function Sum(a: Word, f: Word, e: Word, k: Word, w: Word): (r: Word) { a + f + e + k + w }

  function Round(s: Digest, t: nat, w: Word): (r: Digest) {
    Digest(Sum(RotL5(s.a), F(t, s.b, s.c, s.d), s.e, K(t), w), s.a, RotL30(s.b), s.c, s.d)
  }

  function Rounds(s: Digest, b: Block, t: nat): (r: Digest) {
    if t == 0 then s else Round(Rounds(s, b, t - 1), t - 1, W(b, t - 1))
  }

  function Add(x: Digest, y: Digest): (r: Digest) {
    Digest(x.a + y.a, x.b + y.b, x.c + y.c, x.d + y.d, x.e + y.e)
  }

  function Compress(h: Digest, b: Block): (r: Digest) { Add(h, Rounds(h, b, 80)) }

  /** The compression function folded over the blocks of a padded message. */
  function HashBlocks(h: Digest, m: seq<Byte>): (r: Digest)
    requires |m| % 64 == 0
    decreases |m|
  {
    if m == [] then h else HashBlocks(Compress(h, m[..64]), m[64..])
  }

  // ---------------------------------------------------------------- padding

  function LowByte(n: nat): (b: Byte) { (n % 256) as Byte }

  /** A number in `k` bytes, highest first. */
  function BigEndian(k: nat, n: nat): (bs: seq<Byte>)
    ensures |bs| == k
  {
    if k == 0 then [] else BigEndian(k - 1, n / 256) + [LowByte(n)]
  }

  /** How many zero bytes make the message, the one-bit, the zeros and eight length bytes fill whole blocks. */
  function ZeroCount(length: nat): (k: nat)
    ensures k < 64 && (length + 1 + k + 8) % 64 == 0
  {
    (119 - length % 64) % 64
  }

  function Zeros(k: nat): (bs: seq<Byte>)
    ensures |bs| == k && forall i :: 0 <= i < k ==> bs[i] == 0
  {
    seq(k, _ => 0)
  }

  function Pad(m: seq<Byte>): (p: seq<Byte>)
    ensures |p| % 64 == 0
  {
    m + [0x80] + Zeros(ZeroCount(|m|)) + BigEndian(8, 8 * |m|)
  }

  function Sha1(m: seq<Byte>): (d: Digest) { HashBlocks(IV, Pad(m)) }

  lemma {:induction false} HashConcat(h: Digest, m: seq<Byte>, n: seq<Byte>)
    requires |m| % 64 == 0 && |n| % 64 == 0
    ensures HashBlocks(h, m + n) == HashBlocks(HashBlocks(h, m), n)
    decreases |m|
  {
    hide Compress;
    if m == [] {
      assert m + n == n;
    } else {
      assert (m + n)[..64] == m[..64] && (m + n)[64..] == m[64..] + n;
      HashConcat(Compress(h, m[..64]), m[64..], n);
    }
  }

  lemma {:induction false} HashOne(h: Digest, b: Block)
    ensures HashBlocks(h, b) == Compress(h, b)
  {
    hide Compress;
    assert b[..64] == b && b[64..] == [];
  }
}
