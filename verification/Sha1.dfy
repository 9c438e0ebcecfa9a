/** The hashing object of the WebSocket handshake, proved against the standard. */
module Sha1 {
  import opened Bits
  import opened Pieces
  import opened Sha1Spec
  import ByteOrder

  // ---------------------------------------------------------------- the program's own forms

  /** Rotation with an exclusive or, for the three counts in use. */
  function LeftRotate1(value: Word): (r: Word) { (value << 1) ^ (value >> 31) }

  function LeftRotate5(value: Word): (r: Word) { (value << 5) ^ (value >> 27) }

  function LeftRotate30(value: Word): (r: Word) { (value << 30) ^ (value >> 2) }

  function Choose(b: Word, c: Word, d: Word): (r: Word) { (b & c) | (!b & d) }

  function Majority(b: Word, c: Word, d: Word): (r: Word) { (b & c) | (b & d) | (c & d) }

  function Select(t: nat, b: Word, c: Word, d: Word): (r: Word) {
    if t < 20 then Choose(b, c, d) else if t < 40 then Parity(b, c, d) else if t < 60 then Majority(b, c, d) else Parity(b, c, d)
  }

  function MixRotated(x: Word, y: Word, z: Word, w: Word): (r: Word) { LeftRotate1(x ^ y ^ z ^ w) }

  lemma {:induction false} RotateBy1(x: Word)
    ensures LeftRotate1(x) == RotL1(x)
  {
  }

  lemma {:induction false} RotateBy5(x: Word)
    ensures LeftRotate5(x) == RotL5(x)
  {
  }

  lemma {:induction false} RotateBy30(x: Word)
    ensures LeftRotate30(x) == RotL30(x)
  {
  }

  lemma {:induction false} ChooseForms(b: Word, c: Word, d: Word)
    ensures (b & c) | (!b & d) == (b & c) ^ (!b & d)
  {
  }

  lemma {:induction false} MajorityForms(b: Word, c: Word, d: Word)
    ensures (b & c) | (b & d) | (c & d) == (b & c) ^ (b & d) ^ (c & d)
  {
  }

  lemma {:induction false} ChooseIsCh(b: Word, c: Word, d: Word)
    ensures Choose(b, c, d) == Ch(b, c, d)
  {
    ChooseForms(b, c, d);
  }

  lemma {:induction false} MajorityIsMaj(b: Word, c: Word, d: Word)
    ensures Majority(b, c, d) == Maj(b, c, d)
  {
    MajorityForms(b, c, d);
  }

  lemma {:induction false} SelectIsF(t: nat, b: Word, c: Word, d: Word)
    ensures Select(t, b, c, d) == F(t, b, c, d)
  {
    hide Choose, Ch, Majority, Maj, Parity;
    ChooseIsCh(b, c, d);
    MajorityIsMaj(b, c, d);
  }

  lemma {:induction false} MixForms(x: Word, y: Word, z: Word, w: Word)
    ensures MixRotated(x, y, z, w) == Mix(x, y, z, w)
  {
    RotateBy1(x ^ y ^ z ^ w);
  }

  /** The round as the program computes it. */
  function ProgramRound(s: Digest, t: nat, w: Word): (r: Digest) {
    Digest(Sum(LeftRotate5(s.a), Select(t, s.b, s.c, s.d), s.e, K(t), w), s.a, LeftRotate30(s.b), s.c, s.d)
  }

  /** It is the standard's round. */
  lemma {:induction false} RoundForms(s: Digest, t: nat, w: Word)
    ensures ProgramRound(s, t, w) == Round(s, t, w)
  {
    hide LeftRotate5, LeftRotate30, RotL5, RotL30, Select, F, K, Sum;
    RotateBy5(s.a);
    RotateBy30(s.b);
    SelectIsF(t, s.b, s.c, s.d);
  }

  // ---------------------------------------------------------------- one block

  lemma {:induction false} WUnfold(block: Block, t: nat)
    ensures t < 16 ==> W(block, t) == BlockWord(block, t)
    ensures t >= 16 ==> W(block, t) == MixRotated(W(block, t - 3), W(block, t - 8), W(block, t - 14), W(block, t - 16))
  {
    hide Mix, MixRotated, BlockWord;
    if t >= 16 {
      MixForms(W(block, t - 3), W(block, t - 8), W(block, t - 14), W(block, t - 16));
    }
  }

  /** The 80 words of the schedule, computed in a table. */
  method Schedule(block: Block) returns (w: array<Word>)
    ensures fresh(w) && w.Length == 80
    ensures forall t :: 0 <= t < 80 ==> w[t] == W(block, t)
  {
    hide MixRotated, W, BlockWord;
    w := new Word[80];
    var i := 0;
    while i < 16
      invariant 0 <= i <= 16
      invariant forall t :: 0 <= t < i ==> w[t] == W(block, t)
    {
      WUnfold(block, i);
      w[i] := BlockWord(block, i);
      i := i + 1;
    }
    while i < 80
      invariant 16 <= i <= 80
      invariant forall t :: 0 <= t < i ==> w[t] == W(block, t)
    {
      WUnfold(block, i);
      w[i] := MixRotated(w[i - 3], w[i - 8], w[i - 14], w[i - 16]);
      i := i + 1;
    }
  }

  lemma {:induction false} RoundsStep(s: Digest, block: Block, t: nat)
    ensures Rounds(s, block, 0) == s
    ensures Rounds(s, block, t + 1) == ProgramRound(Rounds(s, block, t), t, W(block, t))
  {
    hide Round, ProgramRound, W;
    RoundForms(Rounds(s, block, t), t, W(block, t));
  }

  /** The 80 rounds and the final addition. */
  method CompressBlock(digest: Digest, block: Block) returns (r: Digest)
    ensures r == Compress(digest, block)
  {
    hide LeftRotate5, LeftRotate30, Select, K, W, Rounds, Sum, Add;
    var w := Schedule(block);
    var s := digest;
    RoundsStep(digest, block, 0);
    var i := 0;
    while i < 80
      invariant 0 <= i <= 80
      invariant s == Rounds(digest, block, i)
      invariant forall t :: 0 <= t < 80 ==> w[t] == W(block, t)
    {
      RoundsStep(digest, block, i);
      var temp := Sum(LeftRotate5(s.a), Select(i, s.b, s.c, s.d), s.e, K(i), w[i]);
      s := Digest(temp, s.a, LeftRotate30(s.b), s.c, s.d);
      i := i + 1;
    }
    r := Add(digest, s);
  }

  // ---------------------------------------------------------------- the padding the program feeds

  /** The four bytes of the bit count the program writes, after four zero bytes. */
  function LengthBytes(bitCount: nat): (bs: seq<Byte>)
    ensures |bs| == 8
  {
    [0, 0, 0, 0, LowByte(bitCount / 0x100_0000), LowByte(bitCount / 0x1_0000), LowByte(bitCount / 0x100), LowByte(bitCount)]
  }

  function ProgramPad(m: seq<Byte>): (p: seq<Byte>)
    ensures |p| % 64 == 0
  {
    m + [0x80] + Zeros(ZeroCount(|m|)) + LengthBytes(8 * |m|)
  }

  lemma {:induction false} TwoBytes(k: nat, n: nat)
    ensures BigEndian(k + 2, n) == BigEndian(k, n / 0x1_0000) + [LowByte(n / 0x100), LowByte(n)]
  {
    hide LowByte;
    assert n / 0x100 / 0x100 == n / 0x1_0000;
    assert BigEndian(k + 2, n) == BigEndian(k + 1, n / 0x100) + [LowByte(n)];
  }

  /** The eight bytes of a length, unfolded. */
  lemma {:induction false} EightBytes(n: nat)
    ensures BigEndian(8, n) == BigEndian(4, n / 0x1_0000_0000) +
            [LowByte(n / 0x100_0000), LowByte(n / 0x1_0000), LowByte(n / 0x100), LowByte(n)]
  {
    hide LowByte, BigEndian;
    TwoBytes(6, n);
    TwoBytes(4, n / 0x1_0000);
    assert n / 0x1_0000 / 0x100 == n / 0x100_0000;
    assert n / 0x1_0000 / 0x1_0000 == n / 0x1_0000_0000;
  }

  lemma {:induction false} LowByteZero(n: nat)
    ensures LowByte(n) == 0 <==> n % 256 == 0
  {
  }

  /** The bytes of a number that fits are all zero exactly when it is zero. */
  lemma {:induction false} AllZeroBytes(k: nat, n: nat)
    requires n < ByteOrder.Pow256(k)
    ensures BigEndian(k, n) == Zeros(k) <==> n == 0
  {
    hide LowByte, Zeros;
    if k > 0 {
      AllZeroBytes(k - 1, n / 256);
      LowByteZero(n);
      var high := BigEndian(k - 1, n / 256);
      assert BigEndian(k, n) == high + [LowByte(n)];
      assert Zeros(k) == Zeros(k - 1) + [0];
      assert BigEndian(k, n)[..k - 1] == high && Zeros(k)[..k - 1] == Zeros(k - 1);
      assert BigEndian(k, n)[k - 1] == LowByte(n);
    }
  }

  /** The program writes only four bytes of the length, so its padding is the
      standard's for messages under 2^29 bytes and for no longer ones. */
  lemma {:induction false} PadForms(m: seq<Byte>)
    requires |m| < 0x2000_0000_0000_0000
    ensures ProgramPad(m) == Pad(m) <==> |m| < 0x2000_0000
  {
    hide BigEndian, LowByte, ByteOrder.Pow256, Zeros;
    var n := 8 * |m|;
    EightBytes(n);
    Pow256Four();
    AllZeroBytes(4, n / 0x1_0000_0000);
    var front := m + [0x80] + Zeros(ZeroCount(|m|));
    var tail := [LowByte(n / 0x100_0000), LowByte(n / 0x1_0000), LowByte(n / 0x100), LowByte(n)];
    assert Zeros(4) == [0, 0, 0, 0];
    assert LengthBytes(n) == Zeros(4) + tail;
    assert LengthBytes(n)[..4] == Zeros(4);
    assert BigEndian(8, n)[..4] == BigEndian(4, n / 0x1_0000_0000);
    assert ProgramPad(m) == front + LengthBytes(n) && Pad(m) == front + BigEndian(8, n);
    assert ProgramPad(m)[|front|..] == LengthBytes(n) && Pad(m)[|front|..] == BigEndian(8, n);
  }

  lemma {:induction false} Pow256Four()
    ensures ByteOrder.Pow256(4) == 0x1_0000_0000
  {
    assert ByteOrder.Pow256(1) == 256 && ByteOrder.Pow256(2) == 0x1_0000 && ByteOrder.Pow256(3) == 0x100_0000;
  }

  // ---------------------------------------------------------------- the hashing object

  /** How many bytes of a message fill whole blocks. */
  function Whole(n: nat): (k: nat)
    ensures k <= n && k % 64 == 0 && n - k < 64
  {
    n / 64 * 64
  }

  /** The digest after the whole blocks of the bytes fed so far. */
  function DigestOf(fed: seq<Byte>): (d: Digest) { HashBlocks(IV, fed[..Whole(|fed|)]) }

  /** A byte that does not complete a block leaves the digest alone. */
  lemma {:induction false} DigestKept(fed: seq<Byte>, octet: Byte)
    requires |fed| % 64 != 63
    ensures DigestOf(fed + [octet]) == DigestOf(fed)
    ensures Whole(|fed| + 1) == Whole(|fed|)
  {
    hide HashBlocks;
    assert (fed + [octet])[..Whole(|fed|)] == fed[..Whole(|fed|)];
  }

  /** A byte that completes a block makes it count. */
  lemma {:induction false} DigestAdvances(fed: seq<Byte>, octet: Byte)
    requires |fed| % 64 == 63
    ensures DigestOf(fed + [octet]) == Compress(DigestOf(fed), fed[Whole(|fed|)..] + [octet])
  {
    hide HashBlocks, Compress;
    var k := Whole(|fed|);
    var block: Block := fed[k..] + [octet];
    assert (fed + [octet])[..k + 64] == fed[..k] + block;
    HashConcat(IV, fed[..k], block);
    HashOne(HashBlocks(IV, fed[..k]), block);
  }

  class Hasher {
    var digest: Digest
    const block: array<Byte>
    var index: nat
    var byteCount: nat

    /** The bytes fed since the last reset. */
    ghost var fed: seq<Byte>

    ghost predicate Valid()
      reads this, block
    {
      && block.Length == 64
      && index == |fed| % 64
      && byteCount == |fed|
      && digest == DigestOf(fed)
      && block[..index] == fed[Whole(|fed|)..]
    }

    /** What the counters and the digest say about the bytes fed. */
    lemma {:induction false} Counters()
      requires Valid()
      ensures index == |fed| % 64 && byteCount == |fed| && digest == DigestOf(fed)
    {
      hide DigestOf;
    }

    constructor ()
      ensures Valid() && fresh(block) && fed == []
    {
      hide HashBlocks;
      block := new Byte[64](_ => 0);
      digest, index, byteCount := IV, 0, 0;
      fed := [];
      new;
      StartsAtIV();
    }

    method Reset()
      requires block.Length == 64
      modifies this
      ensures Valid() && fed == []
    {
      hide HashBlocks;
      digest, index, byteCount := IV, 0, 0;
      fed := [];
      StartsAtIV();
    }

    method ProcessByte(octet: Byte)
      requires Valid()
      modifies this, block
      ensures Valid() && fed == old(fed) + [octet]
    {
      hide DigestOf, Compress;
      ghost var was := fed;
      ghost var rest := block[..index];
      block[index] := octet;
      index := index + 1;
      byteCount := byteCount + 1;
      fed := fed + [octet];
      assert block[..index] == rest + [octet];
      if index == 64 {
        DigestAdvances(was, octet);
        index := 0;
        assert block[..] == rest + [octet];
        digest := CompressBlock(digest, block[..]);
      } else {
        DigestKept(was, octet);
      }
    }

    /** One call of processBytes; a message may be fed in any pieces. */
    method ProcessBytes(data: seq<Byte>)
      requires Valid()
      modifies this, block
      ensures Valid() && fed == old(fed) + data
    {
      hide DigestOf;
      var i := 0;
      while i < |data|
        invariant 0 <= i <= |data|
        invariant Valid() && fed == old(fed) + data[..i]
      {
        ProcessByte(data[i]);
        assert data[..i] + [data[i]] == data[..i + 1];
        i := i + 1;
      }
      assert data[..i] == data;
    }

    /** Feeds zero bytes until the block buffer holds `target` bytes. */
    method ZeroTo(target: nat)
      requires Valid() && index <= target < 64
      modifies this, block
      ensures Valid() && fed == old(fed) + Zeros(target - old(index)) && index == target
    {
      hide DigestOf, Valid, Zeros;
      ghost var start := index;
      Counters();
      while index < target
        invariant Valid() && start <= index <= target && index == |fed| % 64
        invariant fed == old(fed) + Zeros(index - start)
        decreases target - index
      {
        ZerosAdd(index - start, 1);
        assert Zeros(1) == [0];
        ProcessByte(0);
        Counters();
      }
    }

    /** Feeds zero bytes until the block is full and has been compressed. */
    method ZeroOut()
      requires Valid() && index != 0
      modifies this, block
      ensures Valid() && fed == old(fed) + Zeros(64 - old(index)) && index == 0
    {
      hide DigestOf, Valid, Zeros;
      Counters();
      ZeroTo(63);
      Counters();
      ZerosAdd(63 - old(index), 1);
      assert Zeros(1) == [0];
      ProcessByte(0);
      Counters();
    }

    method LengthField(bitCount: nat)
      requires Valid()
      modifies this, block
      ensures Valid() && fed == old(fed) + LengthBytes(bitCount)
    {
      hide DigestOf, LowByte, Valid;
      ProcessByte(0);
      ProcessByte(0);
      ProcessByte(0);
      ProcessByte(0);
      assert fed == old(fed) + [0, 0, 0, 0];
      ProcessByte(LowByte(bitCount / 0x100_0000));
      ProcessByte(LowByte(bitCount / 0x1_0000));
      assert fed == old(fed) + [0, 0, 0, 0, LowByte(bitCount / 0x100_0000), LowByte(bitCount / 0x1_0000)];
      ProcessByte(LowByte(bitCount / 0x100));
      ProcessByte(LowByte(bitCount));
    }

    /** The one-bit and the zeros, over one block or two. */
    method PadBlock()
      requires Valid()
      modifies this, block
      ensures Valid() && fed == old(fed) + [0x80] + Zeros(ZeroCount(|old(fed)|))
    {
      hide DigestOf, Valid, Zeros, ZeroCount;
      ghost var m := fed;
      ProcessByte(0x80);
      Counters();
      ZerosNeeded(|m|);
      ghost var at: nat := index;
      if index > 56 {
        ZeroOut();
        ZeroTo(56);
        ZerosAdd(64 - at, 56);
        assert fed == m + [0x80] + (Zeros(64 - at) + Zeros(56));
      } else {
        ZeroTo(56);
      }
    }

    /** The digest of everything fed; the block buffer ends up empty. */
    method GetDigest() returns (result: Digest)
      requires Valid()
      modifies this, block
      ensures Valid() && index == 0
      ensures fed == ProgramPad(old(fed))
      ensures result == HashBlocks(IV, ProgramPad(old(fed)))
      ensures |old(fed)| < 0x2000_0000 ==> result == Sha1(old(fed))
    {
      hide HashBlocks, LengthBytes, Zeros, Valid, Pad;
      ghost var m := fed;
      Counters();
      var bitCount := byteCount * 8;
      PadBlock();
      LengthField(bitCount);
      Counters();
      assert fed[..|fed|] == fed;
      result := digest;
      if |m| < 0x2000_0000 {
        PadForms(m);
      }
    }
  }

  /** The zeros, counted from where the one-bit left the block buffer. */
  lemma {:induction false} ZerosNeeded(length: nat)
    ensures var at := (length + 1) % 64;
            ZeroCount(length) == if at > 56 then 64 - at + 56 else 56 - at
  {
  }

  lemma {:induction false} ZerosAdd(j: nat, k: nat)
    ensures Zeros(j) + Zeros(k) == Zeros(j + k)
  {
  }

  lemma {:induction false} StartsAtIV()
    ensures DigestOf([]) == IV
  {
  }

  /** Whatever pieces a message comes in, the digest is the standard's digest of the whole. */
  method DigestOfPieces(pieces: seq<seq<Byte>>) returns (result: Digest)
    ensures result == HashBlocks(IV, ProgramPad(Joined(pieces)))
    ensures |Joined(pieces)| < 0x2000_0000 ==> result == Sha1(Joined(pieces))
  {
    hide Hasher.Valid, ProgramPad, HashBlocks, Sha1;
    var hasher := new Hasher();
    var i := 0;
    while i < |pieces|
      invariant 0 <= i <= |pieces|
      invariant fresh(hasher) && fresh(hasher.block)
      invariant hasher.Valid() && hasher.fed == Joined(pieces[..i])
    {
      assert pieces[..i + 1][..i] == pieces[..i];
      hasher.ProcessBytes(pieces[i]);
      i := i + 1;
    }
    assert pieces[..i] == pieces;
    result := hasher.GetDigest();
  }
}
