/** Base64 as sections 4 and 5 of RFC 4648 define it: three bytes are one 24-bit
    group, and a group is four 6-bit letters. */
module Base64Spec {
  import opened Bits

  type Sextet = bv6
  type Group = bv24

  const UPPER := "ABCDEFGHIJKLMNOPQRSTUVWXYZ"
  const LOWER := "abcdefghijklmnopqrstuvwxyz"
  const NUMERALS := "0123456789"

  /** The standard alphabet, and the one for urls and file names. */
  function Letters(urlSafe: bool): (key: string)
    ensures |key| == 64
  {
    UPPER + LOWER + NUMERALS + if urlSafe then "-_" else "+/"
  }

  function Letter(urlSafe: bool, v: Sextet): (c: char) { Letters(urlSafe)[v as int] }

  function OfBytes(a: Byte, b: Byte, c: Byte): (g: Group) {
    (a as Group << 16) | (b as Group << 8) | (c as Group)
  }

  function OfSextets(p: Sextet, q: Sextet, r: Sextet, s: Sextet): (g: Group) {
    (p as Group << 18) | (q as Group << 12) | (r as Group << 6) | (s as Group)
  }

  /** The `k`-th 6-bit part of a group, highest first. */
  function Part(g: Group, k: nat): (v: Sextet)
    requires k < 4
  {
    ((g >> (18 - 6 * k)) & 0x3F) as Sextet
  }

  /** The `k`-th byte of a group, highest first. */
  function Octet(g: Group, k: nat): (b: Byte)
    requires k < 3
  {
    ((g >> (16 - 8 * k)) & 0xFF) as Byte
  }

  /** The text of one group of one, two or three bytes, with its padding. */
  function Quad(urlSafe: bool, a: Byte, rest: seq<Byte>): (t: string)
    requires |rest| <= 2
    ensures |t| == 4
  {
    var g := OfBytes(a, if |rest| >= 1 then rest[0] else 0, if |rest| == 2 then rest[1] else 0);
    [Letter(urlSafe, Part(g, 0)), Letter(urlSafe, Part(g, 1)),
     if |rest| >= 1 then Letter(urlSafe, Part(g, 2)) else '=',
     if |rest| == 2 then Letter(urlSafe, Part(g, 3)) else '=']
  }

  function Encoded(urlSafe: bool, data: seq<Byte>): (t: string)
    ensures |t| == 4 * ((|data| + 2) / 3)
  {
    if data == [] then ""
    else if |data| <= 3 then Quad(urlSafe, data[0], data[1..])
    else Quad(urlSafe, data[0], data[1..3]) + Encoded(urlSafe, data[3..])
  }

  /** The 6-bit value a character stands for, in either alphabet. */
  function ValueOf(c: char): (v: Sextet) {
    if 'A' <= c <= 'Z' then (c as int - 'A' as int) as Sextet
    else if 'a' <= c <= 'z' then (c as int - 'a' as int + 26) as Sextet
    else if '0' <= c <= '9' then (c as int - '0' as int + 52) as Sextet
    else if c == '+' || c == '-' then 62
    else if c == '/' || c == '_' then 63
    else 0
  }

  /** The `n` bytes a text carries, read group by group. */
  function Decoded(t: string, n: nat): (data: seq<Byte>)
    requires 4 * n <= 3 * |t|
    ensures |data| == n
    decreases n
  {
    if n == 0 then []
    else
      var g := OfSextets(ValueOf(t[0]), ValueOf(t[1]), if n >= 2 then ValueOf(t[2]) else 0, if n >= 3 then ValueOf(t[3]) else 0);
      if n == 1 then [Octet(g, 0)]
      else if n == 2 then [Octet(g, 0), Octet(g, 1)]
      else [Octet(g, 0), Octet(g, 1), Octet(g, 2)] + Decoded(t[4..], n - 3)
  }
}

/** The encoder and decoder over bytes, and their round trip. */
module Base64 {
  import opened Bits
  import opened Base64Spec

  // ---------------------------------------------------------------- letters

  lemma {:induction false} UpperAt(i: nat)
    requires i < 26
    ensures UPPER[i] as int == 'A' as int + i
  {
  }

  lemma {:induction false} LowerAt(i: nat)
    requires i < 26
    ensures LOWER[i] as int == 'a' as int + i
  {
  }

  lemma {:induction false} NumeralAt(i: nat)
    requires i < 10
    ensures NUMERALS[i] as int == '0' as int + i
  {
  }

  /** Each alphabet, place by place. */
  lemma {:induction false} LetterAt(urlSafe: bool, i: nat)
    requires i < 64
    ensures var c := Letters(urlSafe)[i];
            if i < 26 then c as int == 'A' as int + i
            else if i < 52 then c as int == 'a' as int + i - 26
            else if i < 62 then c as int == '0' as int + i - 52
            else if i == 62 then c == if urlSafe then '-' else '+'
            else c == if urlSafe then '_' else '/'
  {
    var key := Letters(urlSafe);
    if i < 26 {
      UpperAt(i);
      assert key[i] == UPPER[i];
    } else if i < 52 {
      LowerAt(i - 26);
      assert key[i] == LOWER[i - 26];
    } else if i < 62 {
      NumeralAt(i - 52);
      assert key[i] == NUMERALS[i - 52];
    }
  }

  lemma {:induction false} ValueOfLetter(urlSafe: bool, v: Sextet)
    ensures ValueOf(Letter(urlSafe, v)) == v && Letter(urlSafe, v) != '='
  {
    hide Letters;
    LetterAt(urlSafe, v as int);
    assert (v as int) as Sextet == v;
  }

  /** The letters of the two alphabets are all that counts; any other character reads as zero. */
  lemma {:induction false} ValueOfOther(c: char)
    requires forall urlSafe, i :: 0 <= i < 64 ==> Letters(urlSafe)[i] != c
    ensures ValueOf(c) == 0
  {
    hide Letters;
    var i := if 'A' <= c <= 'Z' then c as int - 'A' as int
             else if 'a' <= c <= 'z' then c as int - 'a' as int + 26
             else if '0' <= c <= '9' then c as int - '0' as int + 52
             else if c == '+' || c == '-' then 62
             else 63;
    LetterAt(true, i);
    LetterAt(false, i);
    assert Letters(true)[i] != c && Letters(false)[i] != c;
  }

  // ---------------------------------------------------------------- groups

  lemma {:induction false} BytesOfGroup(a: Byte, b: Byte, c: Byte)
    ensures var g := OfBytes(a, b, c);
            Octet(g, 0) == a && Octet(g, 1) == b && Octet(g, 2) == c
  {
  }

  lemma {:induction false} GroupOfParts(g: Group)
    ensures OfSextets(Part(g, 0), Part(g, 1), Part(g, 2), Part(g, 3)) == g
  {
  }

  lemma {:induction false} ShortGroups(a: Byte, b: Byte)
    ensures Part(OfBytes(a, b, 0), 3) == 0
    ensures Part(OfBytes(a, 0, 0), 2) == 0
  {
  }

  // ---------------------------------------------------------------- round trip on texts

  /** Reading one quad gives its bytes back, even when only its first letters are there. */
  lemma {:induction false} DecodedQuad(urlSafe: bool, a: Byte, rest: seq<Byte>, t: string)
    requires |rest| <= 2 && 2 + |rest| <= |t|
    requires t[..2 + |rest|] == Quad(urlSafe, a, rest)[..2 + |rest|]
    ensures Decoded(t, 1 + |rest|) == [a] + rest
  {
    hide Letter, ValueOf, OfBytes, OfSextets, Part, Octet;
    var b := if |rest| >= 1 then rest[0] else 0;
    var c := if |rest| == 2 then rest[1] else 0;
    var g := OfBytes(a, b, c);
    forall k | 0 <= k < 4
      ensures ValueOf(Letter(urlSafe, Part(g, k))) == Part(g, k)
    {
      ValueOfLetter(urlSafe, Part(g, k));
    }
    BytesOfGroup(a, b, c);
    GroupOfParts(g);
    ShortGroups(a, b);
    var q := Quad(urlSafe, a, rest);
    assert forall k :: 0 <= k < 2 + |rest| ==> t[k] == t[..2 + |rest|][k] == q[..2 + |rest|][k] == q[k];
    assert Decoded(t, 1 + |rest|)[..] == Decoded(t, 1 + |rest|);
  }

  /** Decoding gives the bytes back from the whole text or from any prefix of it
      that still holds a letter for each of their bits. */
  lemma {:induction false} DecodedEncoded(urlSafe: bool, data: seq<Byte>, k: nat)
    requires 4 * |data| <= 3 * k && k <= |Encoded(urlSafe, data)|
    ensures Decoded(Encoded(urlSafe, data)[..k], |data|) == data
    decreases |data|
  {
    hide Letter, ValueOf, OfBytes, OfSextets, Part, Octet, Quad;
    var t := Encoded(urlSafe, data);
    if data == [] {
    } else if |data| <= 3 {
      DecodedQuad(urlSafe, data[0], data[1..], t[..k]);
      assert [data[0]] + data[1..] == data;
    } else {
      var quad := Quad(urlSafe, data[0], data[1..3]);
      assert t == quad + Encoded(urlSafe, data[3..]);
      assert t[..k] == quad + Encoded(urlSafe, data[3..])[..k - 4];
      assert t[..k][..4] == quad;
      DecodedQuad(urlSafe, data[0], data[1..3], t[..k]);
      DecodedEncoded(urlSafe, data[3..], k - 4);
      assert t[..k][4..] == Encoded(urlSafe, data[3..])[..k - 4];
      DecodedStep(t[..k], |data|);
      assert [data[0]] + data[1..3] + data[3..] == data;
    }
  }

  lemma {:induction false} DecodedStep(t: string, n: nat)
    requires 4 * n <= 3 * |t| && n >= 3
    ensures Decoded(t, n) == Decoded(t, 3) + Decoded(t[4..], n - 3)
  {
    hide ValueOf, OfSextets, Octet;
    assert Decoded(t, 3) == Decoded(t, 3) + [];
    assert Decoded(t[4..], 0) == [];
  }

  /** The padding says how many bytes the last group carries. */
  lemma {:induction false} PaddingOf(urlSafe: bool, data: seq<Byte>)
    requires data != []
    ensures var t := Encoded(urlSafe, data);
            && (t[|t| - 2] == '=' <==> |data| % 3 == 1)
            && (t[|t| - 1] == '=' <==> |data| % 3 != 0)
    decreases |data|
  {
    hide Letter, OfBytes, Part, Quad;
    var t := Encoded(urlSafe, data);
    if |data| <= 3 {
      QuadPadding(urlSafe, data[0], data[1..]);
    } else {
      PaddingOf(urlSafe, data[3..]);
      var more := Encoded(urlSafe, data[3..]);
      assert t[|t| - 2] == more[|more| - 2] && t[|t| - 1] == more[|more| - 1];
    }
  }

  lemma {:induction false} QuadPadding(urlSafe: bool, a: Byte, rest: seq<Byte>)
    requires |rest| <= 2
    ensures Quad(urlSafe, a, rest)[2] == '=' <==> |rest| == 0
    ensures Quad(urlSafe, a, rest)[3] == '=' <==> |rest| < 2
  {
    hide Letter, OfBytes, Part;
    var g := OfBytes(a, if |rest| >= 1 then rest[0] else 0, if |rest| == 2 then rest[1] else 0);
    ValueOfLetter(urlSafe, Part(g, 2));
    ValueOfLetter(urlSafe, Part(g, 3));
  }

  /** How many bytes the decoder makes room for. */
  function DecodedSize(t: string): (n: nat)
    requires |t| >= 2
    ensures 4 * n <= 3 * |t|
  {
    if |t| % 4 == 2 then |t| / 4 * 3 + 1
    else if |t| % 4 == 3 then |t| / 4 * 3 + 2
    else if t[|t| - 2] == '=' then |t| / 4 * 3 - 2
    else if t[|t| - 1] == '=' then |t| / 4 * 3 - 1
    else |t| / 4 * 3
  }

  /** The text without its padding characters. */
  function Stripped(urlSafe: bool, data: seq<Byte>): (t: string) { Encoded(urlSafe, data)[..(4 * |data| + 2) / 3] }

  /** How many letters `3 * q + r` bytes take, with and without padding. */
  lemma {:induction false} Lengths(q: nat, r: nat)
    requires r < 3
    ensures var n := 3 * q + r;
            && 4 * ((n + 2) / 3) == 4 * q + (if r == 0 then 0 else 4)
            && (4 * n + 2) / 3 == 4 * q + (if r == 0 then 0 else r + 1)
  {
  }

  lemma {:induction false} SizeFromEnd(t: string, q: nat)
    requires |t| >= 2
    ensures |t| == 4 * q + 2 ==> DecodedSize(t) == 3 * q + 1
    ensures |t| == 4 * q + 3 ==> DecodedSize(t) == 3 * q + 2
    ensures |t| == 4 * q + 4 && t[|t| - 2] == '=' ==> DecodedSize(t) == 3 * q + 1
    ensures |t| == 4 * q + 4 && t[|t| - 2] != '=' && t[|t| - 1] == '=' ==> DecodedSize(t) == 3 * q + 2
    ensures |t| == 4 * q && t[|t| - 2] != '=' && t[|t| - 1] != '=' ==> DecodedSize(t) == 3 * q
    ensures |t| == 4 * q + 1 ==> DecodedSize(t) == 3 * q - if t[|t| - 2] == '=' then 2 else if t[|t| - 1] == '=' then 1 else 0
  {
  }

  lemma {:induction false} SizeOfEncoded(urlSafe: bool, data: seq<Byte>)
    requires data != []
    ensures DecodedSize(Encoded(urlSafe, data)) == |data|
    ensures |Stripped(urlSafe, data)| >= 2 && DecodedSize(Stripped(urlSafe, data)) == |data|
  {
    hide Encoded, DecodedSize;
    PaddingOf(urlSafe, data);
    var q := |data| / 3;
    Lengths(q, |data| % 3);
    SizeFromEnd(Encoded(urlSafe, data), q);
    SizeFromEnd(Stripped(urlSafe, data), q);
    if |data| % 3 == 0 {
      assert Stripped(urlSafe, data) == Encoded(urlSafe, data);
    }
  }

  /** Decoding inverts encoding, in either alphabet, padded or stripped. */
  lemma {:induction false} RoundTrip(urlSafe: bool, data: seq<Byte>)
    requires data != []
    ensures |Encoded(urlSafe, data)| == 4 * ((|data| + 2) / 3)
    ensures var t := Encoded(urlSafe, data);
            Decoded(t, DecodedSize(t)) == data
    ensures var t := Stripped(urlSafe, data);
            |t| >= 2 && Decoded(t, DecodedSize(t)) == data
  {
    hide Encoded, Decoded, DecodedSize;
    SizeOfEncoded(urlSafe, data);
    var t := Encoded(urlSafe, data);
    assert t[..|t|] == t;
    DecodedEncoded(urlSafe, data, |t|);
    DecodedEncoded(urlSafe, data, (4 * |data| + 2) / 3);
  }

  // ---------------------------------------------------------------- the encoder

  function First(a: Byte): (v: Sextet) { ((a & 0xFC) >> 2) as Sextet }

  function Second(a: Byte, b: Byte): (v: Sextet) { (((a & 0x03) << 4) | ((b & 0xF0) >> 4)) as Sextet }

  function Third(b: Byte, c: Byte): (v: Sextet) { (((b & 0x0F) << 2) | ((c & 0xC0) >> 6)) as Sextet }

  function Fourth(c: Byte): (v: Sextet) { (c & 0x3F) as Sextet }

  lemma {:induction false} PartsOfBytes(a: Byte, b: Byte, c: Byte)
    ensures var g := OfBytes(a, b, c);
            && First(a) == Part(g, 0) && Second(a, b) == Part(g, 1)
            && Third(b, c) == Part(g, 2) && Fourth(c) == Part(g, 3)
  {
  }

  lemma {:induction false} QuadOfThree(urlSafe: bool, data: seq<Byte>)
    requires |data| >= 3
    ensures Encoded(urlSafe, data) ==
            [Letter(urlSafe, First(data[0])), Letter(urlSafe, Second(data[0], data[1])),
             Letter(urlSafe, Third(data[1], data[2])), Letter(urlSafe, Fourth(data[2]))] + Encoded(urlSafe, data[3..])
  {
    hide Letter, OfBytes, Part, First, Second, Third, Fourth;
    PartsOfBytes(data[0], data[1], data[2]);
  }

  lemma {:induction false} QuadOfTwo(urlSafe: bool, a: Byte, b: Byte)
    ensures Encoded(urlSafe, [a, b]) ==
            [Letter(urlSafe, First(a)), Letter(urlSafe, Second(a, b)), Letter(urlSafe, Third(b, 0)), '=']
  {
    hide Letter, OfBytes, Part, First, Second, Third, Fourth;
    PartsOfBytes(a, b, 0);
  }

  lemma {:induction false} QuadOfOne(urlSafe: bool, a: Byte)
    ensures Encoded(urlSafe, [a]) == [Letter(urlSafe, First(a)), Letter(urlSafe, Second(a, 0)), '=', '=']
  {
    hide Letter, OfBytes, Part, First, Second, Third, Fourth;
    PartsOfBytes(a, 0, 0);
  }

  /** Writes four characters and moves the write position. */
  method Put(ret: array<char>, at: nat, four: string)
    requires |four| == 4 && at + 4 <= ret.Length
    modifies ret
    ensures ret[..at] == old(ret[..at])
    ensures ret[..at + 4] == old(ret[..at]) + four
  {
    ret[at], ret[at + 1], ret[at + 2], ret[at + 3] := four[0], four[1], four[2], four[3];
  }

  /** The buffer is sized up front and filled exactly. */
  method Encode(urlSafe: bool, data: seq<Byte>) returns (text: string)
    ensures text == Encoded(urlSafe, data)
  {
    hide Letter, Encoded, First, Second, Third, Fourth;
    var ret := new char[(|data| + 2) / 3 * 4];
    var it, i := 0, 0;
    while |data| - i >= 3
      invariant 0 <= i <= |data| && it + |Encoded(urlSafe, data[i..])| == ret.Length
      invariant ret[..it] + Encoded(urlSafe, data[i..]) == Encoded(urlSafe, data)
      decreases |data| - i
    {
      QuadOfThree(urlSafe, data[i..]);
      var a, b, c := data[i], data[i + 1], data[i + 2];
      Put(ret, it, [Letter(urlSafe, First(a)), Letter(urlSafe, Second(a, b)), Letter(urlSafe, Third(b, c)), Letter(urlSafe, Fourth(c))]);
      assert data[i..][3..] == data[i + 3..];
      i, it := i + 3, it + 4;
    }
    if |data| - i == 1 {
      assert data[i..] == [data[i]];
      QuadOfOne(urlSafe, data[i]);
      Put(ret, it, [Letter(urlSafe, First(data[i])), Letter(urlSafe, Second(data[i], 0)), '=', '=']);
      it := it + 4;
    } else if |data| - i == 2 {
      var a, b := data[i], data[i + 1];
      assert data[i..] == [a, b];
      QuadOfTwo(urlSafe, a, b);
      Put(ret, it, [Letter(urlSafe, First(a)), Letter(urlSafe, Second(a, b)), Letter(urlSafe, Third(b, 0)), '=']);
      it := it + 4;
    }
    assert ret[..] == ret[..it];
    text := ret[..];
  }

  // ---------------------------------------------------------------- the decoder

  function Widened(v: Sextet): (b: Byte) { v as Byte }

  function KeyOf(c: char): (v: Byte) { Widened(ValueOf(c)) }

  function Byte1(odd: Byte, even: Byte): (b: Byte) { (odd << 2) | ((even & 0x30) >> 4) }

  function Byte2(even: Byte, odd: Byte): (b: Byte) { ((even & 0x0F) << 4) | ((odd & 0x3C) >> 2) }

  function Byte3(odd: Byte, even: Byte): (b: Byte) { ((odd & 0x03) << 6) | even }

  lemma {:induction false} OctetsOfSextets(p: Sextet, q: Sextet, r: Sextet, s: Sextet)
    ensures var g := OfSextets(p, q, r, s);
            && Byte1(Widened(p), Widened(q)) == Octet(g, 0)
            && Byte2(Widened(q), Widened(r)) == Octet(g, 1)
            && Byte3(Widened(r), Widened(s)) == Octet(g, 2)
  {
  }

  /** A short group's bytes do not depend on the letters that are missing. */
  lemma {:induction false} OctetsOfFew(p: Sextet, q: Sextet, r: Sextet)
    ensures Byte1(Widened(p), Widened(q)) == Octet(OfSextets(p, q, r, 0), 0) == Octet(OfSextets(p, q, 0, 0), 0)
    ensures Byte2(Widened(q), Widened(r)) == Octet(OfSextets(p, q, r, 0), 1)
  {
    hide OfSextets, Octet, Widened, Byte1, Byte2, Byte3;
    OctetsOfSextets(p, q, r, 0);
    OctetsOfSextets(p, q, 0, 0);
  }

  lemma {:induction false} DecodedThree(t: string, n: nat)
    requires 4 * n <= 3 * |t| && n >= 3
    ensures Decoded(t, n) ==
            [Byte1(KeyOf(t[0]), KeyOf(t[1])), Byte2(KeyOf(t[1]), KeyOf(t[2])), Byte3(KeyOf(t[2]), KeyOf(t[3]))]
            + Decoded(t[4..], n - 3)
  {
    hide ValueOf, OfSextets, Octet, Byte1, Byte2, Byte3, Widened;
    OctetsOfSextets(ValueOf(t[0]), ValueOf(t[1]), ValueOf(t[2]), ValueOf(t[3]));
  }

  lemma {:induction false} DecodedFew(t: string, n: nat)
    requires 4 * n <= 3 * |t| && n < 3
    ensures n == 0 ==> Decoded(t, n) == []
    ensures n == 1 ==> Decoded(t, n) == [Byte1(KeyOf(t[0]), KeyOf(t[1]))]
    ensures n == 2 ==> Decoded(t, n) == [Byte1(KeyOf(t[0]), KeyOf(t[1])), Byte2(KeyOf(t[1]), KeyOf(t[2]))]
  {
    hide ValueOf, OfSextets, Octet, Byte1, Byte2, Byte3, Widened;
    if n > 0 {
      OctetsOfFew(ValueOf(t[0]), ValueOf(t[1]), if n == 2 then ValueOf(t[2]) else 0);
    }
  }

  /** Decodes any text of at least two characters (the program inspects the last
      two), in one pass that stays inside the text and fills the buffer exactly. */
  method Decode(t: string) returns (data: seq<Byte>)
    requires |t| >= 2
    ensures data == Decoded(t, DecodedSize(t))
  {
    hide Decoded, DecodedSize, KeyOf, Byte1, Byte2, Byte3;
    var n := DecodedSize(t);
    var ret := new Byte[n];
    var size, it, i := n, 0, 0;
    assert t[0..] == t;
    while size >= 3
      invariant 0 <= i <= |t| && 0 <= size && 4 * size <= 3 * (|t| - i) && it + size == ret.Length == n
      invariant ret[..it] + Decoded(t[i..], size) == Decoded(t, n)
      decreases size
    {
      DecodedThree(t[i..], size);
      assert t[i..][4..] == t[i + 4..];
      ghost var was := ret[..it];
      var odd := KeyOf(t[i]);
      var even := KeyOf(t[i + 1]);
      ret[it] := Byte1(odd, even);
      odd := KeyOf(t[i + 2]);
      ret[it + 1] := Byte2(even, odd);
      even := KeyOf(t[i + 3]);
      ret[it + 2] := Byte3(odd, even);
      assert ret[..it + 3] == was + [ret[it], ret[it + 1], ret[it + 2]];
      size, it, i := size - 3, it + 3, i + 4;
    }
    DecodedFew(t[i..], size);
    ghost var was := ret[..it];
    if size == 2 {
      var odd := KeyOf(t[i]);
      var even := KeyOf(t[i + 1]);
      ret[it] := Byte1(odd, even);
      odd := KeyOf(t[i + 2]);
      ret[it + 1] := Byte2(even, odd);
    } else if size == 1 {
      ret[it] := Byte1(KeyOf(t[i]), KeyOf(t[i + 1]));
    }
    assert ret[..] == was + Decoded(t[i..], size);
    data := ret[..];
  }
}
