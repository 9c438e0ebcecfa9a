/** The table of who serves which file: registration requests, lookups and the downloader's reading of the reply. */
module Directory {
  import opened Options
  import opened Text
  import opened Decimal
  import opened NumberScan
  import opened ByteOrder
  import opened Delimiter

  /** An address as stored: both parts in network byte order. */
  datatype Address = Address(ip: Word32, port: Word16)

  type Table = map<string, seq<Address>>

  // ---------------------------------------------------------------- addresses as text

  datatype Quad = Quad(a: Byte, b: Byte, c: Byte, d: Byte)

  /** The canonical dotted form. */
  function Dotted(q: Quad): (s: string) { Digits(q.a) + "." + Digits(q.b) + "." + Digits(q.c) + "." + Digits(q.d) }

  /** Cut at its points, the dotted form is the four numbers in decimal. */
  lemma {:induction false} DottedParts(q: Quad)
    ensures var (s1, s2, s3) := (Digits(q.a), Digits(q.b), Digits(q.c));
            var p1 := |s1|;
            var p2 := p1 + 1 + |s2|;
            var p3 := p2 + 1 + |s3|;
            && p3 < |Dotted(q)|
            && (forall k :: 0 <= k < |Dotted(q)| ==> (Dotted(q)[k] == '.' <==> k in [p1, p2, p3]))
            && AllDigits(Dotted(q)[..p1]) && Value(Dotted(q)[..p1]) == q.a
            && AllDigits(Dotted(q)[p1 + 1..p2]) && Value(Dotted(q)[p1 + 1..p2]) == q.b
            && AllDigits(Dotted(q)[p2 + 1..p3]) && Value(Dotted(q)[p2 + 1..p3]) == q.c
            && AllDigits(Dotted(q)[p3 + 1..]) && Value(Dotted(q)[p3 + 1..]) == q.d
  {
    hide Digits, Value;
    ValueOfDigits(q.a);
    ValueOfDigits(q.b);
    ValueOfDigits(q.c);
    ValueOfDigits(q.d);
    FourParts(Digits(q.a), Digits(q.b), Digits(q.c), Digits(q.d));
  }

  lemma {:induction false} FourParts(s1: string, s2: string, s3: string, s4: string)
    requires AllDigits(s1) && AllDigits(s2) && AllDigits(s3) && AllDigits(s4)
    ensures var s := s1 + "." + s2 + "." + s3 + "." + s4;
            var p1 := |s1|;
            var p2 := p1 + 1 + |s2|;
            var p3 := p2 + 1 + |s3|;
            && s[..p1] == s1 && s[p1 + 1..p2] == s2 && s[p2 + 1..p3] == s3 && s[p3 + 1..] == s4
            && (forall k :: 0 <= k < |s| ==> (s[k] == '.' <==> k in [p1, p2, p3]))
  {
    var s := s1 + "." + s2 + "." + s3 + "." + s4;
    var p1 := |s1|;
    var p2 := p1 + 1 + |s2|;
    var p3 := p2 + 1 + |s3|;
    assert s[p1] == '.' && s[p2] == '.' && s[p3] == '.';
    assert forall k :: 0 <= k < p1 ==> s[k] == s1[k];
    assert forall k :: p1 < k < p2 ==> s[k] == s2[k - p1 - 1];
    assert forall k :: p2 < k < p3 ==> s[k] == s3[k - p2 - 1];
    assert forall k :: p3 < k < |s| ==> s[k] == s4[k - p3 - 1];
  }

  /** The four bytes in memory, in the order they are written. */
  function Packed(q: Quad): (ip: Word32) { q.a + 256 * q.b + 65536 * q.c + 16777216 * q.d }

  /** `inet_ntoa` prints the four bytes in memory order. */
  function InetNtoa(ip: Word32): (s: string) {
    var m := InMemory(4, ip);
    Dotted(Quad(m[0], m[1], m[2], m[3]))
  }

  /** What is asked of `inet_addr`: that it reads canonical dotted forms; on other
      text it may return anything. */
  ghost predicate ReadsDotted(inetAddr: string -> Word32) { forall q: Quad :: inetAddr(Dotted(q)) == Packed(q) }

  lemma {:induction false} LowestByte(k: nat, b: Byte, n: nat)
    ensures InMemory(k + 1, b + 256 * n) == [b] + InMemory(k, n)
  {
    var x: nat := b + 256 * n;
    DigitAndRest(b, n);
    assert InMemory(k + 1, x) == [x % 256] + InMemory(k, x / 256);
  }

  lemma {:induction false} DigitAndRest(b: nat, n: nat)
    requires b < 256
    ensures (b + 256 * n) % 256 == b && (b + 256 * n) / 256 == n
  {
  }

  lemma {:induction false} PackedBytes(q: Quad)
    ensures InMemory(4, Packed(q)) == [q.a, q.b, q.c, q.d]
  {
    hide InMemory;
    LowestByte(0, q.d, 0);
    LowestByte(1, q.c, q.d);
    LowestByte(2, q.b, q.c + 256 * q.d);
    LowestByte(3, q.a, q.b + 256 * (q.c + 256 * q.d));
    assert Packed(q) == q.a + 256 * (q.b + 256 * (q.c + 256 * q.d));
    assert InMemory(0, 0) == [];
  }

  /** Printing the stored word gives back the dotted form that was read. */
  lemma {:induction false} NtoaPacked(q: Quad)
    ensures InetNtoa(Packed(q)) == Dotted(q)
  {
    hide InMemory, Dotted, Packed;
    PackedBytes(q);
  }

  lemma {:induction false} Swap16Twice(n: Word16)
    ensures Swap16(Swap16(n)) == n
  {
    var s := Swap16(n);
    assert s % 256 == n / 256 && s / 256 == n % 256;
  }

  // ---------------------------------------------------------------- requests

  function Request(name: string, ip: string, port: string): (s: string) {
    name + SEPARATOR + ip + SEPARATOR + port + SEPARATOR
  }

  datatype Entry = Entry(name: string, address: Address)

  /** What a request registers; none when its port is not a number. */
  function Decode(inetAddr: string -> Word32, s: string): (r: Option<Entry>)
    requires |Tokens(s)| >= 3
  {
    var ts := Tokens(s);
    match Stoi(ts[2])
    case None => None
    case Some(port) => Some(Entry(ts[0], Address(inetAddr(ts[1]), Swap16(port % TWO_16))))
  }

  function Added(t: Table, e: Entry): (r: Table) {
    t[e.name := (if e.name in t then t[e.name] else []) + [e.address]]
  }

  /** Any request has at least three fields, whatever its parts hold. */
  lemma {:induction false} RequestFields(name: string, ip: string, port: string)
    ensures |Tokens(Request(name, ip, port))| >= 3
  {
    hide Tokens, Find;
    FieldsBefore(port, "");
    assert port + SEPARATOR + "" == port + SEPARATOR;
    FieldsBefore(ip, port + SEPARATOR);
    FieldsBefore(name, ip + SEPARATOR + (port + SEPARATOR));
    assert name + SEPARATOR + (ip + SEPARATOR + (port + SEPARATOR)) == Request(name, ip, port);
  }

  lemma {:induction false} SeparatorChars(s: string, i: nat)
    requires Here(s, i, SEPARATOR)
    ensures s[i] == '<' && s[i + 1] == '/' && s[i + 2] == '>'
  {
    assert s[i..i + 3][0] == s[i] && s[i..i + 3][1] == s[i + 1] && s[i..i + 3][2] == s[i + 2];
  }

  /** The first separator of text that goes on after a separator lies before it or is it. */
  lemma {:induction false} FirstOfMany(t: string, rest: string)
    ensures var s := t + SEPARATOR + rest;
            var first := Find(s, SEPARATOR, 0);
            && first.Some? && (first.value == |t| || first.value + 3 <= |t|)
            && s[|t| + 3..] == rest
            && (first.value + 3 <= |t| ==> s[first.value + 3..] == t[first.value + 3..] + SEPARATOR + rest)
  {
    var s := t + SEPARATOR + rest;
    assert Here(s, |t|, SEPARATOR);
    var first := Find(s, SEPARATOR, 0).value;
    SeparatorChars(s, |t|);
    SeparatorChars(s, first);
    if first + 3 <= |t| {
      DropFront(t, first + 3, rest);
    }
  }

  lemma {:induction false} DropFront(t: string, k: nat, rest: string)
    requires k <= |t|
    ensures (t + SEPARATOR + rest)[k..] == t[k..] + SEPARATOR + rest
  {
  }

  /** Text in front of a separator adds at least one field to those behind it. */
  lemma {:induction false} FieldsBefore(t: string, rest: string)
    ensures |Tokens(t + SEPARATOR + rest)| >= 1 + |Tokens(rest)|
    decreases |t|
  {
    hide Find, Here;
    FirstOfMany(t, rest);
    var s := t + SEPARATOR + rest;
    var first := Find(s, SEPARATOR, 0).value;
    assert |Tokens(s)| == 1 + |Tokens(s[first + 3..])|;
    if first != |t| {
      FieldsBefore(t[first + 3..], rest);
    }
  }

  lemma {:induction false} DigitsFree(s: string)
    requires forall k :: 0 <= k < |s| ==> s[k] != '<'
    ensures Absent(s, SEPARATOR)
  {
    forall i | 0 <= i <= |s|
      ensures !Here(s, i, SEPARATOR)
    {
      assert i + 3 <= |s| ==> s[i..i + 3][0] == s[i];
    }
  }

  /** A request with a separator-free name, a dotted address and a decimal port registers
      the name at that address; a port over 65535 is truncated, and one over an `int` refused. */
  lemma {:induction false} DecodeRequest(inetAddr: string -> Word32, name: string, q: Quad, port: nat)
    requires ReadsDotted(inetAddr) && Absent(name, SEPARATOR)
    ensures |Tokens(Request(name, Dotted(q), Digits(port)))| >= 3
    ensures Decode(inetAddr, Request(name, Dotted(q), Digits(port))) ==
            if port < 0x8000_0000 then Some(Entry(name, Address(Packed(q), Swap16(port % TWO_16)))) else None
  {
    hide Digits, Packed, Absent, Find, Swap16, Tokens, Stoi;
    var ts := [name, Dotted(q), Digits(port)];
    var s := Request(name, Dotted(q), Digits(port));
    DigitsFree(Dotted(q));
    DigitsFree(Digits(port));
    JoinedThree(name, Dotted(q), Digits(port));
    TokensJoinedIff(ts);
    StoiDigits(port);
  }

  lemma {:induction false} SkipSpacePrefix(t: string, rest: string, i: nat)
    requires i <= |t| && (rest != "" ==> rest[0] == '<')
    ensures SkipSpace(t + rest, i) == SkipSpace(t, i)
    decreases |t| - i
  {
    if i < |t| {
      SkipSpacePrefix(t, rest, i + 1);
    }
  }

  lemma {:induction false} ScanPrefix(t: string, rest: string, i: nat)
    requires i <= |t| && (rest != "" ==> rest[0] == '<')
    ensures ScanNumber(t + rest, i) == ScanNumber(t, i)
  {
    hide Value;
    var s := t + rest;
    var start := if i < |t| && (t[i] == '-' || t[i] == '+') then i + 1 else i;
    var e := RunEnd(t, start);
    assert s[start..e] == t[start..e];
    assert e < |s| ==> s[e] == if e < |t| then t[e] else rest[0];
    RunEndExact(s, start, e);
  }

  /** Text up to its first separator reads as the same number as the whole. */
  lemma {:induction false} StoiPrefix(t: string, rest: string)
    requires rest != "" ==> rest[0] == '<'
    ensures Stoi(t + rest) == Stoi(t)
  {
    hide ScanNumber, SkipSpace;
    SkipSpacePrefix(t, rest, 0);
    ScanPrefix(t, rest, SkipSpace(t, 0));
  }

  /** The first field of text in front of a separator reads as the same number as the text. */
  lemma {:induction false} FirstFieldNumber(port: string)
    ensures var ts := Tokens(port + SEPARATOR);
            ts != [] && Stoi(ts[0]) == Stoi(port)
  {
    hide Find, Stoi, Here;
    FirstOfMany(port, "");
    var s := port + SEPARATOR;
    assert s + "" == s;
    var first := Find(s, SEPARATOR, 0).value;
    assert Here(s, first, SEPARATOR);
    SeparatorChars(s, first);
    assert first <= |port| && s[..first] == port[..first];
    assert port == port[..first] + port[first..];
    assert first < |port| ==> port[first..][0] == s[first];
    StoiPrefix(port[..first], port[first..]);
  }

  lemma {:induction false} TokensCons(t: string, rest: string)
    requires Absent(t, SEPARATOR)
    ensures Tokens(t + SEPARATOR + rest) == [t] + Tokens(rest)
  {
    hide Find;
    FirstSeparator(t, rest);
    var s := t + SEPARATOR + rest;
    assert s[..|t|] == t && s[|t| + 3..] == rest;
  }

  /** With a free name and a free address, whatever the port text: the entry is stored if and
      only if that text reads as a number. */
  lemma {:induction false} PortDecides(inetAddr: string -> Word32, name: string, ip: string, port: string)
    requires Absent(name, SEPARATOR) && Absent(ip, SEPARATOR)
    ensures |Tokens(Request(name, ip, port))| >= 3
    ensures Decode(inetAddr, Request(name, ip, port)).Some? <==> Stoi(port).Some?
  {
    hide Tokens, Stoi, Absent, Swap16;
    var last := port + SEPARATOR;
    TokensCons(ip, last);
    TokensCons(name, ip + SEPARATOR + last);
    assert Request(name, ip, port) == name + SEPARATOR + (ip + SEPARATOR + last);
    FirstFieldNumber(port);
  }

  lemma {:induction false} JoinedThree(a: string, b: string, c: string)
    ensures Joined([a, b, c]) == Request(a, b, c)
  {
    assert [a, b, c][1..] == [b, c] && [b, c][1..] == [c] && [c][1..] == [];
    assert Joined([c]) == c + SEPARATOR;
    assert Joined([b, c]) == b + SEPARATOR + Joined([c]);
    assert Joined([a, b, c]) == a + SEPARATOR + Joined([b, c]);
  }

  // ---------------------------------------------------------------- lookups

  predicate NoEmptyList(t: Table) { forall n :: n in t ==> t[n] != [] }

  /** The two texts of a stored address. */
  function AddressText(a: Address): (r: (string, string)) { (InetNtoa(a.ip), Digits(Swap16(a.port))) }

  /** The reply to a lookup names the first address in the list. */
  function Reply(t: Table, name: string): (s: string)
    requires NoEmptyList(t)
  {
    if name in t then
      var (ip, port) := AddressText(t[name][0]);
      "tcp://" + ip + ":" + port
    else "EMPTY"
  }

  datatype Endpoint = Endpoint(ip: string, port: string)

  /** The downloader's reading of a reply. A search that fails yields 2^64 - 1, on
      which the offsets wrap; reading past the end throws. */
  function ReadEndpoint(reply: string): (r: Option<Endpoint>) {
    match Find(reply, "//", 0)
    case None => if |reply| == 0 then None else Some(Endpoint(reply[1..], reply))
    case Some(slashes) =>
      match Find(reply, ":", slashes)
      case None => Some(Endpoint(reply[slashes + 2..], reply))
      case Some(colon) =>
        if colon < slashes + 2 then None
        else Some(Endpoint(reply[slashes + 2..colon], reply[colon + 1..]))
  }

  lemma {:induction false} DottedHasNoColon(q: Quad)
    ensures forall k :: 0 <= k < |Dotted(q)| ==> Dotted(q)[k] != ':'
  {
    hide Digits;
  }

  /** The downloader splits a reply at the right places. */
  lemma {:induction false} ReadReply(ip: string, port: string)
    requires forall k :: 0 <= k < |ip| ==> ip[k] != ':'
    ensures ReadEndpoint("tcp://" + ip + ":" + port) == Some(Endpoint(ip, port))
  {
    var s := "tcp://" + ip + ":" + port;
    assert s[4..6] == "//";
    assert s[0] == 't' && s[1] == 'c' && s[2] == 'p' && s[3] == ':' && s[4] == '/' && s[5] == '/';
    forall k | 0 <= k < 4
      ensures !Here(s, k, "//")
    {
      assert s[k..k + 2][0] == s[k];
    }
    FindExact(s, "//", 0, 4);
    var colon := 6 + |ip|;
    assert s[colon..colon + 1] == ":";
    forall k | 4 <= k < colon
      ensures !Here(s, k, ":")
    {
      assert s[k..k + 1][0] == s[k];
      assert k >= 6 ==> s[k] == ip[k - 6];
    }
    FindExact(s, ":", 4, colon);
    assert s[6..colon] == ip && s[colon + 1..] == port;
  }

  /** Whatever the table holds, the downloader reads back the first address listed,
      and it takes the reply for "no such file" exactly when the name is not listed. */
  lemma {:induction false} LookupRead(t: Table, name: string)
    requires NoEmptyList(t)
    ensures Reply(t, name) == "EMPTY" <==> name !in t
    ensures name in t ==> var (ip, port) := AddressText(t[name][0]); ReadEndpoint(Reply(t, name)) == Some(Endpoint(ip, port))
  {
    hide Digits, Dotted, InMemory, ReadEndpoint, Swap16;
    if name in t {
      var (ip, port) := AddressText(t[name][0]);
      var m := InMemory(4, t[name][0].ip);
      DottedHasNoColon(Quad(m[0], m[1], m[2], m[3]));
      ReadReply(ip, port);
      assert Reply(t, name)[0] == 't';
    }
  }
}
