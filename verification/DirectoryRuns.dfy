/** The table as an object, and what any run of registrations leaves in it. */
module DirectoryRuns {
  import opened Options
  import opened Decimal
  import opened NumberScan
  import opened ByteOrder
  import opened Delimiter
  import opened Directory

  /** The table after registering entries in order. */
  function After(t: Table, es: seq<Entry>): (r: Table) {
    if es == [] then t else Added(After(t, es[..|es| - 1]), es[|es| - 1])
  }

  /** The addresses registered under a name, in order. */
  function AddressesOf(es: seq<Entry>, name: string): (r: seq<Address>) {
    if es == [] then []
    else AddressesOf(es[..|es| - 1], name) + if es[|es| - 1].name == name then [es[|es| - 1].address] else []
  }

  function Listed(t: Table, name: string): (r: seq<Address>) { if name in t then t[name] else [] }

  /** Every list is what was there before, then what was registered, in order. */
  lemma {:induction false} AfterLists(t: Table, es: seq<Entry>, name: string)
    requires NoEmptyList(t)
    ensures NoEmptyList(After(t, es))
    ensures Listed(After(t, es), name) == Listed(t, name) + AddressesOf(es, name)
    ensures name in After(t, es) <==> name in t || AddressesOf(es, name) != []
    decreases |es|
  {
    if es != [] {
      AfterLists(t, es[..|es| - 1], name);
    }
  }

  lemma {:induction false} AfterConcat(t: Table, es: seq<Entry>, fs: seq<Entry>)
    ensures After(t, es + fs) == After(After(t, es), fs)
    decreases |fs|
  {
    if fs == [] {
      assert es + fs == es;
    } else {
      assert (es + fs)[..|es + fs| - 1] == es + fs[..|fs| - 1];
      AfterConcat(t, es, fs[..|fs| - 1]);
    }
  }

  /** The first address registered under a name heads its list. */
  lemma {:induction false} FirstAddress(es: seq<Entry>, name: string, i: nat)
    requires i < |es| && es[i].name == name
    requires forall k :: 0 <= k < i ==> es[k].name != name
    ensures AddressesOf(es, name) != [] && AddressesOf(es, name)[0] == es[i].address
    decreases |es|
  {
    var front := es[..|es| - 1];
    if i < |front| {
      FirstAddress(front, name, i);
    } else {
      NoAddress(front, name);
    }
  }

  lemma {:induction false} NoAddress(es: seq<Entry>, name: string)
    requires forall k :: 0 <= k < |es| ==> es[k].name != name
    ensures AddressesOf(es, name) == []
    decreases |es|
  {
    if es != [] {
      NoAddress(es[..|es| - 1], name);
    }
  }

  // ---------------------------------------------------------------- registrations as clients send them

  datatype Registration = Registration(name: string, quad: Quad, port: Word16)

  function Sent(r: Registration): (s: string) { Request(r.name, Dotted(r.quad), Digits(r.port)) }

  function Stored(r: Registration): (e: Entry) { Entry(r.name, Address(Packed(r.quad), Swap16(r.port))) }

  function AllStored(rs: seq<Registration>): (es: seq<Entry>)
    ensures |es| == |rs| && forall k :: 0 <= k < |rs| ==> es[k] == Stored(rs[k])
  {
    seq(|rs|, k requires 0 <= k < |rs| => Stored(rs[k]))
  }

  /** After any registrations, whoever asks for a name and reads the reply as the
      downloader does gets exactly the address and port first registered under it. */
  lemma {:induction false} FirstRegisteredWins(rs: seq<Registration>, name: string, i: nat)
    requires i < |rs| && rs[i].name == name
    requires forall k :: 0 <= k < i ==> rs[k].name != name
    ensures NoEmptyList(After(map[], AllStored(rs)))
    ensures ReadEndpoint(Reply(After(map[], AllStored(rs)), name)) == Some(Endpoint(Dotted(rs[i].quad), Digits(rs[i].port)))
  {
    hide After, AddressesOf, ReadEndpoint, Dotted, Digits, Packed, Swap16, InetNtoa;
    var es := AllStored(rs);
    AfterLists(map[], es, name);
    FirstAddress(es, name, i);
    LookupRead(After(map[], es), name);
    NtoaPacked(rs[i].quad);
    Swap16Twice(rs[i].port);
  }

  /** A name never registered is answered as absent. */
  lemma {:induction false} NeverRegistered(rs: seq<Registration>, name: string)
    requires forall k :: 0 <= k < |rs| ==> rs[k].name != name
    ensures NoEmptyList(After(map[], AllStored(rs))) && Reply(After(map[], AllStored(rs)), name) == "EMPTY"
  {
    hide After, AddressesOf, Reply;
    var es := AllStored(rs);
    AfterLists(map[], es, name);
    NoAddress(es, name);
    LookupRead(After(map[], es), name);
  }

  // ---------------------------------------------------------------- the object

  class Store {
    const inetAddr: string -> Word32
    var table: Table

    ghost predicate Valid()
      reads this
    {
      NoEmptyList(table)
    }

    constructor (inetAddr: string -> Word32)
      ensures Valid() && table == map[] && this.inetAddr == inetAddr
    {
      this.inetAddr := inetAddr;
      table := map[];
    }

    /** Refuses, changing nothing, when the port is not a number; fewer than three
        fields is outside the program's defined behaviour. */
    method Register(s: string) returns (ok: bool)
      requires Valid() && |Tokens(s)| >= 3
      modifies this`table
      ensures Valid()
      ensures ok <==> Decode(inetAddr, s).Some?
      ensures table == if ok then After(old(table), [Decode(inetAddr, s).value]) else old(table)
    {
      hide Tokens;
      var tokens := Split(s);
      var port := Stoi(tokens[2]);
      if port.None? {
        return false;
      }
      var name, address := tokens[0], Address(inetAddr(tokens[1]), Swap16(port.value % TWO_16));
      ghost var e := Entry(name, address);
      AfterOne(table, e);
      if name in table {
        table := table[name := table[name] + [address]];
      } else {
        assert [] + [address] == [address];
        table := table[name := [address]];
      }
      assert table == Added(old(table), e) && Decode(inetAddr, s) == Some(e);
      return true;
    }

    method Lookup(name: string) returns (found: bool, s: string)
      requires Valid()
      ensures found <==> name in table
      ensures s == Reply(table, name)
    {
      if name in table {
        var (ip, port) := AddressText(table[name][0]);
        return true, "tcp://" + ip + ":" + port;
      }
      return false, "EMPTY";
    }
  }

  lemma {:induction false} AfterOne(t: Table, e: Entry)
    ensures After(t, [e]) == Added(t, e)
  {
    assert [e][..0] == [];
  }

  /** Registers each request of a run; well-formed ones are all accepted. */
  method RegisterAll(store: Store, rs: seq<Registration>)
    requires store.Valid() && ReadsDotted(store.inetAddr)
    requires forall k :: 0 <= k < |rs| ==> Absent(rs[k].name, SEPARATOR)
    modifies store`table
    ensures store.Valid() && store.table == After(old(store.table), AllStored(rs))
  {
    hide After, Tokens, Decode, Request, Stored;
    var i := 0;
    ghost var start := store.table;
    AfterNone(start);
    assert AllStored(rs[..0]) == [];
    while i < |rs|
      invariant 0 <= i <= |rs| && store.Valid()
      invariant store.table == After(start, AllStored(rs[..i]))
    {
      DecodeSent(store.inetAddr, rs[i]);
      var ok := store.Register(Sent(rs[i]));
      AfterConcat(start, AllStored(rs[..i]), [Stored(rs[i])]);
      assert AllStored(rs[..i + 1]) == AllStored(rs[..i]) + [Stored(rs[i])];
      i := i + 1;
    }
    assert rs[..i] == rs;
  }

  lemma {:induction false} AfterNone(t: Table)
    ensures After(t, []) == t
  {
  }

  lemma {:induction false} DecodeSent(inetAddr: string -> Word32, r: Registration)
    requires ReadsDotted(inetAddr) && Absent(r.name, SEPARATOR)
    ensures |Tokens(Sent(r))| >= 3 && Decode(inetAddr, Sent(r)) == Some(Stored(r))
  {
    hide Tokens, Decode, Request, Swap16, Packed, Dotted, Digits;
    assert r.port % TWO_16 == r.port;
    DecodeRequest(inetAddr, r.name, r.quad, r.port);
  }
}
