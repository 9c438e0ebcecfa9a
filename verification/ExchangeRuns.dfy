/** What holds in every state of every conversation, and how one can end. */
module ExchangeRuns {
  import opened Options
  import opened Decimal
  import opened NumberScan
  import opened ByteOrder
  import opened Delimiter
  import opened Directory
  import opened DirectoryRuns
  import opened DirectorySaved
  import opened FileListing
  import opened Exchange

  // ---------------------------------------------------------------- what the invariant gives

  /** Neither side is gone. */
  predicate Alive(s: State) { !s.client.Finished? && !s.client.Crashed? && !s.server.Stopped? }

  /** Exactly one thing is going on: one side may send while the other waits, or a message
      is on its way to a side that waits for it. */
  predicate OneMoves(s: State) {
    && (ClientMaySend(s) <==> s.wire.Idle? && ServerWaits(s))
    && (ServerMaySend(s) <==> s.wire.Idle? && ClientWaits(s))
    && (!s.wire.Idle? ==> ServerWaits(s) && ClientWaits(s))
    && (s.wire.Idle? ==> (ClientMaySend(s) <==> !ServerMaySend(s)))
  }

  lemma {:induction false} OneSideMoves(inetAddr: string -> Word32, s: State)
    requires Inv(inetAddr, s) && Alive(s)
    ensures OneMoves(s)
  {
    hide NoEmptyList, Registers, Refused, After, Tokens, Decode, Reply, PortsRead, RequestOf;
  }

  /** No reply is ever a wrong one. The client ends by its own choice, or crashes when the port of
      an acknowledged upload is no number; the server gives up on an upload it cannot store. */
  lemma {:induction false} HowItEnds(inetAddr: string -> Word32, s: State)
    requires Inv(inetAddr, s)
    ensures !s.client.Failed?
    ensures s.client.Finished? || s.client.Crashed? ==> s.server.WaitOption? && s.wire.Idle?
    ensures s.client.Crashed? <==> exists k :: 0 <= k < |s.confirmed| <= |s.uploads| && Stoi(s.uploads[k].port).None?
    ensures s.server.Stopped? ==> s.client.WaitStored? && s.uploads != [] && Refused(inetAddr, RequestOf(s.uploads[|s.uploads| - 1]))
  {
    hide NoEmptyList, Registers, Refused, After, Tokens, Decode, Reply, Stoi, RequestOf;
    if s.client.Crashed? {
      assert Stoi(s.uploads[|s.confirmed| - 1].port).None?;
    }
  }

  /** The server gives up on an upload if and only if it cannot store it. */
  lemma {:induction false} StopsIff(inetAddr: string -> Word32, s: State)
    requires Inv(inetAddr, s) && s.client.WaitStored? && s.wire.ToServer?
    ensures s.uploads != [] && s.wire.message == RequestOf(s.uploads[|s.uploads| - 1])
    ensures ServerTakes(inetAddr, s, s.wire.message).server.Stopped? <==> Refused(inetAddr, s.wire.message)
  {
    hide NoEmptyList, After, Tokens, Decode, Reply, Stoi, RequestOf, PortsRead;
  }

  /** The acknowledgement of an upload ends the client if and only if the port is no number. */
  lemma {:induction false} CrashesIff(inetAddr: string -> Word32, s: State)
    requires Inv(inetAddr, s) && s.client.WaitStored? && s.wire.ToClient?
    ensures s.uploads != []
    ensures var r := ClientTakes(s, s.wire.message);
            var port := s.uploads[|s.uploads| - 1].port;
            && (r.client.Crashed? <==> Stoi(port).None?)
            && (r.client.Menu? <==> Stoi(port).Some?)
  {
    hide NoEmptyList, Registers, Refused, After, Tokens, Decode, Reply, Stoi, RequestOf, PortsRead;
  }

  /** While neither side is gone something can happen. */
  lemma {:induction false} NoDeadlock(inetAddr: string -> Word32, s: State, order: seq<string>, u: Upload)
    requires Inv(inetAddr, s) && Alive(s) && Lists(order, s.table)
    ensures Enabled(s, Choose(0)) || Enabled(s, TypeUpload(u)) || Enabled(s, TypeName(""))
         || Enabled(s, ServerReceives) || Enabled(s, ServerSends(order)) || Enabled(s, ClientReceives)
  {
    hide NoEmptyList, Registers, Refused, After, Tokens, Decode, Reply, Lists, PortsRead, RequestOf;
  }

  /** Once a side is gone nothing happens any more. */
  lemma {:induction false} NothingAfterTheEnd(inetAddr: string -> Word32, s: State, e: Event)
    requires Inv(inetAddr, s) && !Alive(s)
    ensures !Enabled(s, e)
  {
    hide NoEmptyList, Registers, Refused, After, Tokens, Decode, Reply, Lists, PortsRead, RequestOf;
  }

  /** At the top of the server's loop the table is the loaded one plus every acknowledged
      upload in order; at the client's menu all of those are confirmed and nothing else was sent. */
  lemma {:induction false} LoopTop(inetAddr: string -> Word32, s: State)
    requires Inv(inetAddr, s)
    ensures s.server.WaitOption? ==> s.table == After(s.loaded, s.acked)
    ensures s.client.Menu? ==> s.table == After(s.loaded, s.confirmed) && s.confirmed == s.acked && |s.uploads| == |s.acked|
    ensures |s.confirmed| <= |s.acked| <= |s.uploads|
    ensures forall k :: 0 <= k < |s.acked| ==> Registers(inetAddr, RequestOf(s.uploads[k]), s.acked[k])
  {
    hide NoEmptyList, Registers, Refused, After, Tokens, Decode, Reply, PortsRead, RequestOf;
  }

  /** The address a client receives is the first one listed under the name it asked for, in
      the loaded table followed by all its own uploads. */
  lemma {:induction false} AddressReceived(inetAddr: string -> Word32, s: State, name: string)
    requires Inv(inetAddr, s) && s.client == WaitAddress(name) && s.wire.ToClient?
    ensures var list := Listed(s.loaded, name) + AddressesOf(s.acked, name);
            && (s.wire.message == "EMPTY" <==> list == [])
            && (list != [] ==>
                  var (ip, port) := AddressText(list[0]);
                  ReadEndpoint(s.wire.message) == Some(Endpoint(ip, port)))
  {
    hide Registers, Refused, After, Tokens, Decode, Reply, AddressText, ReadEndpoint, AddressesOf, PortsRead, RequestOf;
    assert s.wire.message == Reply(s.table, name);
    assert s.table == After(s.loaded, s.acked);
    AfterLists(s.loaded, s.acked, name);
    LookupRead(s.table, name);
  }

  /** The listing a client receives: "EMPTY" if and only if the loaded table and the acknowledged uploads
      list nothing, and otherwise, when all names are words, exactly those names, each once. */
  lemma {:induction false} ListingReceived(inetAddr: string -> Word32, s: State)
    requires Inv(inetAddr, s) && s.client.WaitListing? && s.wire.ToClient?
    ensures var t := After(s.loaded, s.acked);
            && (s.wire.message == "EMPTY" <==> t == map[])
            && (t != map[] && (forall n :: n in t ==> IsWord(n)) ==> Lists(Words(s.wire.message), t))
  {
    assert IsListing(s.wire.message, s.table) && s.table == After(s.loaded, s.acked) by {
      hide Registers, Refused, After, Tokens, Decode, Reply, PortsRead, RequestOf, IsListing;
    }
    var order :| Lists(order, s.table) && s.wire.message == Listing(order);
    hide After, Listing, Words, IsWord, Inv;
    ListingRead(order);
    assert s.table == map[] <==> order == [];
  }

  // ---------------------------------------------------------------- whole runs

  /** Where a run of events leads from a state; none when one of them cannot happen. */
  ghost function Reached(inetAddr: string -> Word32, s: State, events: seq<Event>): (r: Option<State>)
    decreases |events|
  {
    if events == [] then Some(s)
    else if NoEmptyList(s.table) && Enabled(s, events[0]) then Reached(inetAddr, Step(inetAddr, s, events[0]), events[1..])
    else None
  }

  lemma {:induction false} RunKeepsInv(inetAddr: string -> Word32, s: State, events: seq<Event>)
    requires Inv(inetAddr, s) && Reached(inetAddr, s, events).Some?
    ensures Inv(inetAddr, Reached(inetAddr, s, events).value)
    decreases |events|
  {
    hide Inv, Step, Enabled;
    if events != [] {
      StepKeepsInv(inetAddr, s, events[0]);
      RunKeepsInv(inetAddr, Step(inetAddr, s, events[0]), events[1..]);
    }
  }

  lemma {:induction false} StartInv(inetAddr: string -> Word32, loaded: Table)
    requires NoEmptyList(loaded)
    ensures Inv(inetAddr, Start(loaded))
  {
    assert After(loaded, []) == loaded;
  }

  function TypedBy(e: Event): (us: seq<Upload>) { if e.TypeUpload? then [e.upload] else [] }

  /** The uploads typed during a run. */
  function Typed(events: seq<Event>): (us: seq<Upload>) {
    if events == [] then [] else TypedBy(events[0]) + Typed(events[1..])
  }

  lemma {:induction false} StepUploads(inetAddr: string -> Word32, s: State, e: Event)
    requires NoEmptyList(s.table)
    ensures Step(inetAddr, s, e).uploads == s.uploads + TypedBy(e) && Step(inetAddr, s, e).loaded == s.loaded
  {
    hide RequestOf, Reply, Decode, Stoi, After, Listing, NoEmptyList, Tokens;
  }

  lemma {:induction false} UploadsTyped(inetAddr: string -> Word32, s: State, events: seq<Event>)
    requires Reached(inetAddr, s, events).Some?
    ensures var r := Reached(inetAddr, s, events).value;
            r.uploads == s.uploads + Typed(events) && r.loaded == s.loaded
    decreases |events|
  {
    hide Enabled, Step, TypedBy, NoEmptyList;
    if events != [] {
      StepUploads(inetAddr, s, events[0]);
      UploadsTyped(inetAddr, Step(inetAddr, s, events[0]), events[1..]);
    }
  }

  lemma {:induction false} RepliesAre(inetAddr: string -> Word32, s: State)
    requires Inv(inetAddr, s)
    ensures s.client.WaitListing? && s.wire.ToClient? ==> IsListing(s.wire.message, After(s.loaded, s.acked))
    ensures s.client.WaitAddress? && s.wire.ToClient? ==>
              NoEmptyList(After(s.loaded, s.acked)) && s.wire.message == Reply(After(s.loaded, s.acked), s.client.name)
  {
    hide Registers, Refused, After, Tokens, Decode, Reply, PortsRead, RequestOf, IsListing, NoEmptyList;
  }

  /** Every state of every run from the start: one side moves at a time until one is gone, the table is
      the loaded one plus the acknowledged uploads in order, these are uploads the client typed, and the
      client is gone by a crash exactly when one of those it has had confirmed has a port that is no number. */
  lemma {:induction false} EveryState(inetAddr: string -> Word32, loaded: Table, events: seq<Event>)
    requires NoEmptyList(loaded) && Reached(inetAddr, Start(loaded), events).Some?
    ensures var s := Reached(inetAddr, Start(loaded), events).value;
            var typed := Typed(events);
            && (Alive(s) ==> OneMoves(s))
            && !s.client.Failed?
            && (s.server.WaitOption? ==> s.table == After(loaded, s.acked))
            && (s.client.Menu? ==> s.confirmed == s.acked && |s.acked| == |typed|)
            && |s.confirmed| <= |s.acked| <= |typed|
            && (forall i :: 0 <= i < |s.acked| ==> Registers(inetAddr, RequestOf(typed[i]), s.acked[i]))
            && (s.client.Crashed? <==> exists k :: 0 <= k < |s.confirmed| && Stoi(typed[k].port).None?)
            && (s.server.Stopped? ==> typed != [] && Refused(inetAddr, RequestOf(typed[|typed| - 1])))
            && (s.client.WaitListing? && s.wire.ToClient? ==> IsListing(s.wire.message, After(loaded, s.acked)))
            && (s.client.WaitAddress? && s.wire.ToClient? ==>
                  NoEmptyList(After(loaded, s.acked)) && s.wire.message == Reply(After(loaded, s.acked), s.client.name))
  {
    hide Inv, Typed, Registers, Refused, After, Reached, Alive, OneMoves, Stoi, RequestOf, IsListing, Reply, NoEmptyList;
    StartInv(inetAddr, loaded);
    RunKeepsInv(inetAddr, Start(loaded), events);
    UploadsTyped(inetAddr, Start(loaded), events);
    var s := Reached(inetAddr, Start(loaded), events).value;
    assert [] + Typed(events) == Typed(events) == s.uploads;
    LoopTop(inetAddr, s);
    HowItEnds(inetAddr, s);
    RepliesAre(inetAddr, s);
    if Alive(s) {
      OneSideMoves(inetAddr, s);
    }
  }

  // ---------------------------------------------------------------- which uploads are safe

  /** The name and the address hold no separator. */
  predicate Free(u: Upload) { Absent(u.name, SEPARATOR) && Absent(u.ip, SEPARATOR) }

  lemma {:induction false} FreeUpload(inetAddr: string -> Word32, u: Upload)
    requires Free(u)
    ensures Refused(inetAddr, RequestOf(u)) <==> Stoi(u.port).None?
    ensures forall e :: Registers(inetAddr, RequestOf(u), e) ==> Stoi(u.port).Some?
  {
    hide Tokens, Stoi, Decode, Absent;
    PortDecides(inetAddr, u.name, u.ip, u.port);
  }

  /** With separator-free names and addresses the client never crashes, whatever the ports: a
      port that is no number makes the server give up first. */
  lemma {:induction false} FreeNeverCrashes(inetAddr: string -> Word32, loaded: Table, events: seq<Event>)
    requires NoEmptyList(loaded) && Reached(inetAddr, Start(loaded), events).Some?
    requires forall k :: 0 <= k < |Typed(events)| ==> Free(Typed(events)[k])
    ensures !Reached(inetAddr, Start(loaded), events).value.client.Crashed?
  {
    hide Typed, Reached, Registers, Refused, Stoi, RequestOf, Free;
    EveryState(inetAddr, loaded, events);
    forall k | 0 <= k < |Typed(events)|
      ensures forall e :: Registers(inetAddr, RequestOf(Typed(events)[k]), e) ==> Stoi(Typed(events)[k].port).Some?
    {
      FreeUpload(inetAddr, Typed(events)[k]);
    }
  }

  /** A registration as it should be typed: a free name, a dotted address and a number. */
  ghost predicate WellTyped(u: Upload) {
    Absent(u.name, SEPARATOR) && (exists q :: u.ip == Dotted(q)) && exists p: nat :: p < 0x8000_0000 && u.port == Digits(p)
  }

  lemma {:induction false} WellTypedAccepted(inetAddr: string -> Word32, u: Upload)
    requires WellTyped(u)
    ensures Free(u) && Stoi(u.port).Some?
  {
    hide Stoi, Digits, Absent;
    var q :| u.ip == Dotted(q);
    DigitsFree(Dotted(q));
    var p: nat :| p < 0x8000_0000 && u.port == Digits(p);
    StoiDigits(p);
  }

  /** With well-formed uploads neither side is ever lost, in any run and whatever was loaded. */
  lemma {:induction false} WellTypedNeverStops(inetAddr: string -> Word32, loaded: Table, events: seq<Event>)
    requires NoEmptyList(loaded) && Reached(inetAddr, Start(loaded), events).Some?
    requires forall k :: 0 <= k < |Typed(events)| ==> WellTyped(Typed(events)[k])
    ensures var s := Reached(inetAddr, Start(loaded), events).value;
            !s.server.Stopped? && !s.client.Crashed? && !s.client.Failed?
  {
    hide Typed, Reached, Registers, Refused, Stoi, RequestOf, Free, WellTyped;
    forall k | 0 <= k < |Typed(events)|
      ensures Free(Typed(events)[k]) && !Refused(inetAddr, RequestOf(Typed(events)[k]))
    {
      WellTypedAccepted(inetAddr, Typed(events)[k]);
      FreeUpload(inetAddr, Typed(events)[k]);
    }
    EveryState(inetAddr, loaded, events);
    FreeNeverCrashes(inetAddr, loaded, events);
  }

  // ---------------------------------------------------------------- how a listing and a download go

  lemma {:induction false} ListingSteps(inetAddr: string -> Word32, s: State, order: seq<string>, es: seq<Event>)
    requires NoEmptyList(s.table) && s.client.Menu? && s.server.WaitOption? && s.wire.Idle? && Lists(order, s.table)
    ensures Reached(inetAddr, s, [Choose(0)] + ([ServerReceives] + ([ServerSends(order)] + es))) ==
            Reached(inetAddr, s.(client := WaitListing, wire := ToClient(Listing(order))), es)
  {
    hide NoEmptyList, Lists, Reached, Stoi, Decode, Tokens, Reply, Listing, After;
    OptionsRead();
    var a := s.(client := WaitListing, wire := ToServer("0"));
    var b := a.(server := SendListing, wire := Idle);
    assert Step(inetAddr, s, Choose(0)) == a;
    assert Step(inetAddr, a, ServerReceives) == b;
    assert Step(inetAddr, b, ServerSends(order)) == s.(client := WaitListing, wire := ToClient(Listing(order)));
    ReachedCons(inetAddr, s, Choose(0), [ServerReceives] + ([ServerSends(order)] + es));
    ReachedCons(inetAddr, a, ServerReceives, [ServerSends(order)] + es);
    ReachedCons(inetAddr, b, ServerSends(order), es);
  }

  /** A reply that takes the client back to its menu. */
  lemma {:induction false} BackToMenu(inetAddr: string -> Word32, s: State)
    requires NoEmptyList(s.table) && s.wire.ToClient? && (s.client.WaitListing? || s.client.WaitAddress?)
    ensures Reached(inetAddr, s, [ClientReceives] + []) == Some(s.(client := Menu, wire := Idle))
    ensures Reached(inetAddr, s, []) == Some(s)
  {
    hide NoEmptyList, Reached, Stoi;
    ReachedCons(inetAddr, s, ClientReceives, []);
    ReachedNone(inetAddr, s.(client := Menu, wire := Idle));
    ReachedNone(inetAddr, s);
  }

  /** Asking for the listing: the reply lists the table, and the client is back at its menu with nothing changed. */
  lemma {:induction false} ListingOutcome(inetAddr: string -> Word32, s: State, order: seq<string>)
    requires Inv(inetAddr, s) && s.client.Menu? && Lists(order, s.table)
    ensures Reached(inetAddr, s, [Choose(0)] + ([ServerReceives] + ([ServerSends(order)] + []))) ==
            Some(s.(client := WaitListing, wire := ToClient(Listing(order))))
    ensures Reached(inetAddr, s, [Choose(0)] + ([ServerReceives] + ([ServerSends(order)] + ([ClientReceives] + [])))) == Some(s)
  {
    AtTheMenu(inetAddr, s);
    hide Inv, NoEmptyList, Lists, Reached, Listing;
    ListingSteps(inetAddr, s, order, []);
    ListingSteps(inetAddr, s, order, [ClientReceives] + []);
    BackToMenu(inetAddr, s.(client := WaitListing, wire := ToClient(Listing(order))));
  }

  lemma {:induction false} AtTheMenu(inetAddr: string -> Word32, s: State)
    requires Inv(inetAddr, s) && s.client.Menu?
    ensures s.server.WaitOption? && s.wire == Idle && NoEmptyList(s.table)
  {
    hide NoEmptyList, After, Registers;
  }

  lemma {:induction false} AddressSteps(inetAddr: string -> Word32, s: State, name: string, order: seq<string>, es: seq<Event>)
    requires NoEmptyList(s.table) && s.client.FillName? && s.server.WaitName? && s.wire.Idle? && Lists(order, s.table)
    ensures Reached(inetAddr, s, [TypeName(name)] + ([ServerReceives] + ([ServerSends(order)] + es))) ==
            Reached(inetAddr, s.(client := WaitAddress(name), server := WaitOption, wire := ToClient(Reply(s.table, name))), es)
  {
    hide NoEmptyList, Lists, Reached, Stoi, Decode, Tokens, Reply, Listing, After;
    var a := s.(client := WaitAddress(name), wire := ToServer(name));
    var b := a.(server := SendAddress(Reply(s.table, name)), wire := Idle);
    assert Step(inetAddr, s, TypeName(name)) == a;
    assert Step(inetAddr, a, ServerReceives) == b;
    assert Step(inetAddr, b, ServerSends(order)) == b.(server := WaitOption, wire := ToClient(Reply(s.table, name)));
    ReachedCons(inetAddr, s, TypeName(name), [ServerReceives] + ([ServerSends(order)] + es));
    ReachedCons(inetAddr, a, ServerReceives, [ServerSends(order)] + es);
    ReachedCons(inetAddr, b, ServerSends(order), es);
  }

  /** Asking where a file is: the reply is the table's, and the client is back at its menu with nothing changed. */
  lemma {:induction false} DownloadOutcome(inetAddr: string -> Word32, s: State, name: string, order: seq<string>)
    requires Inv(inetAddr, s) && s.client.Menu? && Lists(order, s.table)
    ensures NoEmptyList(s.table)
    ensures Reached(inetAddr, s, AskingEvents(order, [TypeName(name)] + ([ServerReceives] + ([ServerSends(order)] + [])))) ==
            Some(s.(client := WaitAddress(name), wire := ToClient(Reply(s.table, name))))
    ensures Reached(inetAddr, s, AskingEvents(order, [TypeName(name)] + ([ServerReceives] + ([ServerSends(order)] + ([ClientReceives] + []))))) == Some(s)
  {
    AtTheMenu(inetAddr, s);
    hide Inv, NoEmptyList, Lists, Reached, Reply, AskingEvents;
    var d := s.(client := FillName, server := WaitName, wire := Idle);
    AskForAddress(inetAddr, s, order, [TypeName(name)] + ([ServerReceives] + ([ServerSends(order)] + [])));
    AskForAddress(inetAddr, s, order, [TypeName(name)] + ([ServerReceives] + ([ServerSends(order)] + ([ClientReceives] + []))));
    AddressSteps(inetAddr, d, name, order, []);
    AddressSteps(inetAddr, d, name, order, [ClientReceives] + []);
    BackToMenu(inetAddr, s.(client := WaitAddress(name), wire := ToClient(Reply(s.table, name))));
  }

  /** The events up to the typing of the name. */
  function AskingEvents(order: seq<string>, es: seq<Event>): (r: seq<Event>) {
    [Choose(2)] + ([ServerReceives] + ([ServerSends(order)] + ([ClientReceives] + es)))
  }

  lemma {:induction false} AskForAddress(inetAddr: string -> Word32, s: State, order: seq<string>, es: seq<Event>)
    requires NoEmptyList(s.table) && s.client.Menu? && s.server.WaitOption? && s.wire.Idle? && Lists(order, s.table)
    ensures Reached(inetAddr, s, AskingEvents(order, es)) == Reached(inetAddr, s.(client := FillName, server := WaitName, wire := Idle), es)
  {
    hide NoEmptyList, Lists, Reached, Stoi, Decode, Tokens, Reply, Listing, After;
    OptionsRead();
    var a := s.(client := WaitDownloadAck, wire := ToServer("2"));
    var b := a.(server := SendDownloadAck, wire := Idle);
    var c := b.(server := WaitName, wire := ToClient(ACK));
    assert Step(inetAddr, s, Choose(2)) == a;
    assert Step(inetAddr, a, ServerReceives) == b;
    assert Step(inetAddr, b, ServerSends(order)) == c;
    assert Step(inetAddr, c, ClientReceives) == c.(client := FillName, wire := Idle);
    ReachedCons(inetAddr, s, Choose(2), [ServerReceives] + ([ServerSends(order)] + ([ClientReceives] + es)));
    ReachedCons(inetAddr, a, ServerReceives, [ServerSends(order)] + ([ClientReceives] + es));
    ReachedCons(inetAddr, b, ServerSends(order), [ClientReceives] + es);
    ReachedCons(inetAddr, c, ClientReceives, es);
  }

  /** Any other option ends the client at once, and the server never hears of it. */
  lemma {:induction false} LeavingOutcome(inetAddr: string -> Word32, s: State, option: int)
    requires Inv(inetAddr, s) && s.client.Menu? && !(0 <= option <= 2)
    ensures Reached(inetAddr, s, [Choose(option)] + []) == Some(s.(client := Finished))
  {
    AtTheMenu(inetAddr, s);
    hide Inv, NoEmptyList, Reached, After;
    ReachedCons(inetAddr, s, Choose(option), []);
    ReachedNone(inetAddr, s.(client := Finished));
  }

  // ---------------------------------------------------------------- how one upload goes

  /** The events of an upload up to the server's receipt of it. */
  function SendingEvents(u: Upload, order: seq<string>): (es: seq<Event>) {
    [Choose(1), ServerReceives, ServerSends(order), ClientReceives, TypeUpload(u), ServerReceives]
  }

  lemma {:induction false} EventsInTurn(u: Upload, order: seq<string>, rest: seq<Event>)
    ensures SendingEvents(u, order) + rest ==
            [Choose(1)] + ([ServerReceives] + ([ServerSends(order)] + ([ClientReceives] + ([TypeUpload(u)] + ([ServerReceives] + rest)))))
  {
  }

  lemma {:induction false} ReachedCons(inetAddr: string -> Word32, s: State, e: Event, es: seq<Event>)
    requires NoEmptyList(s.table) && Enabled(s, e)
    ensures Reached(inetAddr, s, [e] + es) == Reached(inetAddr, Step(inetAddr, s, e), es)
  {
    hide Enabled, Step, NoEmptyList;
    assert ([e] + es)[0] == e && ([e] + es)[1..] == es;
  }

  /** From the menu to the filled form. */
  lemma {:induction false} AskToUpload(inetAddr: string -> Word32, s: State, order: seq<string>, es: seq<Event>)
    requires NoEmptyList(s.table) && s.client.Menu? && s.server.WaitOption? && s.wire.Idle? && Lists(order, s.table)
    ensures Reached(inetAddr, s, [Choose(1)] + ([ServerReceives] + ([ServerSends(order)] + ([ClientReceives] + es)))) ==
            Reached(inetAddr, s.(client := FillUpload, server := WaitUpload, wire := Idle), es)
  {
    hide NoEmptyList, Lists, Reached, Stoi, Decode, Tokens, Reply, Listing, After;
    OptionsRead();
    var a := s.(client := WaitUploadAck, wire := ToServer("1"));
    var b := a.(server := SendUploadAck, wire := Idle);
    var c := b.(server := WaitUpload, wire := ToClient(ACK));
    assert Step(inetAddr, s, Choose(1)) == a;
    assert Step(inetAddr, a, ServerReceives) == b;
    assert Step(inetAddr, b, ServerSends(order)) == c;
    assert Step(inetAddr, c, ClientReceives) == c.(client := FillUpload, wire := Idle);
    ReachedCons(inetAddr, s, Choose(1), [ServerReceives] + ([ServerSends(order)] + ([ClientReceives] + es)));
    ReachedCons(inetAddr, a, ServerReceives, [ServerSends(order)] + ([ClientReceives] + es));
    ReachedCons(inetAddr, b, ServerSends(order), [ClientReceives] + es);
    ReachedCons(inetAddr, c, ClientReceives, es);
  }

  /** The form is sent and received. */
  lemma {:induction false} SendUpload(inetAddr: string -> Word32, s: State, u: Upload, es: seq<Event>)
    requires NoEmptyList(s.table) && s.client.FillUpload? && s.server.WaitUpload? && s.wire.Idle?
    ensures Reached(inetAddr, s, [TypeUpload(u)] + ([ServerReceives] + es)) ==
            Reached(inetAddr, ServerTakesUpload(inetAddr, s.(client := WaitStored(u.port), uploads := s.uploads + [u]), RequestOf(u)), es)
  {
    hide NoEmptyList, Reached, Stoi, Decode, Tokens, Reply, Listing, After, RequestOf;
    var a := s.(client := WaitStored(u.port), wire := ToServer(RequestOf(u)), uploads := s.uploads + [u]);
    assert Step(inetAddr, s, TypeUpload(u)) == a;
    ReachedCons(inetAddr, s, TypeUpload(u), [ServerReceives] + es);
    ReachedCons(inetAddr, a, ServerReceives, es);
  }

  /** The receipt is acknowledged. */
  lemma {:induction false} ConfirmUpload(inetAddr: string -> Word32, s: State, e: Entry, order: seq<string>)
    requires NoEmptyList(s.table) && s.client.WaitStored? && s.server == SendStored(e) && s.wire.Idle? && Lists(order, s.table)
    ensures Reached(inetAddr, s, [ServerSends(order)] + ([ClientReceives] + [])) ==
            Some(s.(client := if Stoi(s.client.port).Some? then Menu else Crashed, server := WaitOption,
                    acked := s.acked + [e], confirmed := s.acked + [e]))
  {
    hide NoEmptyList, Lists, Stoi, Decode, Tokens, Reply, Listing, After;
    var a := s.(server := WaitOption, wire := ToClient(ACK), acked := s.acked + [e]);
    assert Step(inetAddr, s, ServerSends(order)) == a;
    ReachedCons(inetAddr, s, ServerSends(order), [ClientReceives] + []);
    ReachedCons(inetAddr, a, ClientReceives, []);
  }

  /**
    An upload from the client's menu, whatever is typed: it stops the server if it is
    refused; otherwise it is stored and acknowledged, and then the client is back at its
    menu or, if the port it typed is no number, gone.
   */
  lemma {:induction false} UploadOutcome(inetAddr: string -> Word32, s: State, u: Upload, order: seq<string>, order': seq<string>)
    requires Inv(inetAddr, s) && s.client.Menu? && Lists(order, s.table)
    ensures Refused(inetAddr, RequestOf(u)) || exists e :: Registers(inetAddr, RequestOf(u), e)
    ensures Refused(inetAddr, RequestOf(u)) ==>
              var r := Reached(inetAddr, s, SendingEvents(u, order));
              r.Some? && r.value.server.Stopped? && r.value.table == s.table
    ensures forall e :: Registers(inetAddr, RequestOf(u), e) && Lists(order', After(s.table, [e])) ==>
              Reached(inetAddr, s, SendingEvents(u, order) + [ServerSends(order'), ClientReceives]) ==
              Some(s.(client := if Stoi(u.port).Some? then Menu else Crashed, table := After(s.table, [e]),
                      uploads := s.uploads + [u], acked := s.acked + [e], confirmed := s.acked + [e]))
  {
    assert s.server.WaitOption? && s.wire.Idle? && NoEmptyList(s.table) by {
      hide NoEmptyList, After, Registers;
    }
    hide Inv, NoEmptyList, Lists, Reached, Stoi, Decode, Tokens, After, RequestOf, SendingEvents;
    RequestFields(u.name, u.ip, u.port);
    assert |Tokens(RequestOf(u))| >= 3 by {
      hide Tokens, Inv;
      RequestFields(u.name, u.ip, u.port);
      RequestOfIs(u);
    }
    var form := s.(client := FillUpload, server := WaitUpload, wire := Idle);
    var sent := form.(client := WaitStored(u.port), uploads := s.uploads + [u]);
    var rest := [ServerSends(order')] + ([ClientReceives] + []);
    EventsInTurn(u, order, []);
    EventsInTurn(u, order, rest);
    assert SendingEvents(u, order) + [] == SendingEvents(u, order);
    assert rest == [ServerSends(order'), ClientReceives];
    AskToUpload(inetAddr, s, order, [TypeUpload(u)] + ([ServerReceives] + []));
    AskToUpload(inetAddr, s, order, [TypeUpload(u)] + ([ServerReceives] + rest));
    SendUpload(inetAddr, form, u, []);
    SendUpload(inetAddr, form, u, rest);
    ReachedNone(inetAddr, ServerTakesUpload(inetAddr, sent, RequestOf(u)));
    forall e | Registers(inetAddr, RequestOf(u), e) && Lists(order', After(s.table, [e]))
      ensures Reached(inetAddr, s, SendingEvents(u, order) + [ServerSends(order'), ClientReceives]) ==
              Some(s.(client := if Stoi(u.port).Some? then Menu else Crashed, table := After(s.table, [e]),
                      uploads := s.uploads + [u], acked := s.acked + [e], confirmed := s.acked + [e]))
    {
      TableKept(s.table, e);
      ConfirmUpload(inetAddr, ServerTakesUpload(inetAddr, sent, RequestOf(u)), e, order');
    }
    if !Refused(inetAddr, RequestOf(u)) {
      assert Registers(inetAddr, RequestOf(u), Decode(inetAddr, RequestOf(u)).value);
    }
  }

  lemma {:induction false} RequestOfIs(u: Upload)
    ensures RequestOf(u) == Request(u.name, u.ip, u.port)
  {
  }

  lemma {:induction false} ReachedNone(inetAddr: string -> Word32, s: State)
    ensures Reached(inetAddr, s, []) == Some(s)
  {
  }

  // ---------------------------------------------------------------- an upload that ends the client

  /** A name that brings its own address and port: the server takes these, and the port the client typed is no number. */
  const BAD_UPLOAD := Upload("x</>h</>80", "h", "abc")

  lemma {:induction false} BadUploadTokens()
    ensures Tokens(RequestOf(BAD_UPLOAD)) == ["x", "h", "80", "h", "abc"]
  {
    hide Tokens, Absent;
    DigitsFree("x");
    DigitsFree("h");
    DigitsFree("80");
    DigitsFree("abc");
    TokensOfNothing();
    var abc := "abc" + SEPARATOR + "";
    var second := "h" + SEPARATOR + abc;
    var port := "80" + SEPARATOR + second;
    var first := "h" + SEPARATOR + port;
    TokensCons("abc", "");
    TokensCons("h", abc);
    TokensCons("80", second);
    TokensCons("h", port);
    TokensCons("x", first);
    assert RequestOf(BAD_UPLOAD) == "x" + SEPARATOR + first;
  }

  lemma {:induction false} TokensOfNothing()
    ensures Tokens("") == []
  {
    DigitsFree("");
    TokensOfTail("");
  }

  lemma {:induction false} NoNumber()
    ensures Stoi("abc") == None
  {
  }

  function BadEntry(inetAddr: string -> Word32): (e: Entry) { Entry("x", Address(inetAddr("h"), Swap16(80))) }

  lemma {:induction false} BadUploadRegisters(inetAddr: string -> Word32)
    ensures Registers(inetAddr, RequestOf(BAD_UPLOAD), BadEntry(inetAddr))
    ensures Stoi(BAD_UPLOAD.port) == None
  {
    hide Tokens, Stoi, RequestOf;
    BadUploadTokens();
    NoNumber();
    assert Digits(80) == "80";
    StoiDigits(80);
  }

  lemma {:induction false} OneName(e: Entry)
    ensures After(map[], [e]) == map[e.name := [e.address]]
    ensures Lists([], map[]) && Lists([e.name], After(map[], [e]))
  {
    AfterOne(map[], e);
    assert [] + [e.address] == [e.address];
  }

  /** A run from the start in which an upload is stored and acknowledged and the client is gone. */
  lemma {:induction false} StoredThenCrashed(inetAddr: string -> Word32)
    ensures var e := BadEntry(inetAddr);
            var r := Reached(inetAddr, Start(map[]), SendingEvents(BAD_UPLOAD, []) + [ServerSends(["x"]), ClientReceives]);
            && r.Some? && r.value.client.Crashed? && r.value.server.WaitOption?
            && r.value.table == map["x" := [e.address]] && r.value.confirmed == [e]
  {
    StartInv(inetAddr, map[]);
    hide Reached, Stoi, RequestOf, Registers, Refused, After, Inv, Lists, SendingEvents;
    var e := BadEntry(inetAddr);
    BadUploadRegisters(inetAddr);
    OneName(e);
    UploadOutcome(inetAddr, Start(map[]), BAD_UPLOAD, [], ["x"]);
    assert [] + [e] == [e];
  }
}
