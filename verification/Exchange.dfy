/**
  The conversation of one client with the directory server, step by step: each
  side is where its loop has got to, and at most one message is under way.
 */
module Exchange {
  import opened Options
  import opened Decimal
  import opened NumberScan
  import opened ByteOrder
  import opened Delimiter
  import opened Directory
  import opened DirectoryRuns
  import opened DirectorySaved
  import opened FileListing

  datatype Client =
    | Menu
    | WaitListing
    | WaitUploadAck
    | FillUpload
    | WaitStored(port: string)
    | WaitDownloadAck
    | FillName
    | WaitAddress(name: string)
    | Finished
    | Crashed
    | Failed

  datatype Server =
    | WaitOption
    | SendListing
    | SendUploadAck
    | WaitUpload
    | SendStored(entry: Entry)
    | SendDownloadAck
    | WaitName
    | SendAddress(reply: string)
    | Stopped

  datatype Wire = Idle | ToServer(message: string) | ToClient(message: string)

  /** What a client types to register a file. */
  datatype Upload = Upload(name: string, ip: string, port: string)

  function RequestOf(u: Upload): (m: string) { Request(u.name, u.ip, u.port) }

  /** `uploads` are those the client has sent, `acked` the entries the server has
      acknowledged, `confirmed` those whose acknowledgement the client has received. */
  datatype State = State(
    client: Client,
    server: Server,
    wire: Wire,
    table: Table,
    loaded: Table,
    uploads: seq<Upload>,
    acked: seq<Entry>,
    confirmed: seq<Entry>)

  const ACK := "ACK"

  function Start(loaded: Table): (s: State) { State(Menu, WaitOption, Idle, loaded, loaded, [], [], []) }

  datatype Event =
    | Choose(option: int)
    | TypeUpload(upload: Upload)
    | TypeName(name: string)
    | ServerReceives
    | ServerSends(order: seq<string>)
    | ClientReceives

  // ---------------------------------------------------------------- the client's loop

  function ClientChooses(s: State, option: int): (r: State) {
    if option == 0 then s.(client := WaitListing, wire := ToServer("0"))
    else if option == 1 then s.(client := WaitUploadAck, wire := ToServer("1"))
    else if option == 2 then s.(client := WaitDownloadAck, wire := ToServer("2"))
    else s.(client := Finished)
  }

  /** Receiving a reply. After the last one of an upload the client reads the port it was
      given as a number, and text that is none ends it. */
  function ClientTakes(s: State, m: string): (r: State) {
    var t := s.(wire := Idle);
    match s.client
    case WaitListing => t.(client := Menu)
    case WaitUploadAck => t.(client := if m == ACK then FillUpload else Failed)
    case WaitStored(port) =>
      if m == ACK then t.(client := if Stoi(port).Some? then Menu else Crashed, confirmed := s.acked) else t.(client := Failed)
    case WaitDownloadAck => t.(client := if m == ACK then FillName else Failed)
    case WaitAddress(_) => t.(client := Menu)
    case _ => s
  }

  // ---------------------------------------------------------------- the server's loop

  /** Receiving an option. On one it does not know the server sends nothing, and its
      next receive breaks the socket's alternation; on text that is no number it throws. */
  function ServerTakesOption(s: State, m: string): (r: State) {
    var t := s.(wire := Idle);
    match Stoi(m)
    case None => t.(server := Stopped)
    case Some(option) =>
      if option == 0 then t.(server := SendListing)
      else if option == 1 then t.(server := SendUploadAck)
      else if option == 2 then t.(server := SendDownloadAck)
      else t.(server := Stopped)
  }

  /** Receiving an upload. The server gives up when the entry cannot be stored. */
  function ServerTakesUpload(inetAddr: string -> Word32, s: State, m: string): (r: State) {
    var t := s.(wire := Idle);
    if |Tokens(m)| < 3 then t.(server := Stopped)
    else
      match Decode(inetAddr, m)
      case None => t.(server := Stopped)
      case Some(e) => t.(server := SendStored(e), table := After(s.table, [e]))
  }

  function ServerTakes(inetAddr: string -> Word32, s: State, m: string): (r: State)
    requires NoEmptyList(s.table)
  {
    match s.server
    case WaitOption => ServerTakesOption(s, m)
    case WaitUpload => ServerTakesUpload(inetAddr, s, m)
    case WaitName => s.(wire := Idle, server := SendAddress(Reply(s.table, m)))
    case _ => s
  }

  function ServerAnswers(s: State, order: seq<string>): (r: State) {
    match s.server
    case SendListing => s.(server := WaitOption, wire := ToClient(Listing(order)))
    case SendUploadAck => s.(server := WaitUpload, wire := ToClient(ACK))
    case SendStored(e) => s.(server := WaitOption, wire := ToClient(ACK), acked := s.acked + [e])
    case SendDownloadAck => s.(server := WaitName, wire := ToClient(ACK))
    case SendAddress(reply) => s.(server := WaitOption, wire := ToClient(reply))
    case _ => s
  }

  // ---------------------------------------------------------------- whose turn it is

  predicate ClientMaySend(s: State) { s.client.Menu? || s.client.FillUpload? || s.client.FillName? }

  predicate ServerMaySend(s: State) {
    s.server.SendListing? || s.server.SendUploadAck? || s.server.SendStored? || s.server.SendDownloadAck? || s.server.SendAddress?
  }

  predicate ClientWaits(s: State) {
    s.client.WaitListing? || s.client.WaitUploadAck? || s.client.WaitStored? || s.client.WaitDownloadAck? || s.client.WaitAddress?
  }

  predicate ServerWaits(s: State) { s.server.WaitOption? || s.server.WaitUpload? || s.server.WaitName? }

  ghost predicate Enabled(s: State, e: Event) {
    match e
    case Choose(_) => s.client.Menu?
    case TypeUpload(_) => s.client.FillUpload?
    case TypeName(_) => s.client.FillName?
    case ServerReceives => s.wire.ToServer? && ServerWaits(s) && NoEmptyList(s.table)
    case ServerSends(order) => ServerMaySend(s) && Lists(order, s.table)
    case ClientReceives => s.wire.ToClient? && ClientWaits(s)
  }

  function Step(inetAddr: string -> Word32, s: State, e: Event): (r: State)
    requires NoEmptyList(s.table)
  {
    match e
    case Choose(option) => ClientChooses(s, option)
    case TypeUpload(u) => s.(client := WaitStored(u.port), wire := ToServer(RequestOf(u)), uploads := s.uploads + [u])
    case TypeName(name) => s.(client := WaitAddress(name), wire := ToServer(name))
    case ServerReceives => if s.wire.ToServer? then ServerTakes(inetAddr, s, s.wire.message) else s
    case ServerSends(order) => ServerAnswers(s, order)
    case ClientReceives => if s.wire.ToClient? then ClientTakes(s, s.wire.message) else s
  }

  // ---------------------------------------------------------------- the invariant

  /** The request `m` is decodable and registers `e`. */
  predicate Registers(inetAddr: string -> Word32, m: string, e: Entry) {
    |Tokens(m)| >= 3 && Decode(inetAddr, m) == Some(e)
  }

  predicate Refused(inetAddr: string -> Word32, m: string) {
    |Tokens(m)| >= 3 && Decode(inetAddr, m) == None
  }

  /** The server holds the loaded table and what it has acknowledged. */
  ghost predicate Settled(s: State) { s.table == After(s.loaded, s.acked) }

  ghost predicate UploadPhase(inetAddr: string -> Word32, s: State) {
    && s.uploads != []
    && s.client == WaitStored(s.uploads[|s.uploads| - 1].port)
    && var m := RequestOf(s.uploads[|s.uploads| - 1]);
    match s.server
    case WaitUpload => s.wire == ToServer(m) && |Tokens(m)| >= 3 && Settled(s) && s.confirmed == s.acked && |s.uploads| == |s.acked| + 1
    case SendStored(e) =>
      && s.wire == Idle && Registers(inetAddr, m, e) && s.table == After(s.loaded, s.acked + [e])
      && s.confirmed == s.acked && |s.uploads| == |s.acked| + 1
    case WaitOption =>
      && s.wire == ToClient(ACK) && Settled(s) && |s.uploads| == |s.acked| && s.confirmed == s.acked[..|s.acked| - 1]
    case Stopped => s.wire == Idle && Refused(inetAddr, m) && Settled(s) && s.confirmed == s.acked && |s.uploads| == |s.acked| + 1
    case _ => false
  }

  /** The message lists the names of the table, in some order. */
  ghost predicate IsListing(m: string, t: Table) { exists order :: Lists(order, t) && m == Listing(order) }

  ghost predicate Phase(s: State) {
    match s.client
    case Menu => s.server == WaitOption && s.wire == Idle
    case WaitListing =>
      || (s.server == WaitOption && s.wire == ToServer("0"))
      || (s.server == WaitOption && s.wire.ToClient? && IsListing(s.wire.message, s.table))
      || (s.server == SendListing && s.wire == Idle)
    case WaitUploadAck =>
      || (s.server == WaitOption && s.wire == ToServer("1"))
      || (s.server == SendUploadAck && s.wire == Idle)
      || (s.server == WaitUpload && s.wire == ToClient(ACK))
    case FillUpload => s.server == WaitUpload && s.wire == Idle
    case WaitDownloadAck =>
      || (s.server == WaitOption && s.wire == ToServer("2"))
      || (s.server == SendDownloadAck && s.wire == Idle)
      || (s.server == WaitName && s.wire == ToClient(ACK))
    case FillName => s.server == WaitName && s.wire == Idle
    case WaitAddress(name) =>
      || (s.server == WaitName && s.wire == ToServer(name))
      || (NoEmptyList(s.table) && s.server == SendAddress(Reply(s.table, name)) && s.wire == Idle)
      || (NoEmptyList(s.table) && s.server == WaitOption && s.wire == ToClient(Reply(s.table, name)))
    case Finished => s.server == WaitOption && s.wire == Idle
    case Crashed => s.server == WaitOption && s.wire == Idle
    case _ => false
  }

  ghost predicate QuietPhase(s: State) {
    Phase(s) && Settled(s) && s.confirmed == s.acked && |s.uploads| == |s.acked|
  }

  ghost predicate AckedWereSent(inetAddr: string -> Word32, s: State) {
    |s.acked| <= |s.uploads| && forall k :: 0 <= k < |s.acked| ==> Registers(inetAddr, RequestOf(s.uploads[k]), s.acked[k])
  }

  /** The client is gone exactly when the port of its last confirmed upload is no number. */
  ghost predicate PortsRead(s: State) {
    && |s.confirmed| <= |s.uploads|
    && (s.client.Crashed? ==> s.confirmed != [])
    && forall k :: 0 <= k < |s.confirmed| ==> (Stoi(s.uploads[k].port).None? <==> s.client.Crashed? && k == |s.confirmed| - 1)
  }

  ghost predicate Inv(inetAddr: string -> Word32, s: State) {
    && NoEmptyList(s.loaded)
    && NoEmptyList(s.table)
    && AckedWereSent(inetAddr, s)
    && PortsRead(s)
    && (QuietPhase(s) || UploadPhase(inetAddr, s))
  }

  // ---------------------------------------------------------------- every step keeps it

  lemma {:induction false} OptionsRead()
    ensures Stoi("0") == Some(0) && Stoi("1") == Some(1) && Stoi("2") == Some(2)
  {
    hide Stoi;
    StoiDigits(0);
    StoiDigits(1);
    StoiDigits(2);
    assert Digits(0) == "0" && Digits(1) == "1" && Digits(2) == "2";
  }

  lemma {:induction false} TableKept(t: Table, e: Entry)
    requires NoEmptyList(t)
    ensures NoEmptyList(After(t, [e]))
  {
    AfterLists(t, [e], e.name);
  }

  lemma {:induction false} ChooseKeepsInv(inetAddr: string -> Word32, s: State, option: int)
    requires Inv(inetAddr, s) && s.client.Menu?
    ensures Inv(inetAddr, ClientChooses(s, option))
  {
    hide NoEmptyList, Registers, Refused, After, RequestOf, Stoi, IsListing;
  }

  lemma {:induction false} TypeUploadKeepsInv(inetAddr: string -> Word32, s: State, u: Upload)
    requires Inv(inetAddr, s) && s.client.FillUpload?
    ensures Inv(inetAddr, Step(inetAddr, s, TypeUpload(u)))
  {
    hide NoEmptyList, Registers, Refused, After, Tokens, Request, Phase, Stoi;
    assert s.server.WaitUpload? by {
      FillUploadPhase(s);
    }
    RequestFields(u.name, u.ip, u.port);
  }

  lemma {:induction false} FillUploadPhase(s: State)
    requires Phase(s) && s.client.FillUpload?
    ensures s.server.WaitUpload? && s.wire == Idle
  {
    hide NoEmptyList;
  }

  lemma {:induction false} TypeNameKeepsInv(inetAddr: string -> Word32, s: State, name: string)
    requires Inv(inetAddr, s) && s.client.FillName?
    ensures Inv(inetAddr, Step(inetAddr, s, TypeName(name)))
  {
    hide NoEmptyList, Registers, Refused, After, Tokens, RequestOf, Stoi, IsListing;
  }

  lemma {:induction false} ServerTakesUploadKeepsInv(inetAddr: string -> Word32, s: State)
    requires Inv(inetAddr, s) && s.client.WaitStored? && s.wire.ToServer?
    ensures Inv(inetAddr, ServerTakes(inetAddr, s, s.wire.message))
  {
    hide NoEmptyList, After, Tokens, Decode, RequestOf, Stoi, IsListing;
    var m := s.wire.message;
    if Decode(inetAddr, m).Some? {
      var e := Decode(inetAddr, m).value;
      TableKept(s.table, e);
      AfterConcat(s.loaded, s.acked, [e]);
    }
  }

  lemma {:induction false} ServerTakesKeepsInv(inetAddr: string -> Word32, s: State)
    requires Inv(inetAddr, s) && s.wire.ToServer? && !s.client.WaitStored?
    ensures Inv(inetAddr, ServerTakes(inetAddr, s, s.wire.message))
  {
    hide NoEmptyList, Registers, Refused, After, Tokens, Decode, Reply, Stoi, RequestOf, IsListing;
    OptionsRead();
  }

  lemma {:induction false} AcknowledgingKeepsInv(inetAddr: string -> Word32, s: State, order: seq<string>)
    requires Inv(inetAddr, s) && ServerMaySend(s) && s.client.WaitStored?
    ensures Inv(inetAddr, ServerAnswers(s, order))
  {
    hide NoEmptyList, Registers, Refused, After, Tokens, Decode, Reply, Stoi, RequestOf, Listing, IsListing;
    var r := ServerAnswers(s, order);
    assert r.acked[..|r.acked| - 1] == s.acked;
    assert UploadPhase(inetAddr, r);
  }

  lemma {:induction false} AnsweringKeepsInv(inetAddr: string -> Word32, s: State, order: seq<string>)
    requires Inv(inetAddr, s) && ServerMaySend(s) && !s.client.WaitStored? && Lists(order, s.table)
    ensures Inv(inetAddr, ServerAnswers(s, order))
  {
    hide NoEmptyList, Registers, Refused, After, Tokens, Decode, Reply, Stoi, RequestOf, Listing, PortsRead, AckedWereSent, Lists;
    var r := ServerAnswers(s, order);
    assert QuietPhase(r);
    SameRecords(inetAddr, s, r);
  }

  /** What is on record does not depend on where the server is. */
  lemma {:induction false} SameRecords(inetAddr: string -> Word32, s: State, r: State)
    requires r.client == s.client && r.uploads == s.uploads && r.acked == s.acked && r.confirmed == s.confirmed
    ensures PortsRead(s) ==> PortsRead(r)
    ensures AckedWereSent(inetAddr, s) ==> AckedWereSent(inetAddr, r)
  {
    hide Stoi, Registers, RequestOf;
  }

  lemma {:induction false} ServerAnswersKeepsInv(inetAddr: string -> Word32, s: State, order: seq<string>)
    requires Inv(inetAddr, s) && ServerMaySend(s) && Lists(order, s.table)
    ensures Inv(inetAddr, ServerAnswers(s, order))
  {
    hide Inv, ServerAnswers, Lists;
    if s.client.WaitStored? {
      AcknowledgingKeepsInv(inetAddr, s, order);
    } else {
      AnsweringKeepsInv(inetAddr, s, order);
    }
  }

  lemma {:induction false} ClientTakesKeepsInv(inetAddr: string -> Word32, s: State)
    requires Inv(inetAddr, s) && s.wire.ToClient?
    ensures Inv(inetAddr, ClientTakes(s, s.wire.message))
  {
    hide NoEmptyList, Registers, Refused, After, Tokens, Decode, Reply, Stoi, RequestOf, Listing, IsListing;
  }

  lemma {:induction false} StepKeepsInv(inetAddr: string -> Word32, s: State, e: Event)
    requires Inv(inetAddr, s) && Enabled(s, e)
    ensures Inv(inetAddr, Step(inetAddr, s, e))
  {
    assert NoEmptyList(s.table);
    hide Inv, ServerTakes, ServerAnswers, ClientTakes, ClientChooses, RequestOf, Lists;
    match e
    case Choose(option) => ChooseKeepsInv(inetAddr, s, option);
    case TypeUpload(u) => TypeUploadKeepsInv(inetAddr, s, u);
    case TypeName(name) => TypeNameKeepsInv(inetAddr, s, name);
    case ServerReceives =>
      if s.client.WaitStored? {
        ServerTakesUploadKeepsInv(inetAddr, s);
      } else {
        ServerTakesKeepsInv(inetAddr, s);
      }
    case ServerSends(order) => ServerAnswersKeepsInv(inetAddr, s, order);
    case ClientReceives => ClientTakesKeepsInv(inetAddr, s);
  }
}
