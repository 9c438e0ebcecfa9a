/** Copying a file from the peer that serves it to the peer that downloads it. */
module Transfer {
  import opened ByteOrder

  const BUFFER: nat := 1024

  /** One end: a buffer refilled by each read, of which only the bytes just read are written on. */
  class FileService {
    const data: array<Byte>

    constructor ()
      ensures fresh(data) && data.Length == BUFFER
    {
      data := new Byte[BUFFER](_ => 0);
    }

    /** Reads some bytes from the front of `input`, at least one and at most a buffer full,
        and gives back what is then written. What an earlier read left in the buffer is not. */
    method Forward(input: seq<Byte>, count: nat) returns (output: seq<Byte>)
      requires data.Length == BUFFER && 1 <= count <= BUFFER && count <= |input|
      modifies data
      ensures output == input[..count]
    {
      var i := 0;
      while i < count
        invariant 0 <= i <= count
        invariant data[..i] == input[..i]
      {
        data[i] := input[i];
        i := i + 1;
      }
      output := data[..count];
    }
  }

  datatype Step = SenderReads(count: nat) | SenderEnds | ReceiverReads(count: nat) | ReceiverEnds

  /** Both ends and what is between them. */
  class Download {
    const source: seq<Byte>
    const sender: FileService
    const receiver: FileService
    var unread: seq<Byte>
    var flight: seq<Byte>
    var written: seq<Byte>
    var closed: bool
    var done: bool

    ghost predicate Valid()
      reads this
    {
      && sender.data.Length == BUFFER && receiver.data.Length == BUFFER
      && written + flight + unread == source
      && (closed ==> unread == [])
      && (done ==> closed && flight == [])
    }

    /** How much is left to do. */
    ghost function Left(): (n: nat)
      reads this
    {
      2 * |unread| + |flight| + (if closed then 0 else 1) + if done then 0 else 1
    }

    constructor (file: seq<Byte>)
      ensures Valid() && source == file && written == [] && !done
      ensures fresh(sender.data) && fresh(receiver.data)
    {
      source := file;
      sender := new FileService();
      receiver := new FileService();
      unread, flight, written, closed, done := file, [], [], false, false;
    }

    predicate Enabled(step: Step)
      reads this
    {
      match step
      case SenderReads(n) => !closed && 1 <= n <= BUFFER && n <= |unread|
      case SenderEnds => !closed && unread == []
      case ReceiverReads(n) => !done && 1 <= n <= BUFFER && n <= |flight|
      case ReceiverEnds => !done && closed && flight == []
    }

    /** Any read of either end keeps every byte, in order, exactly once. */
    method Do(step: Step)
      requires Valid() && Enabled(step)
      modifies this, sender.data, receiver.data
      ensures Valid()
      ensures done ==> written == source
      ensures old(written) <= written
      ensures Left() < old(Left())
    {
      match step
      case SenderReads(n) =>
        var out := sender.Forward(unread, n);
        flight, unread := flight + out, unread[n..];
      case SenderEnds =>
        closed := true;
      case ReceiverReads(n) =>
        var out := receiver.Forward(flight, n);
        written, flight := written + out, flight[n..];
      case ReceiverEnds =>
        done := true;
    }

    /** Until the copy is complete some step can be taken. */
    lemma {:induction false} NeverStuck()
      requires Valid() && !done
      ensures Enabled(SenderReads(1)) || Enabled(SenderEnds) || Enabled(ReceiverReads(1)) || Enabled(ReceiverEnds)
    {
    }
  }

  /** Drives a download by any choice of sizes on both ends until it ends; `sizes` gives the
      next read size wanted, and a read gets no more than there is. */
  method Copy(file: seq<Byte>, sizes: nat -> nat, senderMoves: nat -> bool) returns (copy: seq<Byte>)
    ensures copy == file
  {
    var download := new Download(file);
    var k := 0;
    while !download.done
      invariant fresh(download) && fresh(download.sender.data) && fresh(download.receiver.data)
      invariant download.Valid() && download.source == file
      decreases download.Left()
    {
      var step: Step;
      if !download.closed && (senderMoves(k) || download.flight == []) {
        step := if download.unread == [] then SenderEnds else SenderReads(ReadSize(sizes(k), |download.unread|));
      } else {
        step := if download.flight == [] then ReceiverEnds else ReceiverReads(ReadSize(sizes(k), |download.flight|));
      }
      download.Do(step);
      k := k + 1;
    }
    copy := download.written;
  }

  /** A read size between one and what there is, within the buffer. */
  function ReadSize(wanted: nat, available: nat): (n: nat)
    requires available >= 1
    ensures 1 <= n <= BUFFER && n <= available
    ensures 1 <= wanted <= BUFFER && wanted <= available ==> n == wanted
  {
    var n := if wanted < 1 then 1 else if wanted > BUFFER then BUFFER else wanted;
    if n > available then available else n
  }
}
