/** Handing accepted connections to worker threads. */
module Accept {
  import opened Options

  function Sum(s: seq<nat>): (n: nat) { if s == [] then 0 else Sum(s[..|s| - 1]) + s[|s| - 1] }

  lemma {:induction false} SumUpdate(s: seq<nat>, i: nat, v: nat)
    requires i < |s|
    ensures Sum(s[i := v]) == Sum(s) - s[i] + v
    decreases |s|
  {
    var front := s[..|s| - 1];
    if i == |s| - 1 {
      assert s[i := v][..|s| - 1] == front;
    } else {
      assert s[i := v][..|s| - 1] == front[i := v];
      SumUpdate(front, i, v);
    }
  }

  predicate Smallest(s: seq<nat>, i: nat) { i < |s| && forall k :: 0 <= k < |s| ==> s[i] <= s[k] }

  predicate Balanced(s: seq<nat>) { forall j, k :: 0 <= j < |s| && 0 <= k < |s| ==> s[j] <= s[k] + 1 }

  class Server {
    const queueLengths: array<nat>
    /** The worker chosen for the accept under way. */
    var pending: Option<nat>
    var shuttingDown: bool
    /** Connections accepted so far; none is ever taken off again. */
    ghost var accepted: nat

    /** The lengths without the accept under way. */
    ghost function Settled(): (s: seq<nat>)
      reads this, queueLengths
      requires pending.Some? ==> pending.value < queueLengths.Length && queueLengths[pending.value] > 0
    {
      if pending.Some? then queueLengths[..][pending.value := queueLengths[pending.value] - 1] else queueLengths[..]
    }

    ghost predicate Valid()
      reads this, queueLengths
    {
      && queueLengths.Length > 0
      && (pending.Some? ==> pending.value < queueLengths.Length && queueLengths[pending.value] > 0)
      && Balanced(Settled())
      && (pending.Some? ==> Smallest(Settled(), pending.value))
      && Sum(Settled()) == accepted
    }

    /** The lengths themselves, with the accept under way counted. */
    lemma {:induction false} Lengths()
      requires Valid()
      ensures Balanced(queueLengths[..])
      ensures Sum(queueLengths[..]) == accepted + if pending.Some? then 1 else 0
    {
      hide Balanced, Smallest, Sum;
      if pending.Some? {
        var settled, i := Settled(), pending.value;
        assert queueLengths[..] == settled[i := settled[i] + 1];
        SumUpdate(settled, i, settled[i] + 1);
        StillBalanced(settled, i);
      }
    }

    constructor (workers: nat)
      requires workers > 0
      ensures Valid() && fresh(queueLengths) && queueLengths.Length == workers && pending == None && accepted == 0 && !shuttingDown
    {
      queueLengths := new nat[workers](_ => 0);
      pending := None;
      shuttingDown := false;
      accepted := 0;
      new;
      SumZero(queueLengths[..]);
    }

    /** The first worker with the shortest queue; looking stops at an empty one. */
    method PickWorker() returns (least: nat)
      requires queueLengths.Length > 0
      ensures Smallest(queueLengths[..], least)
      ensures forall k :: 0 <= k < least ==> queueLengths[k] > queueLengths[least]
    {
      least := 0;
      var i := 1;
      while i < queueLengths.Length && queueLengths[least] > 0
        invariant 1 <= i <= queueLengths.Length && least < i
        invariant forall k :: 0 <= k < i ==> queueLengths[least] <= queueLengths[k]
        invariant forall k :: 0 <= k < least ==> queueLengths[k] > queueLengths[least]
      {
        if queueLengths[i] < queueLengths[least] {
          least := i;
        }
        i := i + 1;
      }
    }

    /** Starts waiting for a connection on behalf of a least loaded worker. */
    method DoAccept()
      requires Valid() && pending == None
      modifies this, queueLengths
      ensures Valid() && accepted == old(accepted) && shuttingDown == old(shuttingDown)
      ensures pending.None? <==> shuttingDown
      ensures pending.Some? ==> Smallest(old(queueLengths[..]), pending.value)
      ensures shuttingDown ==> queueLengths[..] == old(queueLengths[..])
    {
      if !shuttingDown {
        var i := PickWorker();
        ghost var was := queueLengths[..];
        queueLengths[i] := queueLengths[i] + 1;
        pending := Some(i);
        assert Settled() == was;
      }
    }

    /** A connection has arrived or accepting it failed; either way the next accept starts. */
    method Accepted(failed: bool)
      requires Valid() && pending.Some?
      modifies this, queueLengths
      ensures Valid() && shuttingDown == old(shuttingDown)
      ensures accepted == old(accepted) + if failed then 0 else 1
      ensures pending.None? <==> shuttingDown
    {
      hide Balanced, Smallest, Sum;
      ghost var settled := Settled();
      var i := pending.value;
      SumUpdate(settled, i, settled[i] + 1);
      StillBalanced(settled, i);
      if failed {
        queueLengths[i] := queueLengths[i] - 1;
        pending := None;
        assert Settled() == settled;
      } else {
        pending := None;
        accepted := accepted + 1;
        assert Settled() == settled[i := settled[i] + 1];
      }
      DoAccept();
    }
  }

  /** Adding one to a smallest of balanced lengths keeps them balanced. */
  lemma {:induction false} StillBalanced(s: seq<nat>, i: nat)
    requires Balanced(s) && Smallest(s, i)
    ensures Balanced(s[i := s[i] + 1])
  {
  }

  lemma {:induction false} SumZero(s: seq<nat>)
    requires forall k :: 0 <= k < |s| ==> s[k] == 0
    ensures Sum(s) == 0
  {
    if s != [] {
      SumZero(s[..|s| - 1]);
    }
  }

  function Successes(failures: seq<bool>): (n: nat) {
    if failures == [] then 0 else Successes(failures[..|failures| - 1]) + if failures[|failures| - 1] then 0 else 1
  }

  /** Whatever accepts and errors happen, the queue lengths stay within one of each other and
      their sum is the connections accepted plus the one being waited for. */
  method Serve(workers: nat, failures: seq<bool>) returns (lengths: seq<nat>)
    requires workers > 0
    ensures |lengths| == workers && Balanced(lengths)
    ensures Sum(lengths) == Successes(failures) + 1
  {
    hide Server.Valid, Sum, Balanced;
    var server := new Server(workers);
    server.DoAccept();
    var i := 0;
    while i < |failures|
      invariant 0 <= i <= |failures| && fresh(server) && fresh(server.queueLengths) && server.queueLengths.Length == workers
      invariant server.Valid() && !server.shuttingDown && server.pending.Some?
      invariant server.accepted == Successes(failures[..i])
    {
      server.Accepted(failures[i]);
      assert failures[..i + 1][..i] == failures[..i];
      i := i + 1;
    }
    assert failures[..i] == failures;
    server.Lengths();
    lengths := server.queueLengths[..];
  }
}
