/** Sequences that come in pieces. */
module Pieces {
  function Joined<T>(pieces: seq<seq<T>>): (s: seq<T>) {
    if pieces == [] then [] else Joined(pieces[..|pieces| - 1]) + pieces[|pieces| - 1]
  }

  lemma {:induction false} JoinedSnoc<T>(pieces: seq<seq<T>>, x: seq<T>)
    ensures Joined(pieces + [x]) == Joined(pieces) + x
  {
    assert (pieces + [x])[..|pieces|] == pieces;
  }

  /** Joining can begin at the front as well. */
  lemma {:induction false} JoinedFront<T>(pieces: seq<seq<T>>)
    requires pieces != []
    ensures Joined(pieces) == pieces[0] + Joined(pieces[1..])
    decreases |pieces|
  {
    var n := |pieces| - 1;
    var rest := pieces[1..];
    if n == 0 {
      assert pieces[..0] == [] && rest == [];
    } else {
      JoinedFront(pieces[..n]);
      assert pieces[..n][1..] == rest[..n - 1] && rest[n - 1] == pieces[n];
      assert pieces[0] + (Joined(rest[..n - 1]) + pieces[n]) == pieces[0] + Joined(rest[..n - 1]) + pieces[n];
    }
  }

  lemma {:induction false} JoinedOne<T>(x: seq<T>)
    ensures Joined([x]) == x
  {
    JoinedSnoc([], x);
    assert [] + [x] == [x] && [] + x == x;
  }
}
