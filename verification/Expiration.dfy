/** The tracker of soonest-to-expire keys, and the eviction that uses it. */
module Expiration {
  import opened Limits

  type Time = t: nat | t <= UINT64_MAX

  datatype Due = Due(time: Time, key: string)

  // ---------------------------------------------------------------- the queue's order

  /** Lexicographic order on keys. */
  predicate KeyLess(a: string, b: string) {
    if b == "" then false
    else if a == "" then true
    else if a[0] != b[0] then a[0] < b[0]
    else KeyLess(a[1..], b[1..])
  }

  lemma {:induction false} KeyLessTotal(a: string, b: string)
    ensures KeyLess(a, b) || KeyLess(b, a) || a == b
    ensures !(KeyLess(a, b) && KeyLess(b, a)) && !KeyLess(a, a)
    decreases |a|
  {
    if a != "" {
      KeyLessTotal(a[1..], a[1..]);
      if b != "" {
        KeyLessTotal(a[1..], b[1..]);
        assert a == [a[0]] + a[1..] && b == [b[0]] + b[1..];
      }
    }
  }

  lemma {:induction false} KeyLessTransitive(a: string, b: string, c: string)
    requires KeyLess(a, b) && KeyLess(b, c)
    ensures KeyLess(a, c)
    decreases |a|
  {
    if a != "" && a[0] == b[0] == c[0] {
      KeyLessTransitive(a[1..], b[1..], c[1..]);
    }
  }

  /** The order is the dictionary's: the first difference decides, and a text comes before its continuations. */
  lemma {:induction false} KeyLessIff(a: string, b: string)
    ensures KeyLess(a, b) <==>
            exists k :: 0 <= k <= |a| && k < |b| && a[..k] == b[..k] && (k == |a| || a[k] < b[k])
    decreases |a|
  {
    forall k | 0 < k <= |a| && k < |b|
      ensures a[..k] == b[..k] ==> a[0] == b[0]
    {
      assert a[0] == a[..k][0] && b[0] == b[..k][0];
    }
    if b != "" && a != "" && a[0] == b[0] {
      KeyLessIff(a[1..], b[1..]);
      if KeyLess(a[1..], b[1..]) {
        var j :| 0 <= j <= |a[1..]| && j < |b[1..]| && a[1..][..j] == b[1..][..j] && (j == |a[1..]| || a[1..][j] < b[1..][j]);
        assert a[..j + 1] == [a[0]] + a[1..][..j] && b[..j + 1] == [b[0]] + b[1..][..j];
      }
      if k :| 0 <= k <= |a| && k < |b| && a[..k] == b[..k] && (k == |a| || a[k] < b[k]) {
        assert k > 0;
        assert a[1..][..k - 1] == a[..k][1..] && b[1..][..k - 1] == b[..k][1..];
        assert k < |a| ==> a[1..][k - 1] == a[k];
        assert b[1..][k - 1] == b[k];
      }
    } else if b != "" {
      assert a[..0] == b[..0];
    }
  }

  /** Sooner first; ties by key. */
  predicate Sooner(a: Due, b: Due) { a.time < b.time || (a.time == b.time && KeyLess(a.key, b.key)) }

  lemma {:induction false} SoonerTotal(a: Due, b: Due)
    ensures Sooner(a, b) || Sooner(b, a) || a == b
    ensures !(Sooner(a, b) && Sooner(b, a)) && !Sooner(a, a)
  {
    KeyLessTotal(a.key, b.key);
    KeyLessTotal(a.key, a.key);
  }

  lemma {:induction false} SoonerTransitive(a: Due, b: Due, c: Due)
    requires Sooner(a, b) && Sooner(b, c)
    ensures Sooner(a, c)
  {
    if a.time == b.time == c.time {
      KeyLessTransitive(a.key, b.key, c.key);
    }
  }

  // ---------------------------------------------------------------- an ordered set

  predicate Ordered(q: seq<Due>) { forall i, j :: 0 <= i < j < |q| ==> Sooner(q[i], q[j]) }

  /** `std::set::insert` into the ordered contents. */
  function Insert(q: seq<Due>, d: Due): (r: seq<Due>) {
    if q == [] then [d]
    else if q[0] == d then q
    else if Sooner(d, q[0]) then [d] + q
    else [q[0]] + Insert(q[1..], d)
  }

  /** `std::set::erase`. */
  function Erase(q: seq<Due>, d: Due): (r: seq<Due>) {
    if q == [] then [] else if q[0] == d then q[1..] else [q[0]] + Erase(q[1..], d)
  }

  lemma {:induction false} HeadFirst(d: Due, q: seq<Due>)
    requires Ordered(q) && forall x :: x in q ==> Sooner(d, x)
    ensures Ordered([d] + q)
  {
    hide Sooner;
    var all := [d] + q;
    forall i, j | 0 <= i < j < |all|
      ensures Sooner(all[i], all[j])
    {
      assert q[j - 1] in q;
      assert all[j] == q[j - 1];
      if i > 0 {
        assert all[i] == q[i - 1];
      }
    }
  }

  lemma {:induction false} OrderedTail(q: seq<Due>)
    requires Ordered(q) && q != []
    ensures Ordered(q[1..]) && (forall x :: x in q[1..] ==> Sooner(q[0], x)) && q[0] !in q[1..]
    ensures forall x :: x in q <==> x == q[0] || x in q[1..]
  {
    hide Sooner;
    assert q == [q[0]] + q[1..];
    SoonerTotal(q[0], q[0]);
  }

  lemma {:induction false} InsertOrdered(q: seq<Due>, d: Due)
    requires Ordered(q)
    ensures Ordered(Insert(q, d)) && forall x :: x in Insert(q, d) <==> x in q || x == d
    decreases |q|
  {
    hide Sooner, Ordered;
    if q == [] {
      OrderedOne(d);
    } else {
      OrderedTail(q);
      var tail := q[1..];
      InsertOrdered(tail, d);
      SoonerTotal(d, q[0]);
      if Sooner(d, q[0]) {
        forall x | x in q
          ensures Sooner(d, x)
        {
          if x != q[0] {
            SoonerTransitive(d, q[0], x);
          }
        }
        HeadFirst(d, q);
      } else if q[0] != d {
        HeadFirst(q[0], Insert(tail, d));
      }
    }
  }

  lemma {:induction false} OrderedOne(d: Due)
    ensures Ordered([d])
  {
  }

  lemma {:induction false} EraseOrdered(q: seq<Due>, d: Due)
    requires Ordered(q)
    ensures Ordered(Erase(q, d)) && forall x :: x in Erase(q, d) <==> x in q && x != d
    decreases |q|
  {
    hide Sooner, Ordered;
    if q != [] {
      OrderedTail(q);
      EraseOrdered(q[1..], d);
      if q[0] != d {
        HeadFirst(q[0], Erase(q[1..], d));
      }
    }
  }

  // ---------------------------------------------------------------- the tracker

  class Tracker {
    var queue: seq<Due>
    var times: map<string, Time>

    /** The queue is exactly the inverse of the map. */
    ghost predicate Valid()
      reads this
    {
      && Ordered(queue)
      && forall d :: d in queue <==> d.key in times && times[d.key] == d.time
    }

    constructor ()
      ensures Valid() && times == map[]
    {
      queue, times := [], map[];
    }

    method Add(key: string, time: Time)
      requires Valid()
      modifies this
      ensures Valid() && times == old(times)[key := time]
    {
      hide Ordered, Insert;
      if key in times {
        Remove(key);
      }
      InsertOrdered(queue, Due(time, key));
      times := times[key := time];
      queue := Insert(queue, Due(time, key));
    }

    method Remove(key: string)
      requires Valid()
      modifies this
      ensures Valid() && times == old(times) - {key}
    {
      hide Ordered, Erase;
      if key in times {
        EraseOrdered(queue, Due(times[key], key));
        queue := Erase(queue, Due(times[key], key));
        times := times - {key};
      }
    }

    /** The earliest time tracked, or the largest time there is. */
    method PeekFirst() returns (time: Time)
      requires Valid()
      ensures forall k :: k in times ==> time <= times[k]
      ensures times == map[] ==> time == UINT64_MAX
      ensures times != map[] ==> queue != [] && time == queue[0].time && exists k :: k in times && times[k] == time
    {
      assert forall k :: k in times ==> Due(times[k], k) in queue;
      if queue == [] {
        return UINT64_MAX;
      }
      OrderedTail(queue);
      assert queue[0] in queue;
      return queue[0].time;
    }

    /** Takes the soonest key out; there must be one. */
    method PopFirst() returns (key: string)
      requires Valid() && queue != []
      modifies this
      ensures Valid() && key in old(times) && times == old(times) - {key}
      ensures old(times)[key] == old(queue[0].time)
      ensures forall k :: k in times ==> Sooner(Due(old(times)[key], key), Due(times[k], k))
    {
      hide Ordered, Sooner;
      OrderedTail(queue);
      var first := queue[0];
      assert first in queue;
      key := first.key;
      times := times - {key};
      queue := queue[1..];
      assert forall k :: k in times ==> Due(times[k], k) in queue;
    }
  }

  // ---------------------------------------------------------------- eviction

  function Expired(times: map<string, Time>, now: Time): (r: set<string>) { set k | k in times && times[k] < now }

  function Elements(s: seq<string>): (r: set<string>) { set x | x in s }

  predicate Distinct(s: seq<string>) { forall i, j :: 0 <= i < j < |s| ==> s[i] != s[j] }

  lemma {:induction false} CountDistinct(s: seq<string>)
    requires Distinct(s)
    ensures |Elements(s)| == |s|
  {
    if s != [] {
      var front, last := s[..|s| - 1], s[|s| - 1];
      CountDistinct(front);
      assert last !in front;
      ElementsSnoc(front, last);
      assert front + [last] == s;
    }
  }

  lemma {:induction false} ElementsSnoc(s: seq<string>, x: string)
    ensures Elements(s + [x]) == Elements(s) + {x}
  {
  }

  /** `keys` are the soonest of the expired keys, no more than three of them. */
  ghost predicate SoonestExpired(times: map<string, Time>, now: Time, keys: seq<string>) {
    && Distinct(keys)
    && Elements(keys) <= Expired(times, now)
    && |keys| == (if |Expired(times, now)| < 3 then |Expired(times, now)| else 3)
    && forall k, j :: k in keys && j in times && j !in keys ==> k in times && Sooner(Due(times[k], k), Due(times[j], j))
  }

  /** How many were taken, when taking stopped at three or for want of expired keys. */
  lemma {:induction false} HowMany(times: map<string, Time>, now: Time, keys: seq<string>)
    requires Distinct(keys) && Elements(keys) <= Expired(times, now) && |keys| <= 3
    requires |keys| == 3 || Expired(times, now) <= Elements(keys)
    ensures |keys| == if |Expired(times, now)| < 3 then |Expired(times, now)| else 3
  {
    hide Expired, Distinct, Elements;
    CountDistinct(keys);
    if |keys| == 3 {
      SubsetSmaller(Elements(keys), Expired(times, now));
    } else {
      assert Elements(keys) == Expired(times, now);
    }
  }

  lemma {:induction false} SubsetSmaller(a: set<string>, b: set<string>)
    requires a <= b
    ensures |a| <= |b|
  {
    assert b == a + (b - a);
  }

  class FileStore {
    const expirations: Tracker
    /** The session files there are. */
    var files: set<string>

    constructor ()
      ensures expirations.Valid() && fresh(expirations) && files == {}
    {
      expirations := new Tracker();
      files := {};
    }

    method Evict(key: string)
      modifies this`files
      ensures files == old(files) - {key}
    {
      files := files - {key};
    }

    /** Removes exactly the soonest expired keys, at most three, and their files; never
        takes from an empty tracker. */
    method HandleExpired(now: Time) returns (evicted: seq<string>)
      requires expirations.Valid()
      modifies this`files, expirations
      ensures expirations.Valid()
      ensures SoonestExpired(old(expirations.times), now, evicted)
      ensures expirations.times == old(expirations.times) - Elements(evicted)
      ensures files == old(files) - Elements(evicted)
    {
      hide Taken, SoonestExpired, Elements, Expired, Sooner, expirations.Valid;
      evicted := [];
      ghost var before := expirations.times;
      NoneTaken(before, now);
      var first := expirations.PeekFirst();
      while now > first && |evicted| < 3
        invariant expirations.Valid() && |evicted| <= 3
        invariant Taken(before, now, evicted, expirations.times)
        invariant files == old(files) - Elements(evicted)
        invariant forall k :: k in expirations.times ==> first <= expirations.times[k]
        invariant first < now ==> expirations.queue != [] && first == expirations.queue[0].time
        decreases 3 - |evicted|
      {
        ghost var left := expirations.times;
        var key := expirations.PopFirst();
        TakeOne(before, now, evicted, left, key);
        ElementsSnoc(evicted, key);
        Evict(key);
        evicted := evicted + [key];
        first := expirations.PeekFirst();
      }
      TakenAll(before, now, evicted, expirations.times);
    }
  }

  /** Eviction under way: `keys` have been taken from `times` and `left` remain. */
  ghost predicate Taken(times: map<string, Time>, now: Time, keys: seq<string>, left: map<string, Time>) {
    && Distinct(keys)
    && Elements(keys) <= Expired(times, now)
    && left == times - Elements(keys)
    && forall k, j :: k in keys && j in left ==> k in times && Sooner(Due(times[k], k), Due(times[j], j))
  }

  lemma {:induction false} NoneTaken(times: map<string, Time>, now: Time)
    ensures Taken(times, now, [], times) && Elements([]) == {}
  {
    assert times - {} == times;
  }

  lemma {:induction false} TakeOne(times: map<string, Time>, now: Time, keys: seq<string>, left: map<string, Time>, key: string)
    requires Taken(times, now, keys, left) && key in left && left[key] < now
    requires forall k :: k in left - {key} ==> Sooner(Due(left[key], key), Due(left[k], k))
    ensures Taken(times, now, keys + [key], left - {key})
  {
    hide Sooner, Elements, Expired;
    InElements(keys, key);
    InExpired(times, now, key);
    ElementsSnoc(keys, key);
  }

  lemma {:induction false} TakenAll(times: map<string, Time>, now: Time, keys: seq<string>, left: map<string, Time>)
    requires Taken(times, now, keys, left) && |keys| <= 3
    requires |keys| == 3 || forall k :: k in left ==> now <= left[k]
    ensures SoonestExpired(times, now, keys) && left == times - Elements(keys)
  {
    hide Sooner, Elements, Expired, Distinct;
    NoneLeft(times, now, keys, left);
    HowMany(times, now, keys);
    forall k, j | k in keys && j in times && j !in keys
      ensures k in times && Sooner(Due(times[k], k), Due(times[j], j))
    {
      InElements(keys, j);
      assert j in left;
    }
  }

  lemma {:induction false} InElements(s: seq<string>, x: string)
    ensures x in Elements(s) <==> x in s
  {
  }

  lemma {:induction false} InExpired(times: map<string, Time>, now: Time, k: string)
    ensures k in Expired(times, now) <==> k in times && times[k] < now
  {
  }

  /** When the earliest time left is not past, every expired key has been taken. */
  lemma {:induction false} NoneLeft(times: map<string, Time>, now: Time, keys: seq<string>, left: map<string, Time>)
    requires left == times - Elements(keys)
    ensures (forall k :: k in left ==> now <= left[k]) ==> Expired(times, now) <= Elements(keys)
  {
    assert forall k :: k in times && k !in Elements(keys) ==> k in left && left[k] == times[k];
  }
}
