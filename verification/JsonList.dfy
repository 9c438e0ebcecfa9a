/** The growing array behind a parsed list or object. */
module JsonList {
  import opened ByteOrder

  /** The most a full array grows by. */
  const STEP: nat := 60000

  const TWO_31: nat := 0x8000_0000

  /** A 32-bit pattern read as an `int`. */
  function AsInt(n: Word32): (i: int) { if n < TWO_31 then n else n - 2 * TWO_31 }

  function Wrapped(n: int): (r: Word32) { n % (2 * TWO_31) }

  /** The size of the next array, in the arithmetic of the program: the sums are unsigned, the result an `int`. */
  function NewSize(size: Word32): (n: int) {
    var doubled := AsInt(Wrapped(size + size));
    var n := if Wrapped(doubled - size) > STEP then AsInt(Wrapped(size + STEP)) else doubled;
    if n < 4 then 4 else n
  }

  /** A full array grows if and only if its size is below 2^31 - 60000, and then by no more than
      fits the 16-bit count of free places. */
  lemma {:induction false} GrowsIff(size: Word32)
    ensures NewSize(size) > size <==> size < TWO_31 - STEP
    ensures size < TWO_31 - STEP ==> NewSize(size) - size <= STEP < 0x1_0000
  {
    Doubled(size);
    if size > STEP {
      if size < TWO_31 - STEP {
        assert Wrapped(size + STEP) == size + STEP;
      } else {
        PastTheEnd(size);
      }
    } else {
      assert Wrapped(size + size) == size + size;
    }
  }

  lemma {:induction false} Doubled(size: Word32)
    ensures Wrapped(AsInt(Wrapped(size + size)) - size) == size
  {
    var w := Wrapped(size + size);
    assert w == size + size || w == size + size - 2 * TWO_31;
    assert AsInt(w) - size == size || AsInt(w) - size == size - 2 * TWO_31 || AsInt(w) - size == size - 4 * TWO_31;
  }

  lemma {:induction false} PastTheEnd(size: Word32)
    requires size >= TWO_31 - STEP
    ensures AsInt(Wrapped(size + STEP)) < STEP
  {
    assert Wrapped(size + STEP) == if size + STEP < 2 * TWO_31 then size + STEP else size + STEP - 2 * TWO_31;
  }

  predicate Doubling(n: nat) {
    n in {4, 8, 16, 32, 64, 128, 256, 512, 1024, 2048, 4096, 8192, 16384, 32768, 65536}
  }

  /** The sizes a list that grew from nothing can have room for. */
  predicate Reachable(n: nat) { n == 0 || Doubling(n) || (n > 65536 && (n - 65536) % STEP == 0) }

  /** The first of them that cannot be outgrown. */
  const LAST: nat := 2147465536

  lemma {:induction false} DoublingBounds(n: nat)
    requires Doubling(n)
    ensures 4 <= n <= 65536 && (n < 65536 ==> n <= 32768 && Doubling(2 * n))
  {
  }

  /** A full array that grew from nothing grows again if and only if it is not that large yet. */
  lemma {:induction false} ReachableGrowsIff(n: Word32)
    requires Reachable(n) && n <= LAST
    ensures NewSize(n) > n <==> n < LAST
    ensures n < LAST ==> Reachable(NewSize(n)) && NewSize(n) <= LAST && NewSize(n) - n <= STEP
  {
    GrowsIff(n);
    if n < LAST {
      NextSize(n);
    }
  }

  lemma {:induction false} SmallSize(n: Word32)
    requires n <= STEP
    ensures NewSize(n) == if 2 * n < 4 then 4 else 2 * n
  {
    hide Wrapped, AsInt;
    NoWrap(n + n);
    NoWrap(n);
  }

  lemma {:induction false} LargeSize(n: Word32)
    requires STEP < n < TWO_31 - STEP
    ensures NewSize(n) == n + STEP
  {
    hide Wrapped, AsInt;
    Doubled(n);
    assert Wrapped(n + STEP) == n + STEP && AsInt(n + STEP) == n + STEP by {
      NoWrap(n + STEP);
    }
  }

  lemma {:induction false} NoWrap(n: nat)
    requires n < TWO_31
    ensures Wrapped(n) == n && AsInt(n) == n
  {
  }

  lemma {:induction false} NextSize(n: Word32)
    requires Reachable(n) && n < LAST
    ensures n < TWO_31 - STEP && Reachable(NewSize(n)) && NewSize(n) <= LAST
  {
    hide Doubling, NewSize;
    if n == 0 {
      FirstSize();
      SmallSize(n);
    } else if n < 65536 {
      DoublingBounds(n);
      SmallSize(n);
    } else {
      if Doubling(n) {
        DoublingBounds(n);
      }
      StepsApart(n);
      LargeSize(n);
    }
  }

  lemma {:induction false} FirstSize()
    ensures Doubling(4)
  {
  }

  lemma {:induction false} StepsApart(n: nat)
    requires 65536 <= n < LAST && (n - 65536) % STEP == 0
    ensures n + STEP <= LAST && (n + STEP - 65536) % STEP == 0
  {
    var k := (n - 65536) / STEP;
    assert n == 65536 + k * STEP && LAST == 65536 + 35790 * STEP;
  }

  class List<T> {
    var items: array<T>
    /** Places taken, and places left: a 32-bit and a 16-bit count. */
    var size: nat
    var remain: nat
    /** What unused places hold. */
    const blank: T

    ghost predicate Valid()
      reads this
    {
      remain < 0x1_0000 && size + remain == items.Length && Reachable(items.Length) && items.Length <= LAST
    }

    ghost function Contents(): (s: seq<T>)
      reads this, items
      requires Valid()
    {
      items[..size]
    }

    constructor (blank: T)
      ensures Valid() && Contents() == [] && fresh(items)
    {
      this.blank := blank;
      items := new T[0];
      size, remain := 0, 0;
    }

    /** A larger array with the same contents. */
    method Grow()
      requires Valid() && remain == 0 && size < LAST
      modifies this`items, this`remain
      ensures Valid() && Contents() == old(Contents()) && 0 < remain && fresh(items)
    {
      hide NewSize, Reachable;
      ReachableGrowsIff(size);
      var newSize := NewSize(size);
      var b := blank;
      var p := new T[newSize](_ => b);
      var i := 0;
      while i < size
        invariant items == old(items) && remain == 0
        invariant 0 <= i <= size && p[..i] == items[..i]
      {
        p[i] := items[i];
        i := i + 1;
      }
      items := p;
      remain := newSize - size;
    }

    /** Appends an element; the array grows first when it is full, which it can until it holds `LAST` elements. */
    method EmplaceBack(v: T)
      requires Valid() && (remain == 0 ==> size < LAST)
      modifies this, items
      ensures Valid() && Contents() == old(Contents()) + [v]
      ensures items == old(items) || fresh(items)
    {
      if remain == 0 {
        Grow();
      }
      items[size] := v;
      size := size + 1;
      remain := remain - 1;
    }
  }
}
