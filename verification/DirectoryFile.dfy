/** Saving the table to a text file and loading it back. */
module DirectoryFile {
  import opened Options
  import opened Decimal
  import opened NumberScan
  import opened ByteOrder
  import opened Directory
  import opened DirectoryRuns

  // ---------------------------------------------------------------- writing

  function AddressFields(list: seq<Address>): (s: string) {
    if list == [] then ""
    else AddressFields(list[..|list| - 1]) + Digits(list[|list| - 1].ip) + " " + Digits(list[|list| - 1].port) + " "
  }

  function Line(name: string, list: seq<Address>): (s: string) { name + " " + AddressFields(list) + "\n" }

  /** One line per name, in the table's order of iteration. */
  function Saved(t: Table, order: seq<string>): (s: string)
    requires forall k :: 0 <= k < |order| ==> order[k] in t
  {
    if order == [] then "" else Line(order[0], t[order[0]]) + Saved(t, order[1..])
  }

  // ---------------------------------------------------------------- reading

  function WordEnd(s: string, i: nat): (e: nat)
    requires i <= |s|
    ensures i <= e <= |s|
    ensures e < |s| ==> IsSpace(s[e])
    ensures forall k :: i <= k < e ==> !IsSpace(s[k])
    decreases |s| - i
  {
    if i < |s| && !IsSpace(s[i]) then WordEnd(s, i + 1) else i
  }

  /** `>>` into a string: the word and what is left. */
  function ReadWord(s: string): (r: Option<(string, string)>)
    ensures r.Some? ==> |r.value.1| < |s|
  {
    var j := SkipSpace(s, 0);
    if j == |s| then None
    else
      var e := WordEnd(s, j);
      Some((s[j..e], s[e..]))
  }

  /** `>>` into an unsigned number below `bound`, a power of two: a minus sign wraps
      around, too large a number fails. */
  function ReadUnsigned(s: string, bound: nat): (r: Option<(nat, string)>)
    ensures r.Some? ==> r.value.0 < bound && |r.value.1| < |s|
  {
    match ScanNumber(s, SkipSpace(s, 0))
    case None => None
    case Some(scan) =>
      if scan.magnitude >= bound then None
      else Some((if scan.negative then (bound - scan.magnitude) % bound else scan.magnitude, s[scan.end..]))
  }

  function ReadEntry(s: string): (r: Option<(Entry, string)>)
    ensures r.Some? ==> |r.value.1| < |s|
  {
    match ReadWord(s)
    case None => None
    case Some((name, s1)) =>
      match ReadUnsigned(s1, TWO_32)
      case None => None
      case Some((ip, s2)) =>
        match ReadUnsigned(s2, TWO_16)
        case None => None
        case Some((port, s3)) => Some((Entry(name, Address(ip, port)), s3))
  }

  /** The entries read before the first failure. */
  function Entries(s: string): (es: seq<Entry>)
    decreases |s|
  {
    match ReadEntry(s)
    case None => []
    case Some((e, rest)) => [e] + Entries(rest)
  }

  function Loaded(s: string): (t: Table) { After(map[], Entries(s)) }

  // ---------------------------------------------------------------- the two loops

  method Save(store: Store, order: seq<string>) returns (text: string)
    requires forall k :: 0 <= k < |order| ==> order[k] in store.table
    ensures text == Saved(store.table, order)
  {
    hide Digits, Saved, AddressFields;
    text := "";
    var i := 0;
    NothingSaved(store.table);
    assert order[0..] == order;
    while i < |order|
      invariant 0 <= i <= |order|
      invariant text + Saved(store.table, order[i..]) == Saved(store.table, order)
    {
      var list := store.table[order[i]];
      var line := order[i] + " ";
      var j := 0;
      NoFields();
      while j < |list|
        invariant 0 <= j <= |list|
        invariant line == order[i] + " " + AddressFields(list[..j])
      {
        FieldsSnoc(list, j);
        line := line + Digits(list[j].ip) + " " + Digits(list[j].port) + " ";
        j := j + 1;
      }
      assert list[..j] == list;
      SavedStep(store.table, order[i..]);
      assert order[i..][1..] == order[i + 1..];
      text := text + (line + "\n");
      i := i + 1;
    }
  }

  lemma {:induction false} NothingSaved(t: Table)
    ensures Saved(t, []) == ""
  {
  }

  lemma {:induction false} NoFields()
    ensures AddressFields([]) == ""
  {
  }

  lemma {:induction false} FieldsSnoc(list: seq<Address>, j: nat)
    requires j < |list|
    ensures AddressFields(list[..j + 1]) == AddressFields(list[..j]) + Digits(list[j].ip) + " " + Digits(list[j].port) + " "
  {
    hide Digits;
    assert list[..j + 1][..j] == list[..j];
  }

  lemma {:induction false} SavedStep(t: Table, order: seq<string>)
    requires order != [] && forall k :: 0 <= k < |order| ==> order[k] in t
    ensures Saved(t, order) == Line(order[0], t[order[0]]) + Saved(t, order[1..])
  {
  }

  method Restore(store: Store, text: string)
    modifies store`table
    ensures store.table == Loaded(text) && store.Valid()
  {
    hide After, ReadEntry;
    store.table := map[];
    var rest := text;
    ghost var done: seq<Entry> := [];
    AfterNone(map[]);
    var read := ReadEntry(rest);
    while read.Some?
      invariant read == ReadEntry(rest)
      invariant done + Entries(rest) == Entries(text)
      invariant store.table == After(map[], done)
      decreases |rest|
    {
      var (e, more) := read.value;
      AfterSnoc(map[], done, e);
      store.table := store.table[e.name := (if e.name in store.table then store.table[e.name] else []) + [e.address]];
      done := done + [e];
      rest := more;
      read := ReadEntry(rest);
    }
    assert done == Entries(text);
    AfterLists(map[], done, "");
  }

  lemma {:induction false} AfterSnoc(t: Table, es: seq<Entry>, e: Entry)
    ensures After(t, es + [e]) == Added(After(t, es), e)
  {
    assert (es + [e])[..|es|] == es;
  }
}
