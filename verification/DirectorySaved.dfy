/** Exactly which tables survive being saved and loaded. */
module DirectorySaved {
  import opened Options
  import opened Decimal
  import opened NumberScan
  import opened ByteOrder
  import opened Directory
  import opened DirectoryRuns
  import opened DirectoryFile

  predicate IsWord(s: string) { s != "" && forall k :: 0 <= k < |s| ==> !IsSpace(s[k]) }

  predicate AllSpace(s: string) { forall k :: 0 <= k < |s| ==> IsSpace(s[k]) }

  /** The names of a table, each once: an order in which they can be written. */
  ghost predicate Lists(order: seq<string>, t: Table) {
    && (forall k :: 0 <= k < |order| ==> order[k] in t)
    && (forall n :: n in t ==> n in order)
    && (forall j, k :: 0 <= j < k < |order| ==> order[j] != order[k])
  }

  // ---------------------------------------------------------------- reading back what was written

  lemma {:induction false} SkipExact(s: string, i: nat, j: nat)
    requires i <= j <= |s| && (j < |s| ==> !IsSpace(s[j])) && forall k :: i <= k < j ==> IsSpace(s[k])
    ensures SkipSpace(s, i) == j
  {
  }

  lemma {:induction false} WordEndExact(s: string, i: nat, e: nat)
    requires i <= e <= |s| && (e < |s| ==> IsSpace(s[e])) && forall k :: i <= k < e ==> !IsSpace(s[k])
    ensures WordEnd(s, i) == e
  {
  }

  lemma {:induction false} WordAfter(ws: string, w: string, rest: string)
    requires AllSpace(ws) && IsWord(w) && (rest != "" ==> IsSpace(rest[0]))
    ensures ReadWord(ws + w + rest) == Some((w, rest))
  {
    var s := ws + w + rest;
    var j, e := |ws|, |ws| + |w|;
    assert forall k :: 0 <= k < j ==> s[k] == ws[k];
    assert forall k :: j <= k < e ==> s[k] == w[k - j];
    assert e < |s| ==> s[e] == rest[0];
    SkipExact(s, 0, j);
    WordEndExact(s, j, e);
    assert s[j..e] == w && s[e..] == rest;
  }

  lemma {:induction false} NumberAfter(ws: string, n: nat, rest: string, bound: nat)
    requires AllSpace(ws) && n < bound && (rest != "" ==> !IsDigit(rest[0]))
    ensures ReadUnsigned(ws + Digits(n) + rest, bound) == Some((n, rest))
  {
    hide Digits, ScanNumber;
    var s := ws + Digits(n) + rest;
    var j, e := |ws|, |ws| + |Digits(n)|;
    assert forall k :: 0 <= k < j ==> s[k] == ws[k];
    assert s[j] == Digits(n)[0];
    assert e < |s| ==> s[e] == rest[0];
    assert s[j..e] == Digits(n) && s[e..] == rest;
    SkipExact(s, 0, j);
    ScanDigits(s, j, n);
  }

  /** A number in the file, after any whitespace: a minus sign wraps it around, and one that does not fit ends the loading. */
  lemma {:induction false} UnsignedSpelled(ws: string, sign: string, ds: string, rest: string, bound: nat)
    requires AllSpace(ws) && sign in ["", "+", "-"] && ds != "" && AllDigits(ds) && (rest != "" ==> !IsDigit(rest[0])) && bound > 0
    ensures var n := Value(ds);
            ReadUnsigned(ws + sign + ds + rest, bound) ==
            if n >= bound then None
            else Some((if sign == "-" && n > 0 then bound - n else n, rest))
  {
    hide Value, ScanNumber, SkipSpace;
    ScanAfterSpace(ws, sign, ds, rest);
    var n, s := Value(ds), ws + sign + ds + rest;
    assert ReadUnsigned(s, bound) ==
           if n >= bound then None else Some((if sign == "-" then (bound - n) % bound else n, rest));
    if n < bound {
      WrapAround(n, bound);
    }
  }

  lemma {:induction false} WrapAround(n: nat, bound: nat)
    requires n < bound
    ensures (bound - n) % bound == if n > 0 then bound - n else 0
  {
    if n > 0 {
      assert bound - n == 0 * bound + (bound - n);
    }
  }

  lemma {:induction false} LineOfOne(name: string, a: Address, rest: string)
    ensures Line(name, [a]) + rest == name + (" " + Digits(a.ip) + (" " + Digits(a.port) + (" \n" + rest)))
  {
    hide Digits;
    assert [a][..0] == [];
    assert AddressFields([a]) == "" + Digits(a.ip) + " " + Digits(a.port) + " ";
  }

  /** A line with one address is read back as that entry. */
  lemma {:induction false} EntryOfLine(ws: string, name: string, a: Address, rest: string)
    requires AllSpace(ws) && IsWord(name)
    ensures ReadEntry(ws + (Line(name, [a]) + rest)) == Some((Entry(name, a), " \n" + rest))
  {
    hide Digits, ReadWord, ReadUnsigned, Line;
    LineOfOne(name, a, rest);
    var s3 := " \n" + rest;
    var s2 := " " + Digits(a.port) + s3;
    var s1 := " " + Digits(a.ip) + s2;
    assert ws + (Line(name, [a]) + rest) == ws + name + s1;
    WordAfter(ws, name, s1);
    NumberAfter(" ", a.ip, s2, TWO_32);
    NumberAfter(" ", a.port, s3, TWO_16);
  }

  function Firsts(t: Table, order: seq<string>): (es: seq<Entry>)
    requires forall k :: 0 <= k < |order| ==> order[k] in t && t[order[k]] != []
  {
    if order == [] then [] else [Entry(order[0], t[order[0]][0])] + Firsts(t, order[1..])
  }

  lemma {:induction false} EntriesOfSaved(ws: string, t: Table, order: seq<string>)
    requires AllSpace(ws)
    requires forall k :: 0 <= k < |order| ==> order[k] in t && |t[order[k]]| == 1 && IsWord(order[k])
    ensures Entries(ws + Saved(t, order)) == Firsts(t, order)
    decreases |order|
  {
    hide ReadEntry, Line, IsWord;
    if order == [] {
      assert ws + Saved(t, order) == ws;
      NothingLeft(ws);
    } else {
      var a := t[order[0]][0];
      assert t[order[0]] == [a];
      var rest := Saved(t, order[1..]);
      EntryOfLine(ws, order[0], a, rest);
      EntriesOfSaved(" \n", t, order[1..]);
    }
  }

  lemma {:induction false} NothingLeft(ws: string)
    requires AllSpace(ws)
    ensures Entries(ws) == []
  {
    SkipExact(ws, 0, |ws|);
  }

  lemma {:induction false} AfterFirsts(t: Table, u: Table, order: seq<string>)
    requires forall k :: 0 <= k < |order| ==> order[k] in t && |t[order[k]]| == 1
    requires forall j, k :: 0 <= j < k < |order| ==> order[j] != order[k]
    requires forall k :: 0 <= k < |order| ==> order[k] !in u
    ensures var r := After(u, Firsts(t, order));
            && (forall n :: n in r <==> n in u || n in order)
            && (forall n :: n in u ==> n in r && r[n] == u[n])
            && (forall n :: n in order ==> n in r && r[n] == t[n])
    decreases |order|
  {
    hide After;
    if order == [] {
      AfterNone(u);
    } else {
      var e := Entry(order[0], t[order[0]][0]);
      AfterConcat(u, [e], Firsts(t, order[1..]));
      AfterOne(u, e);
      var v := Added(u, e);
      assert v[order[0]] == t[order[0]];
      AfterFirsts(t, v, order[1..]);
      assert forall n :: n in order <==> n == order[0] || n in order[1..];
    }
  }

  lemma {:induction false} OneEachRestored(t: Table, order: seq<string>)
    requires Lists(order, t) && (forall n :: n in t ==> IsWord(n) && |t[n]| == 1)
    ensures Loaded(Saved(t, order)) == t
  {
    hide After, Entries, Saved, IsWord, Firsts;
    assert "" + Saved(t, order) == Saved(t, order);
    EntriesOfSaved("", t, order);
    AfterFirsts(t, map[], order);
    assert forall n :: n in order <==> n in t;
  }

  // ---------------------------------------------------------------- counting what a text can hold

  /** A sign or other character weighs more than any printed 32-bit number has digits. */
  function CharWeight(c: char): (w: nat) { if IsSpace(c) then 0 else if IsDigit(c) then 1 else 10 }

  function Weight(s: string): (w: nat) { if s == "" then 0 else CharWeight(s[0]) + Weight(s[1..]) }

  lemma {:induction false} WeightConcat(a: string, b: string)
    ensures Weight(a + b) == Weight(a) + Weight(b)
    decreases |a|
  {
    hide CharWeight;
    if a == "" {
      assert a + b == b;
    } else {
      assert (a + b)[1..] == a[1..] + b;
      WeightConcat(a[1..], b);
    }
  }

  lemma {:induction false} WeightOfDigits(s: string)
    requires AllDigits(s)
    ensures Weight(s) == |s|
  {
    if s != "" {
      assert AllDigits(s[1..]);
      WeightOfDigits(s[1..]);
    }
  }

  lemma {:induction false} WeightOfSpace(s: string)
    requires AllSpace(s)
    ensures Weight(s) == 0
  {
    if s != "" {
      assert AllSpace(s[1..]);
      WeightOfSpace(s[1..]);
    }
  }

  lemma {:induction false} WeightOfWord(s: string)
    requires IsWord(s)
    ensures Weight(s) >= 1
  {
    assert !IsSpace(s[0]);
  }

  function Pow10(k: nat): (n: nat)
    ensures n > 0
  {
    if k == 0 then 1 else 10 * Pow10(k - 1)
  }

  lemma {:induction false} DigitsBound(n: nat, k: nat)
    requires k >= 1 && n < Pow10(k)
    ensures |Digits(n)| <= k
  {
    assert Pow10(1) == 10 * Pow10(0) == 10;
    if n >= 10 {
      DigitsBound(n / 10, k - 1);
    }
  }

  lemma {:induction false} ValueBound(s: string)
    requires AllDigits(s)
    ensures Value(s) < Pow10(|s|)
  {
    if s != "" {
      ValueBound(s[..|s| - 1]);
    }
  }

  lemma {:induction false} Pow10Ten()
    ensures Pow10(10) == 10_000_000_000
  {
    assert Pow10(3) == 1000 by {
      assert Pow10(1) == 10 && Pow10(2) == 100;
    }
    assert Pow10(6) == 1_000_000 by {
      assert Pow10(4) == 10_000 && Pow10(5) == 100_000;
    }
    assert Pow10(9) == 1_000_000_000 by {
      assert Pow10(7) == 10_000_000 && Pow10(8) == 100_000_000;
    }
  }

  /** A word read weighs what it took from the text. */
  lemma {:induction false} WordWeight(s: string)
    requires ReadWord(s).Some?
    ensures Weight(ReadWord(s).value.0) + Weight(ReadWord(s).value.1) <= Weight(s)
  {
    hide Weight;
    var j := SkipSpace(s, 0);
    var e := WordEnd(s, j);
    assert s == s[..j] + (s[j..e] + s[e..]);
    WeightConcat(s[..j], s[j..e] + s[e..]);
    WeightConcat(s[j..e], s[e..]);
  }

  /** A number never prints longer than the text it was read from weighs. */
  lemma {:induction false} ScanWeight(s: string, i: nat)
    requires i <= |s| && ScanNumber(s, i).Some?
    ensures var scan := ScanNumber(s, i).value;
            Weight(s[i..]) >= Weight(s[scan.end..]) + if scan.negative then 10 else |Digits(scan.magnitude)|
  {
    hide Weight, Digits, Value;
    var scan := ScanNumber(s, i).value;
    var start := if s[i] == '-' || s[i] == '+' then i + 1 else i;
    var digits := s[start..scan.end];
    assert s[i..] == s[i..start] + (digits + s[scan.end..]);
    WeightConcat(s[i..start], digits + s[scan.end..]);
    WeightConcat(digits, s[scan.end..]);
    WeightOfDigits(digits);
    ValueBound(digits);
    DigitsBound(Value(digits), |digits|);
    if scan.negative {
      assert s[i..start] == "-";
      WeightOfMinus();
    }
  }

  lemma {:induction false} WeightOfMinus()
    ensures Weight("-") == 10
  {
    assert "-"[1..] == "";
  }

  lemma {:induction false} NumberWeight(s: string, bound: nat)
    requires bound <= TWO_32 && ReadUnsigned(s, bound).Some?
    ensures |Digits(ReadUnsigned(s, bound).value.0)| + Weight(ReadUnsigned(s, bound).value.1) <= Weight(s)
  {
    hide Weight, Digits, ScanNumber, Pow10;
    var j := SkipSpace(s, 0);
    ScanWeight(s, j);
    assert s == s[..j] + s[j..];
    WeightConcat(s[..j], s[j..]);
    Pow10Ten();
    DigitsBound(ReadUnsigned(s, bound).value.0, 10);
  }

  function EntryWeight(e: Entry): (w: nat) { Weight(e.name) + |Digits(e.address.ip)| + |Digits(e.address.port)| }

  function TotalWeight(es: seq<Entry>): (w: nat) {
    if es == [] then 0 else TotalWeight(es[..|es| - 1]) + EntryWeight(es[|es| - 1])
  }

  lemma {:induction false} TotalCons(e: Entry, es: seq<Entry>)
    ensures TotalWeight([e] + es) == EntryWeight(e) + TotalWeight(es)
    decreases |es|
  {
    hide EntryWeight;
    var all := [e] + es;
    if es == [] {
      assert all[..|all| - 1] == [];
    } else {
      assert all[..|all| - 1] == [e] + es[..|es| - 1];
      TotalCons(e, es[..|es| - 1]);
    }
  }

  lemma {:induction false} ReadWeight(s: string)
    requires ReadEntry(s).Some?
    ensures EntryWeight(ReadEntry(s).value.0) + Weight(ReadEntry(s).value.1) <= Weight(s)
  {
    hide Weight, Digits, ReadWord, ReadUnsigned;
    var (name, s1) := ReadWord(s).value;
    WordWeight(s);
    var (ip, s2) := ReadUnsigned(s1, TWO_32).value;
    NumberWeight(s1, TWO_32);
    NumberWeight(s2, TWO_16);
  }

  /** No text yields entries that weigh more than it does. */
  lemma {:induction false} EntriesWeight(s: string)
    ensures TotalWeight(Entries(s)) <= Weight(s)
    decreases |s|
  {
    hide Weight, EntryWeight, ReadEntry;
    match ReadEntry(s)
    case None =>
    case Some((e, rest)) =>
      EntriesWeight(rest);
      ReadWeight(s);
      TotalCons(e, Entries(rest));
  }

  // ---------------------------------------------------------------- what a table weighs

  /** The weight of a list of addresses, each with the name it belongs to. */
  function ListWeight(name: string, list: seq<Address>): (w: nat) {
    if list == [] then 0 else ListWeight(name, list[..|list| - 1]) + EntryWeight(Entry(name, list[|list| - 1]))
  }

  function TableWeight(t: Table, order: seq<string>): (w: nat) {
    if order == [] then 0 else ListWeight(order[0], Listed(t, order[0])) + TableWeight(t, order[1..])
  }

  lemma {:induction false} ListSnoc(name: string, list: seq<Address>, a: Address)
    ensures ListWeight(name, list + [a]) == ListWeight(name, list) + EntryWeight(Entry(name, a))
  {
    hide EntryWeight;
    assert (list + [a])[..|list|] == list;
  }

  /** Adding an entry adds its weight, once. */
  lemma {:induction false} AddedWeight(t: Table, e: Entry, order: seq<string>)
    requires forall j, k :: 0 <= j < k < |order| ==> order[j] != order[k]
    ensures TableWeight(Added(t, e), order) == TableWeight(t, order) + if e.name in order then EntryWeight(e) else 0
    decreases |order|
  {
    hide EntryWeight, ListWeight;
    if order != [] {
      AddedWeight(t, e, order[1..]);
      assert order == [order[0]] + order[1..];
      if order[0] == e.name {
        assert e.name !in order[1..];
        assert Listed(Added(t, e), e.name) == Listed(t, e.name) + [e.address];
        ListSnoc(e.name, Listed(t, e.name), e.address);
      }
    }
  }

  lemma {:induction false} EmptyWeight(order: seq<string>)
    ensures TableWeight(map[], order) == 0
  {
    if order != [] {
      EmptyWeight(order[1..]);
    }
  }

  lemma {:induction false} AfterWeight(es: seq<Entry>, order: seq<string>)
    requires forall j, k :: 0 <= j < k < |order| ==> order[j] != order[k]
    requires forall k :: 0 <= k < |es| ==> es[k].name in order
    ensures TableWeight(After(map[], es), order) == TotalWeight(es)
    decreases |es|
  {
    hide EntryWeight, TableWeight, Added;
    if es == [] {
      EmptyWeight(order);
    } else {
      var front, e := es[..|es| - 1], es[|es| - 1];
      AfterWeight(front, order);
      AddedWeight(After(map[], front), e, order);
    }
  }

  lemma {:induction false} NamesLoaded(es: seq<Entry>, k: nat)
    requires k < |es|
    ensures es[k].name in After(map[], es)
    decreases |es|
  {
    if k < |es| - 1 {
      NamesLoaded(es[..|es| - 1], k);
    }
  }

  // ---------------------------------------------------------------- what its text weighs

  function FieldsWeight(list: seq<Address>): (w: nat) {
    if list == [] then 0
    else FieldsWeight(list[..|list| - 1]) + |Digits(list[|list| - 1].ip)| + |Digits(list[|list| - 1].port)|
  }

  lemma {:induction false} BlankWeight(s: string)
    ensures Weight(s + " ") == Weight(s) && Weight(s + "\n") == Weight(s)
  {
    WeightConcat(s, " ");
    WeightConcat(s, "\n");
    WeightOfSpace(" ");
    WeightOfSpace("\n");
  }

  lemma {:induction false} WeightOfFields(list: seq<Address>)
    ensures Weight(AddressFields(list)) == FieldsWeight(list)
    decreases |list|
  {
    hide Weight, Digits;
    if list == [] {
      assert Weight("") == 0 by {
        WeightOfSpace("");
      }
    } else {
      var a := list[|list| - 1];
      var front := AddressFields(list[..|list| - 1]);
      WeightOfFields(list[..|list| - 1]);
      WeightConcat(front, Digits(a.ip));
      BlankWeight(front + Digits(a.ip));
      WeightConcat(front + Digits(a.ip) + " ", Digits(a.port));
      BlankWeight(front + Digits(a.ip) + " " + Digits(a.port));
      WeightOfDigits(Digits(a.ip));
      WeightOfDigits(Digits(a.port));
    }
  }

  lemma {:induction false} WeightOfLine(name: string, list: seq<Address>)
    ensures Weight(Line(name, list)) == Weight(name) + FieldsWeight(list)
  {
    hide Weight, AddressFields, FieldsWeight;
    WeightOfFields(list);
    BlankWeight(name);
    WeightConcat(name + " ", AddressFields(list));
    BlankWeight(name + " " + AddressFields(list));
  }

  /** A list weighs more than its line by one name for every address after the first. */
  lemma {:induction false} ListOverLine(name: string, list: seq<Address>)
    requires list != [] && Weight(name) >= 1
    ensures ListWeight(name, list) >= Weight(name) + FieldsWeight(list) + |list| - 1
    decreases |list|
  {
    hide Weight, Digits;
    var front := list[..|list| - 1];
    if front != [] {
      ListOverLine(name, front);
    }
  }

  function Excess(t: Table, order: seq<string>): (n: int) {
    if order == [] then 0 else |Listed(t, order[0])| - 1 + Excess(t, order[1..])
  }

  lemma {:induction false} TableOverText(t: Table, order: seq<string>)
    requires forall k :: 0 <= k < |order| ==> order[k] in t && t[order[k]] != [] && IsWord(order[k])
    ensures TableWeight(t, order) >= Weight(Saved(t, order)) + Excess(t, order)
    decreases |order|
  {
    hide Weight, ListWeight, FieldsWeight, IsWord, Line;
    if order == [] {
      WeightOfSpace("");
    } else {
      var list := t[order[0]];
      TableOverText(t, order[1..]);
      WeightOfWord(order[0]);
      ListOverLine(order[0], list);
      WeightOfLine(order[0], list);
      WeightConcat(Line(order[0], list), Saved(t, order[1..]));
    }
  }

  lemma {:induction false} NoExcess(t: Table, order: seq<string>, k: nat)
    requires forall i :: 0 <= i < |order| ==> order[i] in t && t[order[i]] != []
    requires k < |order|
    ensures Excess(t, order) >= |t[order[k]]| - 1
    decreases |order|
  {
    if k > 0 {
      NoExcess(t, order[1..], k - 1);
    } else {
      ExcessPositive(t, order[1..]);
    }
  }

  lemma {:induction false} ExcessPositive(t: Table, order: seq<string>)
    requires forall i :: 0 <= i < |order| ==> order[i] in t && t[order[i]] != []
    ensures Excess(t, order) >= 0
  {
    if order != [] {
      ExcessPositive(t, order[1..]);
    }
  }

  // ---------------------------------------------------------------- the boundary

  lemma {:induction false} LoadedNoEmptyList(s: string)
    ensures NoEmptyList(Loaded(s))
  {
    hide After, Entries;
    AfterLists(map[], Entries(s), "");
  }

  /** A restored table cannot have fitted a second address of any name into its text. */
  lemma {:induction false} RestoredOneEach(t: Table, order: seq<string>)
    requires Lists(order, t) && (forall n :: n in t ==> IsWord(n))
    requires Loaded(Saved(t, order)) == t
    ensures forall n :: n in t ==> |t[n]| == 1
  {
    hide After, Entries, Saved, IsWord, TableWeight, TotalWeight, Weight, Excess;
    var s := Saved(t, order);
    var es := Entries(s);
    LoadedNoEmptyList(s);
    forall k | 0 <= k < |es|
      ensures es[k].name in order
    {
      NamesLoaded(es, k);
    }
    AfterWeight(es, order);
    EntriesWeight(s);
    TableOverText(t, order);
    forall n | n in t
      ensures |t[n]| == 1
    {
      var k :| 0 <= k < |order| && order[k] == n;
      NoExcess(t, order, k);
    }
  }

  /** Reading yields only words as names. */
  lemma {:induction false} EntryNames(s: string)
    ensures forall k :: 0 <= k < |Entries(s)| ==> IsWord(Entries(s)[k].name)
    decreases |s|
  {
    hide ReadWord, ReadUnsigned, IsWord;
    match ReadEntry(s)
    case None =>
    case Some((e, rest)) =>
      WordIsWord(s);
      EntryNames(rest);
  }

  lemma {:induction false} WordIsWord(s: string)
    ensures ReadWord(s).Some? ==> IsWord(ReadWord(s).value.0)
  {
  }

  lemma {:induction false} LoadedNames(es: seq<Entry>)
    requires forall k :: 0 <= k < |es| ==> IsWord(es[k].name)
    ensures forall n :: n in After(map[], es) ==> IsWord(n)
  {
    hide IsWord;
    if es != [] {
      LoadedNames(es[..|es| - 1]);
    }
  }

  /** Saving then loading restores a table exactly when every name is a non-empty text
      without whitespace and has exactly one address. */
  lemma {:induction false} RestoredIffOneEach(t: Table, order: seq<string>)
    requires Lists(order, t)
    ensures Loaded(Saved(t, order)) == t <==> forall n :: n in t ==> IsWord(n) && |t[n]| == 1
  {
    hide Entries, After, Saved, IsWord;
    EntryNames(Saved(t, order));
    LoadedNames(Entries(Saved(t, order)));
    if Loaded(Saved(t, order)) == t {
      RestoredOneEach(t, order);
    }
    if forall n :: n in t ==> IsWord(n) && |t[n]| == 1 {
      OneEachRestored(t, order);
    }
  }

  /** A second address of a file is gone after a restart. */
  lemma {:induction false} SecondAddressLost()
    ensures var t: Table := map["f" := [Address(1, 2), Address(3, 4)]];
            Lists(["f"], t) && Loaded(Saved(t, ["f"])) != t
  {
    hide Loaded, Saved;
    var t: Table := map["f" := [Address(1, 2), Address(3, 4)]];
    RestoredIffOneEach(t, ["f"]);
    assert |t["f"]| == 2;
  }
}
