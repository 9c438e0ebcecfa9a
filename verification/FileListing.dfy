/** The listing of file names the server sends. */
module FileListing {
  import opened DirectoryFile
  import opened DirectorySaved

  /** Each name and a space. */
  function NamesText(names: seq<string>): (s: string) {
    if names == [] then "" else NamesText(names[..|names| - 1]) + names[|names| - 1] + " "
  }

  /** The reply: the names, or a word of its own when there are none. */
  function Listing(names: seq<string>): (s: string) { if NamesText(names) == "" then "EMPTY" else NamesText(names) }

  method ListNames(names: seq<string>) returns (s: string)
    ensures s == NamesText(names)
  {
    s := "";
    var i := 0;
    while i < |names|
      invariant 0 <= i <= |names| && s == NamesText(names[..i])
    {
      s := s + names[i];
      s := s + " ";
      assert names[..i + 1][..i] == names[..i];
      i := i + 1;
    }
    assert names[..i] == names;
  }

  /** The words of a text. */
  function Words(s: string): (ws: seq<string>)
    decreases |s|
  {
    match ReadWord(s)
    case None => []
    case Some((w, rest)) => [w] + Words(rest)
  }

  lemma {:induction false} NamesSnoc(names: seq<string>, last: string)
    ensures NamesText(names + [last]) == NamesText(names) + last + " "
  {
    assert (names + [last])[..|names|] == names;
  }

  lemma {:induction false} NamesCons(first: string, names: seq<string>)
    ensures NamesText([first] + names) == first + " " + NamesText(names)
    decreases |names|
  {
    hide NamesText;
    if names == [] {
      NoNames();
      NamesSnoc([], first);
      assert [] + [first] == [first] + names;
    } else {
      var front, last := names[..|names| - 1], names[|names| - 1];
      assert names == front + [last] && [first] + names == ([first] + front) + [last];
      NamesCons(first, front);
      NamesSnoc(front, last);
      NamesSnoc([first] + front, last);
    }
  }

  lemma {:induction false} WordsOfNames(ws: string, names: seq<string>)
    requires AllSpace(ws) && forall k :: 0 <= k < |names| ==> IsWord(names[k])
    ensures Words(ws + NamesText(names)) == names
    decreases |names|
  {
    hide ReadWord, NamesText, IsWord;
    if names == [] {
      assert NamesText(names) == "" by {
        NoNames();
      }
      assert ws + NamesText(names) == ws;
      NoWords(ws);
    } else {
      NamesCons(names[0], names[1..]);
      assert [names[0]] + names[1..] == names;
      var rest := " " + NamesText(names[1..]);
      assert ws + NamesText(names) == ws + names[0] + rest;
      WordAfter(ws, names[0], rest);
      WordsOfNames(" ", names[1..]);
    }
  }

  lemma {:induction false} NoNames()
    ensures NamesText([]) == ""
  {
  }

  lemma {:induction false} NoWords(ws: string)
    requires AllSpace(ws)
    ensures Words(ws) == []
  {
    SkipExact(ws, 0, |ws|);
  }

  /** The listing says "EMPTY" exactly for an empty table, even when a file has that name; and of
      names that are words it gives these, in order. */
  lemma {:induction false} ListingRead(names: seq<string>)
    ensures Listing(names) == "EMPTY" <==> names == []
    ensures names != [] && (forall k :: 0 <= k < |names| ==> IsWord(names[k])) ==> Words(Listing(names)) == names
  {
    hide Words, IsWord;
    if names != [] {
      if forall k :: 0 <= k < |names| ==> IsWord(names[k]) {
        WordsOfNames("", names);
        assert "" + NamesText(names) == NamesText(names);
      }
      assert NamesText(names)[|NamesText(names)| - 1] == ' ';
    }
  }
}
