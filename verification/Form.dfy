/** The registration form of the web page, turned into a request. */
module Form {
  import opened Options
  import opened Text
  import opened Delimiter
  import opened Directory

  datatype Field = Field(key: string, value: string)

  /** What `std::getline` with `&` yields: an empty piece at the very end is not one. */
  function Pieces(body: string): (ps: seq<string>)
    decreases |body|
  {
    if body == "" then []
    else
      match Find(body, "&", 0)
      case None => [body]
      case Some(p) => [body[..p]] + Pieces(body[p + 1..])
  }

  /** A piece is a field when it has an equals sign; the first one divides it. */
  function FieldOf(piece: string): (r: Option<Field>) {
    match Find(piece, "=", 0)
    case None => None
    case Some(p) => Some(Field(piece[..p], piece[p + 1..]))
  }

  /** The value of the last piece with this key; empty when there is none. */
  function LastValue(ps: seq<string>, key: string): (v: string) {
    if ps == [] then ""
    else
      var last := FieldOf(ps[|ps| - 1]);
      if last.Some? && last.value.key == key then last.value.value else LastValue(ps[..|ps| - 1], key)
  }

  function Formatted(body: string): (s: string) {
    var ps := Pieces(body);
    Request(LastValue(ps, "nombre_fichero"), LastValue(ps, "ip"), LastValue(ps, "puerto"))
  }

  function ValueIn(data: map<string, string>, key: string): (v: string) { if key in data then data[key] else "" }

  lemma {:induction false} LastValueSnoc(ps: seq<string>, piece: string, key: string)
    ensures var f := FieldOf(piece);
            LastValue(ps + [piece], key) == if f.Some? && f.value.key == key then f.value.value else LastValue(ps, key)
  {
    hide FieldOf;
    assert (ps + [piece])[..|ps|] == ps;
  }

  /** What one `std::getline` takes off the front. */
  function Token(body: string): (r: (string, string)) {
    match Find(body, "&", 0)
    case None => (body, "")
    case Some(p) => (body[..p], body[p + 1..])
  }

  lemma {:induction false} PiecesStep(body: string)
    ensures Pieces("") == []
    ensures body != "" ==> |Token(body).1| < |body| && Pieces(body) == [Token(body).0] + Pieces(Token(body).1)
  {
    hide Find;
    assert body == body[..];
  }

  /** The loop over the pieces, filling a dictionary. */
  method Format(body: string) returns (s: string)
    ensures s == Formatted(body)
  {
    hide Pieces, LastValue, FieldOf, Request, Token;
    var data: map<string, string> := map[];
    var rest := body;
    ghost var done: seq<string> := [];
    assert forall key :: LastValue([], key) == "" by {
      forall key
        ensures LastValue([], key) == ""
      {
        NoValue(key);
      }
    }
    PiecesStep(rest);
    while rest != ""
      invariant done + Pieces(rest) == Pieces(body)
      invariant forall key :: ValueIn(data, key) == LastValue(done, key)
      decreases |rest|
    {
      PiecesStep(rest);
      var (token, more) := Token(rest);
      var f := FieldOf(token);
      ghost var was := data;
      if f.Some? {
        data := data[f.value.key := f.value.value];
      }
      forall key
        ensures ValueIn(data, key) == LastValue(done + [token], key)
      {
        LastValueSnoc(done, token, key);
        assert ValueIn(was, key) == LastValue(done, key);
      }
      done := done + [token];
      rest := more;
    }
    assert done == Pieces(body);
    s := Request(ValueIn(data, "nombre_fichero"), ValueIn(data, "ip"), ValueIn(data, "puerto"));
  }

  lemma {:induction false} NoValue(key: string)
    ensures LastValue([], key) == ""
  {
  }

  // ---------------------------------------------------------------- what a browser sends

  predicate Without(s: string, c: char) { forall k :: 0 <= k < |s| ==> s[k] != c }

  /** What stands between two ampersands: a field, or text without an equals sign, which counts for nothing. */
  datatype Part = Pair(field: Field) | Bare(text: string)

  predicate Sendable(p: Part) {
    match p
    case Pair(f) => Without(f.key, '&') && Without(f.key, '=') && Without(f.value, '&')
    case Bare(text) => Without(text, '&') && Without(text, '=')
  }

  function Piece(p: Part): (s: string) {
    match p
    case Pair(f) => f.key + "=" + f.value
    case Bare(text) => text
  }

  /** The parts joined by ampersands; `ended` says whether one more follows the last. */
  function Body(ps: seq<Part>, ended: bool): (s: string) {
    if ps == [] then ""
    else if |ps| == 1 then Piece(ps[0]) + if ended then "&" else ""
    else Piece(ps[0]) + "&" + Body(ps[1..], ended)
  }

  lemma {:induction false} FirstChar(a: string, c: char, b: string)
    requires Without(a, c)
    ensures Find(a + [c] + b, [c], 0) == Some(|a|)
  {
    var s := a + [c] + b;
    assert s[|a|..|a| + 1] == [c];
    forall k | 0 <= k < |a|
      ensures !Here(s, k, [c])
    {
      assert s[k..k + 1][0] == a[k];
    }
    FindExact(s, [c], 0, |a|);
  }

  lemma {:induction false} NoChar(s: string, c: char)
    requires Without(s, c)
    ensures Find(s, [c], 0) == None
  {
    forall k | 0 <= k <= |s|
      ensures !Here(s, k, [c])
    {
      assert k + 1 <= |s| ==> s[k..k + 1][0] == s[k];
    }
  }

  lemma {:induction false} FieldOfPiece(p: Part)
    requires Sendable(p)
    ensures FieldOf(Piece(p)) == (if p.Pair? then Some(p.field) else None) && Without(Piece(p), '&')
  {
    hide Find;
    match p
    case Pair(f) =>
      FirstChar(f.key, '=', f.value);
      assert Piece(p)[..|f.key|] == f.key && Piece(p)[|f.key| + 1..] == f.value;
    case Bare(text) =>
      NoChar(text, '=');
  }

  function AllPieces(ps: seq<Part>): (r: seq<string>)
    ensures |r| == |ps| && forall k :: 0 <= k < |ps| ==> r[k] == Piece(ps[k])
  {
    seq(|ps|, k requires 0 <= k < |ps| => Piece(ps[k]))
  }

  /** The last part is not empty unless an ampersand ends it: an empty end is not a piece. */
  predicate Closed(ps: seq<Part>, ended: bool) { ps != [] && !ended ==> Piece(ps[|ps| - 1]) != "" }

  /** The body is cut where the parts were joined. */
  lemma {:induction false} PiecesOfBody(ps: seq<Part>, ended: bool)
    requires (forall k :: 0 <= k < |ps| ==> Sendable(ps[k])) && Closed(ps, ended)
    ensures Pieces(Body(ps, ended)) == AllPieces(ps)
    decreases |ps|
  {
    hide Find, Piece, Sendable;
    if ps != [] {
      var p := Piece(ps[0]);
      FieldOfPiece(ps[0]);
      if |ps| == 1 && !ended {
        NoChar(p, '&');
        assert p + "" == p;
      } else {
        var rest := if |ps| == 1 then "" else Body(ps[1..], ended);
        FirstChar(p, '&', rest);
        var s := p + "&" + rest;
        assert Body(ps, ended) == s;
        assert s[..|p|] == p && s[|p| + 1..] == rest;
        if |ps| > 1 {
          PiecesOfBody(ps[1..], ended);
        }
        assert AllPieces(ps) == [p] + if |ps| == 1 then [] else AllPieces(ps[1..]);
      }
    }
  }

  /** The value given to a key by the last field that names it. */
  function LastGiven(ps: seq<Part>, key: string): (v: string) {
    if ps == [] then ""
    else
      var last := ps[|ps| - 1];
      if last.Pair? && last.field.key == key then last.field.value else LastGiven(ps[..|ps| - 1], key)
  }

  lemma {:induction false} LastValueGiven(ps: seq<Part>, key: string)
    requires forall k :: 0 <= k < |ps| ==> Sendable(ps[k])
    ensures LastValue(AllPieces(ps), key) == LastGiven(ps, key)
    decreases |ps|
  {
    hide Piece, FieldOf, Sendable;
    if ps != [] {
      FieldOfPiece(ps[|ps| - 1]);
      assert AllPieces(ps)[..|ps| - 1] == AllPieces(ps[..|ps| - 1]);
      LastValueGiven(ps[..|ps| - 1], key);
    }
  }

  /** Whatever parts a form sends and in whatever order, with an ampersand at the end or without, the request is
      made of the last value given to each of the three keys. */
  lemma {:induction false} FormattedBody(ps: seq<Part>, ended: bool)
    requires (forall k :: 0 <= k < |ps| ==> Sendable(ps[k])) && Closed(ps, ended)
    ensures Formatted(Body(ps, ended)) ==
            Request(LastGiven(ps, "nombre_fichero"), LastGiven(ps, "ip"), LastGiven(ps, "puerto"))
  {
    hide Pieces, LastValue, LastGiven, Request, Body, Sendable;
    PiecesOfBody(ps, ended);
    LastValueGiven(ps, "nombre_fichero");
    LastValueGiven(ps, "ip");
    LastValueGiven(ps, "puerto");
  }
}
