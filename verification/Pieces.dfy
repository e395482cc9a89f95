/** Text assembled from pieces and cut to a buffer. A piece is a sequence of units that are
    written whole or not at all: single characters for plain text, whole escapes for escaped
    text. Writing a piece into the remaining room keeps as many leading units as fit. */
module Pieces {
  import opened Text

  type Piece = seq<string>

  function Join(units: Piece): string {
    if units == [] then [] else units[0] + Join(units[1..])
  }

  /** Plain text: every character is a unit. */
  function Chars(s: string): (r: Piece)
    ensures |r| == |s|
  {
    if s == [] then [] else [[s[0]]] + Chars(s[1..])
  }

  lemma {:induction false} JoinChars(s: string)
    ensures Join(Chars(s)) == s
  {
    if s != [] {
      JoinChars(s[1..]);
      assert Chars(s)[1..] == Chars(s[1..]);
      assert [s[0]] + s[1..] == s;
    }
  }

  /** The leading units that fit in `room`, joined. */
  function Cut(units: Piece, room: nat): (r: string)
    ensures |r| <= room
  {
    if units == [] || |units[0]| > room then [] else units[0] + Cut(units[1..], room - |units[0]|)
  }

  lemma CutFrom(units: Piece, i: nat, room: nat)
    requires i < |units|
    ensures Cut(units[i..], room) ==
              if |units[i]| > room then [] else units[i] + Cut(units[i + 1..], room - |units[i]|)
  {
    assert units[i..][0] == units[i] && units[i..][1..] == units[i + 1..];
  }

  lemma {:induction false} CutAll(units: Piece, room: nat)
    requires |Join(units)| <= room
    ensures Cut(units, room) == Join(units)
  {
    if units != [] { CutAll(units[1..], room - |units[0]|); }
  }

  /** Plain text is cut at the room's end. */
  lemma {:induction false} CutChars(s: string, room: nat)
    ensures Cut(Chars(s), room) == if |s| <= room then s else s[..room]
  {
    if s != [] && room > 0 {
      CutChars(s[1..], room - 1);
      assert Chars(s)[0] == [s[0]] && Chars(s)[1..] == Chars(s[1..]);
      assert [s[0]] + s[1..] == s;
      if |s| > room { assert [s[0]] + s[1..][..room - 1] == s[..room]; }
    }
  }

  /** The unbounded text of a list of pieces. */
  function Full(ps: seq<Piece>): string {
    if ps == [] then [] else Full(ps[..|ps| - 1]) + Join(ps[|ps| - 1])
  }

  /** The text a buffer with `room` characters receives. */
  function Bounded(ps: seq<Piece>, room: nat): (r: string)
    ensures |r| <= room
  {
    if ps == [] then []
    else
      var out := Bounded(ps[..|ps| - 1], room);
      out + Cut(ps[|ps| - 1], room - |out|)
  }

  lemma BoundedSnoc(ps: seq<Piece>, p: Piece, room: nat)
    ensures Bounded(ps + [p], room) == Bounded(ps, room) + Cut(p, room - |Bounded(ps, room)|)
  {
    assert (ps + [p])[..|ps|] == ps;
  }

  /** If the unbounded text fits, the buffer receives exactly it. */
  lemma {:induction false} BoundedFits(ps: seq<Piece>, room: nat)
    requires |Full(ps)| <= room
    ensures Bounded(ps, room) == Full(ps)
  {
    if ps != [] {
      var front, last := ps[..|ps| - 1], ps[|ps| - 1];
      BoundedFits(front, room);
      CutAll(last, room - |Full(front)|);
    }
  }

  /** The unbounded text followed by `rest`, built front to back. */
  function FullThen(ps: seq<Piece>, rest: string): string {
    if ps == [] then rest else Join(ps[0]) + FullThen(ps[1..], rest)
  }

  lemma {:induction false} FullThenConcat(a: seq<Piece>, b: seq<Piece>, rest: string)
    ensures FullThen(a + b, rest) == FullThen(a, FullThen(b, rest))
  {
    if a == [] {
      assert a + b == b;
    } else {
      FullThenConcat(a[1..], b, rest);
      assert (a + b)[0] == a[0] && (a + b)[1..] == a[1..] + b;
    }
  }

  lemma {:induction false} FullThenIs(ps: seq<Piece>, rest: string)
    ensures FullThen(ps, rest) == Full(ps) + rest
    decreases |ps|
  {
    if ps != [] {
      var front, last := ps[..|ps| - 1], ps[|ps| - 1];
      assert ps == front + [last];
      FullThenConcat(front, [last], rest);
      FullThenOne(last, rest);
      FullThenIs(front, Join(last) + rest);
      Assoc(Full(front), Join(last), rest);
    }
  }

  lemma FullThenOne(p: Piece, rest: string)
    ensures FullThen([p], rest) == Join(p) + rest
  {
    assert [p][1..] == [];
  }

  lemma FullThenThree(a: Piece, b: Piece, c: Piece, rest: string)
    ensures FullThen([a, b, c], rest) == Join(a) + (Join(b) + (Join(c) + rest))
  {
    assert [a, b, c][1..] == [b, c] && [b, c][1..] == [c];
    FullThenOne(c, rest);
  }

  lemma FullThenChars(s: string, rest: string)
    ensures FullThen([Chars(s)], rest) == s + rest
  {
    FullThenOne(Chars(s), rest);
    JoinChars(s);
  }
}
