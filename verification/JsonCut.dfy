/** What a JSON text cut to a buffer means. Escapes are written whole or not at all, but text behind
    an escape that does not fit is still written if it fits; so the cut text is a prefix of the whole
    text exactly if the buffer's end does not fall inside an escape. */
module JsonCut {
  import opened Text
  import opened Pieces
  import opened JsonText
  import opened JsonFormat

  // ---------------------------------------------------------------- units

  /** Plain characters. */
  predicate Simple(p: Piece) {
    forall i :: 0 <= i < |p| ==> |p[i]| == 1
  }

  /** Units that are not empty; longer ones start with a backslash. */
  predicate Escaping(p: Piece) {
    forall i :: 0 <= i < |p| ==> |p[i]| >= 1 && (|p[i]| > 1 ==> p[i][0] == '\\')
  }

  /** The piece starts with a closing quote. */
  predicate Closes(p: Piece) {
    p != [] && p[0] == "\""
  }

  /** Every piece with escapes is followed by its closing quote. */
  predicate Guarded(ps: seq<Piece>) {
    forall i :: 0 <= i < |ps| ==> GuardedAt(ps, i)
  }

  predicate GuardedAt(ps: seq<Piece>, i: nat)
    requires i < |ps|
  {
    Simple(ps[i]) || (Escaping(ps[i]) && i + 1 < |ps| && Closes(ps[i + 1]))
  }

  /** All units of a list of pieces. */
  function Units(ps: seq<Piece>): Piece {
    if ps == [] then [] else ps[0] + Units(ps[1..])
  }

  /** The room ends between two units, or not before the last. */
  predicate Aligned(units: Piece, room: nat) {
    room == 0 || units == [] || (|units[0]| <= room && Aligned(units[1..], room - |units[0]|))
  }

  // ---------------------------------------------------------------- the bounded text, front to back

  function BoundedFrom(ps: seq<Piece>, room: nat): (r: string)
    ensures |r| <= room
  {
    if ps == [] then ""
    else
      var c := Cut(ps[0], room);
      c + BoundedFrom(ps[1..], room - |c|)
  }

  lemma {:induction false} BoundedFromSnoc(ps: seq<Piece>, p: Piece, room: nat)
    ensures BoundedFrom(ps + [p], room) == BoundedFrom(ps, room) + Cut(p, room - |BoundedFrom(ps, room)|)
  {
    if ps == [] {
      assert [] + [p] == [p] && [p][1..] == [];
      assert Cut(p, room) + "" == Cut(p, room) && "" + Cut(p, room) == Cut(p, room);
    } else {
      var c := Cut(ps[0], room);
      assert (ps + [p])[0] == ps[0] && (ps + [p])[1..] == ps[1..] + [p];
      BoundedFromSnoc(ps[1..], p, room - |c|);
      var rest := BoundedFrom(ps[1..], room - |c|);
      Assoc(c, rest, Cut(p, room - |c| - |rest|));
    }
  }

  lemma {:induction false} BoundedIsFrom(ps: seq<Piece>, room: nat)
    ensures Bounded(ps, room) == BoundedFrom(ps, room)
    decreases |ps|
  {
    if ps != [] {
      var front, last := ps[..|ps| - 1], ps[|ps| - 1];
      assert ps == front + [last];
      BoundedIsFrom(front, room);
      BoundedSnoc(front, last, room);
      BoundedFromSnoc(front, last, room);
    }
  }

  lemma FullIsThen(ps: seq<Piece>)
    ensures Full(ps) == FullThen(ps, "")
  {
    FullThenIs(ps, "");
    assert Full(ps) + "" == Full(ps);
  }

  // ---------------------------------------------------------------- one piece

  lemma EscapingTail(p: Piece)
    requires Escaping(p) && p != []
    ensures Escaping(p[1..]) && |p[0]| >= 1
  {
  }

  lemma AlignedStep(units: Piece, room: nat)
    requires units != [] && 1 <= |units[0]| <= room
    ensures Aligned(units, room) <==> Aligned(units[1..], room - |units[0]|)
  {
  }

  lemma {:induction false} AlignedWhole(p: Piece, more: Piece, room: nat)
    requires |Join(p)| <= room && Escaping(p)
    ensures Aligned(p + more, room) <==> Aligned(more, room - |Join(p)|)
  {
    if p == [] {
      assert p + more == more;
    } else {
      assert (p + more)[0] == p[0] && (p + more)[1..] == p[1..] + more;
      EscapingTail(p);
      AlignedWhole(p[1..], more, room - |p[0]|);
      AlignedStep(p + more, room);
    }
  }

  /** A piece that does not fit: either the room is used up at a unit's end, or the next unit is an
      escape that is longer than what is left. */
  lemma {:induction false} CutShort(p: Piece, more: Piece, room: nat) returns (rest: string)
    requires |Join(p)| > room && Escaping(p)
    ensures var c := Cut(p, room);
            && Join(p) == c + rest && |rest| > room - |c|
            && (Aligned(p + more, room) <==> |c| == room)
            && (|c| < room ==> rest[0] == '\\' && !Simple(p))
  {
    assert (p + more)[0] == p[0] && (p + more)[1..] == p[1..] + more;
    if |p[0]| > room {
      rest := Join(p);
      assert "" + rest == rest;
    } else {
      rest := CutShort(p[1..], more, room - |p[0]|);
      Assoc(p[0], Cut(p[1..], room - |p[0]|), rest);
      if !Simple(p[1..]) {
        var i :| 0 <= i < |p| - 1 && |p[1..][i]| != 1;
        assert |p[i + 1]| != 1;
      }
    }
  }

  lemma {:induction false} NoRoom(ps: seq<Piece>)
    requires Guarded(ps)
    ensures BoundedFrom(ps, 0) == ""
  {
    if ps != [] {
      assert GuardedAt(ps, 0);
      GuardedTail(ps);
      NoRoom(ps[1..]);
    }
  }

  lemma GuardedTail(ps: seq<Piece>)
    requires Guarded(ps) && ps != []
    ensures Guarded(ps[1..])
  {
    forall i | 0 <= i < |ps| - 1 ensures GuardedAt(ps[1..], i) {
      assert GuardedAt(ps, i + 1) && ps[1..][i] == ps[i + 1];
    }
  }

  lemma PrefixBehind(c: string, a: string, b: string)
    ensures c + a <= c + b <==> a <= b
  {
    if a <= b { assert c + b == (c + a) + b[|a|..]; }
    if c + a <= c + b { assert a == (c + a)[|c|..] && b == (c + b)[|c|..]; }
  }

  // ---------------------------------------------------------------- the whole text

  lemma FirstFits(ps: seq<Piece>, room: nat)
    requires Guarded(ps) && ps != [] && |Join(ps[0])| <= room
    requires BoundedFrom(ps[1..], room - |Join(ps[0])|) <= FullThen(ps[1..], "")
             <==> Aligned(Units(ps[1..]), room - |Join(ps[0])|)
    ensures BoundedFrom(ps, room) <= FullThen(ps, "") <==> Aligned(Units(ps), room)
  {
    var p := ps[0];
    assert GuardedAt(ps, 0);
    CutAll(p, room);
    AlignedWhole(p, Units(ps[1..]), room);
    PrefixBehind(Join(p), BoundedFrom(ps[1..], room - |Join(p)|), FullThen(ps[1..], ""));
  }

  /** Behind a cut with room left comes the closing quote, where the whole text has a backslash. */
  lemma GapShows(ps: seq<Piece>, room: nat, rest: string)
    requires Guarded(ps) && ps != [] && room > 0 && !Simple(ps[0]) && |rest| > 0 && rest[0] == '\\'
    ensures |ps| > 1 && !(BoundedFrom(ps[1..], room) <= rest + FullThen(ps[1..], ""))
  {
    assert GuardedAt(ps, 0);
    assert Closes(ps[1]) && ps[1..][0] == ps[1];
    var b := BoundedFrom(ps[1..], room);
    assert Cut(ps[1], room)[0] == '"';
    assert b[0] == '"' && (rest + FullThen(ps[1..], ""))[0] == '\\';
  }

  lemma FirstCut(ps: seq<Piece>, room: nat)
    requires Guarded(ps) && ps != [] && |Join(ps[0])| > room
    ensures BoundedFrom(ps, room) <= FullThen(ps, "") <==> Aligned(Units(ps), room)
  {
    assert GuardedAt(ps, 0);
    var rest := CutShort(ps[0], Units(ps[1..]), room);
    FirstCutAt(ps, room, Cut(ps[0], room), rest);
  }

  lemma FirstCutAt(ps: seq<Piece>, room: nat, c: string, rest: string)
    requires Guarded(ps) && ps != [] && c == Cut(ps[0], room) && Join(ps[0]) == c + rest
    requires |c| < room ==> |rest| > 0 && rest[0] == '\\' && !Simple(ps[0])
    ensures BoundedFrom(ps, room) <= FullThen(ps, "") <==> |c| == room
  {
    CutBehind(c, rest, BoundedFrom(ps[1..], room - |c|), FullThen(ps[1..], ""), FullThen(ps, ""));
    if |c| == room {
      GuardedTail(ps);
      NoRoom(ps[1..]);
    } else {
      GapShows(ps, room - |c|, rest);
    }
  }

  lemma CutBehind(c: string, rest: string, more: string, tail: string, full: string)
    requires full == (c + rest) + tail
    ensures c + more <= full <==> more <= rest + tail
  {
    Assoc(c, rest, tail);
    PrefixBehind(c, more, rest + tail);
  }

  /** The cut text is a prefix of the whole text if and only if the room does not end inside an
      escape. */
  lemma {:induction false} PrefixExactly(ps: seq<Piece>, room: nat)
    requires Guarded(ps)
    ensures BoundedFrom(ps, room) <= FullThen(ps, "") <==> Aligned(Units(ps), room)
  {
    if ps != [] {
      if |Join(ps[0])| <= room {
        GuardedTail(ps);
        PrefixExactly(ps[1..], room - |Join(ps[0])|);
        FirstFits(ps, room);
      } else {
        FirstCut(ps, room);
      }
    }
  }

  // ---------------------------------------------------------------- the formatter's pieces

  lemma {:induction false} CharsSimple(s: string)
    ensures Simple(Chars(s))
  {
    if s != [] {
      CharsSimple(s[1..]);
      forall i | 0 <= i < |Chars(s)| ensures |Chars(s)[i]| == 1 {
        if i > 0 { assert Chars(s)[i] == Chars(s[1..])[i - 1]; }
      }
    }
  }

  lemma EscapesEscaping(s: string)
    ensures Escaping(Escapes(s))
  {
    forall i | 0 <= i < |s| ensures |Escapes(s)[i]| >= 1 && (|Escapes(s)[i]| > 1 ==> Escapes(s)[i][0] == '\\') {
      EscapesAt(s, i);
    }
  }

  lemma GuardedConcat(a: seq<Piece>, b: seq<Piece>)
    requires Guarded(a) && Guarded(b)
    ensures Guarded(a + b)
  {
    var ps := a + b;
    forall i | 0 <= i < |ps| ensures GuardedAt(ps, i) {
      if i < |a| {
        assert GuardedAt(a, i) && ps[i] == a[i] && (i + 1 < |a| ==> ps[i + 1] == a[i + 1]);
      } else {
        assert GuardedAt(b, i - |a|) && ps[i] == b[i - |a|] && (i + 1 < |ps| ==> ps[i + 1] == b[i + 1 - |a|]);
      }
    }
  }

  lemma GuardedChars(s: string)
    ensures Guarded([Chars(s)])
  {
    CharsSimple(s);
  }

  lemma GuardedQuote(p: Piece)
    requires Escaping(p)
    ensures Guarded(Quote(p))
  {
    CharsSimple("\"");
    assert Chars("\"") == [['"']];
  }

  lemma SimpleEscaping(p: Piece)
    requires Simple(p)
    ensures Escaping(p)
  {
  }

  lemma GuardedTag(tag: Tag, first: bool, sep: string)
    ensures Guarded(TagGroup(tag, first, sep))
  {
    var comma := if first then [] else [Chars(",")];
    var key, value := Quote(Escapes(tag.key)), Quote(Escapes(tag.value));
    GuardedChars(",");
    GuardedChars(sep);
    EscapesEscaping(tag.key);
    EscapesEscaping(tag.value);
    GuardedQuote(Escapes(tag.key));
    GuardedQuote(Escapes(tag.value));
    GuardedConcat(comma, key);
    GuardedConcat(comma + key, [Chars(sep)]);
    GuardedConcat(comma + key + [Chars(sep)], value);
  }

  lemma {:induction false} GuardedTags(tags: seq<Tag>, k: nat, sep: string)
    requires k <= |tags|
    ensures Guarded(TagPieces(tags, k, sep))
  {
    if k > 0 {
      GuardedTags(tags, k - 1, sep);
      GuardedTag(tags[k - 1], k == 1, sep);
      GuardedConcat(TagPieces(tags, k - 1, sep), TagGroup(tags[k - 1], k == 1, sep));
    }
  }

  lemma GuardedValue(f: Field, sep: string)
    ensures Guarded(ValuePieces(f, sep))
  {
    match f
    case Plain(_, text) =>
      CharsSimple(text);
      SimpleEscaping(Chars(text));
      GuardedQuote(Chars(text));
    case Escaped(_, text) =>
      EscapesEscaping(text);
      GuardedQuote(Escapes(text));
    case Number(_, n) => GuardedChars(Decimal(n));
    case Tags(_, tags) =>
      GuardedChars("{");
      GuardedChars("}");
      GuardedTags(tags, |tags|, sep);
      GuardedConcat([Chars("{")], TagPieces(tags, |tags|, sep));
      GuardedConcat([Chars("{")] + TagPieces(tags, |tags|, sep), [Chars("}")]);
  }

  lemma GuardedThree(a: string, b: string, c: string)
    ensures Guarded([Chars(a), Chars(b), Chars(c)])
  {
    CharsSimple(a);
    CharsSimple(b);
    CharsSimple(c);
  }

  lemma GuardedField(f: Field, l: Layout)
    ensures Guarded(FieldPieces(f, l))
  {
    GuardedThree(l.indent, "\"" + f.name + "\"", l.sep);
    GuardedValue(f, l.sep);
    GuardedConcat([Chars(l.indent), Chars("\"" + f.name + "\""), Chars(l.sep)], ValuePieces(f, l.sep));
  }

  lemma {:induction false} GuardedUpTo(fs: seq<Field>, k: nat, l: Layout)
    requires k <= |fs|
    ensures Guarded(PiecesUpTo(fs, k, l))
  {
    if k == 0 {
      CharsSimple("{");
      CharsSimple(l.nl);
    } else {
      var tail := if k < |fs| then l.comma else l.nl;
      GuardedUpTo(fs, k - 1, l);
      GuardedField(fs[k - 1], l);
      GuardedChars(tail);
      GuardedConcat(PiecesUpTo(fs, k - 1, l), FieldPieces(fs[k - 1], l));
      GuardedConcat(PiecesUpTo(fs, k - 1, l) + FieldPieces(fs[k - 1], l), [Chars(tail)]);
    }
  }

  lemma GuardedAll(fs: seq<Field>, l: Layout)
    ensures Guarded(AllPieces(fs, l))
  {
    GuardedUpTo(fs, |fs|, l);
    GuardedChars("}");
    GuardedConcat(PiecesUpTo(fs, |fs|, l), [Chars("}")]);
  }

  /** For every entry and buffer: what Format leaves is a prefix of the whole JSON text if and only if
      the buffer's end does not fall inside an escape. */
  lemma CutIsPrefixExactly(e: LogEntry, ts: string, pretty: bool, room: nat)
    ensures var ps := AllPieces(Fields(e, ts), LayoutOf(pretty));
            Bounded(ps, room) <= Full(ps) <==> Aligned(Units(ps), room)
  {
    CutExactly(Fields(e, ts), LayoutOf(pretty), room);
  }

  lemma CutExactly(fs: seq<Field>, l: Layout, room: nat)
    ensures var ps := AllPieces(fs, l); Bounded(ps, room) <= Full(ps) <==> Aligned(Units(ps), room)
  {
    var ps := AllPieces(fs, l);
    GuardedAll(fs, l);
    BoundedIsFrom(ps, room);
    FullIsThen(ps);
    PrefixExactly(ps, room);
  }

  lemma OneUnit(u: string, room: nat)
    ensures Cut([u], room) == (if |u| <= room then u else "") && Join([u]) == u
  {
    assert [u][1..] == [] && u + "" == u;
  }

  lemma BoundedFromCons(p: Piece, ps: seq<Piece>, room: nat)
    ensures BoundedFrom([p] + ps, room) == Cut(p, room) + BoundedFrom(ps, room - |Cut(p, room)|)
  {
    assert ([p] + ps)[1..] == ps;
  }

  /** Three units, of which the second does not fit and the third does. */
  lemma ThreeBounded(a: string, b: string, c: string, room: nat)
    requires |a| <= room < |a| + |b| && |a| + |c| <= room
    ensures Bounded([[a], [b], [c]], room) == a + c
  {
    BoundedIsFrom([[a], [b], [c]], room);
    OneUnit(a, room);
    OneUnit(b, room - |a|);
    OneUnit(c, room - |a|);
    assert [[a], [b], [c]] == [[a]] + ([[b]] + ([[c]] + []));
    BoundedFromCons([a], [[b]] + ([[c]] + []), room);
    BoundedFromCons([b], [[c]] + [], room - |a|);
    BoundedFromCons([c], [], room - |a|);
    assert c + "" == c && "" + c == c;
  }

  lemma ThreeFull(a: string, b: string, c: string)
    ensures Full([[a], [b], [c]]) == a + (b + (c + ""))
  {
    FullIsThen([[a], [b], [c]]);
    FullThenThree([a], [b], [c], "");
    OneUnit(a, 0);
    OneUnit(b, 0);
    OneUnit(c, 0);
  }

  /** For instance: a quoted line feed in a room of two characters becomes two quotes, where the whole
      text goes on with a backslash. */
  lemma CutInsideEscape()
    ensures Bounded(Quote(Escapes("\n")), 2) == "\"\""
    ensures Full(Quote(Escapes("\n"))) == "\"\\n\"" && !("\"\"" <= "\"\\n\"")
  {
    assert Chars("\"") == ["\""] && Escapes("\n") == ["\\n"];
    assert Quote(Escapes("\n")) == [["\""], ["\\n"], ["\""]];
    ThreeBounded("\"", "\\n", "\"", 2);
    ThreeFull("\"", "\\n", "\"");
    assert "\"" + "\"" == "\"\"" && "\"" + ("\\n" + ("\"" + "")) == "\"\\n\"";
    assert "\"\""[1] != "\"\\n\""[1];
  }
}
