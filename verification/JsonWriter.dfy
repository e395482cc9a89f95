/** JsonFormatter as code: EscapeJsonString and Format filling a caller's buffer in place. */
module JsonWriter {
  import opened Text
  import opened Pieces
  import opened JsonText
  import opened JsonFormat

  /** memcpy(dst + at, text, |text|) */
  method Store(dst: array<char>, at: nat, text: string)
    requires at + |text| <= dst.Length
    modifies dst
    ensures dst[..at + |text|] == old(dst[..at]) + text
    ensures forall k :: at + |text| <= k < dst.Length ==> dst[k] == old(dst[k])
  {
    forall k | 0 <= k < |text| { dst[at + k] := text[k]; }
  }

  /** The switch over one character: what is to be written for it. */
  method Unit(c: char) returns (unit: string)
    ensures unit == Escape1(c)
  {
    if c == '"' { unit := "\\\""; }
    else if c == '\\' { unit := "\\\\"; }
    else if c == '\n' { unit := "\\n"; }
    else if c == '\r' { unit := "\\r"; }
    else if c == '\t' { unit := "\\t"; }
    else if c as int <= 0x1F {
      unit := ['\\', 'u', HEX[0], HEX[0], HEX[c as int / 16], HEX[c as int % 16]];
    } else { unit := [c]; }
  }

  /** What the loop keeps: behind `before` stand the first i units, and no unit that fits was
      left out. */
  ghost predicate Written(out: string, before: string, units: Piece, i: nat, size: nat)
    requires i <= |units|
  {
    |before| <= |out| <= |before| + size
    && out + Cut(units[i..], |before| + size - |out|) == before + Cut(units, size)
  }

  lemma WrittenStart(before: string, units: Piece, size: nat)
    ensures Written(before, before, units, 0, size)
  {
    assert units[0..] == units;
  }

  lemma WrittenNext(out: string, before: string, units: Piece, i: nat, size: nat)
    requires i < |units| && Written(out, before, units, i, size)
    ensures |out| + |units[i]| <= |before| + size ==> Written(out + units[i], before, units, i + 1, size)
    ensures |out| + |units[i]| > |before| + size ==> out == before + Cut(units, size)
  {
    var room := |before| + size - |out|;
    CutFrom(units, i, room);
    if |units[i]| <= room {
      WrittenMore(out, units[i], Cut(units[i + 1..], room - |units[i]|), Cut(units[i..], room));
    } else {
      assert out + [] == out;
    }
  }

  lemma WrittenMore(out: string, unit: string, rest: string, all: string)
    requires all == unit + rest
    ensures (out + unit) + rest == out + all
  {
    Assoc(out, unit, rest);
  }

  lemma WrittenEnd(out: string, before: string, units: Piece, size: nat)
    requires Written(out, before, units, |units|, size)
    ensures out == before + Cut(units, size)
  {
    assert units[|units|..] == [] && out + [] == out;
  }

  /** The loop over the source characters; `units` lists what is due for each. */
  method EscapeLoop(src: string, dst: array<char>, off: nat, size: nat, ghost units: Piece) returns (end: nat)
    requires off + size <= dst.Length
    requires |units| == |src| && forall i :: 0 <= i < |src| ==> units[i] == Escape1(src[i])
    modifies dst
    ensures end <= off + size
    ensures dst[..end] == old(dst[..off]) + Cut(units, size)
    ensures forall k :: off + size <= k < dst.Length ==> dst[k] == old(dst[k])
  {
    end := off;
    ghost var before, out := dst[..off], dst[..off];
    WrittenStart(before, units, size);
    for i := 0 to |src|
      invariant off <= end <= off + size
      invariant out == dst[..end] && Written(out, before, units, i, size)
      invariant forall k :: off + size <= k < dst.Length ==> dst[k] == old(dst[k])
    {
      var unit := Unit(src[i]);
      WrittenNext(out, before, units, i, size);
      if end + |unit| > off + size { return; }
      Store(dst, end, unit);
      out := out + unit;
      end := end + |unit|;
    }
    WrittenEnd(out, before, units, size);
  }

  /** Writes src, escaped, to dst[off..off + size] as far as whole escapes fit; returns how much. */
  method EscapeJsonString(src: string, dst: array<char>, off: nat, size: nat) returns (n: nat)
    requires off + size <= dst.Length
    modifies dst
    ensures n <= size
    ensures dst[..off + n] == old(dst[..off]) + Cut(Escapes(src), size)
    ensures Cut(Escapes(src), size) == Escape(src[..FitCount(src, size)])
    ensures forall k :: off + size <= k < dst.Length ==> dst[k] == old(dst[k])
  {
    ghost var units := Escapes(src);
    forall i | 0 <= i < |src| ensures units[i] == Escape1(src[i]) { EscapesAt(src, i); }
    var end := EscapeLoop(src, dst, off, size, units);
    CutEscapes(src, size);
    n := end - off;
  }

  lemma AppendFits(out: string, ps: seq<Piece>, src: string, room: nat)
    requires out == Bounded(ps, room)
    ensures var n := if |src| < room - |out| then |src| else room - |out|;
            Bounded(ps + [Chars(src)], room) == out + src[..n]
    ensures |out| >= room ==> Bounded(ps + [Chars(src)], room) == out
  {
    BoundedSnoc(ps, Chars(src), room);
    CutChars(src, room - |out|);
  }

  /** The buffer, the write position, and (for the proof) the pieces appended so far. */
  class Cursor {
    const buf: array<char>
    var pos: nat
    ghost var pieces: seq<Piece>

    ghost predicate Valid()
      reads this, buf
    {
      buf.Length >= 1 && pos <= buf.Length - 1 && buf[..pos] == Bounded(pieces, buf.Length - 1)
    }

    constructor (b: array<char>)
      requires b.Length >= 1
      ensures Valid() && buf == b && pos == 0 && pieces == []
    {
      buf := b;
      pos := 0;
      pieces := [];
    }

    /** safe_append */
    method Append(src: string)
      requires Valid()
      modifies this, buf
      ensures Valid() && pieces == old(pieces) + [Chars(src)]
    {
      var avail := buf.Length - 1 - pos;
      var n := if |src| < avail then |src| else avail;
      AppendFits(buf[..pos], pieces, src, buf.Length - 1);
      pieces := pieces + [Chars(src)];
      if pos >= buf.Length - 1 { return; }
      Store(buf, pos, src[..n]);
      pos := pos + n;
    }

    /** append_escaped */
    method AppendEscaped(src: string)
      requires Valid()
      modifies this, buf
      ensures Valid() && pieces == old(pieces) + [Escapes(src)]
    {
      var avail := buf.Length - 1 - pos;
      ghost var done := buf[..pos];
      BoundedSnoc(pieces, Escapes(src), buf.Length - 1);
      pieces := pieces + [Escapes(src)];
      if pos >= buf.Length - 1 {
        assert done + [] == done;
        return;
      }
      var n := EscapeJsonString(src, buf, pos, avail);
      pos := pos + n;
    }

    /** buf[pos] = '\0'; return pos */
    method Finish() returns (n: nat)
      requires Valid()
      modifies buf
      ensures n < buf.Length && buf[n] == '\0' && buf[..n] == Bounded(pieces, buf.Length - 1)
    {
      n := pos;
      ghost var text := buf[..n];
      buf[n] := '\0';
      assert buf[..n] == text;
    }

    method Head(name: string, l: Layout)
      requires Valid()
      modifies this, buf
      ensures Valid()
      ensures pieces == old(pieces) + [Chars(l.indent), Chars("\"" + name + "\""), Chars(l.sep)]
    {
      Append(l.indent);
      Append("\"" + name + "\"");
      Append(l.sep);
    }

    method AppendQuoted(text: string)
      requires Valid()
      modifies this, buf
      ensures Valid() && pieces == old(pieces) + Quote(Escapes(text))
    {
      Append("\"");
      AppendEscaped(text);
      Append("\"");
    }

    /** One "key": "value" of the tags object, after a comma if it is not the first. */
    method AppendTag(tag: Tag, first: bool, sep: string)
      requires Valid()
      modifies this, buf
      ensures Valid() && pieces == old(pieces) + TagGroup(tag, first, sep)
    {
      if !first { Append(","); }
      AppendQuoted(tag.key);
      Append(sep);
      AppendQuoted(tag.value);
    }

    method AppendTags(tags: seq<Tag>, sep: string)
      requires Valid()
      modifies this, buf
      ensures Valid() && pieces == old(pieces) + TagPieces(tags, |tags|, sep)
    {
      for t := 0 to |tags|
        invariant Valid() && pieces == old(pieces) + TagPieces(tags, t, sep)
      {
        AppendTag(tags[t], t == 0, sep);
        assert pieces == old(pieces) + (TagPieces(tags, t, sep) + TagGroup(tags[t], t == 0, sep));
      }
    }

    method AppendValue(f: Field, sep: string)
      requires Valid()
      modifies this, buf
      ensures Valid() && pieces == old(pieces) + ValuePieces(f, sep)
    {
      match f
      case Plain(_, text) =>
        Append("\"");
        Append(text);
        Append("\"");
      case Escaped(_, text) => AppendQuoted(text);
      case Number(_, n) => Append(Decimal(n));
      case Tags(_, tags) =>
        Append("{");
        AppendTags(tags, sep);
        Append("}");
    }

    /** One field and the separator after it. */
    method Member(fs: seq<Field>, k: nat, l: Layout)
      requires Valid() && k < |fs| && pieces == PiecesUpTo(fs, k, l)
      modifies this, buf
      ensures Valid() && pieces == PiecesUpTo(fs, k + 1, l)
    {
      ghost var before, head := pieces, [Chars(l.indent), Chars("\"" + fs[k].name + "\""), Chars(l.sep)];
      Head(fs[k].name, l);
      AppendValue(fs[k], l.sep);
      Assoc(before, head, ValuePieces(fs[k], l.sep));
      Append(if k + 1 < |fs| then l.comma else l.nl);
    }
  }

  /** Four fields in a row. */
  method WriteFour(c: Cursor, fs: seq<Field>, k: nat, l: Layout)
    requires k + 4 <= |fs| && c.Valid() && c.pieces == PiecesUpTo(fs, k, l)
    modifies c, c.buf
    ensures c.Valid() && c.pieces == PiecesUpTo(fs, k + 4, l)
  {
    c.Member(fs, k, l);
    c.Member(fs, k + 1, l);
    c.Member(fs, k + 2, l);
    c.Member(fs, k + 3, l);
  }

  method WriteOpen(c: Cursor, fs: seq<Field>, l: Layout)
    requires c.Valid() && c.pieces == []
    modifies c, c.buf
    ensures c.Valid() && c.pieces == PiecesUpTo(fs, 0, l)
  {
    c.Append("{");
    c.Append(l.nl);
  }

  /** The last three fields and the closing brace. */
  method WriteLast(c: Cursor, fs: seq<Field>, k: nat, l: Layout)
    requires k + 3 == |fs| && c.Valid() && c.pieces == PiecesUpTo(fs, k, l)
    modifies c, c.buf
    ensures c.Valid() && c.pieces == AllPieces(fs, l)
  {
    c.Member(fs, k, l);
    c.Member(fs, k + 1, l);
    c.Member(fs, k + 2, l);
    c.Append("}");
  }

  method WriteEleven(c: Cursor, fs: seq<Field>, k: nat, l: Layout)
    requires k + 11 == |fs| && c.Valid() && c.pieces == PiecesUpTo(fs, k, l)
    modifies c, c.buf
    ensures c.Valid() && c.pieces == AllPieces(fs, l)
  {
    WriteFour(c, fs, k, l);
    WriteFour(c, fs, k + 4, l);
    WriteLast(c, fs, k + 8, l);
  }

  method WriteAll(c: Cursor, fs: seq<Field>, l: Layout)
    requires |fs| == 11 && c.Valid() && c.pieces == []
    modifies c, c.buf
    ensures c.Valid() && c.pieces == AllPieces(fs, l)
  {
    WriteOpen(c, fs, l);
    WriteEleven(c, fs, 0, l);
  }

  /** A new cursor, all pieces, and the terminator. */
  method Render(fs: seq<Field>, l: Layout, buf: array<char>, ghost ps: seq<Piece>) returns (n: nat)
    requires |fs| == 11 && buf.Length >= 1 && ps == AllPieces(fs, l)
    modifies buf
    ensures n < buf.Length && buf[n] == '\0' && buf[..n] == Bounded(ps, buf.Length - 1)
  {
    var c := new Cursor(buf);
    WriteAll(c, fs, l);
    n := c.Finish();
  }

  /** Format: for every buffer, the bounded text and a terminator; the full text whenever it fits. */
  method Format(e: LogEntry, ts: string, pretty: bool, buf: array<char>) returns (n: nat)
    modifies buf
    ensures buf.Length == 0 ==> n == 0
    ensures buf.Length > 0 ==>
              && n <= buf.Length - 1 && buf[n] == '\0'
              && buf[..n] == Bounded(AllPieces(Fields(e, ts), LayoutOf(pretty)), buf.Length - 1)
    ensures var text := Full(AllPieces(Fields(e, ts), LayoutOf(pretty)));
            |text| < buf.Length ==> n <= buf.Length && buf[..n] == text
  {
    if buf.Length == 0 { return 0; }
    ghost var ps := AllPieces(Fields(e, ts), LayoutOf(pretty));
    n := Render(Fields(e, ts), LayoutOf(pretty), buf, ps);
    FitsWhole(ps, buf.Length - 1);
  }

  lemma FitsWhole(ps: seq<Piece>, room: nat)
    ensures |Full(ps)| <= room ==> Bounded(ps, room) == Full(ps)
  {
    if |Full(ps)| <= room { BoundedFits(ps, room); }
  }
}
