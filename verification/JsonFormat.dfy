/** JsonFormatter: the fields it writes, the pieces it appends for them, and the text they spell. */
module JsonFormat {
  import opened Text
  import opened JsonText
  import opened Pieces

  // ---------------------------------------------------------------- fields and layout

  /** One member of the top-level object. Plain text is written without escaping. */
  datatype Field =
    | Plain(name: string, text: string)
    | Escaped(name: string, text: string)
    | Number(name: string, n: nat)
    | Tags(name: string, tags: seq<Tag>)

  datatype Layout = Layout(nl: string, indent: string, sep: string, comma: string)

  function LayoutOf(pretty: bool): Layout {
    if pretty then Layout("\n", "  ", ": ", ",\n") else Layout("", "", ":", ",")
  }

  /** The members in the order the formatter writes them; `ts` is the rendered time stamp. */
  function Fields(e: LogEntry, ts: string): seq<Field> {
    [Plain("ts", ts), Plain("level", LevelName(e.level)), Escaped("file", OrEmpty(e.fileName)),
     Number("line", e.line), Escaped("func", OrEmpty(e.functionName)), Number("tid", e.threadId),
     Number("pid", e.processId), Escaped("thread", e.threadName), Number("seq", e.sequenceId),
     Tags("tags", e.tags), Escaped("msg", e.msg)]
  }

  // ---------------------------------------------------------------- pieces

  function Quote(p: Piece): seq<Piece> {
    [Chars("\""), p, Chars("\"")]
  }

  /** The pieces of the first k tags, the separating commas included. */
  function TagPieces(tags: seq<Tag>, k: nat, sep: string): seq<Piece>
    requires k <= |tags|
  {
    if k == 0 then []
    else
      TagPieces(tags, k - 1, sep) + TagGroup(tags[k - 1], k == 1, sep)
  }

  function ValuePieces(f: Field, sep: string): seq<Piece> {
    match f
    case Plain(_, text) => Quote(Chars(text))
    case Escaped(_, text) => Quote(Escapes(text))
    case Number(_, n) => [Chars(Decimal(n))]
    case Tags(_, tags) => [Chars("{")] + TagPieces(tags, |tags|, sep) + [Chars("}")]
  }

  function FieldPieces(f: Field, l: Layout): seq<Piece> {
    [Chars(l.indent), Chars("\"" + f.name + "\""), Chars(l.sep)] + ValuePieces(f, l.sep)
  }

  /** The pieces up to and including the k-th field and the separator after it. */
  function PiecesUpTo(fs: seq<Field>, k: nat, l: Layout): seq<Piece>
    requires k <= |fs|
  {
    if k == 0 then [Chars("{"), Chars(l.nl)]
    else PiecesUpTo(fs, k - 1, l) + FieldPieces(fs[k - 1], l) + [Chars(if k < |fs| then l.comma else l.nl)]
  }

  function AllPieces(fs: seq<Field>, l: Layout): seq<Piece> {
    PiecesUpTo(fs, |fs|, l) + [Chars("}")]
  }

  // ---------------------------------------------------------------- the text, front to back

  function QuotedThen(text: string, rest: string): string {
    "\"" + (text + ("\"" + rest))
  }

  function TagsThen(tags: seq<Tag>, sep: string, rest: string): string {
    if tags == [] then "}" + rest
    else QuotedThen(Escape(tags[0].key), sep + QuotedThen(Escape(tags[0].value),
           (if |tags| > 1 then "," else "") + TagsThen(tags[1..], sep, rest)))
  }

  function ValueThen(f: Field, sep: string, rest: string): string {
    match f
    case Plain(_, text) => QuotedThen(text, rest)
    case Escaped(_, text) => QuotedThen(Escape(text), rest)
    case Number(_, n) => Decimal(n) + rest
    case Tags(_, tags) => "{" + TagsThen(tags, sep, rest)
  }

  function MembersThen(fs: seq<Field>, l: Layout, rest: string): string {
    if fs == [] then "}" + rest
    else l.indent + QuotedThen(fs[0].name, l.sep + ValueThen(fs[0], l.sep,
           (if |fs| > 1 then l.comma else l.nl) + MembersThen(fs[1..], l, rest)))
  }

  lemma QuotePieces(p: Piece, rest: string)
    ensures FullThen(Quote(p), rest) == QuotedThen(Join(p), rest)
  {
    FullThenThree(Chars("\""), p, Chars("\""), rest);
    JoinChars("\"");
  }

  function TagGroup(tag: Tag, first: bool, sep: string): seq<Piece> {
    (if first then [] else [Chars(",")]) + Quote(Escapes(tag.key)) + [Chars(sep)] + Quote(Escapes(tag.value))
  }

  lemma TagGroupText(tag: Tag, first: bool, sep: string, rest: string)
    ensures FullThen(TagGroup(tag, first, sep), rest)
         == (if first then "" else ",") + QuotedThen(Escape(tag.key), sep + QuotedThen(Escape(tag.value), rest))
  {
    var comma, key, value := if first then [] else [Chars(",")], Quote(Escapes(tag.key)), Quote(Escapes(tag.value));
    FullThenConcat(comma + key + [Chars(sep)], value, rest);
    QuotePieces(value[1], rest);
    JoinEscapes(tag.key);
    JoinEscapes(tag.value);
    var t1 := QuotedThen(Escape(tag.value), rest);
    FullThenConcat(comma + key, [Chars(sep)], t1);
    FullThenChars(sep, t1);
    FullThenConcat(comma, key, sep + t1);
    QuotePieces(key[1], sep + t1);
    var t2 := QuotedThen(Escape(tag.key), sep + t1);
    if first { assert "" + t2 == t2; } else { FullThenChars(",", t2); }
  }

  /** The tags as pieces, cut at any k, spell the tags' text. */
  lemma {:induction false} TagsSplit(tags: seq<Tag>, k: nat, sep: string, rest: string)
    requires k <= |tags|
    ensures FullThen(TagPieces(tags, k, sep), TagsRest(tags, k, sep, rest)) == TagsThen(tags, sep, rest)
  {
    if k == 0 {
      assert tags[0..] == tags;
      assert "" + TagsThen(tags, sep, rest) == TagsThen(tags, sep, rest);
    } else {
      TagsSplit(tags, k - 1, sep, rest);
      TagMoves(tags, k - 1, sep, rest);
    }
  }

  function TagsRest(tags: seq<Tag>, k: nat, sep: string, rest: string): string
    requires k <= |tags|
  {
    (if 0 < k < |tags| then "," else "") + TagsThen(tags[k..], sep, rest)
  }

  lemma TagMoves(tags: seq<Tag>, k: nat, sep: string, rest: string)
    requires k < |tags|
    ensures FullThen(TagPieces(tags, k + 1, sep), TagsRest(tags, k + 1, sep, rest))
         == FullThen(TagPieces(tags, k, sep), TagsRest(tags, k, sep, rest))
  {
    var after := TagsRest(tags, k + 1, sep, rest);
    FullThenConcat(TagPieces(tags, k, sep), TagGroup(tags[k], k == 0, sep), after);
    TagGroupText(tags[k], k == 0, sep, after);
    TagsFrom(tags, k, sep, rest);
  }

  lemma TagsFrom(tags: seq<Tag>, k: nat, sep: string, rest: string)
    requires k < |tags|
    ensures TagsThen(tags[k..], sep, rest)
         == QuotedThen(Escape(tags[k].key), sep + QuotedThen(Escape(tags[k].value),
              (if k + 1 < |tags| then "," else "") + TagsThen(tags[k + 1..], sep, rest)))
  {
    assert tags[k..][0] == tags[k] && tags[k..][1..] == tags[k + 1..];
  }

  lemma ValueSplit(f: Field, sep: string, rest: string)
    ensures FullThen(ValuePieces(f, sep), rest) == ValueThen(f, sep, rest)
  {
    match f
    case Plain(_, text) =>
      QuotePieces(Chars(text), rest);
      JoinChars(text);
    case Escaped(_, text) =>
      QuotePieces(Escapes(text), rest);
      JoinEscapes(text);
    case Number(_, n) => FullThenChars(Decimal(n), rest);
    case Tags(_, tags) =>
      var body := TagPieces(tags, |tags|, sep);
      FullThenConcat([Chars("{")] + body, [Chars("}")], rest);
      FullThenChars("}", rest);
      FullThenConcat([Chars("{")], body, "}" + rest);
      assert "" + ("}" + rest) == "}" + rest && tags[|tags|..] == [];
      TagsSplit(tags, |tags|, sep, rest);
      FullThenChars("{", FullThen(body, "}" + rest));
  }

  lemma FieldSplit(f: Field, l: Layout, rest: string)
    ensures FullThen(FieldPieces(f, l), rest) == l.indent + QuotedThen(f.name, l.sep + ValueThen(f, l.sep, rest))
  {
    var head := [Chars(l.indent), Chars("\"" + f.name + "\""), Chars(l.sep)];
    var value := ValueThen(f, l.sep, rest);
    FullThenConcat(head, ValuePieces(f, l.sep), rest);
    ValueSplit(f, l.sep, rest);
    FullThenThree(head[0], head[1], head[2], value);
    JoinChars(l.indent);
    JoinChars("\"" + f.name + "\"");
    JoinChars(l.sep);
    NameQuoted(f.name, l.sep + value);
  }

  lemma NameQuoted(name: string, rest: string)
    ensures ("\"" + name + "\"") + rest == QuotedThen(name, rest)
  {
  }

  /** The fields as pieces, cut at any k, spell the object's text. */
  lemma {:induction false} FieldsSplit(fs: seq<Field>, k: nat, l: Layout, rest: string)
    requires k <= |fs|
    ensures FullThen(PiecesUpTo(fs, k, l), MembersThen(fs[k..], l, rest)) == "{" + (l.nl + MembersThen(fs, l, rest))
  {
    if k == 0 {
      assert fs[0..] == fs;
      OpenText(l, MembersThen(fs, l, rest));
    } else {
      FieldsSplit(fs, k - 1, l, rest);
      FieldMoves(fs, k - 1, l, rest);
    }
  }

  lemma OpenText(l: Layout, rest: string)
    ensures FullThen([Chars("{"), Chars(l.nl)], rest) == "{" + (l.nl + rest)
  {
    assert [Chars("{"), Chars(l.nl)] == [Chars("{")] + [Chars(l.nl)];
    FullThenConcat([Chars("{")], [Chars(l.nl)], rest);
    FullThenChars(l.nl, rest);
    FullThenChars("{", l.nl + rest);
  }

  lemma FieldMoves(fs: seq<Field>, k: nat, l: Layout, rest: string)
    requires k < |fs|
    ensures FullThen(PiecesUpTo(fs, k + 1, l), MembersThen(fs[k + 1..], l, rest))
         == FullThen(PiecesUpTo(fs, k, l), MembersThen(fs[k..], l, rest))
  {
    var after := MembersThen(fs[k + 1..], l, rest);
    FieldStep(PiecesUpTo(fs, k, l), fs[k], if k + 1 < |fs| then l.comma else l.nl, l, after);
    MembersFrom(fs, k, l, rest);
  }

  lemma FieldStep(before: seq<Piece>, f: Field, tail: string, l: Layout, after: string)
    ensures FullThen(before + FieldPieces(f, l) + [Chars(tail)], after)
         == FullThen(before, l.indent + QuotedThen(f.name, l.sep + ValueThen(f, l.sep, tail + after)))
  {
    FullThenConcat(before + FieldPieces(f, l), [Chars(tail)], after);
    FullThenChars(tail, after);
    FullThenConcat(before, FieldPieces(f, l), tail + after);
    FieldSplit(f, l, tail + after);
  }

  lemma MembersFrom(fs: seq<Field>, k: nat, l: Layout, rest: string)
    requires k < |fs|
    ensures MembersThen(fs[k..], l, rest)
         == l.indent + QuotedThen(fs[k].name, l.sep + ValueThen(fs[k], l.sep,
              (if k + 1 < |fs| then l.comma else l.nl) + MembersThen(fs[k + 1..], l, rest)))
  {
    assert fs[k..][0] == fs[k] && fs[k..][1..] == fs[k + 1..];
  }

  lemma PiecesText(fs: seq<Field>, l: Layout)
    ensures Full(AllPieces(fs, l)) == "{" + (l.nl + MembersThen(fs, l, ""))
  {
    FullThenIs(AllPieces(fs, l), "");
    assert Full(AllPieces(fs, l)) + "" == Full(AllPieces(fs, l));
    FullThenConcat(PiecesUpTo(fs, |fs|, l), [Chars("}")], "");
    FullThenChars("}", "");
    assert fs[|fs|..] == [];
    FieldsSplit(fs, |fs|, l, "");
  }
}
