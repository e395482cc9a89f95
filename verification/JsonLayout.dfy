/** The two layouts of the JSON text, and the form of escapes: what a reader that skips white space
    and accepts every escape does not see. */
module JsonLayout {
  import opened Text
  import opened Pieces
  import opened JsonText
  import opened JsonFormat
  import opened JsonRoundTrip

  // ---------------------------------------------------------------- escapes

  /** Quote, backslash, line feed, carriage return and tab have two-character escapes; other control
      characters are "\u00" and two upper-case hexadecimal digits of their code; the rest is itself. */
  lemma EscapeForms(c: char)
    ensures Escape1('"') == "\\\"" && Escape1('\\') == "\\\\"
    ensures Escape1('\n') == "\\n" && Escape1('\r') == "\\r" && Escape1('\t') == "\\t"
    ensures c as int >= 0x20 && c != '"' && c != '\\' ==> Escape1(c) == [c]
    ensures c as int < 0x20 && c != '\n' && c != '\r' && c != '\t' ==>
              var e := Escape1(c);
              && |e| == 6 && e[..4] == "\\u00" && !('a' <= e[4] <= 'f') && !('a' <= e[5] <= 'f')
              && HexValue(e[4]).Some? && HexValue(e[5]).Some?
              && 16 * HexValue(e[4]).value + HexValue(e[5]).value == c as int
  {
    if c as int < 0x20 && c != '\n' && c != '\r' && c != '\t' {
      var n := c as int;
      HexDigit(n / 16);
      HexDigit(n % 16);
      assert Escape1(c)[..4] == "\\u00";
    }
  }

  lemma HexDigit(d: nat)
    requires d < 16
    ensures HexValue(HEX[d]) == Some(d) && !('a' <= HEX[d] <= 'f')
  {
  }

  // ---------------------------------------------------------------- the compact text

  /** The text outside its strings, quotes included: what follows a string is found by reading it. */
  function Bare(s: string): string
    decreases |s|
  {
    if s == [] then []
    else if s[0] == '"' then (match ReadString(s) case None => [] case Some((_, rest)) => Bare(rest))
    else [s[0]] + Bare(s[1..])
  }

  /** No white space outside strings. */
  predicate Tight(s: string) {
    forall i :: 0 <= i < |Bare(s)| ==> !IsSpace(Bare(s)[i])
  }

  lemma TightString(text: string, rest: string)
    requires Tight(rest)
    ensures Tight(QuotedThen(Escape(text), rest))
  {
    QuotedReads(text, rest);
  }

  lemma TightPlain(text: string, rest: string)
    requires IsPlain(text) && Tight(rest)
    ensures Tight(QuotedThen(text, rest))
  {
    PlainEscape(text);
    TightString(text, rest);
  }

  lemma {:induction false} TightMarks(marks: string, rest: string)
    requires Tight(rest) && forall i :: 0 <= i < |marks| ==> marks[i] != '"' && !IsSpace(marks[i])
    ensures Tight(marks + rest)
  {
    if marks == [] {
      assert marks + rest == rest;
    } else {
      TightMarks(marks[1..], rest);
      assert (marks + rest)[1..] == marks[1..] + rest;
    }
  }

  lemma {:induction false} TightTags(tags: seq<Tag>, rest: string)
    requires Tight(rest)
    ensures Tight(TagsThen(tags, ":", rest))
  {
    if tags == [] {
      TightMarks("}", rest);
    } else {
      var more := (if |tags| > 1 then "," else "") + TagsThen(tags[1..], ":", rest);
      TightTags(tags[1..], rest);
      TightMarks(if |tags| > 1 then "," else "", TagsThen(tags[1..], ":", rest));
      TightString(tags[0].value, more);
      TightMarks(":", QuotedThen(Escape(tags[0].value), more));
      TightString(tags[0].key, ":" + QuotedThen(Escape(tags[0].value), more));
    }
  }

  lemma TightValue(f: Field, rest: string)
    requires FieldOk(f) && Tight(rest)
    ensures Tight(ValueThen(f, ":", rest))
  {
    match f
    case Plain(_, text) => TightPlain(text, rest);
    case Escaped(_, text) => TightString(text, rest);
    case Number(_, n) => TightMarks(Decimal(n), rest);
    case Tags(_, tags) =>
      TightTags(tags, rest);
      TightMarks("{", TagsThen(tags, ":", rest));
  }

  lemma {:induction false} TightMembers(fs: seq<Field>, rest: string)
    requires Tight(rest) && forall i :: 0 <= i < |fs| ==> FieldOk(fs[i])
    ensures Tight(MembersThen(fs, LayoutOf(false), rest))
  {
    var l := LayoutOf(false);
    if fs == [] {
      TightMarks("}", rest);
    } else {
      var after := (if |fs| > 1 then l.comma else l.nl) + MembersThen(fs[1..], l, rest);
      TightMembers(fs[1..], rest);
      TightMarks(if |fs| > 1 then "," else "", MembersThen(fs[1..], l, rest));
      TightValue(fs[0], after);
      TightMarks(":", ValueThen(fs[0], ":", after));
      TightPlain(fs[0].name, ":" + ValueThen(fs[0], ":", after));
      TightMarks("", QuotedThen(fs[0].name, ":" + ValueThen(fs[0], ":", after)));
    }
  }

  /** The compact text of every entry has no white space outside strings. */
  lemma CompactIsTight(e: LogEntry, ts: string)
    requires IsPlain(ts)
    ensures Tight(Full(AllPieces(Fields(e, ts), LayoutOf(false))))
  {
    var fs := Fields(e, ts);
    FieldsOk(e, ts);
    PiecesText(fs, LayoutOf(false));
    TightMembers(fs, "");
    TightMarks("", MembersThen(fs, LayoutOf(false), ""));
    TightMarks("{", "" + MembersThen(fs, LayoutOf(false), ""));
  }

  // ---------------------------------------------------------------- the pretty text

  /** A value as it is written in the pretty text. */
  function PrettyValue(f: Field): string {
    ValueThen(f, ": ", "")
  }

  /** One line for each member, indented by two spaces, with ": " behind the name and a comma behind
      all values but the last. */
  function PrettyLines(fs: seq<Field>): string {
    if fs == [] then ""
    else
      var end := if |fs| > 1 then ",\n" else "\n";
      ("  \"" + fs[0].name + "\": ") + (PrettyValue(fs[0]) + (end + PrettyLines(fs[1..])))
  }

  lemma QuotedSplit(text: string, rest: string)
    ensures QuotedThen(text, rest) == QuotedThen(text, "") + rest
  {
    assert ("\"" + "") + rest == "\"" + rest;
    Assoc(text, "\"" + "", rest);
    Assoc("\"", text + ("\"" + ""), rest);
  }

  lemma {:induction false} TagsEnd(tags: seq<Tag>, sep: string, rest: string)
    ensures TagsThen(tags, sep, rest) == TagsThen(tags, sep, "") + rest
  {
    if tags == [] {
      assert ("}" + "") + rest == "}" + rest;
    } else {
      var comma := if |tags| > 1 then "," else "";
      var t0 := comma + TagsThen(tags[1..], sep, "");
      TagsEnd(tags[1..], sep, rest);
      Assoc(comma, TagsThen(tags[1..], sep, ""), rest);
      TagEnd(tags[0], sep, t0, rest);
    }
  }

  lemma TagEnd(t: Tag, sep: string, more: string, rest: string)
    ensures QuotedThen(Escape(t.key), sep + QuotedThen(Escape(t.value), more + rest))
         == QuotedThen(Escape(t.key), sep + QuotedThen(Escape(t.value), more)) + rest
  {
    var v, k := QuotedThen(Escape(t.value), ""), QuotedThen(Escape(t.key), "");
    QuotedSplit(Escape(t.value), more + rest);
    QuotedSplit(Escape(t.value), more);
    QuotedSplit(Escape(t.key), sep + (v + (more + rest)));
    QuotedSplit(Escape(t.key), sep + (v + more));
    Assoc(v, more, rest);
    Assoc(sep, v + more, rest);
    Assoc(k, sep + (v + more), rest);
  }

  lemma ValueEnd(f: Field, sep: string, rest: string)
    ensures ValueThen(f, sep, rest) == ValueThen(f, sep, "") + rest
  {
    match f
    case Plain(_, text) => QuotedSplit(text, rest);
    case Escaped(_, text) => QuotedSplit(Escape(text), rest);
    case Number(_, n) => assert Decimal(n) + "" == Decimal(n);
    case Tags(_, tags) =>
      TagsEnd(tags, sep, rest);
      Assoc("{", TagsThen(tags, sep, ""), rest);
  }

  lemma {:induction false} PrettyMembers(fs: seq<Field>)
    ensures MembersThen(fs, LayoutOf(true), "") == PrettyLines(fs) + "}"
  {
    if fs == [] {
      assert "}" + "" == "}" && "" + "}" == "}";
    } else {
      var l := LayoutOf(true);
      var tail := if |fs| > 1 then ",\n" else "\n";
      PrettyMembers(fs[1..]);
      PrettyMember(fs[0], tail, MembersThen(fs[1..], l, ""));
      Assoc(tail, PrettyLines(fs[1..]), "}");
      Assoc(PrettyValue(fs[0]), tail + PrettyLines(fs[1..]), "}");
      Assoc("  \"" + fs[0].name + "\": ", PrettyValue(fs[0]) + (tail + PrettyLines(fs[1..])), "}");
    }
  }

  lemma PrettyMember(f: Field, tail: string, more: string)
    ensures "  " + QuotedThen(f.name, ": " + ValueThen(f, ": ", tail + more))
         == ("  \"" + f.name + "\": ") + (PrettyValue(f) + (tail + more))
  {
    var v := PrettyValue(f) + (tail + more);
    ValueEnd(f, ": ", tail + more);
    NameHead(f.name, v);
  }

  lemma NameHead(name: string, v: string)
    ensures "  " + ("\"" + (name + ("\"" + (": " + v)))) == ("  \"" + name + "\": ") + v
  {
    assert "  " + ("\"" + (name + ("\"" + (": " + v)))) == "  \"" + (name + ("\": " + v));
  }

  /** The pretty text of every entry is "{", a line for each of its members, and "}". */
  lemma PrettyHasLines(e: LogEntry, ts: string)
    ensures Full(AllPieces(Fields(e, ts), LayoutOf(true))) == "{\n" + (PrettyLines(Fields(e, ts)) + "}")
  {
    var fs := Fields(e, ts);
    PiecesText(fs, LayoutOf(true));
    PrettyMembers(fs);
    Assoc("{", "\n", PrettyLines(fs) + "}");
    assert "{" + "\n" == "{\n";
  }
}
