/** A JSON reader recovers from the formatter's text the same ordered list of fields. */
module JsonRoundTrip {
  import opened Text
  import opened Pieces
  import opened JsonText
  import opened JsonFormat

  // ---------------------------------------------------------------- what is recovered

  function TagMembers(tags: seq<Tag>): seq<(string, Value)> {
    if tags == [] then [] else [(tags[0].key, Str(tags[0].value))] + TagMembers(tags[1..])
  }

  function ValueOf(f: Field): Value {
    match f
    case Plain(_, text) => Str(text)
    case Escaped(_, text) => Str(text)
    case Number(_, n) => Num(n)
    case Tags(_, tags) => Obj(TagMembers(tags))
  }

  function Members(fs: seq<Field>): seq<(string, Value)> {
    if fs == [] then [] else [(fs[0].name, ValueOf(fs[0]))] + Members(fs[1..])
  }

  // ---------------------------------------------------------------- plain text

  /** Text that JSON strings may hold as it is. */
  predicate IsPlain(s: string) {
    forall i :: 0 <= i < |s| ==> s[i] != '"' && s[i] != '\\' && s[i] as int >= 0x20
  }

  lemma {:induction false} PlainEscape(s: string)
    requires IsPlain(s)
    ensures Escape(s) == s
  {
    if s != [] {
      PlainEscape(s[1..]);
      assert [s[0]] + s[1..] == s;
    }
  }

  // ---------------------------------------------------------------- tokens

  lemma QuotedReads(s: string, rest: string)
    ensures ReadString(QuotedThen(Escape(s), rest)) == Some((s, rest))
  {
    var inner := Escape(s) + ("\"" + rest);
    assert ("\"" + inner)[1..] == inner;
    EscapedReads(s, rest);
  }

  lemma PlainReads(s: string, rest: string)
    requires IsPlain(s)
    ensures ReadString(QuotedThen(s, rest)) == Some((s, rest))
  {
    PlainEscape(s);
    QuotedReads(s, rest);
  }

  predicate AllSpace(s: string) {
    forall i :: 0 <= i < |s| ==> IsSpace(s[i])
  }

  lemma {:induction false} SkipPrefix(w: string, s: string)
    requires AllSpace(w)
    ensures SkipSpace(w + s) == SkipSpace(s)
  {
    if w == [] {
      assert w + s == s;
    } else {
      SkipPrefix(w[1..], s);
      assert (w + s)[1..] == w[1..] + s;
    }
  }

  lemma {:induction false} DigitRun(ds: string, rest: string)
    requires forall i :: 0 <= i < |ds| ==> IsDigit(ds[i])
    requires rest == [] || !IsDigit(rest[0])
    ensures DigitCount(ds + rest) == |ds|
  {
    if ds == [] {
      assert ds + rest == rest;
    } else {
      DigitRun(ds[1..], rest);
      assert (ds + rest)[1..] == ds[1..] + rest;
    }
  }

  lemma NumberReads(n: nat, rest: string)
    requires rest == [] || !IsDigit(rest[0])
    ensures ReadValue(Decimal(n) + rest) == Some((Num(n), rest))
  {
    var ds := Decimal(n);
    DigitRun(ds, rest);
    DecimalLeading(n);
    DecimalReads(n);
    assert (ds + rest)[..|ds|] == ds && (ds + rest)[|ds|..] == rest;
  }

  // ---------------------------------------------------------------- objects

  /** ":" or "," and white space. */
  predicate Punctuation(s: string, c: char) {
    |s| >= 1 && s[0] == c && AllSpace(s[1..])
  }

  /** After a name and the separator, the reader stands at the value. */
  lemma SepReads(sep: string, value: string)
    requires Punctuation(sep, ':')
    ensures var s := SkipSpace(sep + value); s != [] && s[0] == ':' && SkipSpace(s[1..]) == SkipSpace(value)
  {
    assert (sep + value)[0] == ':' && (sep + value)[1..] == sep[1..] + value;
    SkipPrefix(sep[1..], value);
  }

  lemma CommaReads(comma: string, next: string)
    requires Punctuation(comma, ',')
    ensures var s := SkipSpace(comma + next); s != [] && s[0] == ',' && SkipSpace(s[1..]) == SkipSpace(next)
  {
    assert (comma + next)[0] == ',' && (comma + next)[1..] == comma[1..] + next;
    SkipPrefix(comma[1..], next);
  }

  lemma CloseReads(nl: string, rest: string)
    requires AllSpace(nl)
    ensures SkipSpace(nl + ("}" + rest)) == "}" + rest && ("}" + rest)[1..] == rest
  {
    SkipPrefix(nl, "}" + rest);
  }

  /** One step of the member reader, with the pieces it meets given. */
  lemma MemberStep(s: string, name: string, afterName: string, value: Value, afterValue: string)
    requires ReadString(s) == Some((name, afterName))
    requires var c := SkipSpace(afterName);
             c != [] && c[0] == ':' && ReadValue(SkipSpace(c[1..])) == Some((value, afterValue))
    requires SkipSpace(afterValue) != []
    ensures var next := SkipSpace(afterValue);
            && (next[0] == '}' ==> ReadMembers(s) == Some(([(name, value)], next[1..])))
            && (next[0] == ',' && ReadMembers(SkipSpace(next[1..])).Some? ==>
                  var more := ReadMembers(SkipSpace(next[1..])).value;
                  ReadMembers(s) == Some(([(name, value)] + more.0, more.1)))
  {
  }

  lemma {:induction false} TagsRead(tags: seq<Tag>, sep: string, rest: string)
    requires tags != [] && Punctuation(sep, ':')
    ensures ReadMembers(TagsThen(tags, sep, rest)) == Some((TagMembers(tags), rest))
  {
    var tail := TagsThen(tags[1..], sep, rest);
    var afterValue := (if |tags| > 1 then "," else "") + tail;
    var value := QuotedThen(Escape(tags[0].value), afterValue);
    QuotedReads(tags[0].key, sep + value);
    SepReads(sep, value);
    QuotedReads(tags[0].value, afterValue);
    if |tags| > 1 {
      TagsRead(tags[1..], sep, rest);
      CommaReads(",", tail);
      assert tail[0] == '"';
    } else {
      assert tags[1..] == [] && TagMembers(tags) == [(tags[0].key, Str(tags[0].value))];
      CloseReads("", rest);
    }
    MemberStep(TagsThen(tags, sep, rest), tags[0].key, sep + value, Str(tags[0].value), afterValue);
  }

  predicate FieldOk(f: Field) {
    IsPlain(f.name) && (f.Plain? ==> IsPlain(f.text))
  }

  lemma TagsValueReads(tags: seq<Tag>, sep: string, rest: string)
    requires Punctuation(sep, ':')
    ensures ReadValue("{" + TagsThen(tags, sep, rest)) == Some((Obj(TagMembers(tags)), rest))
  {
    var inner := TagsThen(tags, sep, rest);
    assert ("{" + inner)[1..] == inner;
    if tags != [] { TagsRead(tags, sep, rest); }
  }

  lemma ValueReads(f: Field, sep: string, rest: string)
    requires FieldOk(f) && Punctuation(sep, ':') && rest != [] && !IsDigit(rest[0])
    ensures ReadValue(ValueThen(f, sep, rest)) == Some((ValueOf(f), rest))
    ensures SkipSpace(ValueThen(f, sep, rest)) == ValueThen(f, sep, rest)
  {
    match f
    case Plain(_, text) => PlainReads(text, rest);
    case Escaped(_, text) => QuotedReads(text, rest);
    case Number(_, n) => NumberReads(n, rest);
    case Tags(_, tags) => TagsValueReads(tags, sep, rest);
  }

  predicate LayoutOk(l: Layout) {
    AllSpace(l.nl) && AllSpace(l.indent) && Punctuation(l.sep, ':') && Punctuation(l.comma, ',')
  }

  /** What follows a value: a comma and more members, or white space and the closing brace. */
  function AfterValue(fs: seq<Field>, l: Layout, rest: string): string
    requires fs != []
  {
    (if |fs| > 1 then l.comma else l.nl) + MembersThen(fs[1..], l, rest)
  }

  lemma AfterValueStarts(fs: seq<Field>, l: Layout, rest: string)
    requires fs != [] && LayoutOk(l)
    ensures var s := AfterValue(fs, l, rest); s != [] && !IsDigit(s[0])
  {
    var s := AfterValue(fs, l, rest);
    if |fs| > 1 {
      assert s[0] == l.comma[0];
    } else {
      assert fs[1..] == [];
      if l.nl != [] { assert s[0] == l.nl[0]; }
    }
  }

  lemma MembersStart(fs: seq<Field>, l: Layout, rest: string)
    requires fs != [] && LayoutOk(l)
    ensures SkipSpace(MembersThen(fs, l, rest))
         == QuotedThen(fs[0].name, l.sep + ValueThen(fs[0], l.sep, AfterValue(fs, l, rest)))
  {
    SkipPrefix(l.indent, QuotedThen(fs[0].name, l.sep + ValueThen(fs[0], l.sep, AfterValue(fs, l, rest))));
  }

  lemma {:induction false} MembersRead(fs: seq<Field>, l: Layout, rest: string)
    requires fs != [] && LayoutOk(l) && forall i :: 0 <= i < |fs| ==> FieldOk(fs[i])
    ensures ReadMembers(SkipSpace(MembersThen(fs, l, rest))) == Some((Members(fs), rest))
  {
    var after := AfterValue(fs, l, rest);
    var value := ValueThen(fs[0], l.sep, after);
    MembersStart(fs, l, rest);
    AfterValueStarts(fs, l, rest);
    PlainReads(fs[0].name, l.sep + value);
    SepReads(l.sep, value);
    ValueReads(fs[0], l.sep, after);
    if |fs| > 1 {
      MembersRead(fs[1..], l, rest);
      CommaReads(l.comma, MembersThen(fs[1..], l, rest));
    } else {
      assert fs[1..] == [] && Members(fs) == [(fs[0].name, ValueOf(fs[0]))];
      CloseReads(l.nl, rest);
    }
    MemberStep(SkipSpace(MembersThen(fs, l, rest)), fs[0].name, l.sep + value, ValueOf(fs[0]), after);
  }

  lemma LayoutsOk(pretty: bool)
    ensures LayoutOk(LayoutOf(pretty))
  {
  }

  lemma LevelPlain(level: Level)
    ensures IsPlain(LevelName(level))
  {
  }

  /** The whole text, pretty or compact, reads as one object with the formatter's fields in order. */
  lemma DocumentReads(fs: seq<Field>, pretty: bool)
    requires fs != [] && forall i :: 0 <= i < |fs| ==> FieldOk(fs[i])
    ensures ReadDocument(Full(AllPieces(fs, LayoutOf(pretty)))) == Some(Obj(Members(fs)))
  {
    LayoutsOk(pretty);
    PiecesText(fs, LayoutOf(pretty));
    ObjectReads(fs, LayoutOf(pretty));
  }

  lemma ObjectReads(fs: seq<Field>, l: Layout)
    requires fs != [] && LayoutOk(l) && forall i :: 0 <= i < |fs| ==> FieldOk(fs[i])
    ensures ReadDocument("{" + (l.nl + MembersThen(fs, l, ""))) == Some(Obj(Members(fs)))
  {
    var members := MembersThen(fs, l, "");
    var text := "{" + (l.nl + members);
    assert text[0] == '{' && text[1..] == l.nl + members;
    SkipPrefix(l.nl, members);
    MembersRead(fs, l, "");
    assert SkipSpace(members)[0] == '"' by { MembersStart(fs, l, ""); }
  }

  /** Format then read: the members of the entry, tags included, for every entry. The time stamp
      text is an argument; the clock renders it from digits and punctuation. */
  lemma EntryRoundTrip(e: LogEntry, ts: string, pretty: bool)
    requires IsPlain(ts)
    ensures ReadDocument(Full(AllPieces(Fields(e, ts), LayoutOf(pretty)))) == Some(Obj(Members(Fields(e, ts))))
  {
    FieldsOk(e, ts);
    DocumentReads(Fields(e, ts), pretty);
  }

  lemma FieldsOk(e: LogEntry, ts: string)
    requires IsPlain(ts)
    ensures forall i :: 0 <= i < |Fields(e, ts)| ==> FieldOk(Fields(e, ts)[i])
  {
    LevelPlain(e.level);
  }

  /** Unpacked: the reader's members by name and position. */
  lemma MembersOf(e: LogEntry, ts: string)
    ensures Members(Fields(e, ts)) ==
            [("ts", Str(ts)), ("level", Str(LevelName(e.level))), ("file", Str(OrEmpty(e.fileName))),
             ("line", Num(e.line)), ("func", Str(OrEmpty(e.functionName))), ("tid", Num(e.threadId)),
             ("pid", Num(e.processId)), ("thread", Str(e.threadName)), ("seq", Num(e.sequenceId)),
             ("tags", Obj(TagMembers(e.tags))), ("msg", Str(e.msg))]
  {
    var fs := Fields(e, ts);
    MembersLength(fs);
    forall i | 0 <= i < 11 ensures Members(fs)[i] == (fs[i].name, ValueOf(fs[i])) { MembersAt(fs, i); }
  }

  lemma {:induction false} MembersAt(fs: seq<Field>, i: nat)
    requires i < |fs|
    ensures |Members(fs)| == |fs| && Members(fs)[i] == (fs[i].name, ValueOf(fs[i]))
  {
    if i > 0 { MembersAt(fs[1..], i - 1); } else { MembersLength(fs); }
  }

  lemma {:induction false} MembersLength(fs: seq<Field>)
    ensures |Members(fs)| == |fs|
  {
    if fs != [] { MembersLength(fs[1..]); }
  }
}
