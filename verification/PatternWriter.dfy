/** PatternFormatter as code: the compiling loop, and Format filling a caller's buffer in place. */
module PatternWriter {
  import opened Text
  import opened PatternFormat

  // ---------------------------------------------------------------- the bounded buffer

  /** The buffer holds as much of `text` as it can, and a terminator. */
  ghost predicate Shows(buf: array<char>, pos: nat, text: string)
    reads buf
  {
    && buf.Length >= 1
    && pos == (if |text| <= buf.Length - 1 then |text| else buf.Length - 1)
    && buf[..pos] == text[..pos] && buf[pos] == '\0'
  }

  /** append_data: `text` is what was printed before. */
  method AppendData(buf: array<char>, pos: nat, data: string, ghost text: string) returns (end: nat)
    requires Shows(buf, pos, text)
    modifies buf
    ensures Shows(buf, end, text + data)
  {
    end := pos;
    if |data| == 0 {
      assert text + data == text;
      return;
    }
    var avail := if pos < buf.Length then buf.Length - 1 - pos else 0;
    if avail == 0 {
      assert (text + data)[..pos] == text[..pos];
      return;
    }
    var n := if |data| < avail then |data| else avail;
    assert text[..pos] == text && (text + data)[..pos + n] == text + data[..n];
    forall k | 0 <= k < n { buf[pos + k] := data[k]; }
    end := pos + n;
    buf[end] := '\0';
    assert buf[..end] == text + data[..n];
  }

  /** append_cstr */
  method AppendCstr(buf: array<char>, pos: nat, data: Option<string>, ghost text: string) returns (end: nat)
    requires Shows(buf, pos, text)
    modifies buf
    ensures Shows(buf, end, text + OrEmpty(data))
  {
    if data.None? {
      assert text + "" == text;
      return pos;
    }
    end := AppendData(buf, pos, data.value, text);
  }

  method AppendTag(buf: array<char>, pos: nat, tag: Tag, first: bool, ghost text: string) returns (end: nat)
    requires Shows(buf, pos, text)
    modifies buf
    ensures Shows(buf, end, text + ((if first then "" else "|") + tag.key + "=" + tag.value))
  {
    var bar := if first then "" else "|";
    end := pos;
    if !first { end := AppendData(buf, end, "|", text); }
    assert first ==> text + bar == text;
    end := AppendData(buf, end, tag.key, text + bar);
    end := AppendData(buf, end, "=", text + bar + tag.key);
    end := AppendData(buf, end, tag.value, text + bar + tag.key + "=");
    assert text + bar + tag.key + "=" + tag.value == text + (bar + tag.key + "=" + tag.value);
  }

  method AppendTags(buf: array<char>, pos: nat, tags: seq<Tag>, ghost text: string) returns (end: nat)
    requires Shows(buf, pos, text)
    modifies buf
    ensures Shows(buf, end, text + TagText(tags, |tags|))
  {
    end := pos;
    assert text + "" == text;
    for i := 0 to |tags|
      invariant Shows(buf, end, text + TagText(tags, i))
    {
      end := AppendTag(buf, end, tags[i], i == 0, text + TagText(tags, i));
      TagTextNext(tags, i, text);
    }
  }

  lemma TagTextNext(tags: seq<Tag>, i: nat, text: string)
    requires i < |tags|
    ensures text + TagText(tags, i) + ((if i == 0 then "" else "|") + tags[i].key + "=" + tags[i].value)
         == text + TagText(tags, i + 1)
  {
    var bar := if i == 0 then "" else "|";
    assert TagText(tags, i) + bar + tags[i].key + "=" + tags[i].value
        == TagText(tags, i) + (bar + tags[i].key + "=" + tags[i].value);
  }

  method AppendTagList(buf: array<char>, pos: nat, tags: seq<Tag>, ghost text: string) returns (end: nat)
    requires Shows(buf, pos, text)
    modifies buf
    ensures Shows(buf, end, text + (if tags == [] then "" else "[" + TagText(tags, |tags|) + "]"))
  {
    end := pos;
    if |tags| > 0 {
      end := AppendData(buf, end, "[", text);
      end := AppendTags(buf, end, tags, text + "[");
      end := AppendData(buf, end, "]", text + "[" + TagText(tags, |tags|));
      assert text + "[" + TagText(tags, |tags|) + "]" == text + ("[" + TagText(tags, |tags|) + "]");
    } else {
      assert text + "" == text;
    }
  }

  // ---------------------------------------------------------------- compiling

  /** What the compiling loop keeps: the operations so far and the pending literal, in front of
      the operations of the rest, are the operations of the pattern. */
  ghost predicate Compiled(ops: seq<Op>, literal: string, rest: string, pattern: string) {
    ops + AddLiteral(literal, Compile(rest)) == Compile(pattern)
  }

  lemma Grow(ops: seq<Op>, literal: string, more: string, rest: string, rest': string, pattern: string)
    requires Compiled(ops, literal, rest, pattern) && Compile(rest) == AddLiteral(more, Compile(rest'))
    ensures Compiled(ops, literal + more, rest', pattern)
  {
    AddLiteralTwice(literal, more, Compile(rest'));
  }

  /** Flushing the literal and adding a placeholder. */
  lemma Emit(ops: seq<Op>, literal: string, p: Placeholder, rest: string, rest': string, pattern: string)
    requires Compiled(ops, literal, rest, pattern) && Compile(rest) == [Show(p)] + Compile(rest')
    ensures Compiled(Flushed(ops, literal) + [Show(p)], "", rest', pattern)
  {
    EmitOps(ops, literal, p, Compile(rest'));
  }

  lemma EmitOps(ops: seq<Op>, literal: string, p: Placeholder, more: seq<Op>)
    ensures ops + AddLiteral(literal, [Show(p)] + more) == (Flushed(ops, literal) + [Show(p)]) + more
  {
    if literal != [] { Assoc(ops, [Literal(literal)], [Show(p)] + more); }
    Assoc(Flushed(ops, literal), [Show(p)], more);
  }

  /** flush_literal */
  function Flushed(ops: seq<Op>, literal: string): seq<Op> {
    if literal == [] then ops else ops + [Literal(literal)]
  }

  lemma Finish(ops: seq<Op>, literal: string, pattern: string)
    requires Compiled(ops, literal, "", pattern)
    ensures Flushed(ops, literal) == Compile(pattern)
  {
    if literal == [] { assert ops + [] == ops; } else { assert [Literal(literal)] + [] == [Literal(literal)]; }
  }

  lemma PlainNext(pattern: string, i: nat)
    requires i < |pattern| && (pattern[i] != '%' || i + 1 == |pattern|)
    ensures Compile(pattern[i..]) == AddLiteral([pattern[i]], Compile(pattern[i + 1..]))
  {
    var s := pattern[i..];
    assert s[0] == pattern[i] && s[1..] == pattern[i + 1..];
    if pattern[i] == '%' { assert pattern[i + 1..] == [] && [Literal("%")] + [] == [Literal("%")]; }
  }

  lemma PercentNext(pattern: string, i: nat)
    requires i + 1 < |pattern| && pattern[i] == '%'
    ensures Compile(pattern[i..]) ==
              var rest := Compile(pattern[i + 2..]);
              match OfLetter(pattern[i + 1])
              case Some(p) => [Show(p)] + rest
              case None => AddLiteral(if pattern[i + 1] == '%' then "%" else ['%', pattern[i + 1]], rest)
  {
    var s := pattern[i..];
    assert s[0] == '%' && s[1] == pattern[i + 1] && s[2..] == pattern[i + 2..] && s[..2] == ['%', pattern[i + 1]];
  }

  class PatternFormatter {
    const pattern: string
    const enableColor: bool
    var ops: seq<Op>

    ghost predicate Valid()
      reads this
    {
      ops == Compile(pattern)
    }

    constructor (pattern: string, enableColor: bool)
      ensures Valid() && this.pattern == pattern && this.enableColor == enableColor
    {
      this.pattern := pattern;
      this.enableColor := enableColor;
      ops := [];
      new;
      CompilePattern();
    }

    method CompilePattern()
      modifies this
      ensures Valid() && Normal(ops)
    {
      ops := [];
      var literal: string := "";
      var i := 0;
      assert pattern[0..] == pattern && [] + Compile(pattern) == Compile(pattern);
      while i < |pattern|
        invariant i <= |pattern| && Compiled(ops, literal, pattern[i..], pattern)
      {
        var ch := pattern[i];
        if ch != '%' || i + 1 >= |pattern| {
          PlainNext(pattern, i);
          Grow(ops, literal, [ch], pattern[i..], pattern[i + 1..], pattern);
          literal := literal + [ch];
          i := i + 1;
        } else {
          var next := pattern[i + 1];
          PercentNext(pattern, i);
          match OfLetter(next) {
            case Some(p) =>
              Emit(ops, literal, p, pattern[i..], pattern[i + 2..], pattern);
              ops := Flushed(ops, literal) + [Show(p)];
              literal := "";
            case None =>
              var more := if next == '%' then "%" else ['%', next];
              Grow(ops, literal, more, pattern[i..], pattern[i + 2..], pattern);
              literal := literal + more;
          }
          i := i + 2;
        }
      }
      assert pattern[i..] == "";
      Finish(ops, literal, pattern);
      ops := Flushed(ops, literal);
      CompileNormal(pattern);
    }

    method AppendField(p: Placeholder, e: LogEntry, date: string, time: string,
                       buf: array<char>, pos: nat, ghost text: string) returns (end: nat)
      requires Shows(buf, pos, text)
      modifies buf
      ensures Shows(buf, end, text + FieldText(p, Scene(e, date, time, enableColor)))
    {
      end := pos;
      match p
      case Date => end := AppendData(buf, end, date, text);
      case Time => end := AppendData(buf, end, time, text);
      case Microseconds =>
        var us := (e.wallClockNs / 1000) % 1000000;
        end := AppendData(buf, end, "." + Padded(Decimal(us), 6), text);
      case LevelFull => end := AppendData(buf, end, LevelName(e.level), text);
      case LevelShort => end := AppendData(buf, end, [ShortName(e.level)], text);
      case FileName => end := AppendCstr(buf, end, e.fileName, text);
      case FilePath => end := AppendCstr(buf, end, e.filePath, text);
      case FuncName => end := AppendCstr(buf, end, e.functionName, text);
      case PrettyFunc => end := AppendCstr(buf, end, e.prettyFunction, text);
      case Line => end := AppendData(buf, end, Decimal(e.line), text);
      case ThreadId => end := AppendData(buf, end, Decimal(e.threadId), text);
      case ProcessId => end := AppendData(buf, end, Decimal(e.processId), text);
      case ThreadName => end := AppendCstr(buf, end, Some(e.threadName), text);
      case SequenceId => end := AppendData(buf, end, Decimal(e.sequenceId), text);
      case TagList => end := AppendTagList(buf, end, e.tags, text);
      case Message => end := AppendData(buf, end, e.msg, text);
      case ColorStart =>
        if enableColor { end := AppendCstr(buf, end, Some(ColorCode(e.level)), text); }
        else { assert text + "" == text; }
      case ColorReset =>
        if enableColor { end := AppendCstr(buf, end, Some(ESC + "[0m"), text); }
        else { assert text + "" == text; }
    }

    method AppendOp(op: Op, e: LogEntry, date: string, time: string,
                    buf: array<char>, pos: nat, ghost text: string) returns (end: nat)
      requires Shows(buf, pos, text)
      modifies buf
      ensures Shows(buf, end, text + Run([op], Scene(e, date, time, enableColor)))
    {
      ghost var x := Scene(e, date, time, enableColor);
      match op
      case Literal(s) =>
        RunLiteral(s, [], x);
        assert s + [] == s && [Literal(s)] + [] == [op];
        end := AppendData(buf, pos, s, text);
      case Show(p) =>
        RunShow(p, [], x);
        assert FieldText(p, x) + [] == FieldText(p, x) && [Show(p)] + [] == [op];
        end := AppendField(p, e, date, time, buf, pos, text);
    }

    /** Format: the first buf_size - 1 characters of what the pattern, read directly, prints. */
    method Format(e: LogEntry, date: string, time: string, buf: array<char>) returns (n: nat)
      requires Valid()
      modifies buf
      ensures buf.Length == 0 ==> n == 0
      ensures buf.Length > 0 ==> Shows(buf, n, Interpret(pattern, Scene(e, date, time, enableColor)))
    {
      if buf.Length == 0 { return 0; }
      n := 0;
      buf[0] := '\0';
      ghost var x := Scene(e, date, time, enableColor);
      for k := 0 to |ops|
        invariant Valid() && Shows(buf, n, Run(ops[..k], x))
      {
        n := AppendOp(ops[k], e, date, time, buf, n, Run(ops[..k], x));
        assert ops[..k + 1] == ops[..k] + [ops[k]];
        RunSnoc(ops[..k], ops[k], x);
      }
      assert ops[..|ops|] == ops;
      CompileCorrect(pattern, x);
    }
  }

  lemma {:induction false} RunSnoc(ops: seq<Op>, op: Op, x: Scene)
    ensures Run(ops + [op], x) == Run(ops, x) + Run([op], x)
  {
    if ops == [] {
      assert [] + [op] == [op] && [] + Run([op], x) == Run([op], x);
    } else {
      RunSnoc(ops[1..], op, x);
      var first := Run([ops[0]], x);
      assert (ops + [op])[1..] == ops[1..] + [op];
    }
  }
}
