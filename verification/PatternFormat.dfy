/** PatternFormatter: patterns compiled to a list of operations, and what the list prints. */
module PatternFormat {
  import opened Text

  // ---------------------------------------------------------------- operations

  datatype Placeholder =
    | Date | Time | Microseconds | LevelFull | LevelShort | FileName | FilePath | FuncName | PrettyFunc
    | Line | ThreadId | ProcessId | ThreadName | SequenceId | TagList | Message | ColorStart | ColorReset

  datatype Op = Literal(text: string) | Show(field: Placeholder)

  /** The letter after '%' for each placeholder. */
  function Letter(p: Placeholder): char {
    match p
    case Date => 'D' case Time => 'T' case Microseconds => 'e' case LevelFull => 'L' case LevelShort => 'l'
    case FileName => 'f' case FilePath => 'F' case FuncName => 'n' case PrettyFunc => 'N' case Line => '#'
    case ThreadId => 't' case ProcessId => 'P' case ThreadName => 'k' case SequenceId => 'q'
    case TagList => 'g' case Message => 'm' case ColorStart => 'C' case ColorReset => 'R'
  }

  /** The compiler's switch over that letter. */
  function OfLetter(c: char): Option<Placeholder> {
    match c
    case 'D' => Some(Date) case 'T' => Some(Time) case 'e' => Some(Microseconds)
    case 'L' => Some(LevelFull) case 'l' => Some(LevelShort) case 'f' => Some(FileName)
    case 'F' => Some(FilePath) case 'n' => Some(FuncName) case 'N' => Some(PrettyFunc)
    case '#' => Some(Line) case 't' => Some(ThreadId) case 'P' => Some(ProcessId)
    case 'k' => Some(ThreadName) case 'q' => Some(SequenceId) case 'g' => Some(TagList)
    case 'm' => Some(Message) case 'C' => Some(ColorStart) case 'R' => Some(ColorReset)
    case _ => None
  }

  lemma LetterReads(p: Placeholder)
    ensures OfLetter(Letter(p)) == Some(p) && Letter(p) != '%'
  {
  }

  // ---------------------------------------------------------------- what a placeholder prints

  /** What is printed: an entry, the local date and time the C library renders for it, and
      whether colours are on. */
  datatype Scene = Scene(entry: LogEntry, date: string, time: string, color: bool)

  function ShortName(level: Level): char {
    match level
    case TRACE => 'T' case DEBUG => 'D' case INFO => 'I' case WARN => 'W'
    case ERROR => 'E' case FATAL => 'F' case OFF => 'O'
  }

  const ESC: string := [27 as char]

  function ColorCode(level: Level): string {
    match level
    case TRACE => ESC + "[37m" case DEBUG => ESC + "[36m" case INFO => ESC + "[32m"
    case WARN => ESC + "[33m" case ERROR => ESC + "[31m" case FATAL => ESC + "[1;31m"
    case OFF => ""
  }

  function Padded(s: string, width: nat): (r: string)
    ensures |s| <= width ==> |r| == width
    decreases width - |s|
  {
    if |s| >= width then s else Padded("0" + s, width)
  }

  /** "k=v|k=v" for the first n tags. */
  function TagText(tags: seq<Tag>, n: nat): string
    requires n <= |tags|
  {
    if n == 0 then ""
    else TagText(tags, n - 1) + (if n > 1 then "|" else "") + tags[n - 1].key + "=" + tags[n - 1].value
  }

  function FieldText(p: Placeholder, x: Scene): string {
    var e := x.entry;
    match p
    case Date => x.date
    case Time => x.time
    case Microseconds => "." + Padded(Decimal((e.wallClockNs / 1000) % 1000000), 6)
    case LevelFull => LevelName(e.level)
    case LevelShort => [ShortName(e.level)]
    case FileName => OrEmpty(e.fileName)
    case FilePath => OrEmpty(e.filePath)
    case FuncName => OrEmpty(e.functionName)
    case PrettyFunc => OrEmpty(e.prettyFunction)
    case Line => Decimal(e.line)
    case ThreadId => Decimal(e.threadId)
    case ProcessId => Decimal(e.processId)
    case ThreadName => e.threadName
    case SequenceId => Decimal(e.sequenceId)
    case TagList => if e.tags == [] then "" else "[" + TagText(e.tags, |e.tags|) + "]"
    case Message => e.msg
    case ColorStart => if x.color then ColorCode(e.level) else ""
    case ColorReset => if x.color then ESC + "[0m" else ""
  }

  // ---------------------------------------------------------------- the two readings of a pattern

  /** A pattern read left to right, printing as it goes. A final lone '%' and an unknown "%c" stand
      for themselves, "%%" for one '%'. */
  function Interpret(pattern: string, x: Scene): string {
    if pattern == [] then []
    else if pattern[0] != '%' then [pattern[0]] + Interpret(pattern[1..], x)
    else if |pattern| == 1 then "%"
    else if pattern[1] == '%' then "%" + Interpret(pattern[2..], x)
    else
      match OfLetter(pattern[1])
      case Some(p) => FieldText(p, x) + Interpret(pattern[2..], x)
      case None => pattern[..2] + Interpret(pattern[2..], x)
  }

  /** The text an operation list prints. */
  function Run(ops: seq<Op>, x: Scene): string {
    if ops == [] then []
    else (match ops[0] case Literal(text) => text case Show(p) => FieldText(p, x)) + Run(ops[1..], x)
  }

  /** Literal text in front of an operation list, merged with a literal already there. */
  function AddLiteral(text: string, ops: seq<Op>): seq<Op> {
    if text == [] then ops
    else if ops != [] && ops[0].Literal? then [Literal(text + ops[0].text)] + ops[1..]
    else [Literal(text)] + ops
  }

  /** The operation list of a pattern. */
  function Compile(pattern: string): seq<Op> {
    if pattern == [] then []
    else if pattern[0] != '%' then AddLiteral([pattern[0]], Compile(pattern[1..]))
    else if |pattern| == 1 then [Literal("%")]
    else if pattern[1] == '%' then AddLiteral("%", Compile(pattern[2..]))
    else
      match OfLetter(pattern[1])
      case Some(p) => [Show(p)] + Compile(pattern[2..])
      case None => AddLiteral(pattern[..2], Compile(pattern[2..]))
  }

  lemma RunShow(p: Placeholder, ops: seq<Op>, x: Scene)
    ensures Run([Show(p)] + ops, x) == FieldText(p, x) + Run(ops, x)
  {
    assert ([Show(p)] + ops)[1..] == ops;
  }

  lemma RunLiteral(text: string, ops: seq<Op>, x: Scene)
    ensures Run([Literal(text)] + ops, x) == text + Run(ops, x)
  {
    assert ([Literal(text)] + ops)[1..] == ops;
  }

  lemma RunAddLiteral(text: string, ops: seq<Op>, x: Scene)
    ensures Run(AddLiteral(text, ops), x) == text + Run(ops, x)
  {
    if text == [] {
      assert text + Run(ops, x) == Run(ops, x);
    } else if ops != [] && ops[0].Literal? {
      RunLiteral(text + ops[0].text, ops[1..], x);
      assert (text + ops[0].text) + Run(ops[1..], x) == text + (ops[0].text + Run(ops[1..], x));
    } else {
      RunLiteral(text, ops, x);
    }
  }

  /** Compiling and then running prints what reading the pattern directly prints. */
  lemma {:induction false} CompileCorrect(pattern: string, x: Scene)
    ensures Run(Compile(pattern), x) == Interpret(pattern, x)
  {
    if pattern == [] {
    } else if pattern[0] != '%' {
      CompileCorrect(pattern[1..], x);
      RunAddLiteral([pattern[0]], Compile(pattern[1..]), x);
    } else if |pattern| == 1 {
      RunLiteral("%", [], x);
      assert [Literal("%")] + [] == [Literal("%")];
    } else {
      var ops := Compile(pattern[2..]);
      CompileCorrect(pattern[2..], x);
      match OfLetter(pattern[1])
      case Some(p) => RunShow(p, ops, x);
      case None => RunAddLiteral(if pattern[1] == '%' then "%" else pattern[..2], ops, x);
    }
  }

  // ---------------------------------------------------------------- normal form

  /** No empty literal and no two literals side by side. */
  predicate Normal(ops: seq<Op>) {
    && (forall i :: 0 <= i < |ops| ==> ops[i].Literal? ==> ops[i].text != [])
    && (forall i :: 0 <= i < |ops| - 1 ==> !(ops[i].Literal? && ops[i + 1].Literal?))
  }

  lemma NormalTail(ops: seq<Op>)
    requires Normal(ops) && ops != []
    ensures Normal(ops[1..])
  {
    var t := ops[1..];
    forall i | 0 <= i < |t| - 1 ensures !(t[i].Literal? && t[i + 1].Literal?) {
      assert t[i] == ops[i + 1] && t[i + 1] == ops[i + 2];
    }
  }

  lemma NormalCons(op: Op, ops: seq<Op>)
    requires Normal(ops) && (op.Literal? ==> op.text != [] && (ops == [] || ops[0].Show?))
    ensures Normal([op] + ops)
  {
    var t := [op] + ops;
    forall i | 0 <= i < |t| - 1 ensures !(t[i].Literal? && t[i + 1].Literal?) {
      assert t[i + 1] == ops[i];
      if i > 0 { assert t[i] == ops[i - 1]; }
    }
  }

  lemma NormalAddLiteral(text: string, ops: seq<Op>)
    requires Normal(ops)
    ensures Normal(AddLiteral(text, ops))
  {
    if text != [] {
      if ops != [] && ops[0].Literal? {
        NormalTail(ops);
        assert |ops| > 1 ==> !(ops[0].Literal? && ops[1].Literal?);
        NormalCons(Literal(text + ops[0].text), ops[1..]);
      } else {
        NormalCons(Literal(text), ops);
      }
    }
  }

  lemma {:induction false} CompileNormal(pattern: string)
    ensures Normal(Compile(pattern))
  {
    if pattern == [] {
    } else if pattern[0] != '%' {
      CompileNormal(pattern[1..]);
      NormalAddLiteral([pattern[0]], Compile(pattern[1..]));
    } else if |pattern| > 1 {
      var ops := Compile(pattern[2..]);
      CompileNormal(pattern[2..]);
      match OfLetter(pattern[1])
      case Some(p) => NormalCons(Show(p), ops);
      case None => NormalAddLiteral(if pattern[1] == '%' then "%" else pattern[..2], ops);
    }
  }

  // ---------------------------------------------------------------- back to patterns

  /** Literal text as a pattern: every '%' doubled. */
  function Double(text: string): string {
    if text == [] then [] else (if text[0] == '%' then "%%" else [text[0]]) + Double(text[1..])
  }

  function Unparse(ops: seq<Op>): string {
    if ops == [] then []
    else
      match ops[0]
      case Literal(text) => Double(text) + Unparse(ops[1..])
      case Show(p) => ['%', Letter(p)] + Unparse(ops[1..])
  }

  lemma AddLiteralTwice(a: string, b: string, ops: seq<Op>)
    ensures AddLiteral(a, AddLiteral(b, ops)) == AddLiteral(a + b, ops)
  {
    if a == [] {
      assert a + b == b;
    } else if b == [] {
      assert a + b == a;
    } else if ops != [] && ops[0].Literal? {
      assert (a + b) + ops[0].text == a + (b + ops[0].text);
    }
  }

  lemma {:induction false} CompileDouble(text: string, rest: string)
    ensures Compile(Double(text) + rest) == AddLiteral(text, Compile(rest))
  {
    if text == [] {
      assert Double(text) + rest == rest;
    } else {
      var more := Double(text[1..]) + rest;
      CompileDouble(text[1..], rest);
      AddLiteralTwice([text[0]], text[1..], Compile(rest));
      assert [text[0]] + text[1..] == text;
      CompileDoubled(text[0], more);
      var head := if text[0] == '%' then "%%" else [text[0]];
      assert Double(text) + rest == head + more by { Assoc(head, Double(text[1..]), rest); }
    }
  }

  lemma CompileDoubled(c: char, more: string)
    ensures Compile((if c == '%' then "%%" else [c]) + more) == AddLiteral([c], Compile(more))
  {
    var s := (if c == '%' then "%%" else [c]) + more;
    if c == '%' { assert s[2..] == more; } else { assert s[1..] == more; }
  }

  lemma CompileShow(p: Placeholder, more: string)
    ensures Compile(['%', Letter(p)] + more) == [Show(p)] + Compile(more)
  {
    LetterReads(p);
    assert (['%', Letter(p)] + more)[2..] == more;
  }

  /** Compiling undoes unparsing: every normal operation list is the list of its own pattern. */
  lemma {:induction false} UnparseCompiles(ops: seq<Op>)
    requires Normal(ops)
    ensures Compile(Unparse(ops)) == ops
  {
    if ops != [] {
      NormalTail(ops);
      UnparseCompiles(ops[1..]);
      match ops[0]
      case Literal(text) =>
        CompileDouble(text, Unparse(ops[1..]));
        assert |ops| > 1 ==> !(ops[0].Literal? && ops[1].Literal?);
      case Show(p) =>
        CompileShow(p, Unparse(ops[1..]));
    }
  }

  /** Every pattern has a canonical form that compiles to the same list and prints the same text. */
  lemma Canonical(pattern: string, x: Scene)
    ensures Compile(Unparse(Compile(pattern))) == Compile(pattern)
    ensures Interpret(Unparse(Compile(pattern)), x) == Interpret(pattern, x)
  {
    CompileNormal(pattern);
    UnparseCompiles(Compile(pattern));
    CompileCorrect(pattern, x);
    CompileCorrect(Unparse(Compile(pattern)), x);
  }

  /** The images of the compiler are exactly the normal lists. */
  lemma NormalExactly(ops: seq<Op>)
    ensures Normal(ops) <==> exists pattern :: Compile(pattern) == ops
  {
    if Normal(ops) {
      UnparseCompiles(ops);
    }
    forall pattern | Compile(pattern) == ops ensures Normal(ops) { CompileNormal(pattern); }
  }
}
