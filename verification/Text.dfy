/** Log entries as the formatters see them, and decimal text. */
module Text {

  datatype Option<+T> = None | Some(value: T)

  datatype Level = TRACE | DEBUG | INFO | WARN | ERROR | FATAL | OFF

  function Rank(level: Level): nat {
    match level
    case TRACE => 0 case DEBUG => 1 case INFO => 2 case WARN => 3 case ERROR => 4 case FATAL => 5 case OFF => 6
  }

  /** A sink's level filter. */
  predicate ShouldLog(level: Level, min: Level) {
    Rank(level) >= Rank(min)
  }

  /** The levels in the order of the source's enumeration. */
  const LADDER: seq<Level> := [TRACE, DEBUG, INFO, WARN, ERROR, FATAL, OFF]

  /** `level` is `min` or comes after it. */
  predicate AtOrAbove(level: Level, min: Level) {
    exists i, j :: 0 <= i <= j < |LADDER| && LADDER[i] == min && LADDER[j] == level
  }

  lemma LadderRank(i: nat)
    requires i < |LADDER|
    ensures Rank(LADDER[i]) == i
  {
  }

  lemma OnLadder(level: Level) returns (i: nat)
    ensures i < |LADDER| && LADDER[i] == level
  {
    i := Rank(level);
  }

  /** The filter lets through the levels at or above the minimum, and no other. */
  lemma ShouldLogExactly(level: Level, min: Level)
    ensures ShouldLog(level, min) <==> AtOrAbove(level, min)
  {
    forall k: nat | k < |LADDER| ensures Rank(LADDER[k]) == k { LadderRank(k); }
    var i := OnLadder(min);
    var j := OnLadder(level);
    if ShouldLog(level, min) { assert i <= j && LADDER[i] == min && LADDER[j] == level; }
  }

  function LevelName(level: Level): string {
    match level
    case TRACE => "TRACE" case DEBUG => "DEBUG" case INFO => "INFO" case WARN => "WARN"
    case ERROR => "ERROR" case FATAL => "FATAL" case OFF => "OFF"
  }

  datatype Tag = Tag(key: string, value: string)

  /** A log entry. C strings are their characters up to the terminator (None for a null pointer);
      `msg` is the first msg_len characters of the message buffer. */
  datatype LogEntry = LogEntry(
    wallClockNs: nat,
    level: Level,
    filePath: Option<string>,
    fileName: Option<string>,
    functionName: Option<string>,
    prettyFunction: Option<string>,
    line: nat,
    threadId: nat,
    processId: nat,
    threadName: string,
    tags: seq<Tag>,
    sequenceId: nat,
    msg: string)

  /** A C string as text: a null pointer prints nothing. */
  function OrEmpty(s: Option<string>): string {
    match s case None => "" case Some(text) => text
  }

  lemma Assoc<T>(a: seq<T>, b: seq<T>, c: seq<T>)
    ensures (a + b) + c == a + (b + c)
  {
  }

  // ---------------------------------------------------------------- decimal text

  const DIGITS: string := "0123456789"

  predicate IsDigit(c: char) {
    '0' <= c <= '9'
  }

  function DigitValue(c: char): nat
    requires IsDigit(c)
  {
    c as int - '0' as int
  }

  /** What "%u" prints. */
  function Decimal(n: nat): (s: string)
    ensures |s| >= 1 && forall i :: 0 <= i < |s| ==> IsDigit(s[i])
  {
    if n < 10 then [DIGITS[n]] else Decimal(n / 10) + [DIGITS[n % 10]]
  }

  function DecimalValue(s: string): nat
    requires forall i :: 0 <= i < |s| ==> IsDigit(s[i])
  {
    if s == [] then 0 else 10 * DecimalValue(s[..|s| - 1]) + DigitValue(s[|s| - 1])
  }

  lemma {:induction false} DecimalReads(n: nat)
    ensures DecimalValue(Decimal(n)) == n
  {
    if n >= 10 {
      DecimalReads(n / 10);
      var s := Decimal(n);
      assert s[..|s| - 1] == Decimal(n / 10);
    } else {
      assert Decimal(n)[..0] == [];
    }
  }

  /** No leading zero, as JSON numbers require. */
  lemma {:induction false} DecimalLeading(n: nat)
    ensures Decimal(n)[0] == '0' <==> n == 0
    ensures n < 10 <==> |Decimal(n)| == 1
  {
    if n >= 10 { DecimalLeading(n / 10); }
  }
}
