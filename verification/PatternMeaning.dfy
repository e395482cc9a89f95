/** What each placeholder prints, said on the entry. */
module PatternMeaning {
  import opened Text
  import opened PatternFormat

  // ---------------------------------------------------------------- patterns without placeholders

  /** Text without '%' stands for itself, in front of any pattern. */
  lemma {:induction false} PlainText(text: string, rest: string, x: Scene)
    requires forall i :: 0 <= i < |text| ==> text[i] != '%'
    ensures Interpret(text + rest, x) == text + Interpret(rest, x)
  {
    if text == [] {
      assert text + rest == rest && text + Interpret(rest, x) == Interpret(rest, x);
    } else {
      assert (text + rest)[0] == text[0] && (text + rest)[1..] == text[1..] + rest;
      PlainText(text[1..], rest, x);
      Assoc([text[0]], text[1..], Interpret(rest, x));
      assert [text[0]] + text[1..] == text;
    }
  }

  /** The letters with a meaning. */
  const LETTERS: string := "DTeLlfFnN#tPkqgmCR"

  /** "%%" is one '%', "%c" with another character is itself, and so is a final '%'. */
  lemma OtherPercents(c: char, rest: string, x: Scene)
    ensures Interpret("%%" + rest, x) == "%" + Interpret(rest, x)
    ensures c != '%' && c !in LETTERS ==> Interpret(['%', c] + rest, x) == ['%', c] + Interpret(rest, x)
    ensures Interpret("%", x) == "%"
  {
    assert ("%%" + rest)[2..] == rest && ("%%" + rest)[0] == '%' && ("%%" + rest)[1] == '%';
    var s := ['%', c] + rest;
    assert s[2..] == rest && s[..2] == ['%', c] && s[0] == '%' && s[1] == c;
    if c != '%' && c !in LETTERS { NoLetter(c); }
  }

  lemma NoLetter(c: char)
    requires c !in LETTERS
    ensures OfLetter(c) == None
  {
    assert forall i :: 0 <= i < |LETTERS| ==> LETTERS[i] != c;
    assert LETTERS[0] == 'D' && LETTERS[1] == 'T' && LETTERS[2] == 'e' && LETTERS[3] == 'L' && LETTERS[4] == 'l'
        && LETTERS[5] == 'f' && LETTERS[6] == 'F' && LETTERS[7] == 'n' && LETTERS[8] == 'N' && LETTERS[9] == '#'
        && LETTERS[10] == 't' && LETTERS[11] == 'P' && LETTERS[12] == 'k' && LETTERS[13] == 'q'
        && LETTERS[14] == 'g' && LETTERS[15] == 'm' && LETTERS[16] == 'C' && LETTERS[17] == 'R';
  }

  // ---------------------------------------------------------------- one placeholder

  lemma Placed(p: Placeholder, c: char, x: Scene)
    requires OfLetter(c) == Some(p) && c != '%'
    ensures Interpret(['%', c], x) == FieldText(p, x)
  {
    assert ['%', c][2..] == [] && FieldText(p, x) + [] == FieldText(p, x);
  }

  /** A placeholder prints the same wherever it stands. */
  lemma PlacedIn(c: char, rest: string, x: Scene)
    requires c in LETTERS
    ensures Interpret(['%', c] + rest, x) == Interpret(['%', c], x) + Interpret(rest, x)
  {
    var s := ['%', c] + rest;
    assert s[2..] == rest && s[0] == '%' && s[1] == c && ['%', c][2..] == [];
    HasLetter(c);
    Placed(OfLetter(c).value, c, x);
  }

  lemma HasLetter(c: char)
    requires c in LETTERS
    ensures OfLetter(c).Some? && c != '%'
  {
  }

  /** %m is the message, %k the thread name, %D and %T the local date and time. */
  lemma GivenTexts(x: Scene)
    ensures Interpret("%m", x) == x.entry.msg && Interpret("%k", x) == x.entry.threadName
    ensures Interpret("%D", x) == x.date && Interpret("%T", x) == x.time
  {
    Placed(Message, 'm', x);
    Placed(ThreadName, 'k', x);
    Placed(Date, 'D', x);
    Placed(Time, 'T', x);
  }

  /** %f, %F, %n and %N are file name, file path, function and full function; nothing for a null
      pointer. */
  lemma SourceTexts(x: Scene)
    ensures Interpret("%f", x) == OrEmpty(x.entry.fileName) && Interpret("%F", x) == OrEmpty(x.entry.filePath)
    ensures Interpret("%n", x) == OrEmpty(x.entry.functionName)
    ensures Interpret("%N", x) == OrEmpty(x.entry.prettyFunction)
  {
    Placed(FileName, 'f', x);
    Placed(FilePath, 'F', x);
    Placed(FuncName, 'n', x);
    Placed(PrettyFunc, 'N', x);
  }

  lemma NullPrintsNothing(s: string)
    ensures OrEmpty(None) == "" && OrEmpty(Some(s)) == s
  {
  }

  /** Digits, without a leading zero, whose value is n. */
  predicate Reads(s: string, n: nat) {
    && |s| >= 1 && (forall i :: 0 <= i < |s| ==> IsDigit(s[i]))
    && (s[0] == '0' ==> |s| == 1) && DecimalValue(s) == n
  }

  lemma DecimalIs(n: nat)
    ensures Reads(Decimal(n), n)
  {
    DecimalReads(n);
    DecimalLeading(n);
  }

  lemma PrintsNumber(p: Placeholder, c: char, n: nat, x: Scene)
    requires OfLetter(c) == Some(p) && c != '%' && FieldText(p, x) == Decimal(n)
    ensures Reads(Interpret(['%', c], x), n)
  {
    Placed(p, c, x);
    DecimalIs(n);
  }

  /** %#, %t, %P and %q are line, thread id, process id and sequence id. */
  lemma Numbers(x: Scene)
    ensures Reads(Interpret("%#", x), x.entry.line) && Reads(Interpret("%t", x), x.entry.threadId)
    ensures Reads(Interpret("%P", x), x.entry.processId) && Reads(Interpret("%q", x), x.entry.sequenceId)
  {
    PrintsNumber(Line, '#', x.entry.line, x);
    PrintsNumber(ThreadId, 't', x.entry.threadId, x);
    PrintsNumber(ProcessId, 'P', x.entry.processId, x);
    PrintsNumber(SequenceId, 'q', x.entry.sequenceId, x);
  }

  lemma {:induction false} DecimalShort(n: nat, k: nat, bound: nat)
    requires k >= 1 && n < bound && bound == TenTo(k)
    ensures |Decimal(n)| <= k
    decreases k
  {
    if n >= 10 { DecimalShort(n / 10, k - 1, bound / 10); }
  }

  function TenTo(k: nat): nat {
    if k == 0 then 1 else 10 * TenTo(k - 1)
  }

  lemma ZeroInFront(s: string)
    requires forall i :: 0 <= i < |s| ==> IsDigit(s[i])
    ensures forall i :: 0 <= i < |s| + 1 ==> IsDigit(("0" + s)[i])
    ensures DecimalValue("0" + s) == DecimalValue(s)
    decreases |s|
  {
    if s == [] {
      assert "0" + s == "0" && "0"[..0] == [];
    } else {
      var front := s[..|s| - 1];
      ZeroInFront(front);
      assert ("0" + s)[..|s|] == "0" + front && ("0" + s)[|s|] == s[|s| - 1];
    }
  }

  lemma {:induction false} PaddedReads(s: string, width: nat)
    requires forall i :: 0 <= i < |s| ==> IsDigit(s[i])
    ensures forall i :: 0 <= i < |Padded(s, width)| ==> IsDigit(Padded(s, width)[i])
    ensures DecimalValue(Padded(s, width)) == DecimalValue(s)
    decreases width - |s|
  {
    if |s| < width {
      ZeroInFront(s);
      PaddedReads("0" + s, width);
    }
  }

  /** %e is a point and six digits, the microseconds within the second. */
  lemma SixDigits(x: Scene)
    ensures var s := Interpret("%e", x);
            && |s| == 7 && s[0] == '.' && (forall i :: 0 <= i < 6 ==> IsDigit(s[1..][i]))
            && DecimalValue(s[1..]) == x.entry.wallClockNs / 1000 % 1_000_000
  {
    var us := x.entry.wallClockNs / 1000 % 1_000_000;
    var digits := Padded(Decimal(us), 6);
    Placed(Microseconds, 'e', x);
    assert TenTo(6) == 1_000_000;
    DecimalShort(us, 6, 1_000_000);
    DecimalReads(us);
    PaddedReads(Decimal(us), 6);
    assert ("." + digits)[1..] == digits;
  }

  // ---------------------------------------------------------------- levels and colours

  const NAMES: seq<string> := ["TRACE", "DEBUG", "INFO", "WARN", "ERROR", "FATAL", "OFF"]

  /** The ANSI colour of each level; OFF has none. */
  const COLORS: seq<string> := ["[37m", "[36m", "[32m", "[33m", "[31m", "[1;31m"]

  /** %L is the level's name, %l its initial. */
  lemma LevelTexts(x: Scene, i: nat)
    requires i < |LADDER| && x.entry.level == LADDER[i]
    ensures Interpret("%L", x) == NAMES[i] && Interpret("%l", x) == [NAMES[i][0]]
  {
    Placed(LevelFull, 'L', x);
    Placed(LevelShort, 'l', x);
  }

  /** %C starts the level's colour and %R ends it, if colours are on; otherwise they print nothing. */
  lemma ColorTexts(x: Scene, i: nat)
    requires i < |LADDER| && x.entry.level == LADDER[i]
    ensures !x.color ==> Interpret("%C", x) == "" && Interpret("%R", x) == ""
    ensures x.color ==> Interpret("%C", x) == if i < 6 then [27 as char] + COLORS[i] else ""
    ensures x.color ==> Interpret("%R", x) == [27 as char] + "[0m"
  {
    Placed(ColorStart, 'C', x);
    Placed(ColorReset, 'R', x);
  }

  // ---------------------------------------------------------------- tags

  /** Without bars and closing brackets, and keys without equals signs. */
  predicate CleanTag(t: Tag) {
    && (forall i :: 0 <= i < |t.key| ==> t.key[i] !in "=|]")
    && (forall i :: 0 <= i < |t.value| ==> t.value[i] !in "|]")
  }

  /** How many leading characters are none of `stops`. */
  function Until(s: string, stops: string): (n: nat)
    ensures n <= |s|
  {
    if s == [] || s[0] in stops then 0 else 1 + Until(s[1..], stops)
  }

  /** Reads k=v|k=v|...] back: the tags, front to back. */
  function ReadTags(s: string): seq<Tag>
    decreases |s|
  {
    var k := Until(s, "=");
    if k == |s| then []
    else
      var key, afterKey := s[..k], s[k + 1..];
      var v := Until(afterKey, "|]");
      if v == |afterKey| then []
      else
        var tag := Tag(key, afterKey[..v]);
        if afterKey[v] == ']' then [tag] else [tag] + ReadTags(afterKey[v + 1..])
  }

  /** Tags from front to back, with the closing bracket. */
  function TagLine(tags: seq<Tag>): string {
    if tags == [] then "]"
    else tags[0].key + ("=" + (tags[0].value + (if |tags| == 1 then "]" else "|" + TagLine(tags[1..]))))
  }

  lemma {:induction false} UntilStop(s: string, c: char, rest: string, stops: string)
    requires c in stops && forall i :: 0 <= i < |s| ==> s[i] !in stops
    ensures Until(s + ([c] + rest), stops) == |s|
  {
    if s == [] {
      assert s + ([c] + rest) == [c] + rest;
    } else {
      UntilStop(s[1..], c, rest, stops);
      assert (s + ([c] + rest))[1..] == s[1..] + ([c] + rest);
    }
  }

  lemma ReadOne(t: Tag, c: char, rest: string)
    requires CleanTag(t) && (c == '|' || c == ']')
    ensures ReadTags(t.key + ("=" + (t.value + ([c] + rest))))
         == if c == ']' then [t] else [t] + ReadTags(rest)
  {
    var afterKey := t.value + ([c] + rest);
    var s := t.key + ("=" + afterKey);
    UntilStop(t.key, '=', afterKey, "=");
    UntilStop(t.value, c, rest, "|]");
    assert s[..|t.key|] == t.key && s[|t.key| + 1..] == afterKey;
    assert afterKey[..|t.value|] == t.value && afterKey[|t.value| + 1..] == rest && afterKey[|t.value|] == c;
  }

  lemma TagLineCons(tags: seq<Tag>)
    requires tags != []
    ensures TagLine(tags) == tags[0].key + ("=" + (tags[0].value +
              (if |tags| == 1 then [']'] + "" else ['|'] + TagLine(tags[1..]))))
  {
    assert "]" == [']'] + "" && "|" == ['|'];
  }

  lemma {:induction false} TagLineReads(tags: seq<Tag>)
    requires tags != [] && forall i :: 0 <= i < |tags| ==> CleanTag(tags[i])
    ensures ReadTags(TagLine(tags)) == tags
  {
    TagLineCons(tags);
    if |tags| == 1 {
      ReadOne(tags[0], ']', "");
      assert tags == [tags[0]];
    } else {
      TagLineReads(tags[1..]);
      ReadOne(tags[0], '|', TagLine(tags[1..]));
      assert [tags[0]] + tags[1..] == tags;
    }
  }

  /** The printing loop's text and a closing bracket, front to back. */
  lemma {:induction false} TagTextIs(tags: seq<Tag>, n: nat)
    requires n <= |tags| && tags != []
    ensures TagText(tags, n) + (if n == |tags| then "]" else (if n > 0 then "|" else "") + TagLine(tags[n..]))
         == TagLine(tags)
  {
    if n == 0 {
      assert tags[0..] == tags && "" + ("" + TagLine(tags)) == TagLine(tags);
    } else {
      var t := tags[n - 1];
      var bar := if n > 1 then "|" else "";
      var after := if n == |tags| then "]" else "|" + TagLine(tags[n..]);
      TagTextIs(tags, n - 1);
      assert tags[n - 1..][0] == t && tags[n - 1..][1..] == tags[n..];
      assert TagLine(tags[n - 1..]) == t.key + ("=" + (t.value + after));
      Regroup(TagText(tags, n - 1), bar, t.key, t.value, after);
    }
  }

  lemma Regroup(front: string, bar: string, key: string, value: string, after: string)
    ensures front + bar + key + "=" + value + after == front + (bar + (key + ("=" + (value + after))))
  {
  }

  /** %g prints nothing without tags, and otherwise "[k=v|k=v]" with the tags in order. */
  lemma TagsPrinted(x: Scene)
    ensures Interpret("%g", x) == if x.entry.tags == [] then "" else "[" + TagLine(x.entry.tags)
  {
    var tags := x.entry.tags;
    Placed(TagList, 'g', x);
    if tags != [] {
      TagTextIs(tags, |tags|);
      Assoc("[", TagText(tags, |tags|), "]");
    }
  }

  /** So from what %g prints the tags are read back, for all tags without the separators. */
  lemma TagsReadBack(x: Scene)
    requires x.entry.tags != [] && forall i :: 0 <= i < |x.entry.tags| ==> CleanTag(x.entry.tags[i])
    ensures Interpret("%g", x) != "" && Interpret("%g", x)[0] == '['
    ensures ReadTags(Interpret("%g", x)[1..]) == x.entry.tags
  {
    TagsPrinted(x);
    TagLineReads(x.entry.tags);
    assert ("[" + TagLine(x.entry.tags))[1..] == TagLine(x.entry.tags);
  }
}
