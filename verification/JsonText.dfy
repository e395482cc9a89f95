/** JSON text: the escaping the formatter uses, and a reader for strings, unsigned integers and
    objects after RFC 8259 (sections 4, 6 and 7). The reader is written from the grammar, not
    from the formatter. */
module JsonText {
  import opened Text
  import opened Pieces

  // ---------------------------------------------------------------- escaping

  const HEX: string := "0123456789ABCDEF"

  /** How one character is written inside a JSON string. */
  function Escape1(c: char): (r: string)
    ensures 1 <= |r| <= 6
  {
    if c == '"' then "\\\""
    else if c == '\\' then "\\\\"
    else if c == '\n' then "\\n"
    else if c == '\r' then "\\r"
    else if c == '\t' then "\\t"
    else if c as int <= 0x1F then ['\\', 'u', '0', '0', HEX[c as int / 16], HEX[c as int % 16]]
    else [c]
  }

  function Escape(s: string): string {
    if s == [] then [] else Escape1(s[0]) + Escape(s[1..])
  }

  /** How many leading characters of s can be escaped whole in `room` characters. */
  function FitCount(s: string, room: nat): (k: nat)
    ensures k <= |s|
  {
    if s == [] || |Escape1(s[0])| > room then 0
    else 1 + FitCount(s[1..], room - |Escape1(s[0])|)
  }

  /** That prefix is the longest that fits: a prefix fits exactly if it is no longer. */
  lemma {:induction false} FitCountLongest(s: string, room: nat, j: nat)
    requires j <= |s|
    ensures |Escape(s[..j])| <= room <==> j <= FitCount(s, room)
  {
    if j > 0 {
      var e := |Escape1(s[0])|;
      assert s[..j][1..] == s[1..][..j - 1];
      assert |Escape(s[..j])| == e + |Escape(s[1..][..j - 1])|;
      if e <= room { FitCountLongest(s[1..], room - e, j - 1); }
    }
  }

  /** Escaped text as a piece: every escape is a unit. */
  function Escapes(s: string): (r: Piece)
    ensures |r| == |s|
  {
    if s == [] then [] else [Escape1(s[0])] + Escapes(s[1..])
  }

  lemma {:induction false} EscapesAt(s: string, i: nat)
    requires i < |s|
    ensures Escapes(s)[i] == Escape1(s[i])
  {
    if i > 0 { EscapesAt(s[1..], i - 1); }
  }

  lemma {:induction false} JoinEscapes(s: string)
    ensures Join(Escapes(s)) == Escape(s)
  {
    if s != [] {
      JoinEscapes(s[1..]);
      assert Escapes(s)[1..] == Escapes(s[1..]);
    }
  }

  /** Cut to a room, escaped text is the escape of the longest prefix that fits. */
  lemma {:induction false} CutEscapes(s: string, room: nat)
    ensures Cut(Escapes(s), room) == Escape(s[..FitCount(s, room)])
  {
    if s != [] {
      assert Escapes(s)[0] == Escape1(s[0]) && Escapes(s)[1..] == Escapes(s[1..]);
      if |Escape1(s[0])| <= room {
        CutEscapes(s[1..], room - |Escape1(s[0])|);
        var k := FitCount(s, room);
        assert s[..k][0] == s[0] && s[..k][1..] == s[1..][..k - 1];
      }
    }
  }

  // ---------------------------------------------------------------- reading

  function HexValue(c: char): Option<nat> {
    if '0' <= c <= '9' then Some(c as int - '0' as int)
    else if 'A' <= c <= 'F' then Some(c as int - 'A' as int + 10)
    else if 'a' <= c <= 'f' then Some(c as int - 'a' as int + 10)
    else None
  }

  /** Four hexadecimal digits naming a character outside the surrogate range. */
  function ReadHex4(s: string): Option<char>
    requires |s| >= 4
  {
    var h0, h1, h2, h3 := HexValue(s[0]), HexValue(s[1]), HexValue(s[2]), HexValue(s[3]);
    if h0.None? || h1.None? || h2.None? || h3.None? then None
    else
      var v := ((h0.value * 16 + h1.value) * 16 + h2.value) * 16 + h3.value;
      if v < 0xD800 || 0xE000 <= v < 0x1_0000 then Some(v as char) else None
  }

  /** One (possibly escaped) character of a JSON string, and what follows it. */
  function ReadChar(s: string): (r: Option<(char, string)>)
    ensures r.Some? ==> |r.value.1| < |s|
  {
    if s == [] || s[0] == '"' || s[0] as int < 0x20 then None
    else if s[0] != '\\' then Some((s[0], s[1..]))
    else if |s| < 2 then None
    else if s[1] == '"' || s[1] == '\\' || s[1] == '/' then Some((s[1], s[2..]))
    else if s[1] == 'b' then Some((8 as char, s[2..]))
    else if s[1] == 'f' then Some((12 as char, s[2..]))
    else if s[1] == 'n' then Some(('\n', s[2..]))
    else if s[1] == 'r' then Some(('\r', s[2..]))
    else if s[1] == 't' then Some(('\t', s[2..]))
    else if s[1] == 'u' && |s| >= 6 then
      (match ReadHex4(s[2..]) case None => None case Some(c) => Some((c, s[6..])))
    else None
  }

  /** The characters of a JSON string up to its closing quote, and what follows the quote. */
  function ReadChars(s: string): (r: Option<(string, string)>)
    ensures r.Some? ==> |r.value.1| < |s|
    decreases |s|
  {
    if s != [] && s[0] == '"' then Some(([], s[1..]))
    else
      match ReadChar(s)
      case None => None
      case Some((c, rest)) =>
        match ReadChars(rest)
        case None => None
        case Some((more, rest')) => Some(([c] + more, rest'))
  }

  lemma ControlReads(c: char, rest: string)
    requires c as int <= 0x1F
    ensures ReadChar(['\\', 'u', '0', '0', HEX[c as int / 16], HEX[c as int % 16]] + rest) == Some((c, rest))
  {
    var s := ['\\', 'u', '0', '0', HEX[c as int / 16], HEX[c as int % 16]] + rest;
    var n := c as int;
    assert HexValue(HEX[n / 16]) == Some(n / 16);
    assert HexValue(HEX[n % 16]) == Some(n % 16);
    assert s[2..][0] == '0' && s[2..][1] == '0' && s[2..][2] == HEX[n / 16] && s[2..][3] == HEX[n % 16];
    assert ReadHex4(s[2..]) == Some(c);
    assert s[6..] == rest;
  }

  lemma EscapedCharReads(c: char, rest: string)
    ensures ReadChar(Escape1(c) + rest) == Some((c, rest))
    ensures (Escape1(c) + rest)[0] != '"'
  {
    var s := Escape1(c) + rest;
    if c == '"' || c == '\\' || c == '\n' || c == '\r' || c == '\t' {
      assert s[2..] == rest;
    } else if c as int <= 0x1F {
      ControlReads(c, rest);
    } else {
      assert s[1..] == rest;
    }
  }

  /** Reading back an escaped string gives the string, for every string. */
  lemma {:induction false} EscapedReads(s: string, rest: string)
    ensures ReadChars(Escape(s) + ("\"" + rest)) == Some((s, rest))
  {
    if s == [] {
      var text := "\"" + rest;
      assert Escape(s) + text == text && text[0] == '"' && text[1..] == rest;
    } else {
      var tail := Escape(s[1..]) + ("\"" + rest);
      Assoc(Escape1(s[0]), Escape(s[1..]), "\"" + rest);
      EscapedCharReads(s[0], tail);
      EscapedReads(s[1..], rest);
      assert [s[0]] + s[1..] == s;
    }
  }

  // ---------------------------------------------------------------- values

  datatype Value = Str(s: string) | Num(n: nat) | Obj(members: seq<(string, Value)>)

  predicate IsSpace(c: char) {
    c == ' ' || c == '\t' || c == '\n' || c == '\r'
  }

  function SkipSpace(s: string): (r: string)
    ensures |r| <= |s|
  {
    if s != [] && IsSpace(s[0]) then SkipSpace(s[1..]) else s
  }

  function DigitCount(s: string): (n: nat)
    ensures n <= |s| && forall i :: 0 <= i < n ==> IsDigit(s[i])
  {
    if s != [] && IsDigit(s[0]) then 1 + DigitCount(s[1..]) else 0
  }

  function ReadString(s: string): (r: Option<(string, string)>)
    ensures r.Some? ==> |r.value.1| < |s|
  {
    if s == [] || s[0] != '"' then None else ReadChars(s[1..])
  }

  function ReadNumber(s: string): (r: Option<(Value, string)>)
    ensures r.Some? ==> |r.value.1| < |s|
  {
    var n := DigitCount(s);
    if n == 0 || (n > 1 && s[0] == '0') then None
    else Some((Num(DecimalValue(s[..n])), s[n..]))
  }

  function ReadValue(s: string): (r: Option<(Value, string)>)
    ensures r.Some? ==> |r.value.1| < |s|
    decreases |s|, 1
  {
    if s == [] then None
    else if s[0] == '"' then
      (match ReadString(s) case None => None case Some((text, rest)) => Some((Str(text), rest)))
    else if s[0] == '{' then
      var inner := SkipSpace(s[1..]);
      if inner != [] && inner[0] == '}' then Some((Obj([]), inner[1..]))
      else (match ReadMembers(inner) case None => None case Some((ms, rest)) => Some((Obj(ms), rest)))
    else ReadNumber(s)
  }

  /** name ":" value, and after it "," more members or the closing brace. */
  function ReadMembers(s: string): (r: Option<(seq<(string, Value)>, string)>)
    ensures r.Some? ==> |r.value.1| < |s|
    decreases |s|, 0
  {
    match ReadString(s)
    case None => None
    case Some((name, afterName)) =>
      var colon := SkipSpace(afterName);
      if colon == [] || colon[0] != ':' then None
      else
        match ReadValue(SkipSpace(colon[1..]))
        case None => None
        case Some((value, afterValue)) =>
          var next := SkipSpace(afterValue);
          if next == [] then None
          else if next[0] == '}' then Some(([(name, value)], next[1..]))
          else if next[0] != ',' then None
          else
            match ReadMembers(SkipSpace(next[1..]))
            case None => None
            case Some((more, rest)) => Some(([(name, value)] + more, rest))
  }

  /** A JSON text: one value, surrounded by nothing but white space. */
  function ReadDocument(s: string): Option<Value> {
    match ReadValue(SkipSpace(s))
    case None => None
    case Some((v, rest)) => if SkipSpace(rest) == [] then Some(v) else None
  }
}
