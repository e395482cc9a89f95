/** LogImpl's message: what is stored in the entry's buffer and the length recorded for it. */
module LogMessage {

  const LEN_MODULUS: nat := 0x1_0000

  /** `stored` is the text in the buffer up to its terminator; `length` is msg_len, 16 bits wide. */
  datatype Message = Message(stored: string, length: nat)

  function Fitted(text: string, size: nat): string
    requires size >= 1
  {
    if |text| < size then text else text[..size - 1]
  }

  /** As much of the text as leaves room for the terminator. */
  lemma FittedExactly(text: string, size: nat)
    requires size >= 1
    ensures Fitted(text, size) <= text
    ensures |Fitted(text, size)| == if |text| <= size - 1 then |text| else size - 1
  {
    if |text| >= size { assert text[..size - 1] + text[size - 1..] == text; }
  }

  /** A call without arguments copies the format string, cut to the buffer. */
  function Copied(fmt: string, size: nat): Message
    requires size >= 1
  {
    var n := if |fmt| >= size then size - 1 else |fmt|;
    Message(fmt[..n], n % LEN_MODULUS)
  }

  /** A call with arguments: snprintf cuts the text to the buffer but returns its full length, and
      that is recorded; a negative result counts as 0. */
  function Printed(text: string, failed: bool, size: nat): Message
    requires size >= 1
  {
    if failed then Message("", 0) else Message(Fitted(text, size), |text| % LEN_MODULUS)
  }

  /** What the formatters need: the recorded length is the length of the stored text. */
  predicate Consistent(m: Message) {
    m.length == |m.stored|
  }

  lemma CopiedConsistent(fmt: string, size: nat)
    requires 1 <= size <= LEN_MODULUS
    ensures Consistent(Copied(fmt, size)) && Copied(fmt, size).stored == Fitted(fmt, size)
  {
    var n := if |fmt| >= size then size - 1 else |fmt|;
    assert n % LEN_MODULUS == n;
    if |fmt| < size { assert fmt[..n] == fmt; }
  }

  /** If printing fails nothing is recorded. */
  lemma PrintedFails(text: string, size: nat)
    requires size >= 1
    ensures Consistent(Printed(text, true, size)) && Printed(text, true, size).length == 0
  {
  }

  /** The recorded length is right exactly if the text fits, or its 16-bit remainder happens to be
      the buffer's last index. */
  lemma PrintedConsistentExactly(text: string, size: nat)
    requires 1 <= size <= LEN_MODULUS
    ensures Consistent(Printed(text, false, size)) <==> |text| < size || |text| % LEN_MODULUS == size - 1
    ensures Printed(text, false, size).length < size <==> |text| % LEN_MODULUS < size
  {
    if |text| < size { assert |text| % LEN_MODULUS == |text|; }
  }

  /** One character more than fits, and the recorded length is off. */
  lemma PrintedOffByOne(text: string, size: nat)
    requires 1 <= size < LEN_MODULUS && |text| == size
    ensures !Consistent(Printed(text, false, size)) && Printed(text, false, size).length == size
  {
    assert |text| % LEN_MODULUS == |text|;
  }
}
