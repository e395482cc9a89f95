/** RingMemorySink: a circular buffer that holds the last entries its level lets through. */
module MemorySink {
  import opened Text

  // ---------------------------------------------------------------- the ring as a value

  datatype Ring = Ring(buffer: seq<LogEntry>, head: nat, count: nat)

  predicate Shape(r: Ring) {
    && r.head < |r.buffer| && r.count <= |r.buffer|
    && (r.count < |r.buffer| ==> r.head == r.count)
  }

  /** buffer_[head_] = entry; advance head_; count up to the capacity. */
  function Put(r: Ring, e: LogEntry): (n: Ring)
    requires Shape(r)
    ensures Shape(n) && |n.buffer| == |r.buffer|
  {
    var cap := |r.buffer|;
    Ring(r.buffer[r.head := e], if r.head + 1 == cap then 0 else r.head + 1, if r.count < cap then r.count + 1 else cap)
  }

  /** The buffer read by At: from slot 0 while it fills, from head_ once it is full. */
  function Read(r: Ring, i: nat): LogEntry
    requires Shape(r)
  {
    var start := if r.count < |r.buffer| then 0 else r.head;
    r.buffer[(start + i) % |r.buffer|]
  }

  // ---------------------------------------------------------------- what it holds

  /** The last (at most) n entries of a history. */
  function Last(es: seq<LogEntry>, n: nat): (r: seq<LogEntry>)
    ensures |r| == if |es| <= n then |es| else n
  {
    if |es| <= n then es else es[|es| - n..]
  }

  /** The entries in the order At gives them. */
  function View(r: Ring): (v: seq<LogEntry>)
    requires Shape(r)
    ensures |v| == r.count
  {
    if r.count < |r.buffer| then r.buffer[..r.count] else r.buffer[r.head..] + r.buffer[..r.head]
  }

  lemma ModOnce(k: nat, n: nat)
    requires k < 2 * n
    ensures k % n == if k < n then k else k - n
  {
    if k >= n { assert k == n * 1 + (k - n); assert k / n == 1; }
  }

  lemma ReadView(r: Ring, i: nat)
    requires Shape(r) && i < r.count
    ensures Read(r, i) == View(r)[i]
  {
    ModOnce((if r.count < |r.buffer| then 0 else r.head) + i, |r.buffer|);
  }

  lemma LastSnoc(es: seq<LogEntry>, e: LogEntry, n: nat)
    requires n >= 1
    ensures |es| < n ==> Last(es + [e], n) == Last(es, n) + [e]
    ensures |es| >= n ==> Last(es + [e], n) == Last(es, n)[1..] + [e]
  {
  }

  lemma PutView(r: Ring, e: LogEntry)
    requires Shape(r)
    ensures View(Put(r, e)) == if r.count < |r.buffer| then View(r) + [e] else View(r)[1..] + [e]
  {
  }

  /** What a ring of this capacity holds after the history `es`. */
  predicate HoldsLast(r: Ring, es: seq<LogEntry>) {
    Shape(r) && View(r) == Last(es, |r.buffer|)
  }

  lemma PutHolds(r: Ring, es: seq<LogEntry>, e: LogEntry)
    requires HoldsLast(r, es)
    ensures HoldsLast(Put(r, e), es + [e])
  {
    PutView(r, e);
    LastSnoc(es, e, |r.buffer|);
  }

  // ---------------------------------------------------------------- runs

  datatype Event = Write(entry: LogEntry) | SetLevel(level: Level)

  function Run(r: Ring, min: Level, es: seq<Event>): (n: Ring)
    requires Shape(r)
    ensures Shape(n) && |n.buffer| == |r.buffer|
    decreases |es|
  {
    if es == [] then r
    else
      match es[0]
      case Write(e) => Run(if ShouldLog(e.level, min) then Put(r, e) else r, min, es[1..])
      case SetLevel(level) => Run(r, level, es[1..])
  }

  /** The entries the level in force at their call lets through. */
  function Accepted(min: Level, es: seq<Event>): seq<LogEntry>
    decreases |es|
  {
    if es == [] then []
    else
      match es[0]
      case Write(e) => (if ShouldLog(e.level, min) then [e] else []) + Accepted(min, es[1..])
      case SetLevel(level) => Accepted(level, es[1..])
  }

  /** The level in force after the events. */
  function LevelAfter(min: Level, es: seq<Event>): Level {
    if es == [] then min
    else
      match es[|es| - 1]
      case SetLevel(level) => level
      case Write(_) => LevelAfter(min, es[..|es| - 1])
  }

  /** An entry is kept if and only if its level is at or above the last one set: exactly at it yes,
      below it no. */
  lemma {:induction false} AcceptedExactly(min: Level, es: seq<Event>, e: LogEntry)
    ensures Accepted(min, es + [Write(e)])
         == Accepted(min, es) + (if AtOrAbove(e.level, LevelAfter(min, es)) then [e] else [])
    decreases |es|
  {
    if es == [] {
      ShouldLogExactly(e.level, min);
      assert [] + [Write(e)] == [Write(e)] && [Write(e)][1..] == [];
      assert Accepted(min, []) == [];
    } else {
      var rest := es[1..];
      assert (es + [Write(e)])[0] == es[0] && (es + [Write(e)])[1..] == rest + [Write(e)];
      var next := match es[0] case SetLevel(level) => level case Write(_) => min;
      AcceptedExactly(next, rest, e);
      LevelAfterFirst(min, es);
      if es[0].Write? {
        var first := if ShouldLog(es[0].entry.level, min) then [es[0].entry] else [];
        Assoc(first, Accepted(min, rest), if AtOrAbove(e.level, LevelAfter(min, es)) then [e] else []);
      }
    }
  }

  lemma {:induction false} LevelAfterFirst(min: Level, es: seq<Event>)
    requires es != []
    ensures LevelAfter(min, es)
         == LevelAfter(match es[0] case SetLevel(level) => level case Write(_) => min, es[1..])
    decreases |es|
  {
    if |es| > 1 {
      var front := es[..|es| - 1];
      assert es[1..][|es| - 2] == es[|es| - 1] && es[1..][..|es| - 2] == front[1..];
      LevelAfterFirst(min, front);
    } else {
      assert es[..0] == [] && es[1..] == [];
    }
  }

  lemma {:induction false} RunHolds(r: Ring, min: Level, es: seq<Event>, before: seq<LogEntry>)
    requires HoldsLast(r, before)
    ensures HoldsLast(Run(r, min, es), before + Accepted(min, es))
    decreases |es|
  {
    if es == [] {
      assert before + [] == before;
    } else {
      match es[0]
      case Write(e) =>
        var rest := Accepted(min, es[1..]);
        if ShouldLog(e.level, min) {
          PutHolds(r, before, e);
          RunHolds(Put(r, e), min, es[1..], before + [e]);
          assert before + ([e] + rest) == before + [e] + rest;
        } else {
          RunHolds(r, min, es[1..], before);
          assert [] + rest == rest;
        }
      case SetLevel(level) => RunHolds(r, level, es[1..], before);
    }
  }

  /** After any run on an empty ring, Size is the smaller of capacity and accepted entries, and
      At(i) is the i-th oldest of the last Size accepted ones. */
  lemma SinkRemembers(blank: seq<LogEntry>, es: seq<Event>, i: nat)
    requires |blank| >= 1
    ensures var r, acc := Run(Ring(blank, 0, 0), TRACE, es), Accepted(TRACE, es);
            && r.count == (if |acc| <= |blank| then |acc| else |blank|)
            && (i < r.count ==> Read(r, i) == acc[|acc| - r.count + i])
  {
    var r := Run(Ring(blank, 0, 0), TRACE, es);
    RunHolds(Ring(blank, 0, 0), TRACE, es, []);
    assert [] + Accepted(TRACE, es) == Accepted(TRACE, es);
    if i < r.count { ReadView(r, i); }
  }

  // ---------------------------------------------------------------- the class

  class RingMemorySink {
    const buffer: array<LogEntry>
    const capacity: nat
    var head: nat
    var count: nat
    var minLevel: Level
    ghost var accepted: seq<LogEntry>

    ghost function State(): Ring
      reads this, buffer
    {
      Ring(buffer[..], head, count)
    }

    /** A sink of capacity 0 can be built, but not written to. */
    ghost predicate Valid()
      reads this, buffer
    {
      && buffer.Length == capacity
      && if capacity == 0 then head == count == 0 && accepted == [] else HoldsLast(State(), accepted)
    }

    constructor (capacity: nat, blank: LogEntry)
      ensures Valid() && this.capacity == capacity && accepted == [] && minLevel == TRACE && fresh(buffer)
    {
      this.capacity := capacity;
      buffer := new LogEntry[capacity](_ => blank);
      head := 0;
      count := 0;
      minLevel := TRACE;
      accepted := [];
    }

    method SetLevel(level: Level)
      requires Valid()
      modifies this`minLevel
      ensures Valid() && minLevel == level
    {
      minLevel := level;
    }

    method Write(entry: LogEntry)
      requires Valid()
      requires capacity >= 1 || !ShouldLog(entry.level, minLevel)
      modifies this, buffer
      ensures Valid() && minLevel == old(minLevel)
      ensures accepted == old(accepted) + (if ShouldLog(entry.level, minLevel) then [entry] else [])
    {
      if !ShouldLog(entry.level, minLevel) { return; }
      PutHolds(State(), accepted, entry);
      ModOnce(head + 1, capacity);
      ghost var next := Put(State(), entry);
      buffer[head] := entry;
      assert buffer[..] == next.buffer;
      head := (head + 1) % capacity;
      if count < capacity { count := count + 1; }
      accepted := accepted + [entry];
      assert State() == next;
    }

    method Size() returns (n: nat)
      requires Valid()
      ensures n == if |accepted| <= capacity then |accepted| else capacity
    {
      n := count;
    }

    method At(index: nat) returns (e: LogEntry)
      requires Valid() && capacity >= 1
      ensures index < |Last(accepted, capacity)| ==> e == accepted[|accepted| - |Last(accepted, capacity)| + index]
    {
      var start := if count < capacity then 0 else head;
      e := buffer[(start + index) % capacity];
      assert e == Read(State(), index);
      if index < count { ReadView(State(), index); }
    }
  }
}
