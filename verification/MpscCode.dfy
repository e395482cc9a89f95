/** The 32-bit code followed exactly, with unbounded counters and history beside it. The code's
    equality tests see counters modulo 2^32, so they may accept a snapshot that is whole turns of the
    counter old. `CodeStep` says what that amounts to on unbounded counters. It is harmless unless a
    compare-exchange does so on a full ring. */
module MpscCode {
  import opened Bits
  import opened MpscRing
  import opened MpscSafety
  import opened MpscWrap

  // ---------------------------------------------------------------- the code's steps

  /** The sequence load finds a number that is not the snapshot but looks like it. */
  predicate OldLook(m: Memory, t: Tid)
    requires Shape(m)
  {
    t in m.producers && m.producers[t].LoadSeq? &&
    var pos := m.producers[t].pos;
    var read := m.sequence[Slot(m.cap, pos)];
    read != pos && read % TWO32 == pos % TWO32
  }

  /** The compare-exchange finds a write position that is not the snapshot but looks like it. */
  predicate OldCas(m: Memory, t: Tid) {
    && t in m.producers && m.producers[t].Cas?
    && m.writePos != m.producers[t].pos && m.writePos % TWO32 == m.producers[t].pos % TWO32
  }

  /** Such a compare-exchange succeeds although the ring is full. */
  predicate Harmful(s: State, e: Event) {
    e.Move? && !e.spurious && OldCas(s.mem, e.t) && |s.claims| == s.released + s.mem.cap
  }

  /** Thread t holding the current write position instead of one that looks like it. */
  function Renewed(s: State, t: Tid): State
    requires t in s.mem.producers && s.mem.producers[t].Cas?
  {
    s.(mem := To(s.mem, t, Cas(s.mem.producers[t].item, s.mem.writePos)))
  }

  /** Thread t going on to its compare-exchange. */
  function GoesOn(s: State, e: Event, t: Tid): State
    requires StateShape(s) && t in s.mem.producers && s.mem.producers[t].LoadSeq?
  {
    s.(mem := To(s.mem, t, Cas(s.mem.producers[t].item, s.mem.producers[t].pos)),
       loops := LoopStep(s.mem, s.loops, e))
  }

  function CodeStep(s: State, e: Event): (r: State)
    requires StateShape(s)
    ensures StateShape(r)
  {
    if e.Move? && OldLook(s.mem, e.t) then GoesOn(s, e, e.t)
    else if e.Move? && !e.spurious && OldCas(s.mem, e.t) then Step(Renewed(s, e.t), e)
    else Step(s, e)
  }

  /** Where thread t is after its next step, and whether that step claims a position. */
  function CodePhase(m: Memory, t: Tid, spurious: bool): Producer
    requires Shape(m) && t in m.producers
  {
    var p := m.producers[t];
    if OldLook(m, t) then Cas(p.item, p.pos)
    else if !spurious && OldCas(m, t) then Write(p.item, m.writePos, 0)
    else NextPhase(m, t, spurious)
  }

  predicate CodeClaims(m: Memory, t: Tid, spurious: bool) {
    Claims(m, Move(t, spurious)) || (!spurious && OldCas(m, t))
  }

  /** What a producer's step changes, and that it leaves the consumer alone. */
  lemma CodeMoves(s: State, t: Tid, spurious: bool)
    requires StateShape(s) && t in s.mem.producers
    ensures var s' := CodeStep(s, Move(t, spurious));
            && s'.mem.producers == s.mem.producers[t := CodePhase(s.mem, t, spurious)]
            && s'.mem.consumer == s.mem.consumer && s'.mem.popped == s.mem.popped
            && s'.claims == if CodeClaims(s.mem, t, spurious)
                            then s.claims + [Claim(t, s.mem.producers[t].item)] else s.claims
  {
    if !OldLook(s.mem, t) {
      if !spurious && OldCas(s.mem, t) {
        RenewedMoves(s, t);
      } else {
        ProducerMoves(s.mem, t, spurious, 0);
      }
    }
  }

  lemma RenewedMoves(s: State, t: Tid)
    requires StateShape(s) && OldCas(s.mem, t)
    ensures var s' := Step(Renewed(s, t), Move(t, false));
            && s'.mem.producers == s.mem.producers[t := Write(s.mem.producers[t].item, s.mem.writePos, 0)]
            && s'.mem.consumer == s.mem.consumer && s'.mem.popped == s.mem.popped
            && s'.claims == s.claims + [Claim(t, s.mem.producers[t].item)]
  {
    ProducerMoves(Renewed(s, t).mem, t, false, 0);
  }

  function CodeExec(s: State, es: seq<Event>): (r: State)
    requires StateShape(s)
    ensures StateShape(r)
  {
    if es == [] then s else CodeStep(CodeExec(s, es[..|es| - 1]), es[|es| - 1])
  }

  /** No harmful compare-exchange happens in the run. */
  ghost predicate Harmless(s: State, es: seq<Event>)
    requires StateShape(s)
  {
    es == [] || (Harmless(s, es[..|es| - 1]) && !Harmful(CodeExec(s, es[..|es| - 1]), es[|es| - 1]))
  }

  /** After a harmless run, event e is harmful. */
  ghost predicate HarmsAfter(s: State, front: seq<Event>, e: Event)
    requires StateShape(s)
  {
    Harmless(s, front) && Harmful(CodeExec(s, front), e)
  }

  lemma CodeSnoc(s: State, es: seq<Event>, e: Event)
    requires StateShape(s)
    ensures CodeExec(s, es + [e]) == CodeStep(CodeExec(s, es), e)
  {
    assert (es + [e])[..|es|] == es;
  }

  lemma HarmlessSnoc(s: State, es: seq<Event>, e: Event)
    requires StateShape(s)
    ensures Harmless(s, es + [e]) <==> Harmless(s, es) && !HarmsAfter(s, es, e)
  {
    assert (es + [e])[..|es|] == es;
  }

  // ---------------------------------------------------------------- one step

  lemma RenewedInv(s: State, t: Tid)
    requires Inv(s) && OldCas(s.mem, t) && |s.claims| < s.released + s.mem.cap
    ensures Inv(Renewed(s, t))
  {
    KeepMove(s, Renewed(s, t), t);
  }

  /** A snapshot that looks like its slot's sequence without being it is not the write position. */
  lemma OldLookBehind(s: State, t: Tid)
    requires Inv(s) && OldLook(s.mem, t)
    ensures s.mem.producers[t].pos < |s.claims|
  {
    SlotReading(s, t);
    CapacityBounds(s.mem.cap);
    var pos := s.mem.producers[t].pos;
    var read := s.mem.sequence[Slot(s.mem.cap, pos)];
    if read < pos { CongruentClose(read, pos, TWO32); }
  }

  lemma GoesOnInv(s: State, e: Event, t: Tid)
    requires Inv(s) && OldLook(s.mem, t)
    ensures Inv(GoesOn(s, e, t))
  {
    OldLookBehind(s, t);
    KeepMove(s, GoesOn(s, e, t), t);
  }

  /** The invariant survives every step of the code but a harmful one. */
  lemma CodeStepInv(s: State, e: Event)
    requires Inv(s) && !Harmful(s, e)
    ensures Inv(CodeStep(s, e))
  {
    if e.Move? && OldLook(s.mem, e.t) {
      GoesOnInv(s, e, e.t);
    } else if e.Move? && !e.spurious && OldCas(s.mem, e.t) {
      RenewedInv(s, e.t);
      StepInv(Renewed(s, e.t), e);
    } else {
      StepInv(s, e);
    }
  }

  lemma OldLookRefines(s: State, t: Tid, spurious: bool)
    requires Inv(s) && OldLook(s.mem, t)
    ensures Shape(Truncate(s.mem))
    ensures Truncate(GoesOn(s, Move(t, spurious), t).mem) == MemStep(Truncate(s.mem), Move(t, spurious), TWO32)
  {
    var LoadSeq(item, pos) := s.mem.producers[t];
    TruncateShape(s.mem);
    SlotTruncated(s.mem.cap, pos);
    RefineTo(s.mem, t, Cas(item, pos));
  }

  lemma RenewedTruncates(m: Memory, t: Tid)
    requires OldCas(m, t)
    ensures Truncate(To(m, t, Cas(m.producers[t].item, m.writePos))) == Truncate(m)
  {
    var p := Cas(m.producers[t].item, m.writePos);
    RefineTo(m, t, p);
    assert Truncate(m).producers[t := TruncateProducer(p)] == Truncate(m).producers;
  }

  lemma OldCasRefines(s: State, t: Tid)
    requires Inv(s) && OldCas(s.mem, t) && |s.claims| < s.released + s.mem.cap
    ensures Shape(Truncate(s.mem)) && StateShape(Renewed(s, t))
    ensures Truncate(Step(Renewed(s, t), Move(t, false)).mem) == MemStep(Truncate(s.mem), Move(t, false), TWO32)
  {
    RenewedInv(s, t);
    RenewedTruncates(s.mem, t);
    RefineStep(Renewed(s, t), Move(t, false));
  }

  lemma OtherwiseAgrees(s: State, t: Tid, spurious: bool)
    requires Inv(s) && t in s.mem.producers && !OldLook(s.mem, t) && (spurious || !OldCas(s.mem, t))
    ensures Agrees(s.mem, t, spurious)
  {
    if s.mem.producers[t].LoadSeq? || s.mem.producers[t].Write? {
      SlotTruncated(s.mem.cap, s.mem.producers[t].pos);
    }
  }

  /** One event of the 32-bit code is one CodeStep with the counters truncated, for every event but
      a harmful one. No snapshot needs to be fresh. */
  lemma CodeStepRefines(s: State, e: Event)
    requires Inv(s) && !Harmful(s, e)
    ensures Shape(Truncate(s.mem))
    ensures Truncate(CodeStep(s, e).mem) == MemStep(Truncate(s.mem), e, TWO32)
  {
    if e.Move? && OldLook(s.mem, e.t) {
      OldLookRefines(s, e.t, e.spurious);
    } else if e.Move? && !e.spurious && OldCas(s.mem, e.t) {
      OldCasRefines(s, e.t);
    } else {
      if e.Move? && e.t in s.mem.producers { OtherwiseAgrees(s, e.t, e.spurious); }
      RefineStep(s, e);
    }
  }

  // ---------------------------------------------------------------- runs

  lemma {:induction false} CodeRuns(s: State, es: seq<Event>)
    requires Inv(s) && Harmless(s, es)
    ensures Inv(CodeExec(s, es)) && Shape(Truncate(s.mem))
    ensures Truncate(CodeExec(s, es).mem) == MemExec(Truncate(s.mem), es, TWO32)
  {
    if es == [] {
      TruncateShape(s.mem);
    } else {
      var front, e := es[..|es| - 1], es[|es| - 1];
      CodeRuns(s, front);
      CodeStepInv(CodeExec(s, front), e);
      CodeStepRefines(CodeExec(s, front), e);
    }
  }

  /** The history beside the code's run: claims in order, slots released, unbounded positions. */
  function CodeHistory(cap: nat, width: nat, threads: set<Tid>, es: seq<Event>): State
    requires cap >= 1
  {
    CodeExec(Init(cap, width, threads), es)
  }

  /** The code's memory is its history's with the counters truncated, and the history satisfies the
      ring invariant, for every schedule without a harmful compare-exchange. */
  lemma CodeFollows(cap: nat, width: nat, threads: set<Tid>, es: seq<Event>)
    requires CapacityOk(cap)
    ensures cap >= 1
    ensures Harmless(Init(cap, width, threads), es) ==>
              && Inv(CodeHistory(cap, width, threads, es))
              && CodeReached(cap, width, threads, es) == Truncate(CodeHistory(cap, width, threads, es).mem)
  {
    InitInv(cap, width, threads);
    TruncateInit(cap, width, threads);
    if Harmless(Init(cap, width, threads), es) { CodeRuns(Init(cap, width, threads), es); }
  }

  lemma FreshIsStep(s: State, e: Event)
    requires Inv(s) && FreshMove(s, e)
    ensures CodeStep(s, e) == Step(s, e) && !Harmful(s, e)
  {
    if e.Move? && e.t in s.mem.producers { FreshAgrees(s, e.t); }
  }

  /** As long as no thread moves on a stale snapshot the code's history is the unbounded machine's. */
  lemma {:induction false} FreshIsCode(s: State, es: seq<Event>)
    requires Inv(s) && FreshRun(s, es)
    ensures CodeExec(s, es) == Exec(s, es) && Harmless(s, es)
  {
    if es != [] {
      var front := es[..|es| - 1];
      FreshIsCode(s, front);
      ExecInv(s, front);
      FreshIsStep(Exec(s, front), es[|es| - 1]);
    }
  }

  /** So then the code's state is the unbounded machine's state truncated. */
  lemma CodeRefines(cap: nat, width: nat, threads: set<Tid>, es: seq<Event>)
    requires CapacityOk(cap)
    ensures cap >= 1
    ensures FreshRun(Init(cap, width, threads), es) ==>
              CodeReached(cap, width, threads, es) == Truncate(Reached(cap, width, threads, es).mem)
  {
    InitInv(cap, width, threads);
    CodeFollows(cap, width, threads, es);
    if FreshRun(Init(cap, width, threads), es) { FreshIsCode(Init(cap, width, threads), es); }
  }

  lemma CodeStepClaims(s: State, e: Event)
    requires StateShape(s)
    ensures |s.claims| <= |CodeStep(s, e).claims|
  {
  }

  lemma ShortNotHarmful(s: State, e: Event)
    requires Inv(s) && |s.claims| < TWO32
    ensures !Harmful(s, e)
  {
    if e.Move? && e.t in s.mem.producers { assert ProducerOk(s, e.t); }
  }

  /** A run with fewer than 2^32 claims is harmless, whatever the schedule. */
  lemma {:induction false} ShortHarmless(s: State, es: seq<Event>)
    requires Inv(s) && |CodeExec(s, es).claims| < TWO32
    ensures Harmless(s, es)
  {
    if es != [] {
      var front, e := es[..|es| - 1], es[|es| - 1];
      CodeStepClaims(CodeExec(s, front), e);
      ShortHarmless(s, front);
      CodeRuns(s, front);
      ShortNotHarmful(CodeExec(s, front), e);
    }
  }

  // ---------------------------------------------------------------- what the code promises

  /** No slot's data is touched by two threads at once in the code's memory ... */
  lemma CodeExclusive(cap: nat, width: nat, threads: set<Tid>, es: seq<Event>, a: Thread, b: Thread, i: nat)
    requires CapacityOk(cap)
    ensures cap >= 1
    ensures Harmless(Init(cap, width, threads), es) ==>
              var c := CodeReached(cap, width, threads, es);
              c.cap >= 1 && (Touches(c, a, i) && Touches(c, b, i) ==> a == b)
  {
    CodeFollows(cap, width, threads, es);
    if Harmless(Init(cap, width, threads), es) { TruncatedExclusive(CodeHistory(cap, width, threads, es), a, b, i); }
  }

  lemma TruncatedExclusive(s: State, a: Thread, b: Thread, i: nat)
    requires Inv(s)
    ensures var c := Truncate(s.mem); c.cap >= 1 && (Touches(c, a, i) && Touches(c, b, i) ==> a == b)
  {
    TouchesTruncated(s, a, i);
    TouchesTruncated(s, b, i);
    if Touches(s.mem, a, i) && Touches(s.mem, b, i) { InvExclusive(s, a, b, i); }
  }

  /** ... and items are delivered whole, first in first out, overall and per producer. */
  lemma CodeFifo(cap: nat, width: nat, threads: set<Tid>, es: seq<Event>, t: Tid)
    requires CapacityOk(cap) && t in threads
    ensures cap >= 1
    ensures Harmless(Init(cap, width, threads), es) ==>
              var c, claims := CodeReached(cap, width, threads, es), CodeHistory(cap, width, threads, es).claims;
              && |c.popped| <= |claims| && c.popped == Items(claims[..|c.popped|])
              && t in c.pushed && Mine(claims[..|c.popped|], t) <= c.pushed[t]
  {
    CodeFollows(cap, width, threads, es);
    CodeThreads(Init(cap, width, threads), es);
    if Harmless(Init(cap, width, threads), es) { FifoTruncated(CodeHistory(cap, width, threads, es), t); }
  }

  lemma {:induction false} CodeThreads(s: State, es: seq<Event>)
    requires StateShape(s)
    ensures CodeExec(s, es).mem.producers.Keys == s.mem.producers.Keys && CodeExec(s, es).mem.cap == s.mem.cap
  {
    if es != [] {
      CodeThreads(s, es[..|es| - 1]);
      CodeStepThreads(CodeExec(s, es[..|es| - 1]), es[|es| - 1]);
    }
  }

  lemma CodeStepThreads(s: State, e: Event)
    requires StateShape(s)
    ensures CodeStep(s, e).mem.producers.Keys == s.mem.producers.Keys
    ensures CodeStep(s, e).mem.cap == s.mem.cap && CodeStep(s, e).mem.width == s.mem.width
  {
  }

  // ---------------------------------------------------------------- exactly when

  /** Two threads touch one slot's data. */
  ghost predicate Clash(c: Memory)
    requires c.cap >= 1
  {
    exists a, b, i :: a != b && Touches(c, a, i) && Touches(c, b, i)
  }

  /** They do now, or will after at most two steps of the consumer. */
  ghost predicate ClashSoon(c: Memory)
    requires Shape(c)
  {
    var c1 := MemStep(c, Consume, TWO32);
    Clash(c) || Clash(c1) || Clash(MemStep(c1, Consume, TWO32))
  }

  lemma InvNoClash(s: State)
    requires Inv(s)
    ensures Truncate(s.mem).cap >= 1 && !Clash(Truncate(s.mem))
  {
    CapacityBounds(s.mem.cap);
    forall a, b, i | Touches(Truncate(s.mem), a, i) && Touches(Truncate(s.mem), b, i) ensures a == b {
      TruncatedExclusive(s, a, b, i);
    }
  }

  lemma InvNoClashSoon(s: State)
    requires Inv(s)
    ensures Shape(Truncate(s.mem)) && !ClashSoon(Truncate(s.mem))
  {
    var s1 := Step(s, Consume);
    InvNoClash(s);
    RefineStep(s, Consume);
    StepInv(s, Consume);
    InvNoClash(s1);
    RefineStep(s1, Consume);
    StepInv(s1, Consume);
    InvNoClash(Step(s1, Consume));
  }

  lemma WholeTurnsSlot(s: State, t: Tid)
    requires Inv(s) && OldCas(s.mem, t) && |s.claims| == s.released + s.mem.cap
    ensures Slot(s.mem.cap, s.mem.producers[t].pos % TWO32) == Slot(s.mem.cap, s.released)
  {
    SlotTruncated(s.mem.cap, s.mem.writePos);
    SlotNextLap(s.mem.cap, s.released);
  }

  lemma OldCasTakes(m: Memory, t: Tid)
    requires Shape(m) && Shape(Truncate(m)) && OldCas(m, t)
    ensures MemStep(Truncate(m), Move(t, false), TWO32)
         == TakePos(Truncate(m), t, m.producers[t].item, m.producers[t].pos % TWO32, TWO32)
  {
  }

  /** A harmful compare-exchange puts its thread into the oldest slot. */
  lemma HarmfulTakes(s: State, t: Tid)
    requires Inv(s) && Harmful(s, Move(t, false))
    ensures Shape(Truncate(s.mem))
    ensures var c := MemStep(Truncate(s.mem), Move(t, false), TWO32);
            && c == TakePos(Truncate(s.mem), t, s.mem.producers[t].item, s.mem.producers[t].pos % TWO32, TWO32)
            && c.cap >= 1 && Touches(c, Pushing(t), Slot(s.mem.cap, s.released))
  {
    TruncateShape(s.mem);
    WholeTurnsSlot(s, t);
    OldCasTakes(s.mem, t);
  }

  /** The oldest slot is being written by somebody else, or it is published and unread. */
  lemma OldestInUse(s: State)
    requires Inv(s) && |s.claims| == s.released + s.mem.cap
    ensures s.released < |s.claims| && (Owned(s, s.released) || Published(s, s.released))
  {
    CapacityBounds(s.mem.cap);
    assert SlotOk(s, s.released);
  }

  /** The other writer is in the slot already. */
  lemma OwnedClash(s: State, t: Tid)
    requires Inv(s) && Harmful(s, Move(t, false)) && s.released < |s.claims| && Owned(s, s.released)
    ensures Shape(Truncate(s.mem)) && Clash(MemStep(Truncate(s.mem), Move(t, false), TWO32))
  {
    var u, i := s.claims[s.released].tid, Slot(s.mem.cap, s.released);
    HarmfulTakes(s, t);
    SlotTruncated(s.mem.cap, s.released);
    var c := MemStep(Truncate(s.mem), Move(t, false), TWO32);
    assert u != t && Touches(c, Pushing(u), i) && Touches(c, Pushing(t), i);
  }

  /** Thread t writes into slot i, which the consumer reads or is about to read. */
  predicate Overwriting(c: Memory, t: Tid, i: nat) {
    && c.cap >= 1 && |c.sequence| == c.cap && i < c.cap && Touches(c, Pushing(t), i)
    && match c.consumer
       case Copy(_) => Slot(c.cap, c.readPos) == i
       case Ready => Slot(c.cap, c.readPos) == i && c.sequence[i] == (c.readPos + 1) % TWO32
       case Bump(_) => var next := (c.readPos + 1) % TWO32;
                       Slot(c.cap, next) == i && c.sequence[i] == (next + 1) % TWO32
  }

  lemma OverwritingClash(c: Memory, t: Tid, i: nat)
    requires Shape(c) && Overwriting(c, t, i)
    ensures ClashSoon(c)
  {
    var c1 := MemStep(c, Consume, TWO32);
    match c.consumer
    case Copy(_) => assert Touches(c, Pushing(t), i) && Touches(c, Popping, i);
    case Ready => assert Touches(c1, Pushing(t), i) && Touches(c1, Popping, i);
    case Bump(_) =>
      var c2 := MemStep(c1, Consume, TWO32);
      assert Overwriting(c1, t, i);
      assert Touches(c2, Pushing(t), i) && Touches(c2, Popping, i);
  }

  lemma HarmfulOverwrites(s: State, c: Memory, t: Tid)
    requires Inv(s) && s.released < |s.claims| && Published(s, s.released)
    requires c.cap == s.mem.cap && c.sequence == TruncateSeq(s.mem.sequence)
    requires c.consumer == s.mem.consumer && c.readPos == s.mem.readPos % TWO32
    requires Touches(c, Pushing(t), Slot(s.mem.cap, s.released))
    ensures Overwriting(c, t, Slot(s.mem.cap, s.released))
  {
    SlotTruncated(s.mem.cap, s.released);
    AddTruncated(s.released, 1);
    AddTruncated(s.mem.readPos, 1);
  }

  lemma PublishedClash(s: State, t: Tid)
    requires Inv(s) && Harmful(s, Move(t, false)) && s.released < |s.claims| && Published(s, s.released)
    ensures Shape(Truncate(s.mem)) && ClashSoon(MemStep(Truncate(s.mem), Move(t, false), TWO32))
  {
    HarmfulTakes(s, t);
    var c := MemStep(Truncate(s.mem), Move(t, false), TWO32);
    HarmfulOverwrites(s, c, t);
    OverwritingClash(c, t, Slot(s.mem.cap, s.released));
  }

  /** A harmful step breaks exclusivity, at once or within two steps of the consumer. */
  lemma HarmfulClash(s: State, e: Event)
    requires Inv(s) && Harmful(s, e)
    ensures Shape(Truncate(s.mem)) && ClashSoon(MemStep(Truncate(s.mem), e, TWO32))
  {
    assert e == Move(e.t, false);
    OldestInUse(s);
    if Owned(s, s.released) { OwnedClash(s, e.t); } else { PublishedClash(s, e.t); }
  }

  lemma {:induction false} HarmlessPrefix(s: State, p: seq<Event>, rest: seq<Event>)
    requires StateShape(s) && Harmless(s, p + rest)
    ensures Harmless(s, p)
    decreases |rest|
  {
    if rest == [] {
      assert p + rest == p;
    } else {
      var front := rest[..|rest| - 1];
      assert (p + rest)[..|p + rest| - 1] == p + front;
      HarmlessPrefix(s, p, front);
    }
  }

  lemma HarmRun(s: State, front: seq<Event>, e: Event)
    requires Inv(s) && HarmsAfter(s, front, e)
    ensures Shape(Truncate(s.mem)) && ClashSoon(MemExec(Truncate(s.mem), front + [e], TWO32))
  {
    CodeRuns(s, front);
    HarmLast(Truncate(s.mem), front, e, CodeExec(s, front));
  }

  lemma HarmFound(s: State, es: seq<Event>, e: Event)
    requires StateShape(s) && Harmless(s, es)
    ensures Harmless(s, es + [e]) || HarmsAfter(s, es, e)
  {
    assert (es + [e])[..|es|] == es;
  }

  /** A run that is not harmless has a first harmful event. */
  lemma FirstHarm(s: State, done: seq<Event>, rest: seq<Event>) returns (front: seq<Event>, e: Event)
    requires StateShape(s) && Harmless(s, done) && !Harmless(s, done + rest)
    ensures front + [e] <= done + rest && HarmsAfter(s, front, e)
    decreases |rest|
  {
    assert done + [] == done;
    var next := rest[0];
    HarmFound(s, done, next);
    assert done + rest == (done + [next]) + rest[1..];
    if HarmsAfter(s, done, next) {
      front, e := done, next;
    } else {
      front, e := FirstHarm(s, done + [next], rest[1..]);
    }
  }

  lemma HarmShows(s: State, es: seq<Event>) returns (p: seq<Event>)
    requires Inv(s) && !Harmless(s, es)
    ensures p <= es && Shape(Truncate(s.mem)) && ClashSoon(MemExec(Truncate(s.mem), p, TWO32))
  {
    assert [] + es == es;
    var front, e := FirstHarm(s, [], es);
    HarmRun(s, front, e);
    p := front + [e];
  }

  lemma HarmlessSafe(s: State, es: seq<Event>, p: seq<Event>)
    requires Inv(s) && Harmless(s, es) && p <= es
    ensures Shape(Truncate(s.mem)) && !ClashSoon(MemExec(Truncate(s.mem), p, TWO32))
  {
    assert p + es[|p|..] == es;
    HarmlessPrefix(s, p, es[|p|..]);
    CodeRuns(s, p);
    InvNoClashSoon(CodeExec(s, p));
  }

  lemma HarmLast(m: Memory, es: seq<Event>, e: Event, s: State)
    requires Shape(m) && Inv(s) && Harmful(s, e) && MemExec(m, es, TWO32) == Truncate(s.mem)
    ensures ClashSoon(MemExec(m, es + [e], TWO32))
  {
    HarmfulClash(s, e);
    MemSnoc(m, es, e, TWO32);
  }

  /** Running the code, no two threads get to touch one slot's data, whatever the consumer does at
      any point of the run. */
  ghost predicate ClashFree(m: Memory, es: seq<Event>)
    requires Shape(m)
  {
    forall p: seq<Event> :: p <= es ==> !ClashSoon(MemExec(m, p, TWO32))
  }

  lemma ExactlyFrom(s: State, es: seq<Event>)
    requires Inv(s)
    ensures Shape(Truncate(s.mem)) && (Harmless(s, es) <==> ClashFree(Truncate(s.mem), es))
  {
    TruncateShape(s.mem);
    if Harmless(s, es) {
      forall p: seq<Event> | p <= es ensures !ClashSoon(MemExec(Truncate(s.mem), p, TWO32)) {
        HarmlessSafe(s, es, p);
      }
    } else {
      var p := HarmShows(s, es);
      assert p <= es && ClashSoon(MemExec(Truncate(s.mem), p, TWO32));
    }
  }

  /** Exactly when the code keeps the slots exclusive: for every schedule, if and only if no
      compare-exchange on a snapshot whole turns old meets a full ring. */
  lemma ExclusiveExactly(cap: nat, width: nat, threads: set<Tid>, es: seq<Event>)
    requires CapacityOk(cap)
    ensures cap >= 1
    ensures Harmless(Init(cap, width, threads), es) <==> ClashFree(InitMemory(cap, width, threads), es)
  {
    InitInv(cap, width, threads);
    TruncateInit(cap, width, threads);
    ExactlyFrom(Init(cap, width, threads), es);
  }
}
