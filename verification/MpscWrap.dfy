/** The code's 32-bit counters against the unbounded ones. */
module MpscWrap {
  import opened Bits
  import opened MpscRing
  import opened MpscSafety

  function TruncateProducer(p: Producer): Producer {
    match p
    case LoadSeq(item, pos) => LoadSeq(item, pos % TWO32)
    case Cas(item, pos) => Cas(item, pos % TWO32)
    case Write(item, pos, copied) => Write(item, pos % TWO32, copied)
    case _ => p
  }

  function TruncateProducers(ps: map<Tid, Producer>): (r: map<Tid, Producer>)
    ensures r.Keys == ps.Keys
    ensures forall t :: t in ps ==> r[t] == TruncateProducer(ps[t])
  {
    map t | t in ps :: TruncateProducer(ps[t])
  }

  function TruncateSeq(s: seq<nat>): (r: seq<nat>)
    ensures |r| == |s|
    ensures forall i :: 0 <= i < |s| ==> r[i] == s[i] % TWO32
  {
    seq(|s|, i requires 0 <= i < |s| => s[i] % TWO32)
  }

  /** The memory the code holds when the unbounded machine holds m. */
  function Truncate(m: Memory): Memory {
    m.(sequence := TruncateSeq(m.sequence),
       writePos := m.writePos % TWO32,
       readPos := m.readPos % TWO32,
       producers := TruncateProducers(m.producers))
  }

  /** Thread t's position snapshot is recent enough for its next test: it lags the write position
      by at most 2^32 - Capacity at the sequence load, and by less than 2^32 at the
      compare-exchange. */
  ghost predicate FreshFor(s: State, t: Tid)
    requires t in s.mem.producers
  {
    match s.mem.producers[t]
    case LoadSeq(_, pos) => |s.claims| <= pos + (TWO32 - s.mem.cap)
    case Cas(_, pos) => |s.claims| < pos + TWO32
    case _ => true
  }

  /** The thread that moves, if any, does so on a fresh snapshot; others may be stale. */
  ghost predicate FreshMove(s: State, e: Event) {
    e.Move? && e.t in s.mem.producers ==> FreshFor(s, e.t)
  }

  ghost predicate FreshRun(s: State, es: seq<Event>)
    requires StateShape(s)
  {
    es == [] || (FreshRun(s, es[..|es| - 1]) && FreshMove(Exec(s, es[..|es| - 1]), es[|es| - 1]))
  }

  lemma SlotTruncated(cap: nat, pos: nat)
    requires CapacityOk(cap)
    ensures cap >= 1 && Slot(cap, pos % TWO32) == Slot(cap, pos)
  {
    var k: nat :| 1 <= k <= 31 && cap == Pow2(k);
    SlotIsMod(cap, pos);
    SlotIsMod(cap, pos % TWO32);
    Pow2At32();
    ModPow2Nested(pos, k, 32);
  }

  lemma AddTruncated(x: nat, d: nat)
    ensures (x % TWO32 + d) % TWO32 == (x + d) % TWO32
  {
  }

  lemma TruncateShape(m: Memory)
    requires Shape(m)
    ensures Shape(Truncate(m))
  {
  }

  /** Truncating after changing thread t's program counter is changing the truncated one. */
  lemma TruncateMoved(ps: map<Tid, Producer>, t: Tid, p: Producer)
    ensures TruncateProducers(ps[t := p]) == TruncateProducers(ps)[t := TruncateProducer(p)]
  {
  }

  /** The accepting tests of thread t's next step decide alike on truncated counters. */
  predicate Agrees(m: Memory, t: Tid, spurious: bool)
    requires Shape(m) && t in m.producers
  {
    match m.producers[t]
    case LoadSeq(_, pos) =>
      && Slot(m.cap, pos % TWO32) == Slot(m.cap, pos)
      && (var read := m.sequence[Slot(m.cap, pos)]; read % TWO32 == pos % TWO32 <==> read == pos)
    case Cas(_, pos) => spurious || (m.writePos % TWO32 == pos % TWO32 <==> m.writePos == pos)
    case Write(_, pos, _) => Slot(m.cap, pos % TWO32) == Slot(m.cap, pos)
    case _ => true
  }

  lemma FreshAgrees(s: State, t: Tid)
    requires Inv(s) && t in s.mem.producers && FreshFor(s, t)
    ensures Agrees(s.mem, t, false)
  {
    var m := s.mem;
    CapacityBounds(m.cap);
    match m.producers[t]
    case LoadSeq(_, pos) =>
      SlotTruncated(m.cap, pos);
      SlotReading(s, t);
      CongruentClose(m.sequence[Slot(m.cap, pos)], pos, TWO32);
    case Cas(_, pos) =>
      assert ProducerOk(s, t);
      CongruentClose(m.writePos, pos, TWO32);
    case Write(_, pos, _) => SlotTruncated(m.cap, pos);
    case _ =>
  }

  lemma RefineTo(m: Memory, t: Tid, p: Producer)
    ensures Truncate(To(m, t, p)) == To(Truncate(m), t, TruncateProducer(p))
  {
    TruncateMoved(m.producers, t, p);
  }

  lemma LookTruncated(item: Item, pos: nat, read: nat)
    requires read % TWO32 == pos % TWO32 <==> read == pos
    ensures Look(item, pos % TWO32, read % TWO32) == TruncateProducer(Look(item, pos, read))
  {
  }

  lemma RefineTakePos(m: Memory, t: Tid, item: Item, pos: nat)
    ensures Truncate(TakePos(m, t, item, pos, 0)) == TakePos(Truncate(m), t, item, pos % TWO32, TWO32)
  {
    RefineTo(m, t, Write(item, pos, 0));
    AddTruncated(pos, 1);
  }

  lemma TruncateUpdate(s: seq<nat>, i: nat, x: nat)
    requires i < |s|
    ensures TruncateSeq(s[i := x]) == TruncateSeq(s)[i := x % TWO32]
  {
  }

  lemma RefineCopyIn(m: Memory, t: Tid, item: Item, pos: nat, copied: nat)
    requires |m.data| == m.cap >= 1 && copied < |item| && copied < |m.data[Slot(m.cap, pos)]|
    requires Slot(m.cap, pos % TWO32) == Slot(m.cap, pos)
    ensures Truncate(CopyIn(m, t, item, pos, copied)) == CopyIn(Truncate(m), t, item, pos % TWO32, copied)
  {
    RefineTo(m, t, Write(item, pos, copied + 1));
  }

  lemma RefinePublish(m: Memory, t: Tid, item: Item, pos: nat)
    requires |m.sequence| == m.cap >= 1 && t in m.pushed
    requires Slot(m.cap, pos % TWO32) == Slot(m.cap, pos)
    ensures Truncate(Publish(m, t, item, pos, 0)) == Publish(Truncate(m), t, item, pos % TWO32, TWO32)
  {
    RefineTo(m, t, Returned(true));
    AddTruncated(pos, 1);
    TruncateUpdate(m.sequence, Slot(m.cap, pos), pos + 1);
  }

  lemma RefineLook(m: Memory, t: Tid, spurious: bool)
    requires Shape(m) && Shape(Truncate(m)) && t in m.producers && Agrees(m, t, spurious)
    requires !m.producers[t].Cas? && !m.producers[t].Write?
    ensures Truncate(ProducerStep(m, t, spurious, 0)) == ProducerStep(Truncate(m), t, spurious, TWO32)
  {
    match m.producers[t]
    case LoadPos(item) => RefineTo(m, t, LoadSeq(item, m.writePos));
    case LoadSeq(item, pos) =>
      var read := m.sequence[Slot(m.cap, pos)];
      LookTruncated(item, pos, read);
      RefineTo(m, t, Look(item, pos, read));
    case _ =>
  }

  lemma RefineCas(m: Memory, t: Tid, spurious: bool)
    requires Shape(m) && Shape(Truncate(m)) && t in m.producers && Agrees(m, t, spurious) && m.producers[t].Cas?
    ensures Truncate(ProducerStep(m, t, spurious, 0)) == ProducerStep(Truncate(m), t, spurious, TWO32)
  {
    var Cas(item, pos) := m.producers[t];
    RefineTakePos(m, t, item, pos);
    RefineTo(m, t, LoadSeq(item, m.writePos));
  }

  lemma RefineWrite(m: Memory, t: Tid, spurious: bool)
    requires Shape(m) && Shape(Truncate(m)) && t in m.producers && Agrees(m, t, spurious) && m.producers[t].Write?
    ensures Truncate(ProducerStep(m, t, spurious, 0)) == ProducerStep(Truncate(m), t, spurious, TWO32)
  {
    var Write(item, pos, copied) := m.producers[t];
    if copied < m.width { RefineCopyIn(m, t, item, pos, copied); } else { RefinePublish(m, t, item, pos); }
  }

  lemma RefineProducer(m: Memory, t: Tid, spurious: bool)
    requires Shape(m) && Shape(Truncate(m)) && t in m.producers && Agrees(m, t, spurious)
    ensures Truncate(ProducerStep(m, t, spurious, 0)) == ProducerStep(Truncate(m), t, spurious, TWO32)
  {
    match m.producers[t]
    case Cas(_, _) => RefineCas(m, t, spurious);
    case Write(_, _, _) => RefineWrite(m, t, spurious);
    case _ => RefineLook(m, t, spurious);
  }

  lemma SeenAgrees(s: State)
    requires Inv(s) && s.mem.consumer.Ready?
    ensures var seen := s.mem.sequence[Slot(s.mem.cap, s.mem.readPos)];
            seen % TWO32 == (s.mem.readPos + 1) % TWO32 <==> seen == s.mem.readPos + 1
  {
    CapacityBounds(s.mem.cap);
    assert SlotOk(s, s.mem.readPos);
    CongruentClose(s.mem.sequence[Slot(s.mem.cap, s.mem.readPos)], s.mem.readPos + 1, TWO32);
  }

  lemma PopAgrees(m: Memory)
    requires Shape(m) && Shape(Truncate(m)) && Slot(m.cap, m.readPos % TWO32) == Slot(m.cap, m.readPos)
    requires var seen := m.sequence[Slot(m.cap, m.readPos)];
             seen % TWO32 == (m.readPos + 1) % TWO32 <==> seen == m.readPos + 1
    ensures CanPop(Truncate(m), TWO32) <==> CanPop(m, 0)
  {
    AddTruncated(m.readPos, 1);
  }

  /** The consumer's test decides alike on truncated counters, however often they have wrapped. */
  lemma ConsumerAgrees(s: State)
    requires Inv(s) && Shape(Truncate(s.mem))
    ensures Slot(s.mem.cap, s.mem.readPos % TWO32) == Slot(s.mem.cap, s.mem.readPos)
    ensures s.mem.consumer.Ready? ==> (CanPop(Truncate(s.mem), TWO32) <==> CanPop(s.mem, 0))
  {
    SlotTruncated(s.mem.cap, s.mem.readPos);
    if s.mem.consumer.Ready? {
      SeenAgrees(s);
      PopAgrees(s.mem);
    }
  }

  lemma RefineRelease(m: Memory, buf: Item)
    requires |m.sequence| == m.cap >= 1 && Slot(m.cap, m.readPos % TWO32) == Slot(m.cap, m.readPos)
    ensures Truncate(Release(m, buf, 0)) == Release(Truncate(m), buf, TWO32)
  {
    AddTruncated(m.readPos, m.cap);
    TruncateUpdate(m.sequence, Slot(m.cap, m.readPos), m.readPos + m.cap);
  }

  lemma RefineConsumer(m: Memory)
    requires Shape(m) && Shape(Truncate(m))
    requires Slot(m.cap, m.readPos % TWO32) == Slot(m.cap, m.readPos)
    requires m.consumer.Ready? ==> (CanPop(Truncate(m), TWO32) <==> CanPop(m, 0))
    ensures Truncate(ConsumerStep(m, 0)) == ConsumerStep(Truncate(m), TWO32)
  {
    match m.consumer
    case Ready =>
    case Copy(buf) => if |buf| >= m.width { RefineRelease(m, buf); }
    case Bump(_) => AddTruncated(m.readPos, 1);
  }

  lemma RefineConsume(s: State)
    requires Inv(s) && Shape(Truncate(s.mem))
    ensures Truncate(ConsumerStep(s.mem, 0)) == ConsumerStep(Truncate(s.mem), TWO32)
  {
    ConsumerAgrees(s);
    RefineConsumer(s.mem);
  }

  lemma CallTruncated(m: Memory, t: Tid, item: Item)
    ensures CanCall(Truncate(m), t, item) <==> CanCall(m, t, item)
  {
  }

  lemma RefineCall(m: Memory, t: Tid, item: Item)
    requires Shape(m) && Shape(Truncate(m))
    ensures Truncate(MemStep(m, Call(t, item), 0)) == MemStep(Truncate(m), Call(t, item), TWO32)
  {
    CallTruncated(m, t, item);
    if CanCall(m, t, item) { RefineTo(m, t, LoadPos(item)); }
  }

  /** One event, run by the code on truncated counters, is the unbounded event truncated, if the
      accepting tests of the thread that moves decide alike. */
  lemma RefineStep(s: State, e: Event)
    requires Inv(s) && (e.Move? && e.t in s.mem.producers ==> Agrees(s.mem, e.t, e.spurious))
    ensures Shape(Truncate(s.mem))
    ensures Truncate(MemStep(s.mem, e, 0)) == MemStep(Truncate(s.mem), e, TWO32)
  {
    TruncateShape(s.mem);
    match e
    case Call(t, item) => RefineCall(s.mem, t, item);
    case Move(t, spurious) => if t in s.mem.producers { RefineProducer(s.mem, t, spurious); }
    case Consume => RefineConsume(s);
  }

  lemma TruncateInit(cap: nat, width: nat, threads: set<Tid>)
    requires CapacityOk(cap)
    ensures cap >= 1 && Truncate(InitMemory(cap, width, threads)) == InitMemory(cap, width, threads)
  {
    CapacityBounds(cap);
    var m := InitMemory(cap, width, threads);
    assert TruncateSeq(m.sequence) == m.sequence;
    assert Truncate(m).producers == m.producers;
  }

  /** The code's memory after a schedule, from the constructor's memory. */
  function CodeReached(cap: nat, width: nat, threads: set<Tid>, es: seq<Event>): Memory
    requires cap >= 1
  {
    MemExec(InitMemory(cap, width, threads), es, TWO32)
  }

  lemma FifoTruncated(s: State, t: Tid)
    requires Inv(s) && t in s.mem.producers
    ensures var c := Truncate(s.mem);
            && |c.popped| <= |s.claims| && c.popped == Items(s.claims[..|c.popped|])
            && t in c.pushed && Mine(s.claims[..|c.popped|], t) <= c.pushed[t]
  {
    PoppedArePushed(s, t);
  }

  lemma TouchesTruncated(s: State, who: Thread, i: nat)
    requires Inv(s)
    ensures s.mem.cap >= 1 && (Touches(Truncate(s.mem), who, i) <==> Touches(s.mem, who, i))
  {
    match who
    case Pushing(t) =>
      if t in s.mem.producers && s.mem.producers[t].Write? {
        SlotTruncated(s.mem.cap, s.mem.producers[t].pos);
      }
    case Popping => SlotTruncated(s.mem.cap, s.mem.readPos);
  }

  /** At the compare-exchange the bound is exact: the truncated test decides wrongly if and only if
      the snapshot lags by a whole number of turns of the counter. */
  lemma CasExactly(s: State, t: Tid)
    requires Inv(s) && t in s.mem.producers && s.mem.producers[t].Cas?
    ensures var pos := s.mem.producers[t].pos;
            && pos <= |s.claims|
            && ((s.mem.writePos % TWO32 == pos % TWO32 <==> s.mem.writePos == pos)
                <==> |s.claims| == pos || (|s.claims| - pos) % TWO32 != 0)
  {
    assert ProducerOk(s, t);
    TurnsExactly(|s.claims|, s.mem.producers[t].pos);
  }

  lemma TurnsExactly(a: nat, b: nat)
    requires b <= a
    ensures a % TWO32 == b % TWO32 <==> (a - b) % TWO32 == 0
  {
  }

  /** A run that has claimed at most 2^32 - Capacity positions is fresh, whatever the schedule. */
  lemma {:induction false} ShortRunsFresh(s: State, es: seq<Event>)
    requires StateShape(s) && |Exec(s, es).claims| <= TWO32 - s.mem.cap
    ensures FreshRun(s, es)
  {
    if es != [] {
      ExecCap(s, es[..|es| - 1]);
      ShortRunsFresh(s, es[..|es| - 1]);
    }
  }

  // ---------------------------------------------------------------- the rejecting comparison

  /** Two different numbers less than 2^32 apart compare alike after truncation exactly when no
      multiple of 2^32 lies between them. */
  lemma TruncatedCompare(a: nat, b: nat)
    requires a != b && a < b + TWO32 && b < a + TWO32
    ensures (a % TWO32 < b % TWO32 <==> a < b) <==> a / TWO32 == b / TWO32
  {
  }

  /** TryPush answers false exactly on a full ring if and only if the loaded sequence and the
      snapshot lie in the same 2^32 block (or are equal, when it goes on to claim). */
  lemma RejectExact(s: State, t: Tid, spurious: bool)
    requires Inv(s) && t in s.mem.producers && s.mem.producers[t].LoadSeq? && FreshFor(s, t)
    ensures s.mem.cap >= 1
    ensures var pos := s.mem.producers[t].pos;
            var read := s.mem.sequence[Slot(s.mem.cap, pos)];
            (Step(s, Move(t, spurious)).mem.producers[t] == Returned(false)
             <==> pos == |s.claims| == s.released + s.mem.cap)
            <==> (read == pos || read / TWO32 == pos / TWO32)
  {
    var pos := s.mem.producers[t].pos;
    var read := s.mem.sequence[Slot(s.mem.cap, pos)];
    SlotReading(s, t);
    CapacityBounds(s.mem.cap);
    Decision(s, t, spurious);
    if read != pos {
      assert read < pos + TWO32 && pos < read + TWO32;
      TruncatedCompare(read, pos);
    }
  }

  /** The same in the number of pushes so far: on a full ring a current TryPush returns false if and
      only if the write counter, as the code holds it, is at least Capacity - 1 (Capacity while
      the oldest item is still being written). */
  lemma RejectByCount(s: State, t: Tid, spurious: bool)
    requires Inv(s) && t in s.mem.producers && s.mem.producers[t].LoadSeq?
    requires s.mem.producers[t].pos == |s.claims| == s.released + s.mem.cap
    ensures s.released < |s.claims|
    ensures Step(s, Move(t, spurious)).mem.producers[t] == Returned(false)
            <==> |s.claims| % TWO32 >= (if Owned(s, s.released) then s.mem.cap else s.mem.cap - 1)
  {
    CapacityBounds(s.mem.cap);
    FullRead(s);
    RejectBack(s, t, spurious, if Owned(s, s.released) then s.mem.cap else s.mem.cap - 1);
  }

  /** Against a sequence d below the snapshot. */
  lemma RejectBack(s: State, t: Tid, spurious: bool, d: nat)
    requires StateShape(s) && t in s.mem.producers && s.mem.producers[t].LoadSeq?
    requires var pos := s.mem.producers[t].pos;
             1 <= d <= pos && d < TWO32 && s.mem.sequence[Slot(s.mem.cap, pos)] == pos - d
    ensures Step(s, Move(t, spurious)).mem.producers[t] == Returned(false) <==> s.mem.producers[t].pos % TWO32 >= d
  {
    var LoadSeq(item, pos) := s.mem.producers[t];
    Decision(s, t, spurious);
    LookBack(item, pos, d);
  }

  lemma LookBack(item: Item, pos: nat, d: nat)
    requires 1 <= d <= pos && d < TWO32
    ensures Look(item, pos, pos - d) == Returned(false) <==> pos % TWO32 >= d
  {
    BorrowExact(pos, d);
  }

  /** On a full ring the slot of the next position is the oldest item's. */
  lemma FullRead(s: State)
    requires Inv(s) && |s.claims| == s.released + s.mem.cap
    ensures s.released < |s.claims|
    ensures s.mem.sequence[Slot(s.mem.cap, |s.claims|)] ==
              if Owned(s, s.released) then s.released else s.released + 1
  {
    var R := s.released;
    CapacityBounds(s.mem.cap);
    SlotNextLap(s.mem.cap, R);
    assert SlotOk(s, R);
    if Owned(s, R) { assert ProducerOk(s, s.claims[R].tid); }
  }

  /** Going back d from x, the truncated number gets smaller if and only if it was at least d. */
  lemma BorrowExact(x: nat, d: nat)
    requires 1 <= d <= x && d < TWO32
    ensures (x - d) % TWO32 < x % TWO32 <==> x % TWO32 >= d
    ensures (x - d) % TWO32 != x % TWO32
  {
  }

  function Repeat(e: Event, n: nat): seq<Event> {
    seq(n, _ => e)
  }

  /** The snapshot is current, the ring is full, and a multiple of 2^32 lies between the slot's
      sequence and the snapshot. */
  ghost predicate Stuck(s: State, t: Tid) {
    && Inv(s) && t in s.mem.producers && s.mem.producers[t].LoadSeq?
    && s.mem.producers[t].pos == |s.claims| == s.released + s.mem.cap
    && s.mem.sequence[Slot(s.mem.cap, s.mem.producers[t].pos)] / TWO32 != s.mem.producers[t].pos / TWO32
  }

  /** Then TryPush never returns on its own: n further rounds leave the memory, the thread and the
      claims where they were, although the ring is full and false was due; only the rounds grow. */
  lemma {:induction false} SpinsWhenFull(s: State, t: Tid, n: nat)
    requires Stuck(s, t)
    ensures Spun(s, Exec(s, Repeat(Move(t, false), 2 * n)), t, n)
  {
    if n > 0 {
      SpinsWhenFull(s, t, n - 1);
      var e, back := Move(t, false), Repeat(Move(t, false), 2 * (n - 1));
      assert Repeat(e, 2 * n) == (back + [e]) + [e];
      ExecTwo(s, back, e);
      SpinRound(s, Exec(s, back), t, n - 1);
    }
  }

  lemma ExecTwo(s: State, es: seq<Event>, e: Event)
    requires StateShape(s)
    ensures Exec(s, (es + [e]) + [e]) == Step(Step(Exec(s, es), e), e)
  {
    ExecSnoc(s, es, e);
    ExecSnoc(s, es + [e], e);
  }

  /** From s to s' nothing happened but n rounds of thread t. */
  ghost predicate Spun(s: State, s': State, t: Tid, n: nat) {
    && StateShape(s) && StateShape(s') && t in s.mem.producers
    && s'.mem == s.mem && s'.claims == s.claims && s'.released == s.released
    && s'.loops[t] == s.loops[t].(rounds := s.loops[t].rounds + n)
  }

  lemma SpinRound(s: State, s0: State, t: Tid, n: nat)
    requires Stuck(s, t) && Spun(s, s0, t, n)
    ensures Spun(s, Step(Step(s0, Move(t, false)), Move(t, false)), t, n + 1)
  {
    StuckReloads(s, t);
    SpinLook(s0, t);
    SpinReload(s, Step(s0, Move(t, false)), t, s.mem.producers[t].item, n + 1);
  }

  /** The first half of a round: the sequence load counts, and leads back to the position load. */
  lemma SpinLook(s: State, t: Tid)
    requires StateShape(s) && t in s.mem.producers && s.mem.producers[t].LoadSeq?
    requires var LoadSeq(item, pos) := s.mem.producers[t];
             Look(item, pos, s.mem.sequence[Slot(s.mem.cap, pos)]) == LoadPos(item)
    ensures var s' := Step(s, Move(t, false));
            && s'.mem == To(s.mem, t, LoadPos(s.mem.producers[t].item))
            && s'.claims == s.claims && s'.released == s.released
            && s'.loops[t] == s.loops[t].(rounds := s.loops[t].rounds + 1)
  {
  }

  /** The second half: the position loaded is the one the round began with. */
  lemma SpinReload(s: State, s1: State, t: Tid, item: Item, n: nat)
    requires StateShape(s) && StateShape(s1) && t in s.mem.producers
    requires s.mem.producers[t] == LoadSeq(item, s.mem.writePos) && s1.mem == To(s.mem, t, LoadPos(item))
    requires s1.claims == s.claims && s1.released == s.released
    requires s1.loops[t] == s.loops[t].(rounds := s.loops[t].rounds + n)
    ensures Spun(s, Step(s1, Move(t, false)), t, n)
  {
    assert s1.mem.producers[t := LoadSeq(item, s.mem.writePos)] == s.mem.producers;
  }

  lemma StuckReloads(s: State, t: Tid)
    requires Stuck(s, t)
    ensures var LoadSeq(item, pos) := s.mem.producers[t];
            Look(item, pos, s.mem.sequence[Slot(s.mem.cap, pos)]) == LoadPos(item)
  {
    var LoadSeq(item, pos) := s.mem.producers[t];
    SlotReading(s, t);
    CapacityBounds(s.mem.cap);
    TruncatedCompare(s.mem.sequence[Slot(s.mem.cap, pos)], pos);
  }
}
