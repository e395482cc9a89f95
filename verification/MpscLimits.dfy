/** Runs in which the ring does not do what it is meant to: on both sides of the 32-bit comparison,
    and beyond the age of snapshots that the code withstands. */
module MpscLimits {
  import opened Bits
  import opened MpscRing
  import opened MpscSafety
  import opened MpscWrap
  import opened MpscCode
  import opened MpscSolo

  // ---------------------------------------------------------------- a full ring without an answer

  lemma StuckOnceFull(s: State, cap: nat, item: Item)
    requires CapacityOk(cap) && Loaded(s, cap, |item|, TWO32, cap)
    ensures Stuck(Step(Step(s, Call(0, item)), Move(0, false)), 0)
  {
    CapacityBounds(cap);
    FullRead(s);
    var s1 := Step(s, Call(0, item));
    StepInv(s, Call(0, item));
    StepInv(s1, Move(0, false));
    BeginStep(s, 0, item);
  }

  lemma FreshlyBegun(s: State, s1: State, t: Tid, item: Item)
    requires StateShape(s) && StateShape(s1) && Freshly(s, s1) && Resting(s1, t) && |item| == s1.mem.width
    ensures Freshly(s, Step(Step(s1, Call(t, item)), Move(t, false)))
  {
    FreshlyStep(s, s1, Call(t, item));
    assert Step(s1, Call(t, item)).mem.producers[t] == LoadPos(item);
    FreshlyStep(s, Step(s1, Call(t, item)), Move(t, false));
  }

  lemma FreshlySelf(s: State)
    requires StateShape(s)
    ensures Freshly(s, s)
  {
    assert FreshRun(s, []) && Exec(s, []) == s;
  }

  /** For every capacity there is a schedule after which the ring is full and a TryPush in
      progress spins for ever instead of returning false: fill the ring so that the write
      position is exactly 2^32. */
  lemma StuckReachable(cap: nat, item: Item) returns (es: seq<Event>)
    requires CapacityOk(cap)
    ensures cap >= 1
    ensures var s := Reached(cap, |item|, {0}, es);
            Stuck(s, 0) && CodeReached(cap, |item|, {0}, es) == Truncate(s.mem)
    ensures FreshRun(Init(cap, |item|, {0}), es)
  {
    CapacityBounds(cap);
    InitLoaded(cap, |item|, {0});
    var init := Init(cap, |item|, {0});
    var s := Fill(init, cap, item, 0, TWO32 - cap, cap);
    FreshlySelf(init);
    FreshlyAlone(init, init, s, 0);
    FreshlyBegun(init, s, 0, item);
    StuckOnceFull(s, cap, item);
    es := FreshlyCode(cap, |item|, {0}, Step(Step(s, Call(0, item)), Move(0, false)));
  }

  lemma SpinsOn(init: State, es: seq<Event>, s: State, t: Tid, n: nat)
    requires StateShape(init) && StateShape(s) && Exec(init, es) == s && Stuck(s, t)
    ensures Exec(init, es + Repeat(Move(t, false), 2 * n)).mem == s.mem
  {
    ExecVia(init, es, s, Repeat(Move(t, false), 2 * n));
    SpinsWhenFull(s, t, n);
  }

  lemma SpinsFreshly(init: State, es: seq<Event>, s: State, t: Tid, n: nat)
    requires Inv(init) && FreshRun(init, es) && Exec(init, es) == s && Stuck(s, t)
    ensures FreshRun(init, es + Repeat(Move(t, false), 2 * n))
  {
    var more := Repeat(Move(t, false), 2 * n);
    assert By(more, t) && Current(s, t);
    AloneFresh(s, more, t);
    FreshConcat(init, es, more);
  }

  /** The 32-bit code itself: some schedule of one producer and the consumer ends with TryPush
      running on a full ring, and from there any number of its rounds leaves the code's memory,
      its own program counter included, exactly as it was. */
  lemma CodeSpins(cap: nat, item: Item, n: nat) returns (es: seq<Event>)
    requires CapacityOk(cap)
    ensures cap >= 1
    ensures var s, c := Reached(cap, |item|, {0}, es), CodeReached(cap, |item|, {0}, es);
            && |s.claims| == s.released + cap
            && 0 in c.producers && c.producers[0].LoadSeq?
            && CodeReached(cap, |item|, {0}, es + Repeat(Move(0, false), 2 * n)) == c
  {
    es := StuckReachable(cap, item);
    ReachedInv(cap, |item|, {0}, es);
    InitInv(cap, |item|, {0});
    SpinsOn(Init(cap, |item|, {0}), es, Reached(cap, |item|, {0}, es), 0, n);
    SpinsFreshly(Init(cap, |item|, {0}), es, Reached(cap, |item|, {0}, es), 0, n);
    CodeRefines(cap, |item|, {0}, es + Repeat(Move(0, false), 2 * n));
  }

  // ---------------------------------------------------------------- false with room left

  /** Thread 0 at rest and nobody writing; thread 1 holds `pos` as its snapshot. */
  ghost predicate Overtaken(s: State, cap: nat, item: Item, pos: nat, waiting: nat) {
    && Inv(s) && s.mem.cap == cap && 1 in s.mem.producers && s.mem.producers[1] == LoadSeq(item, pos)
    && (forall t :: t in s.mem.producers ==> !s.mem.producers[t].Write?)
    && |s.claims| == pos + waiting == s.released + waiting
  }

  /** Thread 1 calls TryPush and loads the write position of an empty ring. */
  lemma BeginLoaded(s: State, cap: nat, item: Item, total: nat) returns (s': State)
    requires Loaded(s, cap, |item|, total, 0) && Resting(s, 1)
    ensures s' == Step(Step(s, Call(1, item)), Move(1, false))
    ensures Loaded(s', cap, |item|, total, 0) && 1 in s'.mem.producers && s'.mem.producers[1] == LoadSeq(item, total)
  {
    s' := Step(Step(s, Call(1, item)), Move(1, false));
    StepInv(s, Call(1, item));
    StepInv(Step(s, Call(1, item)), Move(1, false));
    BeginStep(s, 1, item);
  }

  lemma BeginFreshly(init: State, s: State, cap: nat, item: Item, total: nat) returns (s': State)
    requires StateShape(init) && Freshly(init, s) && Loaded(s, cap, |item|, total, 0) && Resting(s, 1)
    ensures Freshly(init, s') && Loaded(s', cap, |item|, total, 0)
    ensures 1 in s'.mem.producers && s'.mem.producers[1] == LoadSeq(item, total)
  {
    s' := BeginLoaded(s, cap, item, total);
    FreshlyBegun(init, s, 1, item);
  }

  /** Thread 0 pushes one item while thread 1 holds its snapshot. */
  lemma Overtake(init: State, s: State, cap: nat, item: Item, total: nat) returns (s': State)
    requires Inv(init) && Freshly(init, s) && CapacityOk(cap) && Loaded(s, cap, |item|, total, 0)
    requires 1 in s.mem.producers && s.mem.producers[1] == LoadSeq(item, total)
    ensures Freshly(init, s') && Overtaken(s', cap, item, total, 1)
  {
    CapacityBounds(cap);
    s' := LoadOne(s, cap, item, total, 0);
    FreshlyAlone(init, s, s', 0);
    LeadsOthers(s, s', 0, 1);
  }

  lemma OvertakenDecides(s: State, cap: nat, item: Item)
    requires CapacityOk(cap) && Overtaken(s, cap, item, TWO32 - 1, 1)
    ensures FreshMove(s, Move(1, false))
    ensures var s' := Step(s, Move(1, false));
            1 in s'.mem.producers && s'.mem.producers[1] == Returned(false)
            && s'.claims == s.claims && s'.released == s.released
  {
    CapacityBounds(cap);
    assert SlotOk(s, s.released);
    Decision(s, 1, false);
  }

  lemma OvertakenRejects(init: State, s: State, cap: nat, item: Item) returns (s': State)
    requires StateShape(init) && Freshly(init, s) && CapacityOk(cap) && Overtaken(s, cap, item, TWO32 - 1, 1)
    ensures Freshly(init, s') && 1 in s'.mem.producers && s'.mem.producers[1] == Returned(false)
    ensures |s'.claims| == s'.released + 1
  {
    OvertakenDecides(s, cap, item);
    FreshlyStep(init, s, Move(1, false));
    s' := Step(s, Move(1, false));
  }

  lemma PumpFreshly(init: State, cap: nat, item: Item, total: nat) returns (s: State)
    requires CapacityOk(cap) && Loaded(init, cap, |item|, 0, 0) && Resting(init, 1)
    ensures Freshly(init, s) && Loaded(s, cap, |item|, total, 0) && Resting(s, 1)
  {
    s := Pump(init, cap, item, 0, total);
    FreshlySelf(init);
    FreshlyAlone(init, init, s, 0);
    LeadsOthers(init, s, 0, 1);
  }

  /** Pump to 2^32 - 1, let thread 1 load that position, and let thread 0 push. */
  lemma RejectRun(init: State, cap: nat, item: Item) returns (s: State)
    requires CapacityOk(cap) && Loaded(init, cap, |item|, 0, 0) && Resting(init, 1)
    ensures Freshly(init, s) && 1 in s.mem.producers && s.mem.producers[1] == Returned(false)
    ensures |s.claims| == s.released + 1
  {
    s := PumpFreshly(init, cap, item, TWO32 - 1);
    s := BeginFreshly(init, s, cap, item, TWO32 - 1);
    s := Overtake(init, s, cap, item, TWO32 - 1);
    s := OvertakenRejects(init, s, cap, item);
  }

  /** Thread 1's TryPush has returned false although one entry is in the ring; c is the code's
      memory at that moment. */
  predicate DroppedWithRoom(s: State, c: Memory, cap: nat) {
    && |s.claims| == s.released + 1 < s.released + cap
    && c == Truncate(s.mem) && 1 in c.producers && c.producers[1] == Returned(false)
  }

  lemma RejectFrom(cap: nat, item: Item, threads: set<Tid>) returns (s: State)
    requires CapacityOk(cap) && 0 in threads && 1 in threads
    ensures cap >= 1 && Freshly(Init(cap, |item|, threads), s) && DroppedWithRoom(s, Truncate(s.mem), cap)
  {
    CapacityBounds(cap);
    InitLoaded(cap, |item|, threads);
    InitResting(cap, |item|, threads, 1);
    s := RejectRun(Init(cap, |item|, threads), cap, item);
  }

  /** For every capacity, TryPush of the 32-bit code can return false on a ring with a single entry
      in it, and the entry it was called for is dropped. */
  lemma RejectsWithRoom(cap: nat, item: Item, threads: set<Tid>) returns (es: seq<Event>)
    requires CapacityOk(cap) && 0 in threads && 1 in threads
    ensures cap >= 1
    ensures DroppedWithRoom(Reached(cap, |item|, threads, es), CodeReached(cap, |item|, threads, es), cap)
  {
    var s := RejectFrom(cap, item, threads);
    es := FreshlyCode(cap, |item|, threads, s);
  }

  // ---------------------------------------------------------------- a stale compare-exchange

  const GO: Event := Move(1, false)

  lemma ParkStep(s: State, cap: nat, item: Item)
    requires CapacityOk(cap) && Loaded(s, cap, |item|, 0, 0)
    requires 1 in s.mem.producers && s.mem.producers[1] == LoadSeq(item, 0)
    ensures FreshMove(s, GO) && Loaded(Step(s, GO), cap, |item|, 0, 0)
    ensures 1 in Step(s, GO).mem.producers && Step(s, GO).mem.producers[1] == Cas(item, 0)
  {
    CapacityBounds(cap);
    assert SlotOk(s, 0);
    Decision(s, 1, false);
    StepInv(s, GO);
  }

  /** Thread 1 calls TryPush on the empty new ring and stops before its compare-exchange. */
  lemma Park(init: State, cap: nat, item: Item) returns (s: State)
    requires CapacityOk(cap) && Loaded(init, cap, |item|, 0, 0) && Resting(init, 1)
    ensures Freshly(init, s) && Loaded(s, cap, |item|, 0, 0)
    ensures 1 in s.mem.producers && s.mem.producers[1] == Cas(item, 0)
  {
    FreshlySelf(init);
    var s0 := BeginFreshly(init, init, cap, item, 0);
    ParkStep(s0, cap, item);
    FreshlyStep(init, s0, GO);
    s := Step(s0, GO);
  }

  /** Meanwhile thread 0 claims 2^32 positions and leaves `waiting` a's in the ring. */
  lemma Lap(init: State, s: State, cap: nat, a: Item, b: Item, waiting: nat) returns (s': State)
    requires Inv(init) && Freshly(init, s) && CapacityOk(cap) && |a| == |b| && Loaded(s, cap, |a|, 0, 0)
    requires 1 in s.mem.producers && s.mem.producers[1] == Cas(b, 0) && waiting <= cap
    ensures Freshly(init, s') && Loaded(s', cap, |a|, TWO32, waiting)
    ensures AllFrom(s'.claims, s'.released, Claim(0, a))
    ensures 1 in s'.mem.producers && s'.mem.producers[1] == Cas(b, 0)
  {
    CapacityBounds(cap);
    s' := Fill(s, cap, a, 0, TWO32 - waiting, waiting);
    FreshlyAlone(init, s, s', 0);
    LeadsOthers(s, s', 0, 1);
  }

  /** The code's memory: full, slot i holding the oldest item a, unread, and thread 1 about to
      compare-exchange at position 0 = 2^32. */
  predicate Lapped(c: Memory, cap: nat, i: nat, a: Item, b: Item) {
    && c.cap == cap >= 1 && |c.sequence| == |c.data| == cap && i < cap
    && i == Slot(cap, 0) == Slot(cap, c.readPos) && c.writePos == 0
    && 1 in c.producers && c.producers[1] == Cas(b, 0) && c.consumer.Ready?
    && c.sequence[i] == (c.readPos + 1) % TWO32 && c.data[i] == a && c.width == |a| == |b|
  }

  lemma LappedSlot(cap: nat)
    requires CapacityOk(cap)
    ensures 1 <= cap <= TWO32 && Slot(cap, TWO32 - cap) == Slot(cap, 0)
  {
    CapacityBounds(cap);
    SlotTruncated(cap, TWO32);
    SlotNextLap(cap, TWO32 - cap);
  }

  lemma LappedCode(s: State, cap: nat, a: Item, b: Item)
    requires CapacityOk(cap) && Loaded(s, cap, |a|, TWO32, cap) && AllFrom(s.claims, s.released, Claim(0, a))
    requires 1 in s.mem.producers && s.mem.producers[1] == Cas(b, 0) && |a| == |b|
    ensures cap >= 1 && Lapped(Truncate(s.mem), cap, Slot(cap, 0), a, b)
  {
    CapacityBounds(cap);
    LappedSlot(cap);
    assert SlotOk(s, s.released);
    assert Published(s, s.released) by { assert !Owned(s, s.released); }
  }

  /** The compare-exchange succeeds although the ring is full; then the writer and the reader are
      both in the slot. */
  lemma LappedTakes(c: Memory, cap: nat, i: nat, a: Item, b: Item)
    requires Shape(c) && Lapped(c, cap, i, a, b) && |a| >= 1
    ensures var c1 := MemStep(c, GO, TWO32);
            && MemStep(c1, Consume, TWO32).cap == cap
            && Touches(MemStep(c1, Consume, TWO32), Pushing(1), i) && Touches(MemStep(c1, Consume, TWO32), Popping, i)
            && MemStep(c1, GO, TWO32).data[i] == a[0 := b[0]] && CanPop(MemStep(c1, GO, TWO32), TWO32)
  {
    var c1 := MemStep(c, GO, TWO32);
    assert c1 == TakePos(c, 1, b, 0, TWO32);
    assert MemStep(c1, GO, TWO32) == CopyIn(c1, 1, b, 0, 0);
  }

  /** Beyond the bound of CodeRefines the code fails: with thread 1 stopped before its
      compare-exchange for exactly 2^32 claims, two threads touch the oldest slot at once, and an
      unread item is overwritten. */
  lemma StaleOverwrites(cap: nat, a: Item, b: Item) returns (es: seq<Event>)
    requires CapacityOk(cap) && |a| == |b| >= 1
    ensures cap >= 1
    ensures Lapped(CodeReached(cap, |a|, {0, 1}, es), cap, Slot(cap, 0), a, b)
    ensures var c := CodeReached(cap, |a|, {0, 1}, es + [GO] + [Consume]);
            c.cap >= 1 && Touches(c, Pushing(1), Slot(cap, 0)) && Touches(c, Popping, Slot(cap, 0))
    ensures var c := CodeReached(cap, |a|, {0, 1}, es + [GO] + [GO]);
            |c.data| == cap && c.data[Slot(cap, 0)] == a[0 := b[0]] && CanPop(c, TWO32)
  {
    CapacityBounds(cap);
    InitLoaded(cap, |a|, {0, 1});
    InitResting(cap, |a|, {0, 1}, 1);
    var init := Init(cap, |a|, {0, 1});
    var s := Park(init, cap, b);
    s := Lap(init, s, cap, a, b, cap);
    es := FreshlyCode(cap, |a|, {0, 1}, s);
    LappedCode(s, cap, a, b);
    LappedRun(init.mem, es, cap, a, b);
  }

  lemma LappedRun(m: Memory, es: seq<Event>, cap: nat, a: Item, b: Item)
    requires Shape(m) && cap >= 1 && Lapped(MemExec(m, es, TWO32), cap, Slot(cap, 0), a, b) && |a| >= 1
    ensures var c := MemExec(m, es + [GO] + [Consume], TWO32);
            c.cap == cap && Touches(c, Pushing(1), Slot(cap, 0)) && Touches(c, Popping, Slot(cap, 0))
    ensures var c := MemExec(m, es + [GO] + [GO], TWO32);
            c.cap == cap && c.data[Slot(cap, 0)] == a[0 := b[0]] && CanPop(c, TWO32)
  {
    MemSnoc(m, es, GO, TWO32);
    MemSnoc(m, es + [GO], Consume, TWO32);
    MemSnoc(m, es + [GO], GO, TWO32);
    LappedTakes(MemExec(m, es, TWO32), cap, Slot(cap, 0), a, b);
  }

  // ---------------------------------------------------------------- a stale compare-exchange with room

  /** Thread 1's compare-exchange at position 0 takes position 2^32, as if its snapshot were new. */
  lemma TakesAnew(s: State, cap: nat, width: nat, b: Item)
    requires CapacityOk(cap) && Loaded(s, cap, width, TWO32, 0)
    requires 1 in s.mem.producers && s.mem.producers[1] == Cas(b, 0)
    ensures OldCas(s.mem, 1) && !Harmful(s, GO) && CodeStep(s, GO).claims == s.claims + [Claim(1, b)]
  {
    CapacityBounds(cap);
  }

  /** The code's run es, then thread 1's compare-exchange on a snapshot exactly 2^32 claims old. */
  ghost predicate TookAnew(init: State, es: seq<Event>, b: Item)
    requires StateShape(init)
  {
    var s, s' := CodeExec(init, es), CodeExec(init, es + [GO]);
    && OldCas(s.mem, 1) && Harmless(init, es + [GO])
    && s'.claims == s.claims + [Claim(1, b)] && |s.claims| == TWO32 == s.released
  }

  lemma AnewRun(init: State, es: seq<Event>, s: State, cap: nat, width: nat, b: Item)
    requires Inv(init) && FreshRun(init, es) && Exec(init, es) == s
    requires CapacityOk(cap) && Loaded(s, cap, width, TWO32, 0)
    requires 1 in s.mem.producers && s.mem.producers[1] == Cas(b, 0)
    ensures TookAnew(init, es, b)
  {
    FreshIsCode(init, es);
    TakesAnew(s, cap, width, b);
    CodeSnoc(init, es, GO);
    HarmlessSnoc(init, es, GO);
  }

  /** With room in the ring the same delay does no harm: the compare-exchange succeeds, it claims the
      next position, and the code's memory still is its history's. */
  lemma StaleHarmless(cap: nat, a: Item, b: Item) returns (es: seq<Event>)
    requires CapacityOk(cap) && |a| == |b|
    ensures cap >= 1 && TookAnew(Init(cap, |a|, {0, 1}), es, b)
    ensures var s := CodeHistory(cap, |a|, {0, 1}, es + [GO]);
            Inv(s) && CodeReached(cap, |a|, {0, 1}, es + [GO]) == Truncate(s.mem)
  {
    CapacityBounds(cap);
    InitLoaded(cap, |a|, {0, 1});
    InitResting(cap, |a|, {0, 1}, 1);
    var init := Init(cap, |a|, {0, 1});
    var s := Park(init, cap, b);
    s := Lap(init, s, cap, a, b, 0);
    es := FreshlyCode(cap, |a|, {0, 1}, s);
    AnewRun(init, es, s, cap, |a|, b);
    CodeFollows(cap, |a|, {0, 1}, es + [GO]);
  }
}
