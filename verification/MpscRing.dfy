/** The lock-free multi-producer, single-consumer ring as a machine of atomic steps.

    A schedule (a sequence of events) picks which thread moves next; every interleaving of any
    number of producers with one consumer is a schedule. An item is copied into and out of a slot
    one word at a time, so a torn item is representable and has to be ruled out.

    One step function serves two machines. With modulus 2^32 it is the code. With modulus 0 the
    counters are unbounded; that machine also carries history (`State`) and is what the invariant
    is about. `MpscWrap` relates the two. */
module MpscRing {
  import opened Bits

  const TWO32: nat := 0x1_0000_0000

  type Tid = nat
  type Word = int
  type Item = seq<Word>

  // ---------------------------------------------------------------- memory and threads

  /** Where a producer thread is inside `TryPush`. */
  datatype Producer =
    | Idle
    | LoadPos(item: Item)                          // about to load write_pos_
    | LoadSeq(item: Item, pos: nat)                // about to load the slot's sequence
    | Cas(item: Item, pos: nat)                    // about to compare-exchange write_pos_
    | Write(item: Item, pos: nat, copied: nat)     // owns the slot; copies words, then publishes
    | Returned(ok: bool)

  /** Where the consumer is inside `TryPop`. */
  datatype Consumer =
    | Ready                    // about to load the slot's sequence
    | Copy(buf: Item)          // copies words, then stores the slot's sequence
    | Bump(buf: Item)          // about to increment read_pos_ and return

  datatype Memory = Memory(
    cap: nat,
    width: nat,                        // words per item
    sequence: seq<nat>,
    data: seq<Item>,
    writePos: nat,
    readPos: nat,
    producers: map<Tid, Producer>,
    consumer: Consumer,
    pushed: map<Tid, seq<Item>>,       // per thread, the items of calls that returned true
    popped: seq<Item>)                 // the items TryPop returned, in order

  datatype Event =
    | Call(t: Tid, item: Item)         // thread t calls TryPush(item)
    | Move(t: Tid, spurious: bool)     // thread t's next atomic step; a weak CAS may fail spuriously
    | Consume                          // the consumer's next atomic step

  predicate ProducerShape(p: Producer, width: nat) {
    match p
    case Idle => true
    case Returned(_) => true
    case LoadPos(item) => |item| == width
    case LoadSeq(item, _) => |item| == width
    case Cas(item, _) => |item| == width
    case Write(item, _, copied) => |item| == width && copied <= width
  }

  predicate ConsumerShape(c: Consumer, width: nat) {
    c.Ready? || |c.buf| <= width
  }

  ghost predicate Shape(m: Memory) {
    && m.cap >= 1
    && |m.sequence| == m.cap && |m.data| == m.cap
    && (forall i :: 0 <= i < m.cap ==> |m.data[i]| == m.width)
    && (forall t :: t in m.producers ==> ProducerShape(m.producers[t], m.width))
    && ConsumerShape(m.consumer, m.width)
    && m.pushed.Keys == m.producers.Keys
  }

  /** `pos & (Capacity - 1)`. */
  function Slot(cap: nat, pos: nat): nat
    requires cap >= 1
    ensures Slot(cap, pos) < cap
  {
    And(pos, cap - 1)
  }

  function Wrap(x: nat, modulus: nat): nat {
    if modulus == 0 then x else x % modulus
  }

  /** Where the load of the slot's sequence leads. */
  function Look(item: Item, pos: nat, read: nat): Producer {
    if read == pos then Cas(item, pos)
    else if read % TWO32 < pos % TWO32 then Returned(false)    // the unsigned 32-bit comparison
    else LoadPos(item)
  }

  // The effects of the single steps.

  function To(m: Memory, t: Tid, p: Producer): Memory {
    m.(producers := m.producers[t := p])
  }

  function TakePos(m: Memory, t: Tid, item: Item, pos: nat, modulus: nat): Memory {
    To(m, t, Write(item, pos, 0)).(writePos := Wrap(pos + 1, modulus))
  }

  function CopyIn(m: Memory, t: Tid, item: Item, pos: nat, copied: nat): Memory
    requires |m.data| == m.cap >= 1 && copied < |item| && copied < |m.data[Slot(m.cap, pos)]|
  {
    var i := Slot(m.cap, pos);
    To(m, t, Write(item, pos, copied + 1)).(data := m.data[i := m.data[i][copied := item[copied]]])
  }

  function Publish(m: Memory, t: Tid, item: Item, pos: nat, modulus: nat): Memory
    requires |m.sequence| == m.cap >= 1 && t in m.pushed
  {
    To(m, t, Returned(true)).(sequence := m.sequence[Slot(m.cap, pos) := Wrap(pos + 1, modulus)],
                              pushed := m.pushed[t := m.pushed[t] + [item]])
  }

  function Release(m: Memory, buf: Item, modulus: nat): Memory
    requires |m.sequence| == m.cap >= 1
  {
    m.(sequence := m.sequence[Slot(m.cap, m.readPos) := Wrap(m.readPos + m.cap, modulus)], consumer := Bump(buf))
  }

  /** One atomic step of thread t's `TryPush`. */
  function ProducerStep(m: Memory, t: Tid, spurious: bool, modulus: nat): (r: Memory)
    requires Shape(m) && t in m.producers
    ensures Shape(r) && r.cap == m.cap && r.width == m.width && r.producers.Keys == m.producers.Keys
  {
    match m.producers[t]
    case Idle => m
    case Returned(_) => m
    case LoadPos(item) => To(m, t, LoadSeq(item, m.writePos))
    case LoadSeq(item, pos) => To(m, t, Look(item, pos, m.sequence[Slot(m.cap, pos)]))
    case Cas(item, pos) =>
      if !spurious && m.writePos == pos then TakePos(m, t, item, pos, modulus)
      else To(m, t, LoadSeq(item, m.writePos))
    case Write(item, pos, copied) =>
      if copied < m.width then CopyIn(m, t, item, pos, copied) else Publish(m, t, item, pos, modulus)
  }

  /** Where thread t is after its next step. */
  function NextPhase(m: Memory, t: Tid, spurious: bool): Producer
    requires Shape(m) && t in m.producers
  {
    match m.producers[t]
    case Idle => Idle
    case Returned(ok) => Returned(ok)
    case LoadPos(item) => LoadSeq(item, m.writePos)
    case LoadSeq(item, pos) => Look(item, pos, m.sequence[Slot(m.cap, pos)])
    case Cas(item, pos) => if !spurious && m.writePos == pos then Write(item, pos, 0) else LoadSeq(item, m.writePos)
    case Write(item, pos, copied) => if copied < m.width then Write(item, pos, copied + 1) else Returned(true)
  }

  /** A producer's step moves that producer, and not the consumer. */
  lemma ProducerMoves(m: Memory, t: Tid, spurious: bool, modulus: nat)
    requires Shape(m) && t in m.producers
    ensures var m' := ProducerStep(m, t, spurious, modulus);
            && m'.producers == m.producers[t := NextPhase(m, t, spurious)]
            && m'.consumer == m.consumer && m'.popped == m.popped
  {
    var p, m' := m.producers[t], ProducerStep(m, t, spurious, modulus);
    if p.Write? {
      assert m' == if p.copied < m.width then CopyIn(m, t, p.item, p.pos, p.copied)
                   else Publish(m, t, p.item, p.pos, modulus);
    } else if Claims(m, Move(t, spurious)) {
      assert m' == TakePos(m, t, p.item, p.pos, modulus);
    }
  }

  /** The test `TryPop` (and `Empty`) makes: is the slot at the read position published? */
  predicate CanPop(m: Memory, modulus: nat)
    requires Shape(m)
  {
    m.sequence[Slot(m.cap, m.readPos)] == Wrap(m.readPos + 1, modulus)
  }

  /** One atomic step of the consumer. */
  function ConsumerStep(m: Memory, modulus: nat): (r: Memory)
    requires Shape(m)
    ensures Shape(r) && r.cap == m.cap && r.width == m.width && r.producers == m.producers
  {
    match m.consumer
    case Ready =>
      if CanPop(m, modulus) then m.(consumer := Copy([])) else m
    case Copy(buf) =>
      if |buf| < m.width then m.(consumer := Copy(buf + [m.data[Slot(m.cap, m.readPos)][|buf|]]))
      else Release(m, buf, modulus)
    case Bump(buf) =>
      m.(readPos := Wrap(m.readPos + 1, modulus), consumer := Ready, popped := m.popped + [buf])
  }

  predicate CanCall(m: Memory, t: Tid, item: Item) {
    t in m.producers && (m.producers[t].Idle? || m.producers[t].Returned?) && |item| == m.width
  }

  /** One event; an event that is not enabled changes nothing. */
  function MemStep(m: Memory, e: Event, modulus: nat): (r: Memory)
    requires Shape(m)
    ensures Shape(r) && r.cap == m.cap && r.width == m.width && r.producers.Keys == m.producers.Keys
  {
    match e
    case Call(t, item) =>
      if CanCall(m, t, item) then To(m, t, LoadPos(item)) else m
    case Move(t, spurious) =>
      if t in m.producers then ProducerStep(m, t, spurious, modulus) else m
    case Consume => ConsumerStep(m, modulus)
  }

  function MemExec(m: Memory, es: seq<Event>, modulus: nat): (r: Memory)
    requires Shape(m)
    ensures Shape(r) && r.cap == m.cap && r.width == m.width && r.producers.Keys == m.producers.Keys
  {
    if es == [] then m else MemStep(MemExec(m, es[..|es| - 1], modulus), es[|es| - 1], modulus)
  }

  lemma MemSnoc(m: Memory, es: seq<Event>, e: Event, modulus: nat)
    requires Shape(m)
    ensures MemExec(m, es + [e], modulus) == MemStep(MemExec(m, es, modulus), e, modulus)
  {
    assert (es + [e])[..|es|] == es;
  }

  /** The memory the constructor leaves: slot i carries sequence i. */
  function InitMemory(cap: nat, width: nat, threads: set<Tid>): (m: Memory)
    requires cap >= 1
    ensures Shape(m)
  {
    Memory(cap, width, seq(cap, i => i), seq(cap, _ => seq(width, _ => 0)), 0, 0,
           map t | t in threads :: Idle, Ready, map t | t in threads :: [], [])
  }

  // ---------------------------------------------------------------- history

  datatype Claim = Claim(tid: Tid, item: Item)

  /** Per call: write_pos_ when the call began, loop iterations started, spurious CAS failures. */
  datatype Loop = Loop(start: nat, rounds: nat, spurious: nat)

  /** The unbounded-counter machine with its history. `claims` lists the claimed positions in
      order, so W is |claims|; `released` is R, advanced when a slot's sequence is stored back. */
  datatype State = State(mem: Memory, claims: seq<Claim>, released: nat, loops: map<Tid, Loop>)

  predicate Claims(m: Memory, e: Event) {
    && e.Move? && e.t in m.producers && !e.spurious
    && m.producers[e.t].Cas? && m.writePos == m.producers[e.t].pos
  }

  predicate Releases(m: Memory, e: Event) {
    e.Consume? && m.consumer.Copy? && |m.consumer.buf| >= m.width
  }

  function LoopStep(m: Memory, loops: map<Tid, Loop>, e: Event): map<Tid, Loop>
    requires loops.Keys == m.producers.Keys
  {
    match e
    case Call(t, item) =>
      if CanCall(m, t, item) then loops[t := Loop(m.writePos, 0, 0)] else loops
    case Move(t, spurious) =>
      if t !in m.producers then loops
      else if m.producers[t].LoadSeq? then loops[t := loops[t].(rounds := loops[t].rounds + 1)]
      else if m.producers[t].Cas? && spurious && m.writePos == m.producers[t].pos
        then loops[t := loops[t].(spurious := loops[t].spurious + 1)]
      else loops
    case Consume => loops
  }

  ghost predicate StateShape(s: State) {
    Shape(s.mem) && s.loops.Keys == s.mem.producers.Keys
  }

  function Step(s: State, e: Event): (r: State)
    requires StateShape(s)
    ensures StateShape(r) && r.mem == MemStep(s.mem, e, 0)
  {
    State(MemStep(s.mem, e, 0),
          if Claims(s.mem, e) then s.claims + [Claim(e.t, s.mem.producers[e.t].item)] else s.claims,
          if Releases(s.mem, e) then s.released + 1 else s.released,
          LoopStep(s.mem, s.loops, e))
  }

  function Exec(s: State, es: seq<Event>): (r: State)
    requires StateShape(s)
    ensures StateShape(r)
  {
    if es == [] then s else Step(Exec(s, es[..|es| - 1]), es[|es| - 1])
  }

  lemma ExecSnoc(s: State, es: seq<Event>, e: Event)
    requires StateShape(s)
    ensures Exec(s, es + [e]) == Step(Exec(s, es), e)
  {
    assert (es + [e])[..|es|] == es;
  }

  function Init(cap: nat, width: nat, threads: set<Tid>): (s: State)
    requires cap >= 1
    ensures StateShape(s)
  {
    State(InitMemory(cap, width, threads), [], 0, map t | t in threads :: Loop(0, 0, 0))
  }

  // ---------------------------------------------------------------- the invariant

  /** Capacity is a power of two, at least 2 and at most 2^31. */
  ghost predicate CapacityOk(cap: nat) {
    exists k: nat :: 1 <= k <= 31 && cap == Pow2(k)
  }

  lemma CapacityBounds(cap: nat)
    requires CapacityOk(cap)
    ensures 2 <= cap && 2 * cap <= TWO32
  {
    var k: nat :| 1 <= k <= 31 && cap == Pow2(k);
    Pow2Monotone(1, k);
    Pow2Monotone(k, 31);
    assert Pow2(1) == 2;
    Pow2At32();
  }

  lemma Pow2At32()
    ensures Pow2(31) == 0x8000_0000 && Pow2(32) == TWO32
  {
    assert Pow2(8) == 256;
    assert Pow2(16) == 65536;
    assert Pow2(24) == 0x100_0000;
  }

  /** Masking addresses slots modulo the capacity. */
  lemma SlotIsMod(cap: nat, pos: nat)
    requires CapacityOk(cap)
    ensures cap >= 1 && Slot(cap, pos) == pos % cap
  {
    CapacityBounds(cap);
    var k: nat :| 1 <= k <= 31 && cap == Pow2(k);
    MaskIsMod(pos, k);
  }

  lemma SlotNextLap(cap: nat, pos: nat)
    requires CapacityOk(cap)
    ensures cap >= 1 && Slot(cap, pos + cap) == Slot(cap, pos)
  {
    SlotIsMod(cap, pos);
    SlotIsMod(cap, pos + cap);
    AddCapMod(pos, cap);
  }

  /** Within one window of `cap` positions, different positions use different slots. */
  lemma SlotInjective(cap: nat, lo: nat, p: nat, q: nat)
    requires CapacityOk(cap) && lo <= p < lo + cap && lo <= q < lo + cap
    ensures cap >= 1 && (Slot(cap, p) == Slot(cap, q) <==> p == q)
  {
    SlotIsMod(cap, p);
    SlotIsMod(cap, q);
    if p % cap == q % cap { WindowMod(p, q, lo, cap); }
  }

  lemma SlotWindow(cap: nat, lo: nat, pos: nat) returns (p: nat)
    requires CapacityOk(cap)
    ensures cap >= 1 && lo <= p < lo + cap && Slot(cap, p) == Slot(cap, pos)
    ensures pos < lo ==> pos + cap <= p
    ensures lo <= pos < lo + cap ==> p == pos
    ensures lo + cap <= pos ==> p + cap <= pos
  {
    CapacityBounds(cap);
    p := WindowPosition(pos, lo, cap);
    SlotIsMod(cap, p);
    SlotIsMod(cap, pos);
  }

  /** Position p is claimed and its producer is still writing it. */
  predicate Owned(s: State, p: nat)
    requires p < |s.claims|
  {
    var t := s.claims[p].tid;
    t in s.mem.producers && s.mem.producers[t].Write? && s.mem.producers[t].pos == p
  }

  predicate Published(s: State, p: nat)
    requires p < |s.claims| && 0 < s.mem.cap == |s.mem.sequence| == |s.mem.data|
  {
    var i := Slot(s.mem.cap, p);
    s.mem.sequence[i] == p + 1 && s.mem.data[i] == s.claims[p].item
  }

  /** What the slot of window position p holds: free for p, claimed by one writer, or published. */
  predicate SlotOk(s: State, p: nat)
    requires 0 < s.mem.cap == |s.mem.sequence| == |s.mem.data|
  {
    if p >= |s.claims| then s.mem.sequence[Slot(s.mem.cap, p)] == p
    else Published(s, p) || (s.mem.sequence[Slot(s.mem.cap, p)] == p && Owned(s, p))
  }

  predicate ProducerOk(s: State, t: Tid)
    requires t in s.mem.producers && Shape(s.mem)
  {
    var W, R, m := |s.claims|, s.released, s.mem;
    match m.producers[t]
    case LoadSeq(_, pos) => pos <= W
    case Cas(_, pos) => pos <= W && (pos == W ==> W < R + m.cap)
    case Write(item, pos, copied) =>
      && R <= pos < W && s.claims[pos] == Claim(t, item)
      && m.sequence[Slot(m.cap, pos)] == pos
      && m.data[Slot(m.cap, pos)][..copied] == item[..copied]
    case _ => true
  }

  predicate ConsumerOk(s: State)
    requires Shape(s.mem)
  {
    var R, m := s.released, s.mem;
    match m.consumer
    case Ready => m.readPos == R
    case Copy(buf) =>
      && m.readPos == R < |s.claims| && Published(s, R)
      && buf == m.data[Slot(m.cap, R)][..|buf|]
    case Bump(buf) => m.readPos + 1 == R <= |s.claims| && buf == s.claims[R - 1].item
  }

  /** The claimed items of thread t, in claim order. */
  function Mine(claims: seq<Claim>, t: Tid): seq<Item> {
    if claims == [] then []
    else
      var last := claims[|claims| - 1];
      Mine(claims[..|claims| - 1], t) + (if last.tid == t then [last.item] else [])
  }

  /** The item thread t has claimed a position for but not yet published. */
  function InFlight(m: Memory, t: Tid): seq<Item>
    requires t in m.producers
  {
    if m.producers[t].Write? then [m.producers[t].item] else []
  }

  ghost predicate Counters(s: State) {
    && StateShape(s) && CapacityOk(s.mem.cap)
    && |s.claims| == s.mem.writePos
    && s.released <= |s.claims| <= s.released + s.mem.cap
  }

  ghost predicate SlotsOk(s: State)
    requires Shape(s.mem)
  {
    forall p: nat :: s.released <= p < s.released + s.mem.cap ==> SlotOk(s, p)
  }

  ghost predicate ProducersOk(s: State)
    requires Shape(s.mem)
  {
    forall t :: t in s.mem.producers ==> ProducerOk(s, t)
  }

  /** Popped items are the claimed items, and each thread's claims are its successful calls. */
  ghost predicate History(s: State)
    requires Shape(s.mem)
  {
    && |s.mem.popped| == s.mem.readPos <= |s.claims|
    && (forall i :: 0 <= i < |s.mem.popped| ==> s.mem.popped[i] == s.claims[i].item)
    && (forall t :: t in s.mem.producers ==>
          Mine(s.claims, t) == s.mem.pushed[t] + InFlight(s.mem, t))
    && (forall i :: 0 <= i < |s.claims| ==>
          s.claims[i].tid in s.mem.producers && |s.claims[i].item| == s.mem.width)
  }

  ghost predicate Inv(s: State) {
    Counters(s) && SlotsOk(s) && ProducersOk(s) && ConsumerOk(s) && History(s)
  }

  lemma InitInv(cap: nat, width: nat, threads: set<Tid>)
    requires CapacityOk(cap)
    ensures cap >= 1 && Inv(Init(cap, width, threads))
  {
    CapacityBounds(cap);
    var s := Init(cap, width, threads);
    forall p: nat | p < cap ensures SlotOk(s, p) {
      SlotIsMod(cap, p);
      RemainderUnique(p, cap, 0, p);
    }
  }

  // -------- preservation, one lemma per kind of step

  /** Slots stay as described when memory, claims and the writers stay as they are. */
  lemma SlotsFrame(s: State, s': State)
    requires Shape(s.mem) && Shape(s'.mem) && SlotsOk(s)
    requires s'.claims == s.claims && s'.released == s.released && s'.mem.cap == s.mem.cap
    requires s'.mem.sequence == s.mem.sequence && s'.mem.data == s.mem.data
    requires forall t :: t in s.mem.producers && s.mem.producers[t].Write? ==>
               t in s'.mem.producers && s'.mem.producers[t] == s.mem.producers[t]
    ensures SlotsOk(s')
  {
    forall p: nat | s.released <= p < s.released + s.mem.cap ensures SlotOk(s', p) {
      assert SlotOk(s, p);
    }
  }

  /** Producers stay as described when memory and claims stay as they are and only t moves. */
  lemma ProducersFrame(s: State, s': State, t: Tid)
    requires Shape(s.mem) && Shape(s'.mem) && ProducersOk(s)
    requires s'.claims == s.claims && s'.released == s.released && s'.mem.cap == s.mem.cap
    requires s'.mem.sequence == s.mem.sequence && s'.mem.data == s.mem.data
    requires forall u :: u in s'.mem.producers && u != t ==>
               u in s.mem.producers && s'.mem.producers[u] == s.mem.producers[u]
    requires t in s'.mem.producers ==> ProducerOk(s', t)
    ensures ProducersOk(s')
  {
    forall u | u in s'.mem.producers ensures ProducerOk(s', u) {
      if u != t { assert ProducerOk(s, u); }
    }
  }

  /** A step that only moves one producer's program counter, outside the write phase. */
  lemma KeepMove(s: State, s': State, t: Tid)
    requires Inv(s) && StateShape(s') && t in s.mem.producers && t in s'.mem.producers
    requires s'.claims == s.claims && s'.released == s.released
    requires s'.mem == s.mem.(producers := s.mem.producers[t := s'.mem.producers[t]])
    requires !s.mem.producers[t].Write? && !s'.mem.producers[t].Write?
    requires ProducerOk(s', t)
    ensures Inv(s')
  {
    SlotsFrame(s, s');
    ProducersFrame(s, s', t);
  }

  lemma KeepLook(s: State, t: Tid, spurious: bool)
    requires Inv(s) && t in s.mem.producers
    requires !s.mem.producers[t].Write? && !Claims(s.mem, Move(t, spurious))
    ensures Inv(Step(s, Move(t, spurious)))
  {
    match s.mem.producers[t] {
      case LoadSeq(_, _) => KeepLoadSeq(s, t, spurious);
      case LoadPos(_) => KeepReload(s, t, spurious);
      case Cas(_, _) => KeepReload(s, t, spurious);
      case Idle => assert Step(s, Move(t, spurious)) == s;
      case Returned(_) => assert Step(s, Move(t, spurious)) == s;
    }
  }

  /** Loading the write position, at the start of a round or by a failed compare-exchange. */
  lemma KeepReload(s: State, t: Tid, spurious: bool)
    requires Inv(s) && t in s.mem.producers && !Claims(s.mem, Move(t, spurious))
    requires s.mem.producers[t].LoadPos? || s.mem.producers[t].Cas?
    ensures Inv(Step(s, Move(t, spurious)))
  {
    var s' := Step(s, Move(t, spurious));
    assert s'.mem == To(s.mem, t, LoadSeq(s.mem.producers[t].item, s.mem.writePos));
    KeepMove(s, s', t);
  }

  lemma KeepLoadSeq(s: State, t: Tid, spurious: bool)
    requires Inv(s) && t in s.mem.producers && s.mem.producers[t].LoadSeq?
    ensures Inv(Step(s, Move(t, spurious)))
  {
    var s' := Step(s, Move(t, spurious));
    assert s'.mem == s.mem.(producers := s.mem.producers[t := s'.mem.producers[t]]);
    if s'.mem.producers[t].Cas? {
      SlotReading(s, t);
      assert ProducerOk(s, t);
    }
    KeepMove(s, s', t);
  }

  /** What a producer's load of its slot's sequence says about its snapshot `pos`. */
  lemma SlotReading(s: State, t: Tid)
    requires Inv(s) && t in s.mem.producers && s.mem.producers[t].LoadSeq?
    ensures s.mem.cap >= 1
    ensures var pos, read := s.mem.producers[t].pos, s.mem.sequence[Slot(s.mem.cap, s.mem.producers[t].pos)];
            && (read == pos == |s.claims| ==> |s.claims| < s.released + s.mem.cap)
            && (read < pos <==> pos == |s.claims| == s.released + s.mem.cap)
            && (read > pos ==> pos < |s.claims|)
            && pos <= read + s.mem.cap && read < |s.claims| + s.mem.cap
  {
    var m := s.mem;
    var pos := m.producers[t].pos;
    assert ProducerOk(s, t);
    CapacityBounds(m.cap);
    var p := SlotWindow(m.cap, s.released, pos);
    assert SlotOk(s, p);
    if p < |s.claims| && m.sequence[Slot(m.cap, p)] == p {
      assert Owned(s, p);
    }
  }

  lemma ClaimSlots(s: State, s': State, t: Tid)
    requires Shape(s.mem) && Shape(s'.mem) && SlotsOk(s)
    requires t in s.mem.producers && s.mem.producers[t].Cas?
    requires s.released <= |s.claims| < s.released + s.mem.cap
    requires s'.claims == s.claims + [Claim(t, s.mem.producers[t].item)]
    requires s'.released == s.released && s'.mem.cap == s.mem.cap
    requires s'.mem.sequence == s.mem.sequence && s'.mem.data == s.mem.data
    requires s'.mem.producers == s.mem.producers[t := Write(s.mem.producers[t].item, |s.claims|, 0)]
    ensures SlotsOk(s') && s.mem.sequence[Slot(s.mem.cap, |s.claims|)] == |s.claims|
  {
    var W := |s.claims|;
    assert SlotOk(s, W);
    forall p: nat | s.released <= p < s.released + s.mem.cap ensures SlotOk(s', p) {
      assert SlotOk(s, p);
      if p < W && !Published(s, p) {
        assert Owned(s, p) && s.claims[p].tid != t;
        assert Owned(s', p);
      }
    }
  }

  lemma KeepClaim(s: State, t: Tid)
    requires Inv(s) && Claims(s.mem, Move(t, false))
    ensures Inv(Step(s, Move(t, false)))
  {
    KeepTaken(s, Step(s, Move(t, false)), t);
  }

  lemma KeepTaken(s: State, s': State, t: Tid)
    requires Inv(s) && StateShape(s') && t in s.mem.producers && s.mem.producers[t].Cas?
    requires s.mem.writePos == s.mem.producers[t].pos && s'.released == s.released
    requires s'.mem == TakePos(s.mem, t, s.mem.producers[t].item, s.mem.producers[t].pos, 0)
    requires s'.claims == s.claims + [Claim(t, s.mem.producers[t].item)]
    ensures Inv(s')
  {
    assert ProducerOk(s, t);
    ClaimSlots(s, s', t);
    forall u | u in s'.mem.producers ensures ProducerOk(s', u) {
      assert ProducerOk(s, u);
    }
    assert History(s') by { ClaimHistory(s, s', t); }
  }

  lemma ClaimHistory(s: State, s': State, t: Tid)
    requires Shape(s.mem) && Shape(s'.mem) && History(s)
    requires t in s.mem.producers && s.mem.producers[t].Cas?
    requires s'.claims == s.claims + [Claim(t, s.mem.producers[t].item)]
    requires s'.mem == s.mem.(writePos := s'.mem.writePos,
               producers := s.mem.producers[t := Write(s.mem.producers[t].item, |s.claims|, 0)])
    ensures History(s')
  {
    assert s'.claims[..|s.claims|] == s.claims;
  }

  /** Positions other than `pos` are unaffected by a change to the slot of `pos`. */
  lemma OtherSlots(s: State, s': State, t: Tid, pos: nat)
    requires Shape(s.mem) && Shape(s'.mem) && SlotsOk(s) && CapacityOk(s.mem.cap)
    requires s'.claims == s.claims && s'.released == s.released && s'.mem.cap == s.mem.cap
    requires s.released <= pos < s.released + s.mem.cap
    requires t in s.mem.producers && s.mem.producers[t].Write? && s.mem.producers[t].pos == pos
    requires forall i :: 0 <= i < s.mem.cap && i != Slot(s.mem.cap, pos) ==>
               s'.mem.sequence[i] == s.mem.sequence[i] && s'.mem.data[i] == s.mem.data[i]
    requires forall u :: u in s.mem.producers && u != t ==>
               u in s'.mem.producers && s'.mem.producers[u] == s.mem.producers[u]
    requires SlotOk(s', pos)
    ensures SlotsOk(s')
  {
    forall p: nat | s.released <= p < s.released + s.mem.cap ensures SlotOk(s', p) {
      assert SlotOk(s, p);
      SlotInjective(s.mem.cap, s.released, p, pos);
    }
  }

  lemma OtherProducers(s: State, s': State, t: Tid, pos: nat)
    requires Shape(s.mem) && Shape(s'.mem) && ProducersOk(s) && CapacityOk(s.mem.cap)
    requires s'.claims == s.claims && s'.released == s.released && s'.mem.cap == s.mem.cap
    requires |s.claims| <= s.released + s.mem.cap
    requires s.released <= pos < |s.claims| && s.claims[pos].tid == t
    requires forall i :: 0 <= i < s.mem.cap && i != Slot(s.mem.cap, pos) ==>
               s'.mem.sequence[i] == s.mem.sequence[i] && s'.mem.data[i] == s.mem.data[i]
    requires forall u :: u in s'.mem.producers && u != t ==>
               u in s.mem.producers && s'.mem.producers[u] == s.mem.producers[u]
    requires t in s'.mem.producers ==> ProducerOk(s', t)
    ensures ProducersOk(s')
  {
    forall u | u in s'.mem.producers ensures ProducerOk(s', u) {
      if u != t {
        assert ProducerOk(s, u);
        if s.mem.producers[u].Write? {
          SlotInjective(s.mem.cap, s.released, s.mem.producers[u].pos, pos);
        }
      }
    }
  }

  /** A step of the writer of position `pos` touches no slot but its own. */
  lemma KeepOthers(s: State, s': State, t: Tid, pos: nat)
    requires Inv(s) && StateShape(s') && t in s.mem.producers
    requires s'.claims == s.claims && s'.released == s.released
    requires s.mem.producers[t].Write? && s.mem.producers[t].pos == pos
    requires s'.mem.cap == s.mem.cap && s'.mem.readPos == s.mem.readPos
    requires s'.mem.consumer == s.mem.consumer
    requires forall i :: 0 <= i < s.mem.cap && i != Slot(s.mem.cap, pos) ==>
               s'.mem.sequence[i] == s.mem.sequence[i] && s'.mem.data[i] == s.mem.data[i]
    requires t in s'.mem.producers
    requires s'.mem.producers == s.mem.producers[t := s'.mem.producers[t]]
    requires ProducerOk(s', t) && SlotOk(s', pos)
    ensures SlotsOk(s') && ProducersOk(s') && ConsumerOk(s')
  {
    assert ProducerOk(s, t);
    OtherSlots(s, s', t, pos);
    OtherProducers(s, s', t, pos);
    if s.mem.consumer.Copy? { SlotInjective(s.mem.cap, s.released, s.released, pos); }
  }

  lemma CopyWord(cell: Item, item: Item, k: nat)
    requires |cell| == |item| && k < |item| && cell[..k] == item[..k]
    ensures cell[k := item[k]][..k + 1] == item[..k + 1]
  {
    assert item[..k + 1] == item[..k] + [item[k]];
    assert cell[k := item[k]][..k + 1] == cell[..k] + [item[k]];
  }

  lemma KeepCopyIn(s: State, t: Tid, spurious: bool)
    requires Inv(s) && t in s.mem.producers && s.mem.producers[t].Write?
    requires s.mem.producers[t].copied < s.mem.width
    ensures Inv(Step(s, Move(t, spurious)))
  {
    KeepCopied(s, Step(s, Move(t, spurious)), t);
  }

  lemma KeepCopied(s: State, s': State, t: Tid)
    requires Inv(s) && StateShape(s') && t in s.mem.producers && s.mem.producers[t].Write?
    requires s.mem.producers[t].copied < s.mem.width && s'.claims == s.claims && s'.released == s.released
    requires var Write(item, pos, copied) := s.mem.producers[t]; s'.mem == CopyIn(s.mem, t, item, pos, copied)
    ensures Inv(s')
  {
    var Write(item, pos, copied) := s.mem.producers[t];
    assert ProducerOk(s, t);
    CopyWord(s.mem.data[Slot(s.mem.cap, pos)], item, copied);
    assert Owned(s', pos);
    assert SlotsOk(s') && ProducersOk(s') && ConsumerOk(s') by { KeepOthers(s, s', t, pos); }
    assert History(s') by { WriterHistory(s, s', t); }
  }

  /** Publishing moves an item from in flight to pushed; copying a word changes neither. */
  lemma WriterHistory(s: State, s': State, t: Tid)
    requires Shape(s.mem) && Shape(s'.mem) && History(s) && s'.claims == s.claims
    requires t in s.mem.producers && s.mem.producers[t].Write?
    requires s'.mem.popped == s.mem.popped && s'.mem.readPos == s.mem.readPos
    requires s'.mem.width == s.mem.width && t in s'.mem.producers
    requires s'.mem.producers == s.mem.producers[t := s'.mem.producers[t]]
    requires forall u :: u in s.mem.producers && u != t ==> s'.mem.pushed[u] == s.mem.pushed[u]
    requires s'.mem.pushed[t] + InFlight(s'.mem, t) == s.mem.pushed[t] + InFlight(s.mem, t)
    ensures History(s')
  {
  }

  /** The item copied whole, publishing makes the slot say so. */
  lemma PublishSlot(s: State, s': State, t: Tid)
    requires Inv(s) && t in s.mem.producers && s.mem.producers[t].Write? && s'.claims == s.claims
    requires s.mem.producers[t].copied >= s.mem.width
    requires s'.mem == Publish(s.mem, t, s.mem.producers[t].item, s.mem.producers[t].pos, 0)
    ensures s.mem.producers[t].pos < |s.claims| && Published(s', s.mem.producers[t].pos)
  {
    var Write(item, pos, copied) := s.mem.producers[t];
    var i := Slot(s.mem.cap, pos);
    assert ProducerOk(s, t);
    assert s.mem.data[i] == s.mem.data[i][..copied] && item == item[..copied];
  }

  lemma KeepPublish(s: State, t: Tid, spurious: bool)
    requires Inv(s) && t in s.mem.producers && s.mem.producers[t].Write?
    requires s.mem.producers[t].copied >= s.mem.width
    ensures Inv(Step(s, Move(t, spurious)))
  {
    KeepPublished(s, Step(s, Move(t, spurious)), t);
  }

  lemma KeepPublished(s: State, s': State, t: Tid)
    requires Inv(s) && StateShape(s') && t in s.mem.producers && s.mem.producers[t].Write?
    requires s.mem.producers[t].copied >= s.mem.width && s'.claims == s.claims && s'.released == s.released
    requires s'.mem == Publish(s.mem, t, s.mem.producers[t].item, s.mem.producers[t].pos, 0)
    ensures Inv(s')
  {
    var pos := s.mem.producers[t].pos;
    PublishSlot(s, s', t);
    assert SlotOk(s', pos) && ProducerOk(s', t);
    assert ProducerOk(s, t);
    assert SlotsOk(s') by { OtherSlots(s, s', t, pos); }
    assert ProducersOk(s') by { OtherProducers(s, s', t, pos); }
    assert ConsumerOk(s') by { if s.mem.consumer.Copy? { SlotInjective(s.mem.cap, s.released, s.released, pos); } }
    assert History(s') by { WriterHistory(s, s', t); }
  }

  /** A consumer step that stores no sequence leaves slots and producers as they are. */
  lemma KeepRead(s: State, s': State)
    requires Inv(s) && StateShape(s') && s'.claims == s.claims && s'.released == s.released
    requires s'.mem == s.mem.(consumer := s'.mem.consumer, readPos := s'.mem.readPos,
                              popped := s'.mem.popped)
    requires ConsumerOk(s')
    requires || (s'.mem.readPos == s.mem.readPos && s'.mem.popped == s.mem.popped)
             || (s.mem.consumer.Bump? && s'.mem.readPos == s.mem.readPos + 1
                 && s'.mem.popped == s.mem.popped + [s.mem.consumer.buf])
    ensures Inv(s')
  {
    SlotsFrame(s, s');
    ReadProducers(s, s');
    ReadHistory(s, s');
  }

  lemma ReadProducers(s: State, s': State)
    requires Shape(s.mem) && Shape(s'.mem) && ProducersOk(s)
    requires s'.claims == s.claims && s'.released == s.released && s'.mem.cap == s.mem.cap
    requires s'.mem.sequence == s.mem.sequence && s'.mem.data == s.mem.data
    requires s'.mem.producers == s.mem.producers
    ensures ProducersOk(s')
  {
    forall u | u in s'.mem.producers ensures ProducerOk(s', u) {
      assert ProducerOk(s, u);
    }
  }

  lemma ReadHistory(s: State, s': State)
    requires Shape(s.mem) && Shape(s'.mem) && History(s) && ConsumerOk(s)
    requires s'.claims == s.claims && s.released <= |s.claims|
    requires s'.mem.producers == s.mem.producers && s'.mem.pushed == s.mem.pushed
    requires s'.mem.width == s.mem.width
    requires || (s'.mem.readPos == s.mem.readPos && s'.mem.popped == s.mem.popped)
             || (s.mem.consumer.Bump? && s'.mem.readPos == s.mem.readPos + 1
                 && s'.mem.popped == s.mem.popped + [s.mem.consumer.buf])
    ensures History(s')
  {
  }

  lemma KeepConsume(s: State)
    requires Inv(s) && !Releases(s.mem, Consume)
    ensures Inv(Step(s, Consume))
  {
    var s' := Step(s, Consume);
    var m, R := s.mem, s.released;
    match m.consumer {
      case Ready =>
        CapacityBounds(m.cap);
        assert SlotOk(s, R);
      case Copy(buf) =>
        var cell := m.data[Slot(m.cap, R)];
        assert cell[..|buf| + 1] == cell[..|buf|] + [cell[|buf|]];
      case Bump(buf) =>
    }
    KeepRead(s, s');
  }

  lemma KeepRelease(s: State)
    requires Inv(s) && Releases(s.mem, Consume)
    ensures Inv(Step(s, Consume))
  {
    KeepReleased(s, Step(s, Consume));
  }

  lemma KeepReleased(s: State, s': State)
    requires Inv(s) && StateShape(s') && s.mem.consumer.Copy? && |s.mem.consumer.buf| >= s.mem.width
    requires s'.claims == s.claims && s'.released == s.released + 1
    requires s'.mem == Release(s.mem, s.mem.consumer.buf, 0)
    ensures Inv(s')
  {
    var m, R := s.mem, s.released;
    SlotNextLap(m.cap, R);
    assert m.consumer.buf == s.claims[R].item by {
      assert m.data[Slot(m.cap, R)] == m.data[Slot(m.cap, R)][..|m.consumer.buf|];
    }
    assert SlotsOk(s') by { ReleasedSlots(s, s', m.consumer.buf); }
    forall u | u in s'.mem.producers ensures ProducerOk(s', u) {
      assert ProducerOk(s, u);
      if m.producers[u].Write? { SlotInjective(m.cap, R, m.producers[u].pos, R); }
    }
  }

  /** The released slot is free for the position one lap on; the others keep theirs. */
  lemma ReleasedSlots(s: State, s': State, buf: Item)
    requires Shape(s.mem) && Shape(s'.mem) && CapacityOk(s.mem.cap) && SlotsOk(s)
    requires |s.claims| <= s.released + s.mem.cap
    requires s'.claims == s.claims && s'.released == s.released + 1
    requires s.mem.readPos == s.released && s'.mem == Release(s.mem, buf, 0)
    ensures SlotsOk(s')
  {
    var R, cap := s.released, s.mem.cap;
    forall p: nat | R + 1 <= p < R + 1 + cap ensures SlotOk(s', p) {
      if p < R + cap {
        assert SlotOk(s, p);
        SlotInjective(cap, R, p, R);
      } else {
        SlotNextLap(cap, R);
      }
    }
  }

  /** Every event keeps the invariant. */
  lemma StepInv(s: State, e: Event)
    requires Inv(s)
    ensures Inv(Step(s, e))
  {
    match e
    case Call(t, item) =>
      if CanCall(s.mem, t, item) { KeepMove(s, Step(s, e), t); } else { assert Step(s, e) == s; }
    case Move(t, spurious) =>
      if t !in s.mem.producers { assert Step(s, e) == s; }
      else if Claims(s.mem, e) { KeepClaim(s, t); }
      else if !s.mem.producers[t].Write? { KeepLook(s, t, spurious); }
      else if s.mem.producers[t].copied < s.mem.width { KeepCopyIn(s, t, spurious); }
      else { KeepPublish(s, t, spurious); }
    case Consume =>
      if Releases(s.mem, e) { KeepRelease(s); } else { KeepConsume(s); }
  }

  lemma {:induction false} ExecInv(s: State, es: seq<Event>)
    requires Inv(s)
    ensures Inv(Exec(s, es))
  {
    if es != [] {
      ExecInv(s, es[..|es| - 1]);
      StepInv(Exec(s, es[..|es| - 1]), es[|es| - 1]);
    }
  }
}
