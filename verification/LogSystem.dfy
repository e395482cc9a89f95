/** The logger front end and the backend on top of the ring: any number of threads in
    `Logger::LogImpl`, the worker loop, `Start`, `Stop` and manual `Drain`, interleaved.

    Like the ring, the system comes in two forms that share their steps. One has the code's memory
    with 32-bit counters. The other follows it with unbounded counters and history; the invariant is
    about that one, and `LogCode` relates the two. */
module LogSystem {
  import opened MpscRing
  import opened MpscSafety
  import opened MpscWrap
  import opened MpscCode

  const BATCH: nat := 64

  // ---------------------------------------------------------------- state

  /** Where a thread is in LogImpl. */
  datatype Caller =
    | Out
    | Fetched(id: nat, payload: seq<Word>)   // took a sequence id, filling in the entry
    | In(id: nat)                            // inside TryPush, or about to look at its result

  /** Which loop called Drain. */
  datatype Mode = Work | Final | Stopping | Manual

  datatype Phase =
    | Off                                                   // nobody consumes
    | Top                                                   // worker about to load running_
    | Draining(mode: Mode, count: nat, limit: nat)          // in Drain, about to call or inside TryPop
    | Dispatching(mode: Mode, count: nat, limit: nat, entry: Item, next: nat)
    | Exited                                                // worker returned, not yet joined
    | Flushing(next: nat)

  datatype Backend = Backend(
    running: bool,
    stopping: bool,              // a Stop call waits in join
    phase: Phase,
    sinks: seq<seq<Item>>,       // the entries each sink has been handed
    flushed: seq<nat>)           // how many entries each sink had at its last Flush

  /** The whole system; the ring is the code's memory, or the state that follows it. */
  datatype System<R> = Sys(ring: R, callers: map<Tid, Caller>, sequence: nat, drops: nat, backend: Backend)

  type Sys = System<State>
  type CodeSys = System<Memory>

  /** Everything but the ring. */
  datatype Rest = Rest(callers: map<Tid, Caller>, sequence: nat, drops: nat, backend: Backend)

  function RestOf<R>(s: System<R>): Rest {
    Rest(s.callers, s.sequence, s.drops, s.backend)
  }

  function WithRest<R>(ring: R, x: Rest): System<R> {
    Sys(ring, x.callers, x.sequence, x.drops, x.backend)
  }

  datatype SysEvent =
    | Log(t: Tid, payload: seq<Word>)     // LogImpl: sequence_.fetch_add
    | Enter(t: Tid)                       // LogImpl calls TryPush
    | Push(t: Tid, spurious: bool)        // one atomic step of TryPush
    | Leave(t: Tid)                       // LogImpl sees the result and counts a drop
    | Start | Stop | Drain(max: nat)
    | Consumer                            // one step of whichever thread runs the consumer side

  // ---------------------------------------------------------------- steps

  function AfterDrain(b: Backend, mode: Mode, count: nat): Backend {
    match mode
    case Work => b.(phase := Top)
    case Final => b.(phase := if count > 0 then Draining(Final, 0, BATCH) else Exited)
    case Stopping => b.(phase := if count > 0 then Draining(Stopping, 0, BATCH) else Flushing(0))
    case Manual => b.(phase := Off)
  }

  /** Does the consumer side's next step move the ring? */
  predicate MovesRing(m: Memory, modulus: nat, b: Backend)
    requires Shape(m)
  {
    b.phase.Draining? && (!m.consumer.Ready? || (b.phase.count < b.phase.limit && CanPop(m, modulus)))
  }

  function BackendStep(m: Memory, modulus: nat, b: Backend): Backend
    requires Shape(m) && |b.flushed| == |b.sinks|
  {
    match b.phase
    case Off => b
    case Top => b.(phase := Draining(if b.running then Work else Final, 0, BATCH))
    case Draining(mode, count, limit) =>
      if !MovesRing(m, modulus, b) then AfterDrain(b, mode, count)
      else if m.consumer.Bump? then b.(phase := Dispatching(mode, count, limit, m.consumer.buf, 0))
      else b
    case Dispatching(mode, count, limit, entry, next) =>
      if next < |b.sinks| then
        b.(sinks := b.sinks[next := b.sinks[next] + [entry]],
           phase := Dispatching(mode, count, limit, entry, next + 1))
      else b.(phase := Draining(mode, count + 1, limit))
    case Exited =>
      if b.stopping then b.(stopping := false, phase := Draining(Stopping, 0, BATCH)) else b
    case Flushing(next) =>
      if next < |b.sinks| then
        b.(flushed := b.flushed[next := |b.sinks[next]|], phase := Flushing(next + 1))
      else b.(phase := Off)
  }

  /** Start, Stop and Drain, called by the owner of the backend; Start and Drain only while
      nothing else consumes (the single-consumer discipline). */
  function Control(b: Backend, e: SysEvent): Backend {
    match e
    case Start => if b.running || !b.phase.Off? then b else b.(running := true, phase := Top)
    case Stop =>
      if b.stopping || StopRuns(b.phase) then b
      else if b.phase.Off? then b.(running := false, phase := Draining(Stopping, 0, BATCH))
      else b.(running := false, stopping := true)
    case Drain(max) => if b.phase.Off? then b.(phase := Draining(Manual, 0, max)) else b
    case _ => b
  }

  /** The owner's thread is itself the consumer (inside Stop after join, or inside Drain). */
  predicate StopRuns(p: Phase) {
    p.Flushing? || ((p.Draining? || p.Dispatching?) && (p.mode.Stopping? || p.mode.Manual?))
  }

  /** The ring event, if any, that a system event performs. */
  function RingEventOf(m: Memory, modulus: nat, callers: map<Tid, Caller>, b: Backend, e: SysEvent): seq<Event>
    requires Shape(m)
  {
    match e
    case Enter(t) =>
      if t in callers && callers[t].Fetched? then [Call(t, [callers[t].id] + callers[t].payload)] else []
    case Push(t, spurious) => if t in callers && callers[t].In? then [Move(t, spurious)] else []
    case Consumer => if MovesRing(m, modulus, b) then [Event.Consume] else []
    case _ => []
  }

  predicate CanLog(callers: map<Tid, Caller>, width: nat, t: Tid, payload: seq<Word>) {
    t in callers && callers[t].Out? && |payload| + 1 == width
  }

  predicate HasReturned(callers: map<Tid, Caller>, ps: map<Tid, Producer>, t: Tid) {
    t in callers && callers[t].In? && t in ps && ps[t].Returned?
  }

  function RestStep(m: Memory, modulus: nat, x: Rest, e: SysEvent): Rest
    requires Shape(m) && |x.backend.flushed| == |x.backend.sinks|
  {
    match e
    case Log(t, payload) =>
      if CanLog(x.callers, m.width, t, payload)
      then x.(callers := x.callers[t := Fetched(x.sequence, payload)], sequence := x.sequence + 1)
      else x
    case Enter(t) =>
      if t in x.callers && x.callers[t].Fetched? then x.(callers := x.callers[t := In(x.callers[t].id)]) else x
    case Push(_, _) => x
    case Leave(t) =>
      if HasReturned(x.callers, m.producers, t)
      then x.(callers := x.callers[t := Out], drops := if m.producers[t].ok then x.drops else x.drops + 1)
      else x
    case Consumer => x.(backend := BackendStep(m, modulus, x.backend))
    case _ => x.(backend := Control(x.backend, e))
  }

  // ---------------------------------------------------------------- the system that is followed

  ghost predicate SysShape(s: Sys) {
    StateShape(s.ring) && s.ring.mem.width >= 1 && RestShape(s.ring.mem, RestOf(s))
  }

  function RingEvent(s: Sys, e: SysEvent): seq<Event>
    requires StateShape(s.ring)
  {
    RingEventOf(s.ring.mem, 0, s.callers, s.backend, e)
  }

  function RingStep(s: Sys, e: SysEvent): (r: State)
    requires StateShape(s.ring)
    ensures StateShape(r)
  {
    if RingEvent(s, e) == [] then s.ring else CodeStep(s.ring, RingEvent(s, e)[0])
  }

  function SysStep(s: Sys, e: SysEvent): (r: Sys)
    requires SysShape(s)
    ensures SysShape(r)
  {
    StepShape(s, e);
    WithRest(RingStep(s, e), RestStep(s.ring.mem, 0, RestOf(s), e))
  }

  /** Callers are the ring's threads, and what they hold fits the ring's items. */
  ghost predicate RestShape(m: Memory, x: Rest) {
    && x.callers.Keys == m.producers.Keys
    && (forall t :: t in x.callers && x.callers[t].Fetched? ==> |x.callers[t].payload| + 1 == m.width)
    && |x.backend.flushed| == |x.backend.sinks|
  }

  lemma RestKeeps(m: Memory, modulus: nat, x: Rest, e: SysEvent)
    requires Shape(m) && RestShape(m, x)
    ensures RestShape(m, RestStep(m, modulus, x, e))
  {
  }

  lemma StepShape(s: Sys, e: SysEvent)
    requires SysShape(s)
    ensures SysShape(WithRest(RingStep(s, e), RestStep(s.ring.mem, 0, RestOf(s), e)))
  {
    RestKeeps(s.ring.mem, 0, RestOf(s), e);
    if RingEvent(s, e) != [] { CodeStepThreads(s.ring, RingEvent(s, e)[0]); }
  }

  function SysExec(s: Sys, es: seq<SysEvent>): (r: Sys)
    requires SysShape(s)
    ensures SysShape(r)
  {
    if es == [] then s else SysStep(SysExec(s, es[..|es| - 1]), es[|es| - 1])
  }

  function SysInit(cap: nat, width: nat, threads: set<Tid>, sinks: nat): (s: Sys)
    requires cap >= 1 && width >= 1
    ensures SysShape(s)
  {
    Sys(Init(cap, width, threads), map t | t in threads :: Out, 0, 0,
        Backend(false, false, Off, seq(sinks, _ => []), seq(sinks, _ => 0)))
  }

  /** The event performs a harmful compare-exchange. */
  predicate SysHarmful(s: Sys, e: SysEvent)
    requires StateShape(s.ring)
  {
    RingEvent(s, e) != [] && Harmful(s.ring, RingEvent(s, e)[0])
  }

  ghost predicate SysHarmless(s: Sys, es: seq<SysEvent>)
    requires SysShape(s)
  {
    es == [] || (SysHarmless(s, es[..|es| - 1]) && !SysHarmful(SysExec(s, es[..|es| - 1]), es[|es| - 1]))
  }

  // ---------------------------------------------------------------- the ring inside the system

  function RingTrace(s: Sys, es: seq<SysEvent>): seq<Event>
    requires SysShape(s)
  {
    if es == [] then []
    else RingTrace(s, es[..|es| - 1]) + RingEvent(SysExec(s, es[..|es| - 1]), es[|es| - 1])
  }

  lemma TraceOne(ring: State, trace: seq<Event>, mid: State, e: Event)
    requires StateShape(ring) && StateShape(mid) && CodeExec(ring, trace) == mid
    ensures CodeExec(ring, trace + [e]) == CodeStep(mid, e)
  {
    CodeSnoc(ring, trace, e);
  }

  lemma StepQuiet(s: Sys, e: SysEvent)
    requires SysShape(s) && RingEvent(s, e) == []
    ensures SysStep(s, e).ring == s.ring && !SysHarmful(s, e)
  {
  }

  lemma StepRing(s: Sys, e: SysEvent, x: Event)
    requires SysShape(s) && RingEvent(s, e) == [x]
    ensures SysStep(s, e).ring == CodeStep(s.ring, x) && (SysHarmful(s, e) <==> Harmful(s.ring, x))
  {
  }

  lemma EventCount(s: Sys, e: SysEvent)
    requires SysShape(s)
    ensures RingEvent(s, e) == [] || RingEvent(s, e) == [RingEvent(s, e)[0]]
  {
  }

  /** The system's ring is what the trace leads to, and harm in one is harm in the other. */
  ghost predicate Follows(ring: State, trace: seq<Event>, s: Sys, harmless: bool)
    requires StateShape(ring)
  {
    s.ring == CodeExec(ring, trace) && (harmless <==> Harmless(ring, trace))
  }

  lemma FollowsOne(ring: State, trace: seq<Event>, s: Sys, harmless: bool, e: SysEvent, x: Event)
    requires StateShape(ring) && SysShape(s) && Follows(ring, trace, s, harmless) && RingEvent(s, e) == [x]
    ensures Follows(ring, trace + [x], SysStep(s, e), harmless && !SysHarmful(s, e))
  {
    StepRing(s, e, x);
    TraceOne(ring, trace, s.ring, x);
    HarmlessSnoc(ring, trace, x);
  }

  /** Inside the system the ring runs one of its own schedules, so everything proved about ring
      schedules holds of it; and the system's run is harmless if and only if that schedule is. */
  lemma {:induction false} RingRuns(s: Sys, es: seq<SysEvent>)
    requires SysShape(s)
    ensures Follows(s.ring, RingTrace(s, es), SysExec(s, es), SysHarmless(s, es))
  {
    if es != [] {
      var front, e := es[..|es| - 1], es[|es| - 1];
      RingRuns(s, front);
      var mid, trace := SysExec(s, front), RingTrace(s, front);
      EventCount(mid, e);
      if RingEvent(mid, e) == [] {
        StepQuiet(mid, e);
        assert trace + [] == trace;
      } else {
        FollowsOne(s.ring, trace, mid, SysHarmless(s, front), e, RingEvent(mid, e)[0]);
      }
    }
  }

  // ---------------------------------------------------------------- accounting of calls

  /** The call has taken a sequence id but is neither claimed nor counted as dropped. */
  predicate IsUndecided(p: Producer, c: Caller) {
    c.Fetched? || (c.In? && !p.Write? && p != Returned(true))
  }

  ghost function Undecided(ps: map<Tid, Producer>, callers: map<Tid, Caller>): set<Tid>
    requires callers.Keys == ps.Keys
  {
    set t | t in callers && IsUndecided(ps[t], callers[t])
  }

  predicate CallerOk(p: Producer, c: Caller) {
    match c
    case In(id) =>
      !p.Idle? && (!p.Returned? ==> |p.item| >= 1 && p.item[0] == id)
    case _ => p.Idle? || p.Returned?
  }

  /** Claimed ids are below the counter, all different, and per thread in increasing order. */
  ghost predicate ClaimedIds(claims: seq<Claim>, sequence: nat) {
    && (forall i :: 0 <= i < |claims| ==> |claims[i].item| >= 1 && 0 <= claims[i].item[0] < sequence)
    && (forall i, j :: 0 <= i < j < |claims| ==> claims[i].item[0] != claims[j].item[0])
    && (forall i, j :: 0 <= i < j < |claims| && claims[i].tid == claims[j].tid ==>
          claims[i].item[0] < claims[j].item[0])
  }

  /** The id of an undecided call is below the counter, unclaimed, and above its thread's claims. */
  ghost predicate OpenId(p: Producer, c: Caller, t: Tid, claims: seq<Claim>, sequence: nat) {
    IsUndecided(p, c) ==>
      && c.id < sequence
      && forall i :: 0 <= i < |claims| && |claims[i].item| >= 1 ==>
           claims[i].item[0] != c.id && (claims[i].tid == t ==> claims[i].item[0] < c.id)
  }

  ghost predicate OpenIds(ps: map<Tid, Producer>, claims: seq<Claim>, callers: map<Tid, Caller>, sequence: nat)
    requires callers.Keys == ps.Keys
  {
    forall t :: t in callers ==> OpenId(ps[t], callers[t], t, claims, sequence)
  }

  ghost predicate OpenDistinct(ps: map<Tid, Producer>, callers: map<Tid, Caller>)
    requires callers.Keys == ps.Keys
  {
    forall t, u | t in callers && u in callers && t != u
      :: IsUndecided(ps[t], callers[t]) && IsUndecided(ps[u], callers[u]) ==> callers[t].id != callers[u].id
  }

  ghost predicate CallersOk(ps: map<Tid, Producer>, claims: seq<Claim>, callers: map<Tid, Caller>,
                            sequence: nat, drops: nat)
  {
    && callers.Keys == ps.Keys
    && (forall t :: t in callers ==> CallerOk(ps[t], callers[t]))
    && sequence == |claims| + drops + |Undecided(ps, callers)|
    && ClaimedIds(claims, sequence)
    && OpenIds(ps, claims, callers, sequence)
    && OpenDistinct(ps, callers)
  }

  /** A step of t that leaves it undecided with the same id, or decided. */
  lemma KeepStatus(ps: map<Tid, Producer>, ps': map<Tid, Producer>, claims: seq<Claim>,
                   callers: map<Tid, Caller>, callers': map<Tid, Caller>, sequence: nat, drops: nat, t: Tid)
    requires CallersOk(ps, claims, callers, sequence, drops) && t in ps && t in ps' && t in callers'
    requires ps' == ps[t := ps'[t]] && callers' == callers[t := callers'[t]]
    requires CallerOk(ps'[t], callers'[t])
    requires IsUndecided(ps'[t], callers'[t]) == IsUndecided(ps[t], callers[t])
    requires IsUndecided(ps[t], callers[t]) ==> callers'[t].id == callers[t].id
    ensures CallersOk(ps', claims, callers', sequence, drops)
  {
    assert Undecided(ps', callers') == Undecided(ps, callers);
    forall u | u in callers' ensures OpenId(ps'[u], callers'[u], u, claims, sequence) {
      assert OpenId(ps[u], callers[u], u, claims, sequence);
    }
  }

  lemma FetchIds(ps: map<Tid, Producer>, claims: seq<Claim>, callers: map<Tid, Caller>, sequence: nat,
                 t: Tid, payload: seq<Word>)
    requires callers.Keys == ps.Keys && ClaimedIds(claims, sequence) && OpenIds(ps, claims, callers, sequence)
    requires t in callers
    ensures OpenIds(ps, claims, callers[t := Fetched(sequence, payload)], sequence + 1)
  {
    var callers' := callers[t := Fetched(sequence, payload)];
    forall u | u in callers' ensures OpenId(ps[u], callers'[u], u, claims, sequence + 1) {
      assert OpenId(ps[u], callers[u], u, claims, sequence);
    }
  }

  lemma FetchDistinct(ps: map<Tid, Producer>, claims: seq<Claim>, callers: map<Tid, Caller>, sequence: nat,
                      t: Tid, payload: seq<Word>)
    requires callers.Keys == ps.Keys && OpenIds(ps, claims, callers, sequence) && OpenDistinct(ps, callers)
    requires t in callers
    ensures OpenDistinct(ps, callers[t := Fetched(sequence, payload)])
  {
    assert forall u :: u in callers ==> OpenId(ps[u], callers[u], u, claims, sequence);
  }

  lemma KeepFetch(ps: map<Tid, Producer>, claims: seq<Claim>,
                  callers: map<Tid, Caller>, sequence: nat, drops: nat, t: Tid, payload: seq<Word>)
    requires CallersOk(ps, claims, callers, sequence, drops) && t in callers && callers[t].Out?
    ensures CallersOk(ps, claims, callers[t := Fetched(sequence, payload)], sequence + 1, drops)
  {
    FetchIds(ps, claims, callers, sequence, t, payload);
    FetchDistinct(ps, claims, callers, sequence, t, payload);
    FetchCount(ps, callers, t, sequence, payload);
    MoreIds(claims, sequence);
  }

  lemma MoreIds(claims: seq<Claim>, sequence: nat)
    requires ClaimedIds(claims, sequence)
    ensures ClaimedIds(claims, sequence + 1)
  {
  }

  lemma FetchCount(ps: map<Tid, Producer>, callers: map<Tid, Caller>, t: Tid, id: nat, payload: seq<Word>)
    requires callers.Keys == ps.Keys && t in callers && callers[t].Out?
    ensures |Undecided(ps, callers[t := Fetched(id, payload)])| == |Undecided(ps, callers)| + 1
  {
    assert Undecided(ps, callers[t := Fetched(id, payload)]) == Undecided(ps, callers) + {t};
  }

  lemma KeepDrop(ps: map<Tid, Producer>, claims: seq<Claim>,
                 callers: map<Tid, Caller>, sequence: nat, drops: nat, t: Tid)
    requires CallersOk(ps, claims, callers, sequence, drops) && t in callers
    requires callers[t].In? && ps[t] == Returned(false)
    ensures CallersOk(ps, claims, callers[t := Out], sequence, drops + 1)
  {
    assert Undecided(ps, callers[t := Out]) == Undecided(ps, callers) - {t};
    forall u | u in callers ensures OpenId(ps[u], callers[t := Out][u], u, claims, sequence) {
      assert OpenId(ps[u], callers[u], u, claims, sequence);
    }
  }

  lemma ClaimId(p: Producer, c: Caller, t: Tid, claims: seq<Claim>, sequence: nat)
    requires ClaimedIds(claims, sequence) && OpenId(p, c, t, claims, sequence)
    requires p.Cas? && c.In? && CallerOk(p, c)
    ensures ClaimedIds(claims + [Claim(t, p.item)], sequence)
  {
    assert IsUndecided(p, c) && p.item[0] == c.id;
  }

  lemma ClaimOthers(ps: map<Tid, Producer>, claims: seq<Claim>, callers: map<Tid, Caller>, sequence: nat,
                    t: Tid, pos: nat)
    requires callers.Keys == ps.Keys && OpenIds(ps, claims, callers, sequence) && OpenDistinct(ps, callers)
    requires t in callers && ps[t].Cas? && callers[t].In? && CallerOk(ps[t], callers[t])
    ensures OpenIds(ps[t := Write(ps[t].item, pos, 0)], claims + [Claim(t, ps[t].item)], callers, sequence)
  {
    assert IsUndecided(ps[t], callers[t]);
    var ps', claims' := ps[t := Write(ps[t].item, pos, 0)], claims + [Claim(t, ps[t].item)];
    forall u | u in callers ensures OpenId(ps'[u], callers[u], u, claims', sequence) {
      assert OpenId(ps[u], callers[u], u, claims, sequence);
    }
  }

  lemma KeepClaimed(ps: map<Tid, Producer>, claims: seq<Claim>, callers: map<Tid, Caller>,
                    sequence: nat, drops: nat, t: Tid, pos: nat)
    requires CallersOk(ps, claims, callers, sequence, drops) && t in callers
    requires ps[t].Cas? && callers[t].In?
    ensures CallersOk(ps[t := Write(ps[t].item, pos, 0)], claims + [Claim(t, ps[t].item)], callers, sequence, drops)
  {
    var ps' := ps[t := Write(ps[t].item, pos, 0)];
    assert CallerOk(ps[t], callers[t]) && OpenId(ps[t], callers[t], t, claims, sequence);
    ClaimId(ps[t], callers[t], t, claims, sequence);
    ClaimOthers(ps, claims, callers, sequence, t, pos);
    assert t in Undecided(ps, callers);
    assert Undecided(ps', callers) == Undecided(ps, callers) - {t};
  }

  // ---------------------------------------------------------------- accounting of deliveries

  /** Every sink holds exactly what has been popped, up to the entry being dispatched. */
  ghost predicate BackendOk(m: Memory, b: Backend) {
    && |b.flushed| == |b.sinks|
    && (!b.phase.Draining? ==> m.consumer.Ready?)
    && (b.phase.Dispatching? ==> b.phase.next <= |b.sinks| && |m.popped| >= 1
                                 && b.phase.entry == m.popped[|m.popped| - 1])
    && (forall j :: 0 <= j < |b.sinks| ==>
          b.sinks[j] == if b.phase.Dispatching? && j >= b.phase.next
                        then m.popped[..|m.popped| - 1] else m.popped)
    && (b.phase.Flushing? ==> b.phase.next <= |b.sinks|)
    && ((b.phase.Draining? || b.phase.Dispatching?) && !b.phase.mode.Manual? ==> b.phase.limit == BATCH)
    && (b.stopping ==> !b.running && !b.phase.Off? && !StopRuns(b.phase))
    && (b.running ==> InWorkLoop(b.phase))
  }

  /** The worker is in its loop. */
  predicate InWorkLoop(p: Phase) {
    p.Top? || ((p.Draining? || p.Dispatching?) && p.mode.Work?)
  }

  /** Producers' steps do not disturb the consumer side. */
  lemma BackendFrame(m: Memory, m': Memory, b: Backend)
    requires BackendOk(m, b) && m'.consumer == m.consumer && m'.popped == m.popped
    ensures BackendOk(m', b)
  {
  }

  lemma BackendPop(ring: State, b: Backend)
    requires StateShape(ring) && BackendOk(ring.mem, b) && MovesRing(ring.mem, 0, b)
    ensures BackendOk(ConsumerStep(ring.mem, 0), BackendStep(ring.mem, 0, b))
  {
    if ring.mem.consumer.Bump? {
      var popped := ring.mem.popped + [ring.mem.consumer.buf];
      assert popped[..|popped| - 1] == ring.mem.popped;
    }
  }

  lemma BackendDispatch(ring: State, b: Backend)
    requires StateShape(ring) && BackendOk(ring.mem, b) && b.phase.Dispatching?
    ensures BackendOk(ring.mem, BackendStep(ring.mem, 0, b))
  {
    var popped := ring.mem.popped;
    assert popped == popped[..|popped| - 1] + [b.phase.entry];
  }

  lemma BackendOther(ring: State, b: Backend)
    requires StateShape(ring) && BackendOk(ring.mem, b) && !MovesRing(ring.mem, 0, b) && !b.phase.Dispatching?
    ensures BackendOk(ring.mem, BackendStep(ring.mem, 0, b))
  {
  }

  lemma BackendControl(m: Memory, b: Backend, e: SysEvent)
    requires BackendOk(m, b)
    ensures BackendOk(m, Control(b, e))
  {
  }

  // ---------------------------------------------------------------- the system invariant

  ghost predicate SysInv(s: Sys) {
    && SysShape(s) && Inv(s.ring)
    && CallersOk(s.ring.mem.producers, s.ring.claims, s.callers, s.sequence, s.drops)
    && BackendOk(s.ring.mem, s.backend)
  }

  lemma InitSys(cap: nat, width: nat, threads: set<Tid>, sinks: nat)
    requires CapacityOk(cap) && width >= 1
    ensures cap >= 1 && SysInv(SysInit(cap, width, threads, sinks))
  {
    InitInv(cap, width, threads);
    var s := SysInit(cap, width, threads, sinks);
    assert Undecided(s.ring.mem.producers, s.callers) == {};
  }

  lemma MoveCaller(m: Memory, t: Tid, spurious: bool, c: Caller)
    requires Shape(m) && t in m.producers && c.In? && CallerOk(m.producers[t], c)
    ensures CallerOk(CodePhase(m, t, spurious), c)
    ensures !CodeClaims(m, t, spurious) ==>
              IsUndecided(CodePhase(m, t, spurious), c) == IsUndecided(m.producers[t], c)
  {
  }

  lemma ClaimPhase(m: Memory, t: Tid, spurious: bool)
    requires Shape(m) && t in m.producers && CodeClaims(m, t, spurious)
    ensures m.producers[t].Cas? && CodePhase(m, t, spurious) == Write(m.producers[t].item, m.writePos, 0)
  {
  }

  lemma PushCallers(m: Memory, claims: seq<Claim>, t: Tid, spurious: bool,
                    callers: map<Tid, Caller>, sequence: nat, drops: nat)
    requires Shape(m) && CallersOk(m.producers, claims, callers, sequence, drops)
    requires t in callers && callers[t].In?
    ensures CallersOk(m.producers[t := CodePhase(m, t, spurious)],
                      if CodeClaims(m, t, spurious) then claims + [Claim(t, m.producers[t].item)] else claims,
                      callers, sequence, drops)
  {
    var ps := m.producers;
    if CodeClaims(m, t, spurious) {
      ClaimPhase(m, t, spurious);
      KeepClaimed(ps, claims, callers, sequence, drops, t, m.writePos);
    } else {
      assert CallerOk(ps[t], callers[t]);
      MoveCaller(m, t, spurious, callers[t]);
      assert callers == callers[t := callers[t]];
      KeepStatus(ps, ps[t := CodePhase(m, t, spurious)], claims, callers, callers, sequence, drops, t);
    }
  }

  lemma PushIs(s: Sys, t: Tid, spurious: bool)
    requires SysShape(s) && t in s.callers && s.callers[t].In?
    ensures SysStep(s, Push(t, spurious)) == s.(ring := CodeStep(s.ring, Move(t, spurious)))
  {
  }

  lemma KeepPush(s: Sys, t: Tid, spurious: bool)
    requires SysInv(s) && t in s.callers && s.callers[t].In? && !Harmful(s.ring, Move(t, spurious))
    ensures SysInv(SysStep(s, Push(t, spurious)))
  {
    var ring' := CodeStep(s.ring, Move(t, spurious));
    PushIs(s, t, spurious);
    assert Inv(ring') by { CodeStepInv(s.ring, Move(t, spurious)); }
    assert CallersOk(ring'.mem.producers, ring'.claims, s.callers, s.sequence, s.drops) by {
      CodeMoves(s.ring, t, spurious);
      PushCallers(s.ring.mem, s.ring.claims, t, spurious, s.callers, s.sequence, s.drops);
    }
    assert BackendOk(ring'.mem, s.backend) by {
      CodeMoves(s.ring, t, spurious);
      BackendFrame(s.ring.mem, ring'.mem, s.backend);
    }
  }

  lemma EnterCallers(r: State, t: Tid, callers: map<Tid, Caller>, sequence: nat, drops: nat)
    requires StateShape(r) && CallersOk(r.mem.producers, r.claims, callers, sequence, drops)
    requires t in callers && callers[t].Fetched?
    ensures var r' := Step(r, Call(t, [callers[t].id] + callers[t].payload));
            |callers[t].payload| + 1 == r.mem.width ==>
            CallersOk(r'.mem.producers, r'.claims, callers[t := In(callers[t].id)], sequence, drops)
  {
    if |callers[t].payload| + 1 == r.mem.width {
      var ps, item := r.mem.producers, [callers[t].id] + callers[t].payload;
      assert CallerOk(ps[t], callers[t]);
      assert CanCall(r.mem, t, item);
      KeepStatus(ps, ps[t := LoadPos(item)], r.claims, callers, callers[t := In(callers[t].id)], sequence, drops, t);
    }
  }

  lemma EnterIs(s: Sys, t: Tid)
    requires SysShape(s) && t in s.callers && s.callers[t].Fetched?
    ensures SysStep(s, Enter(t)) == s.(ring := Step(s.ring, Call(t, [s.callers[t].id] + s.callers[t].payload)),
                                       callers := s.callers[t := In(s.callers[t].id)])
  {
  }

  lemma EnterFrame(r: State, t: Tid, item: Item)
    requires StateShape(r)
    ensures Step(r, Call(t, item)).mem.consumer == r.mem.consumer && Step(r, Call(t, item)).mem.popped == r.mem.popped
  {
  }

  lemma KeepEnter(s: Sys, t: Tid)
    requires SysInv(s) && t in s.callers && s.callers[t].Fetched?
    ensures SysInv(SysStep(s, Enter(t)))
  {
    var e := Call(t, [s.callers[t].id] + s.callers[t].payload);
    var ring', callers' := Step(s.ring, e), s.callers[t := In(s.callers[t].id)];
    EnterIs(s, t);
    assert Inv(ring') by { StepInv(s.ring, e); }
    assert CallersOk(ring'.mem.producers, ring'.claims, callers', s.sequence, s.drops) by {
      EnterCallers(s.ring, t, s.callers, s.sequence, s.drops);
    }
    assert BackendOk(ring'.mem, s.backend) by {
      EnterFrame(s.ring, t, [s.callers[t].id] + s.callers[t].payload);
      BackendFrame(s.ring.mem, ring'.mem, s.backend);
    }
  }

  /** The ring after a step of the consumer side. */
  function NextRing(ring: State, b: Backend): State
    requires StateShape(ring)
  {
    if MovesRing(ring.mem, 0, b) then Step(ring, Event.Consume) else ring
  }

  lemma ConsumerFrame(ring: State, b: Backend)
    requires StateShape(ring)
    ensures NextRing(ring, b).claims == ring.claims && NextRing(ring, b).mem.producers == ring.mem.producers
    ensures NextRing(ring, b).mem == if MovesRing(ring.mem, 0, b) then ConsumerStep(ring.mem, 0) else ring.mem
  {
  }

  lemma ConsumerInv(ring: State, b: Backend)
    requires Inv(ring)
    ensures Inv(NextRing(ring, b))
  {
    StepInv(ring, Event.Consume);
  }

  lemma ConsumerBackend(ring: State, b: Backend)
    requires StateShape(ring) && BackendOk(ring.mem, b)
    ensures BackendOk(NextRing(ring, b).mem, BackendStep(ring.mem, 0, b))
  {
    ConsumerFrame(ring, b);
    if MovesRing(ring.mem, 0, b) {
      BackendPop(ring, b);
    } else if b.phase.Dispatching? {
      BackendDispatch(ring, b);
    } else {
      BackendOther(ring, b);
    }
  }

  lemma ConsumerIs(s: Sys)
    requires SysShape(s)
    ensures SysStep(s, Consumer)
         == s.(ring := NextRing(s.ring, s.backend), backend := BackendStep(s.ring.mem, 0, s.backend))
  {
  }

  lemma KeepConsumer(s: Sys)
    requires SysInv(s)
    ensures SysInv(SysStep(s, Consumer))
  {
    var ring', backend' := NextRing(s.ring, s.backend), BackendStep(s.ring.mem, 0, s.backend);
    ConsumerIs(s);
    assert Inv(ring') by { ConsumerInv(s.ring, s.backend); }
    assert ring'.claims == s.ring.claims && ring'.mem.producers == s.ring.mem.producers by {
      ConsumerFrame(s.ring, s.backend);
    }
    assert BackendOk(ring'.mem, backend') by { ConsumerBackend(s.ring, s.backend); }
  }

  lemma LeaveIs(s: Sys, t: Tid)
    requires SysShape(s) && HasReturned(s.callers, s.ring.mem.producers, t)
    ensures SysStep(s, Leave(t)) == s.(callers := s.callers[t := Out],
                                       drops := if s.ring.mem.producers[t].ok then s.drops else s.drops + 1)
  {
  }

  lemma KeepLeave(s: Sys, t: Tid)
    requires SysInv(s) && HasReturned(s.callers, s.ring.mem.producers, t)
    ensures SysInv(SysStep(s, Leave(t)))
  {
    LeaveIs(s, t);
    LeaveCallers(s.ring.mem.producers, s.ring.claims, s.callers, s.sequence, s.drops, t);
  }

  lemma LeaveCallers(ps: map<Tid, Producer>, claims: seq<Claim>, callers: map<Tid, Caller>,
                     sequence: nat, drops: nat, t: Tid)
    requires CallersOk(ps, claims, callers, sequence, drops) && t in callers
    requires callers[t].In? && ps[t].Returned?
    ensures CallersOk(ps, claims, callers[t := Out], sequence, if ps[t].ok then drops else drops + 1)
  {
    if ps[t].ok {
      assert ps == ps[t := ps[t]];
      KeepStatus(ps, ps, claims, callers, callers[t := Out], sequence, drops, t);
    } else {
      KeepDrop(ps, claims, callers, sequence, drops, t);
    }
  }

  lemma LogStep(s: Sys, t: Tid, payload: seq<Word>)
    requires SysShape(s)
    ensures SysStep(s, Log(t, payload)) ==
              if CanLog(s.callers, s.ring.mem.width, t, payload)
              then s.(callers := s.callers[t := Fetched(s.sequence, payload)], sequence := s.sequence + 1)
              else s
  {
  }

  lemma KeepLog(s: Sys, t: Tid, payload: seq<Word>)
    requires SysInv(s) && CanLog(s.callers, s.ring.mem.width, t, payload)
    ensures SysInv(SysStep(s, Log(t, payload)))
  {
    LogStep(s, t, payload);
    FetchInv(s, t, payload);
  }

  lemma FetchInv(s: Sys, t: Tid, payload: seq<Word>)
    requires SysInv(s) && CanLog(s.callers, s.ring.mem.width, t, payload)
    ensures SysInv(s.(callers := s.callers[t := Fetched(s.sequence, payload)], sequence := s.sequence + 1))
  {
    KeepFetch(s.ring.mem.producers, s.ring.claims, s.callers, s.sequence, s.drops, t, payload);
  }

  lemma ControlIs(s: Sys, e: SysEvent)
    requires SysShape(s) && (e.Start? || e.Stop? || e.Drain?)
    ensures SysStep(s, e) == s.(backend := Control(s.backend, e))
  {
  }

  /** An event that finds nothing to do. */
  predicate Disabled(s: Sys, e: SysEvent) {
    match e
    case Log(t, payload) => !CanLog(s.callers, s.ring.mem.width, t, payload)
    case Enter(t) => t !in s.callers || !s.callers[t].Fetched?
    case Push(t, _) => t !in s.callers || !s.callers[t].In?
    case Leave(t) => !HasReturned(s.callers, s.ring.mem.producers, t)
    case _ => false
  }

  lemma DisabledStays(s: Sys, e: SysEvent)
    requires SysShape(s) && Disabled(s, e)
    ensures SysStep(s, e) == s
  {
  }

  /** Every step of callers, worker and owner keeps the invariant, but for a harmful
      compare-exchange. */
  lemma SysStepInv(s: Sys, e: SysEvent)
    requires SysInv(s) && !SysHarmful(s, e)
    ensures SysInv(SysStep(s, e))
  {
    if Disabled(s, e) {
      DisabledStays(s, e);
    } else {
      match e
      case Log(t, payload) => KeepLog(s, t, payload);
      case Enter(t) => KeepEnter(s, t);
      case Push(t, spurious) => KeepPush(s, t, spurious);
      case Leave(t) => KeepLeave(s, t);
      case Consumer => KeepConsumer(s);
      case _ =>
        ControlIs(s, e);
        BackendControl(s.ring.mem, s.backend, e);
    }
  }

  lemma {:induction false} SysExecInv(s: Sys, es: seq<SysEvent>)
    requires SysInv(s) && SysHarmless(s, es)
    ensures SysInv(SysExec(s, es))
  {
    if es != [] {
      SysExecInv(s, es[..|es| - 1]);
      SysStepInv(SysExec(s, es[..|es| - 1]), es[|es| - 1]);
    }
  }
}
