/** What the logger promises about entries: each is delivered, dropped and counted, or still on
    its way; and `Stop` hands everything accepted to every sink. */
module LogDelivery {
  import opened MpscRing
  import opened MpscSafety
  import opened MpscCode
  import opened LogSystem

  function SysReached(cap: nat, width: nat, threads: set<Tid>, sinks: nat, es: seq<SysEvent>): Sys
    requires cap >= 1 && width >= 1
  {
    SysExec(SysInit(cap, width, threads, sinks), es)
  }

  /** The run contains no harmful compare-exchange. */
  ghost predicate HarmlessRun(cap: nat, width: nat, threads: set<Tid>, sinks: nat, es: seq<SysEvent>)
    requires cap >= 1 && width >= 1
  {
    SysHarmless(SysInit(cap, width, threads, sinks), es)
  }

  lemma SysReachedInv(cap: nat, width: nat, threads: set<Tid>, sinks: nat, es: seq<SysEvent>)
    requires CapacityOk(cap) && width >= 1
    ensures cap >= 1
    ensures HarmlessRun(cap, width, threads, sinks, es) ==> SysInv(SysReached(cap, width, threads, sinks, es))
  {
    InitSys(cap, width, threads, sinks);
    if HarmlessRun(cap, width, threads, sinks, es) { SysExecInv(SysInit(cap, width, threads, sinks), es); }
  }

  /** sequence_ = popped + claimed and not yet popped + drop_count_ + calls still undecided. */
  ghost predicate Accounted(popped: nat, claims: nat, ps: map<Tid, Producer>, x: Rest) {
    && x.callers.Keys == ps.Keys && popped <= claims
    && x.sequence == popped + (claims - popped) + x.drops + |Undecided(ps, x.callers)|
  }

  lemma Accounting(cap: nat, width: nat, threads: set<Tid>, sinks: nat, es: seq<SysEvent>)
    requires CapacityOk(cap) && width >= 1
    ensures cap >= 1
    ensures HarmlessRun(cap, width, threads, sinks, es) ==>
              var s := SysReached(cap, width, threads, sinks, es);
              Accounted(|s.ring.mem.popped|, |s.ring.claims|, s.ring.mem.producers, RestOf(s))
  {
    SysReachedInv(cap, width, threads, sinks, es);
  }

  /** What a sink has received when `popped` entries have been popped: the first so many claimed
      entries, in claim order, all popped ones but for one that may be on its way to the sinks.
      Their sequence ids are all different, and those of one thread strictly increase. */
  ghost predicate Received(got: seq<Item>, popped: nat, claims: seq<Claim>) {
    && popped <= |got| + 1 && |got| <= popped <= |claims|
    && got == Items(claims[..|got|])
    && (forall i :: 0 <= i < |got| ==> |got[i]| >= 1)
    && (forall i, k :: 0 <= i < k < |got| ==> got[i][0] != got[k][0])
    && (forall i, k :: 0 <= i < k < |got| && claims[i].tid == claims[k].tid ==> got[i][0] < got[k][0])
  }

  lemma Delivered(cap: nat, width: nat, threads: set<Tid>, sinks: nat, es: seq<SysEvent>, j: nat)
    requires CapacityOk(cap) && width >= 1
    ensures cap >= 1
    ensures HarmlessRun(cap, width, threads, sinks, es) ==>
              var s := SysReached(cap, width, threads, sinks, es);
              j < |s.backend.sinks| ==> Received(s.backend.sinks[j], |s.ring.mem.popped|, s.ring.claims)
  {
    SysReachedInv(cap, width, threads, sinks, es);
    var s := SysReached(cap, width, threads, sinks, es);
    if HarmlessRun(cap, width, threads, sinks, es) && j < |s.backend.sinks| { SinkReceives(s, j); }
  }

  lemma SinkReceives(s: Sys, j: nat)
    requires SysInv(s) && j < |s.backend.sinks|
    ensures Received(s.backend.sinks[j], |s.ring.mem.popped|, s.ring.claims)
  {
    SinkHolds(s, j);
    SinkIds(s.ring.claims, s.sequence, s.backend.sinks[j]);
  }

  lemma SinkIds(claims: seq<Claim>, sequence: nat, got: seq<Item>)
    requires ClaimedIds(claims, sequence)
    requires |got| <= |claims| && got == Items(claims[..|got|])
    ensures forall i :: 0 <= i < |got| ==> |got[i]| >= 1 && got[i] == claims[i].item
    ensures forall i, k :: 0 <= i < k < |got| ==> got[i][0] != got[k][0]
    ensures forall i, k :: 0 <= i < k < |got| && claims[i].tid == claims[k].tid ==> got[i][0] < got[k][0]
  {
    assert forall i :: 0 <= i < |got| ==> got[i] == claims[i].item;
  }

  lemma SinkHolds(s: Sys, j: nat)
    requires SysInv(s) && j < |s.backend.sinks|
    ensures var got := s.backend.sinks[j];
            && |got| <= |s.ring.mem.popped| <= |got| + 1 && |s.ring.mem.popped| <= |s.ring.claims|
            && got == Items(s.ring.claims[..|got|])
  {
    var n := |s.ring.mem.popped|;
    assert s.ring.mem.popped == Items(s.ring.claims[..n]);
    if n > 0 {
      assert s.ring.mem.popped[..n - 1] == Items(s.ring.claims[..n - 1]);
    }
  }

  // ---------------------------------------------------------------- what can be drained

  /** Position f is the first claimed one whose producer is still writing it, or the end. */
  ghost predicate Frontier(claims: seq<Claim>, ps: map<Tid, Producer>, f: nat) {
    && f <= |claims|
    && (forall p :: 0 <= p < f ==> !Writing(claims[p], ps, p))
    && (f < |claims| ==> Writing(claims[f], ps, f))
  }

  predicate Writing(c: Claim, ps: map<Tid, Producer>, p: nat) {
    c.tid in ps && ps[c.tid].Write? && ps[c.tid].pos == p
  }

  ghost predicate NoWriters(ps: map<Tid, Producer>) {
    forall t :: t in ps ==> !ps[t].Write?
  }

  lemma {:induction false} FrontierFrom(claims: seq<Claim>, ps: map<Tid, Producer>, lo: nat) returns (f: nat)
    requires lo <= |claims| && forall p :: 0 <= p < lo ==> !Writing(claims[p], ps, p)
    ensures Frontier(claims, ps, f)
    decreases |claims| - lo
  {
    if lo == |claims| || Writing(claims[lo], ps, lo) { f := lo; } else { f := FrontierFrom(claims, ps, lo + 1); }
  }

  /** There is such a position in every state. */
  lemma FrontierExists(claims: seq<Claim>, ps: map<Tid, Producer>)
    ensures exists f :: Frontier(claims, ps, f)
  {
    var f := FrontierFrom(claims, ps, 0);
  }

  /** It is the end if and only if no producer is between its compare-exchange and publishing. */
  lemma FrontierAtEnd(r: State, f: nat)
    requires Inv(r) && Frontier(r.claims, r.mem.producers, f)
    ensures f == |r.claims| <==> NoWriters(r.mem.producers)
  {
    if f == |r.claims| {
      forall t | t in r.mem.producers ensures !r.mem.producers[t].Write? {
        assert ProducerOk(r, t);
        if r.mem.producers[t].Write? {
          var p := r.mem.producers[t].pos;
          assert Writing(r.claims[p], r.mem.producers, p);
        }
      }
    }
  }

  lemma FrontierBound(r: State, f: nat)
    requires Inv(r) && Frontier(r.claims, r.mem.producers, f)
    ensures |r.mem.popped| <= r.released <= f
    ensures f < |r.claims| ==> r.mem.sequence[Slot(r.mem.cap, f)] == f
  {
    if f < |r.claims| { assert ProducerOk(r, r.claims[f].tid); }
  }

  function Left(s: Sys, f: nat): int {
    f - |s.ring.mem.popped|
  }

  /** TryPop succeeds if and only if something is left before the frontier. */
  lemma FrontierPop(s: Sys, f: nat)
    requires SysInv(s) && Frontier(s.ring.claims, s.ring.mem.producers, f) && s.ring.mem.consumer.Ready?
    ensures CanPop(s.ring.mem, 0) <==> Left(s, f) > 0
  {
    var r := s.ring;
    CapacityBounds(r.mem.cap);
    FrontierBound(r, f);
    assert SlotOk(r, r.released);
    assert r.released < f ==> !Writing(r.claims[r.released], r.mem.producers, r.released);
  }

  /** The position being popped is before the frontier. */
  lemma PoppingBefore(r: State, f: nat)
    requires Inv(r) && Frontier(r.claims, r.mem.producers, f) && !r.mem.consumer.Ready?
    ensures |r.mem.popped| < f
  {
    FrontierBound(r, f);
    if r.mem.consumer.Copy? { assert Published(r, r.released); }
  }

  lemma LeftWhilePopping(s: Sys, f: nat)
    requires SysInv(s) && Frontier(s.ring.claims, s.ring.mem.producers, f) && MovesRing(s.ring.mem, 0, s.backend)
    ensures Left(s, f) > 0
  {
    if s.ring.mem.consumer.Ready? { FrontierPop(s, f); } else { PoppingBefore(s.ring, f); }
  }

  // ---------------------------------------------------------------- Stop

  /** A Stop call is under way. */
  predicate InStop(b: Backend) {
    && !b.running
    && (b.stopping || b.phase.Flushing?
        || ((b.phase.Draining? || b.phase.Dispatching?) && b.phase.mode.Stopping?))
  }

  ghost predicate StopInv(s: Sys, f: nat) {
    && SysInv(s) && Frontier(s.ring.claims, s.ring.mem.producers, f) && InStop(s.backend)
    && (s.backend.phase.Flushing? ==>
          Left(s, f) == 0 && forall j :: 0 <= j < s.backend.phase.next ==> s.backend.flushed[j] == f)
  }

  // Work left for the consumer side, counted in steps.

  function PopSteps(m: Memory): nat {
    match m.consumer
    case Ready => m.width + 3
    case Copy(buf) => if |buf| <= m.width then m.width + 2 - |buf| else 0
    case Bump(_) => 1
  }

  function BatchSteps(count: nat): nat {
    if count > 0 then 1 else 0
  }

  function ModeSteps(mode: Mode, m: Memory, sinks: nat): nat {
    var base, drain := sinks + 2, m.width + 5;
    match mode
    case Stopping => base
    case Final => base + drain + 1
    case Work => base + 2 * drain + 2
    case Manual => 0
  }

  function PhaseSteps(p: Phase, m: Memory, sinks: nat): nat {
    match p
    case Off => 0
    case Flushing(next) => if next <= sinks then sinks - next + 1 else 0
    case Draining(mode, count, _) => ModeSteps(mode, m, sinks) + BatchSteps(count) + PopSteps(m)
    case Exited => ModeSteps(Stopping, m, sinks) + m.width + 5
    case Top => ModeSteps(Final, m, sinks) + m.width + 5
    case Dispatching(mode, _, _, _, next) =>
      ModeSteps(mode, m, sinks) + 1 + m.width + 3 + (if next <= sinks then sinks - next + 1 else 0)
  }

  function Steps(left: nat, p: Phase, m: Memory, sinks: nat): nat {
    left * (sinks + m.width + 8) + PhaseSteps(p, m, sinks)
  }

  /** An upper bound on the consumer-side steps until Stop returns. */
  function StopSteps(s: Sys, f: nat): nat {
    Steps(if Left(s, f) > 0 then Left(s, f) else 0, s.backend.phase, s.ring.mem, |s.backend.sinks|)
  }

  lemma OneLess(n: nat, k: nat)
    requires n > 0
    ensures n * k == (n - 1) * k + k
  {
  }

  /** A step that moves the ring advances the pop. */
  lemma PopPhase(ring: State, b: Backend, left: nat)
    requires StateShape(ring) && BackendOk(ring.mem, b) && MovesRing(ring.mem, 0, b) && InStop(b)
    requires left > 0
    ensures var m', b' := ConsumerStep(ring.mem, 0), BackendStep(ring.mem, 0, b);
            && InStop(b') && !b'.phase.Flushing? && |b'.sinks| == |b.sinks|
            && |m'.popped| == |ring.mem.popped| + (if ring.mem.consumer.Bump? then 1 else 0)
            && Steps(if ring.mem.consumer.Bump? then left - 1 else left, b'.phase, m', |b'.sinks|)
               < Steps(left, b.phase, ring.mem, |b.sinks|)
  {
    OneLess(left, |b.sinks| + ring.mem.width + 8);
  }

  lemma PopMeasure(s: Sys, f: nat)
    requires SysShape(s) && BackendOk(s.ring.mem, s.backend)
    requires MovesRing(s.ring.mem, 0, s.backend) && InStop(s.backend) && Left(s, f) > 0
    ensures var s' := SysStep(s, Consumer);
            InStop(s'.backend) && !s'.backend.phase.Flushing? && StopSteps(s', f) < StopSteps(s, f)
  {
    ConsumerIs(s);
    ConsumerFrame(s.ring, s.backend);
    PopPhase(s.ring, s.backend, Left(s, f));
  }

  /** The consumer's steps change neither claims nor producers, so the frontier stays. */
  lemma ConsumerStays(s: Sys)
    requires SysShape(s)
    ensures SysStep(s, Consumer).ring.claims == s.ring.claims
    ensures SysStep(s, Consumer).ring.mem.producers == s.ring.mem.producers
  {
    ConsumerIs(s);
    ConsumerFrame(s.ring, s.backend);
  }

  lemma PopProgress(s: Sys, f: nat)
    requires StopInv(s, f) && MovesRing(s.ring.mem, 0, s.backend)
    ensures StopInv(SysStep(s, Consumer), f) && StopSteps(SysStep(s, Consumer), f) < StopSteps(s, f)
  {
    KeepConsumer(s);
    ConsumerStays(s);
    LeftWhilePopping(s, f);
    PopMeasure(s, f);
  }

  /** The other steps: loop control, dispatch, join, flush. */
  lemma ControlPhase(ring: State, b: Backend, left: nat)
    requires StateShape(ring) && BackendOk(ring.mem, b) && !MovesRing(ring.mem, 0, b) && InStop(b)
    requires ring.mem.consumer.Ready? ==> (CanPop(ring.mem, 0) <==> left > 0)
    ensures var b' := BackendStep(ring.mem, 0, b);
            && |b'.sinks| == |b.sinks|
            && (InStop(b') || b'.phase.Off?)
            && (b'.phase.Off? ==> b.phase.Flushing? && b.phase.next == |b.sinks| && b' == b.(phase := Off))
            && (b'.phase.Flushing? && !b.phase.Flushing? ==> left == 0 && b'.phase.next == 0)
            && (b'.phase.Flushing? && b.phase.Flushing? ==>
                  b.phase.next < |b.sinks|
                  && b' == b.(phase := Flushing(b.phase.next + 1),
                              flushed := b.flushed[b.phase.next := |b.sinks[b.phase.next]|]))
            && PhaseSteps(b'.phase, ring.mem, |b'.sinks|) < PhaseSteps(b.phase, ring.mem, |b.sinks|)
  {
  }

  /** Everything before the frontier has been popped, handed to every sink in claim order, and
      flushed. */
  ghost predicate Finished(s: Sys, f: nat) {
    && |s.ring.mem.popped| == f == s.ring.released <= |s.ring.claims|
    && |s.backend.flushed| == |s.backend.sinks|
    && forall j :: 0 <= j < |s.backend.sinks| ==>
         s.backend.sinks[j] == Items(s.ring.claims[..f]) && s.backend.flushed[j] == f
  }

  lemma FlushedAll(s: Sys, f: nat)
    requires StopInv(s, f) && s.backend.phase.Flushing?
    ensures f <= |s.ring.claims| && s.ring.released == f
    ensures forall j :: 0 <= j < |s.backend.sinks| ==> s.backend.sinks[j] == Items(s.ring.claims[..f])
  {
    assert s.ring.mem.popped == Items(s.ring.claims[..f]);
  }

  /** What the consumer side sees of the frontier when it does not move the ring. */
  lemma ControlLeft(s: Sys, f: nat)
    requires StopInv(s, f)
    ensures Left(s, f) >= 0
    ensures s.ring.mem.consumer.Ready? ==> (CanPop(s.ring.mem, 0) <==> Left(s, f) > 0)
  {
    FrontierBound(s.ring, f);
    if s.ring.mem.consumer.Ready? { FrontierPop(s, f); }
  }

  lemma ControlMeasure(ring: State, b: Backend, left: nat)
    requires StateShape(ring) && BackendOk(ring.mem, b) && !MovesRing(ring.mem, 0, b) && InStop(b)
    requires ring.mem.consumer.Ready? ==> (CanPop(ring.mem, 0) <==> left > 0)
    ensures var b' := BackendStep(ring.mem, 0, b);
            Steps(left, b'.phase, ring.mem, |b'.sinks|) < Steps(left, b.phase, ring.mem, |b.sinks|)
  {
    ControlPhase(ring, b, left);
  }

  /** Before the flush: Stop goes on, and comes to the flush only with nothing left. */
  lemma LoopNext(s: Sys, s': Sys, f: nat)
    requires StopInv(s, f) && !MovesRing(s.ring.mem, 0, s.backend) && SysInv(s') && !s.backend.phase.Flushing?
    requires s'.ring == s.ring && s'.backend == BackendStep(s.ring.mem, 0, s.backend)
    ensures StopInv(s', f)
  {
    ControlLeft(s, f);
    ControlPhase(s.ring, s.backend, Left(s, f));
  }

  /** In the flush: one more sink flushed, or Stop returns. */
  lemma FlushNext(s: Sys, s': Sys, f: nat)
    requires StopInv(s, f) && SysInv(s') && s.backend.phase.Flushing?
    requires s'.ring == s.ring && s'.backend == BackendStep(s.ring.mem, 0, s.backend)
    ensures StopInv(s', f) || (s'.backend.phase.Off? && Finished(s', f))
  {
    FlushedAll(s, f);
  }

  lemma ControlShrinks(s: Sys, s': Sys, f: nat)
    requires StateShape(s.ring) && BackendOk(s.ring.mem, s.backend)
    requires !MovesRing(s.ring.mem, 0, s.backend) && InStop(s.backend) && Left(s, f) >= 0
    requires s.ring.mem.consumer.Ready? ==> (CanPop(s.ring.mem, 0) <==> Left(s, f) > 0)
    requires s'.ring == s.ring && s'.backend == BackendStep(s.ring.mem, 0, s.backend)
    ensures StopSteps(s', f) < StopSteps(s, f)
  {
    ControlMeasure(s.ring, s.backend, Left(s, f));
  }

  lemma ControlNext(s: Sys, s': Sys, f: nat)
    requires StopInv(s, f) && !MovesRing(s.ring.mem, 0, s.backend) && SysInv(s')
    requires s'.ring == s.ring && s'.backend == BackendStep(s.ring.mem, 0, s.backend)
    ensures StopInv(s', f) || (s'.backend.phase.Off? && Finished(s', f))
  {
    if s.backend.phase.Flushing? { FlushNext(s, s', f); } else { LoopNext(s, s', f); }
  }

  lemma ControlProgress(s: Sys, f: nat)
    requires StopInv(s, f) && !MovesRing(s.ring.mem, 0, s.backend)
    ensures var s' := SysStep(s, Consumer);
            StopSteps(s', f) < StopSteps(s, f) && (StopInv(s', f) || (s'.backend.phase.Off? && Finished(s', f)))
  {
    KeepConsumer(s);
    ConsumerIs(s);
    ControlLeft(s, f);
    ControlShrinks(s, SysStep(s, Consumer), f);
    ControlNext(s, SysStep(s, Consumer), f);
  }

  /** Calling Stop while no Stop or Drain call runs starts a Stop, whatever producers do. */
  lemma StopBegins(s: Sys, f: nat)
    requires SysInv(s) && Frontier(s.ring.claims, s.ring.mem.producers, f)
    requires !s.backend.stopping && !StopRuns(s.backend.phase)
    ensures StopInv(SysStep(s, Stop), f) && SysStep(s, Stop).ring == s.ring
  {
    ControlIs(s, Stop);
    SysStepInv(s, Stop);
    StopPhase(s.backend);
  }

  lemma StopPhase(b: Backend)
    requires !b.stopping && !StopRuns(b.phase)
    ensures InStop(Control(b, Stop)) && !Control(b, Stop).phase.Flushing?
  {
  }

  /** While Stop runs: consumer-side steps, and whatever other threads do outside TryPush. */
  predicate Outside(ps: map<Tid, Producer>, e: SysEvent) {
    || e.Consumer? || e.Log? || e.Leave?
    || (e.Push? && (e.t !in ps || ps[e.t].Idle? || ps[e.t].Returned?))
  }

  predicate AllOutside(ps: map<Tid, Producer>, es: seq<SysEvent>) {
    forall i :: 0 <= i < |es| ==> Outside(ps, es[i])
  }

  function Turns(es: seq<SysEvent>): nat {
    if es == [] then 0 else Turns(es[..|es| - 1]) + (if es[|es| - 1].Consumer? then 1 else 0)
  }

  lemma RestingPush(r: State, t: Tid, spurious: bool)
    requires StateShape(r) && t in r.mem.producers && (r.mem.producers[t].Idle? || r.mem.producers[t].Returned?)
    ensures CodeStep(r, Move(t, spurious)) == r
  {
  }

  lemma OutsideStep(s: Sys, e: SysEvent)
    requires SysShape(s) && Outside(s.ring.mem.producers, e) && !e.Consumer?
    ensures SysStep(s, e).ring == s.ring && SysStep(s, e).backend == s.backend
  {
    if e.Push? && e.t in s.callers && s.callers[e.t].In? {
      PushIs(s, e.t, e.spurious);
      RestingPush(s.ring, e.t, e.spurious);
    }
  }

  /** Stop has returned with everything before the frontier delivered, and stays so. */
  ghost predicate Done(s: Sys, f: nat) {
    SysShape(s) && s.backend.phase.Off? && Finished(s, f)
  }

  lemma DoneStays(s: Sys, f: nat, e: SysEvent)
    requires Done(s, f) && Outside(s.ring.mem.producers, e)
    ensures Done(SysStep(s, e), f) && SysStep(s, e).ring == s.ring
  {
    if e.Consumer? { ConsumerIs(s); } else { OutsideStep(s, e); }
  }

  /** Whether Stop runs, and what is left of it, depends on the ring and the backend alone. */
  lemma StopSame(s: Sys, s': Sys, f: nat)
    requires StopInv(s, f) && SysInv(s') && s'.ring == s.ring && s'.backend == s.backend
    ensures StopInv(s', f) && StopSteps(s', f) == StopSteps(s, f)
  {
  }

  lemma OutsideHarmless(s: Sys, e: SysEvent)
    requires SysShape(s) && Outside(s.ring.mem.producers, e)
    ensures !SysHarmful(s, e)
  {
  }

  lemma OutsideKeeps(s: Sys, f: nat, e: SysEvent)
    requires StopInv(s, f) && Outside(s.ring.mem.producers, e) && !e.Consumer?
    ensures StopInv(SysStep(s, e), f) && StopSteps(SysStep(s, e), f) == StopSteps(s, f)
    ensures SysStep(s, e).ring == s.ring
  {
    OutsideStep(s, e);
    OutsideHarmless(s, e);
    SysStepInv(s, e);
    StopSame(s, SysStep(s, e), f);
  }

  lemma ConsumerMoves(s: Sys, f: nat)
    requires StopInv(s, f)
    ensures var s' := SysStep(s, Consumer);
            StopSteps(s', f) < StopSteps(s, f) && (StopInv(s', f) || (s'.backend.phase.Off? && Finished(s', f)))
  {
    if MovesRing(s.ring.mem, 0, s.backend) { PopProgress(s, f); } else { ControlProgress(s, f); }
  }

  /** Claims and producers are as they were. */
  predicate SameClaims(s: Sys, s': Sys) {
    s'.ring.claims == s.ring.claims && s'.ring.mem.producers == s.ring.mem.producers
  }

  lemma StopMoves(s: Sys, f: nat, e: SysEvent)
    requires StopInv(s, f) && Outside(s.ring.mem.producers, e)
    ensures SameClaims(s, SysStep(s, e))
    ensures var s' := SysStep(s, e);
            Done(s', f) || (StopInv(s', f) && StopSteps(s', f) + (if e.Consumer? then 1 else 0) <= StopSteps(s, f))
  {
    if e.Consumer? {
      ConsumerMoves(s, f);
      ConsumerStays(s);
    } else {
      OutsideKeeps(s, f, e);
    }
  }

  lemma {:induction false} StopRun(s: Sys, f: nat, es: seq<SysEvent>)
    requires StopInv(s, f) && AllOutside(s.ring.mem.producers, es)
    ensures SameClaims(s, SysExec(s, es))
    ensures var s' := SysExec(s, es);
            Done(s', f) || (StopInv(s', f) && StopSteps(s', f) + Turns(es) <= StopSteps(s, f))
  {
    if es != [] {
      var front, e := es[..|es| - 1], es[|es| - 1];
      StopRun(s, f, front);
      var mid := SysExec(s, front);
      if Done(mid, f) { DoneStays(mid, f, e); } else { StopMoves(mid, f, e); }
    }
  }

  /** Stop returns: with no producer moving inside TryPush, whatever else is interleaved, the
      worker's and Stop's drain loops end within StopSteps(s, f) consumer-side steps; then every
      sink has every entry before the frontier exactly once, in claim order. */
  lemma StopDelivers(s: Sys, f: nat, es: seq<SysEvent>)
    requires StopInv(s, f) && AllOutside(s.ring.mem.producers, es) && Turns(es) >= StopSteps(s, f)
    ensures var s' := SysExec(s, es); s'.backend.phase.Off? && Finished(s', f) && SameClaims(s, s')
  {
    StopRun(s, f, es);
    if StopInv(SysExec(s, es), f) { ConsumerMoves(SysExec(s, es), f); }
  }

  /** Stop may be called in s. */
  predicate CanStop(s: Sys) {
    !s.backend.stopping && !StopRuns(s.backend.phase)
  }

  /** From every reachable state in which no Stop or Drain call is running, Stop delivers the
      entries before the frontier; and every accepted entry if and only if no producer is between
      its compare-exchange and publishing. */
  lemma StopAfterAnyRun(cap: nat, width: nat, threads: set<Tid>, sinks: nat, es: seq<SysEvent>,
                        f: nat, more: seq<SysEvent>)
    requires CapacityOk(cap) && width >= 1
    ensures cap >= 1
    ensures var s := SysReached(cap, width, threads, sinks, es);
            HarmlessRun(cap, width, threads, sinks, es)
            && CanStop(s) && Frontier(s.ring.claims, s.ring.mem.producers, f)
            && AllOutside(s.ring.mem.producers, more) && Turns(more) >= StopSteps(SysStep(s, Stop), f) ==>
              var s' := SysExec(SysStep(s, Stop), more);
              && s'.backend.phase.Off? && Finished(s', f) && SameClaims(s, s')
              && (f == |s.ring.claims| <==> NoWriters(s.ring.mem.producers))
  {
    SysReachedInv(cap, width, threads, sinks, es);
    var s := SysReached(cap, width, threads, sinks, es);
    if HarmlessRun(cap, width, threads, sinks, es)
       && CanStop(s) && Frontier(s.ring.claims, s.ring.mem.producers, f)
       && AllOutside(s.ring.mem.producers, more) && Turns(more) >= StopSteps(SysStep(s, Stop), f) {
      FrontierAtEnd(s.ring, f);
      StopBegins(s, f);
      StopDelivers(SysStep(s, Stop), f, more);
    }
  }

  /** So if no producer is mid-push when Stop begins, every sink gets every accepted entry. */
  lemma StopDeliversAll(cap: nat, width: nat, threads: set<Tid>, sinks: nat, es: seq<SysEvent>, more: seq<SysEvent>)
    requires CapacityOk(cap) && width >= 1
    ensures cap >= 1
    ensures var s := SysReached(cap, width, threads, sinks, es);
            HarmlessRun(cap, width, threads, sinks, es) && CanStop(s) && NoWriters(s.ring.mem.producers)
            && AllOutside(s.ring.mem.producers, more) && Turns(more) >= StopSteps(SysStep(s, Stop), |s.ring.claims|) ==>
              var s' := SysExec(SysStep(s, Stop), more);
              s'.backend.phase.Off? && Finished(s', |s.ring.claims|) && SameClaims(s, s')
  {
    CapacityBounds(cap);
    var s := SysReached(cap, width, threads, sinks, es);
    if NoWriters(s.ring.mem.producers) {
      assert Frontier(s.ring.claims, s.ring.mem.producers, |s.ring.claims|);
    }
    StopAfterAnyRun(cap, width, threads, sinks, es, |s.ring.claims|, more);
  }

  // ---------------------------------------------------------------- Stop while others keep logging

  /** The first f claimed positions are published. */
  ghost predicate Settled(claims: seq<Claim>, ps: map<Tid, Producer>, f: nat) {
    f <= |claims| && forall p :: 0 <= p < f ==> !Writing(claims[p], ps, p)
  }

  /** Claims are only added, and who writes now was writing there before or took a new position. */
  ghost predicate Grown(claims: seq<Claim>, ps: map<Tid, Producer>, claims': seq<Claim>, ps': map<Tid, Producer>) {
    && claims <= claims'
    && forall t :: t in ps' && ps'[t].Write? ==>
         ps'[t].pos >= |claims| || (t in ps && ps[t].Write? && ps[t].pos == ps'[t].pos)
  }

  lemma SettledGrown(claims: seq<Claim>, ps: map<Tid, Producer>, claims': seq<Claim>, ps': map<Tid, Producer>, f: nat)
    requires Settled(claims, ps, f) && Grown(claims, ps, claims', ps')
    ensures Settled(claims', ps', f)
  {
    forall p | 0 <= p < f ensures !Writing(claims'[p], ps', p) {
      assert claims'[p] == claims[p];
    }
  }

  lemma PhaseWrites(m: Memory, t: Tid, spurious: bool)
    requires Shape(m) && t in m.producers && CodePhase(m, t, spurious).Write?
    ensures var pos := CodePhase(m, t, spurious).pos;
            pos == m.writePos || (m.producers[t].Write? && m.producers[t].pos == pos)
  {
  }

  lemma PushGrows(r: State, t: Tid, spurious: bool)
    requires StateShape(r) && r.mem.writePos == |r.claims| && t in r.mem.producers
    ensures var r' := CodeStep(r, Move(t, spurious)); Grown(r.claims, r.mem.producers, r'.claims, r'.mem.producers)
  {
    CodeMoves(r, t, spurious);
    if CodePhase(r.mem, t, spurious).Write? { PhaseWrites(r.mem, t, spurious); }
  }

  lemma CallGrows(r: State, t: Tid, item: Item)
    requires StateShape(r)
    ensures var r' := CodeStep(r, Call(t, item)); Grown(r.claims, r.mem.producers, r'.claims, r'.mem.producers)
  {
  }

  /** Every event only adds claims. */
  lemma RingGrows(s: Sys, e: SysEvent)
    requires SysInv(s)
    ensures var s' := SysStep(s, e);
            Grown(s.ring.claims, s.ring.mem.producers, s'.ring.claims, s'.ring.mem.producers)
  {
    if Disabled(s, e) {
      DisabledStays(s, e);
    } else {
      match e
      case Log(t, payload) => LogStep(s, t, payload);
      case Enter(t) =>
        EnterIs(s, t);
        CallGrows(s.ring, t, [s.callers[t].id] + s.callers[t].payload);
      case Push(t, spurious) =>
        PushIs(s, t, spurious);
        PushGrows(s.ring, t, spurious);
      case Leave(t) => LeaveIs(s, t);
      case Consumer => ConsumerStays(s);
      case _ => ControlIs(s, e);
    }
  }

  /** TryPop fails only when the settled entries have been popped. */
  lemma SettledPop(r: State, f: nat)
    requires Inv(r) && Settled(r.claims, r.mem.producers, f) && r.mem.consumer.Ready? && !CanPop(r.mem, 0)
    ensures |r.mem.popped| >= f
  {
    CapacityBounds(r.mem.cap);
    assert SlotOk(r, r.released);
    assert r.released < f ==> !Writing(r.claims[r.released], r.mem.producers, r.released);
  }

  /** Stop is under way, and its flush serves the first f entries. */
  ghost predicate Serving(popped: nat, b: Backend, f: nat) {
    && InStop(b)
    && (b.phase.Flushing? ==>
          popped >= f && forall j :: 0 <= j < b.phase.next && j < |b.flushed| ==> b.flushed[j] >= f)
  }

  /** Every sink has, flushed, at least f entries. */
  ghost predicate Served(b: Backend, f: nat) {
    && |b.flushed| == |b.sinks|
    && forall j :: 0 <= j < |b.sinks| ==> |b.sinks[j]| >= f && b.flushed[j] >= f
  }

  lemma ServedStays(m: Memory, b: Backend, f: nat)
    requires Shape(m) && Served(b, f)
    ensures Served(BackendStep(m, 0, b), f)
  {
  }

  lemma ServingPops(m: Memory, b: Backend, f: nat, popped: nat)
    requires Shape(m) && |b.flushed| == |b.sinks| && MovesRing(m, 0, b) && InStop(b)
    ensures Serving(popped, BackendStep(m, 0, b), f)
  {
  }

  lemma ServingGoesOn(m: Memory, b: Backend, f: nat)
    requires Shape(m) && BackendOk(m, b) && !MovesRing(m, 0, b) && Serving(|m.popped|, b, f)
    requires m.consumer.Ready? && !CanPop(m, 0) ==> |m.popped| >= f
    ensures Serving(|m.popped|, BackendStep(m, 0, b), f) || Served(BackendStep(m, 0, b), f)
  {
  }

  /** Start, Stop and Drain do nothing while a Stop is under way. */
  lemma ControlWaits(m: Memory, b: Backend, e: SysEvent)
    requires BackendOk(m, b) && InStop(b)
    ensures Control(b, e) == b
  {
  }

  ghost predicate Stopped(s: Sys, f: nat) {
    && SysInv(s) && Settled(s.ring.claims, s.ring.mem.producers, f)
    && (Serving(|s.ring.mem.popped|, s.backend, f) || Served(s.backend, f))
  }

  /** Events other than the consumer's leave the backend and what was popped alone while Stop runs. */
  lemma OthersWait(s: Sys, e: SysEvent)
    requires SysInv(s) && InStop(s.backend) && !e.Consumer?
    ensures SysStep(s, e).backend == s.backend && SysStep(s, e).ring.mem.popped == s.ring.mem.popped
  {
    if Disabled(s, e) {
      DisabledStays(s, e);
    } else {
      match e
      case Log(t, payload) => LogStep(s, t, payload);
      case Enter(t) =>
        EnterIs(s, t);
        EnterFrame(s.ring, t, [s.callers[t].id] + s.callers[t].payload);
      case Push(t, spurious) =>
        PushIs(s, t, spurious);
        CodeMoves(s.ring, t, spurious);
      case Leave(t) => LeaveIs(s, t);
      case _ =>
        ControlIs(s, e);
        ControlWaits(s.ring.mem, s.backend, e);
    }
  }

  lemma ServedKept(s: Sys, f: nat, e: SysEvent)
    requires SysShape(s) && Served(s.backend, f)
    ensures Served(SysStep(s, e).backend, f)
  {
    if e.Consumer? { ConsumerIs(s); ServedStays(s.ring.mem, s.backend, f); }
  }

  lemma ServingConsumes(s: Sys, f: nat)
    requires SysInv(s) && Settled(s.ring.claims, s.ring.mem.producers, f)
    requires Serving(|s.ring.mem.popped|, s.backend, f)
    ensures var s' := SysStep(s, Consumer);
            Serving(|s'.ring.mem.popped|, s'.backend, f) || Served(s'.backend, f)
  {
    ConsumerIs(s);
    ConsumerFrame(s.ring, s.backend);
    if MovesRing(s.ring.mem, 0, s.backend) {
      ServingPops(s.ring.mem, s.backend, f, |SysStep(s, Consumer).ring.mem.popped|);
    } else {
      if s.ring.mem.consumer.Ready? && !CanPop(s.ring.mem, 0) { SettledPop(s.ring, f); }
      ServingGoesOn(s.ring.mem, s.backend, f);
    }
  }

  lemma StoppedStep(s: Sys, f: nat, e: SysEvent)
    requires Stopped(s, f) && !SysHarmful(s, e)
    ensures Stopped(SysStep(s, e), f) && s.ring.claims <= SysStep(s, e).ring.claims
  {
    SysStepInv(s, e);
    RingGrows(s, e);
    var s' := SysStep(s, e);
    SettledGrown(s.ring.claims, s.ring.mem.producers, s'.ring.claims, s'.ring.mem.producers, f);
    if Served(s.backend, f) {
      ServedKept(s, f, e);
    } else if e.Consumer? {
      ServingConsumes(s, f);
    } else {
      OthersWait(s, e);
    }
  }

  lemma {:induction false} StoppedRun(s: Sys, f: nat, es: seq<SysEvent>)
    requires Stopped(s, f) && SysHarmless(s, es)
    ensures Stopped(SysExec(s, es), f) && s.ring.claims <= SysExec(s, es).ring.claims
  {
    if es != [] {
      StoppedRun(s, f, es[..|es| - 1]);
      StoppedStep(SysExec(s, es[..|es| - 1]), f, es[|es| - 1]);
    }
  }

  /** Stop is still under way, or it has returned and every sink has, flushed, the first f claimed
      entries in claim order. */
  ghost predicate StopSafe(b: Backend, claims: seq<Claim>, f: nat) {
    || InStop(b)
    || (|b.flushed| == |b.sinks| && f <= |claims| && forall j :: 0 <= j < |b.sinks| ==>
          && b.flushed[j] >= f && |b.sinks[j]| >= f && b.sinks[j][..f] == Items(claims[..f]))
  }

  lemma ServedFirst(s: Sys, claims: seq<Claim>, f: nat, j: nat)
    requires SysInv(s) && Served(s.backend, f) && j < |s.backend.sinks| && f <= |claims| && claims <= s.ring.claims
    ensures s.backend.sinks[j][..f] == Items(claims[..f])
  {
    SinkHolds(s, j);
  }

  /** Whatever producers and owner do while Stop runs: when it returns, every sink has at least the
      entries whose producers had published before it began. */
  lemma StopServes(s: Sys, f: nat, more: seq<SysEvent>)
    requires SysInv(s) && CanStop(s) && Settled(s.ring.claims, s.ring.mem.producers, f)
    requires SysHarmless(SysStep(s, Stop), more)
    ensures StopSafe(SysExec(SysStep(s, Stop), more).backend, s.ring.claims, f)
  {
    StoppedStart(s, f);
    StoppedRun(SysStep(s, Stop), f, more);
    StoppedSafe(SysExec(SysStep(s, Stop), more), s.ring.claims, f);
  }

  lemma StoppedStart(s: Sys, f: nat)
    requires SysInv(s) && CanStop(s) && Settled(s.ring.claims, s.ring.mem.producers, f)
    ensures Stopped(SysStep(s, Stop), f) && SysStep(s, Stop).ring == s.ring
  {
    ControlIs(s, Stop);
    SysStepInv(s, Stop);
    StopPhase(s.backend);
  }

  lemma StoppedSafe(s: Sys, claims: seq<Claim>, f: nat)
    requires Stopped(s, f) && f <= |claims| && claims <= s.ring.claims
    ensures StopSafe(s.backend, claims, f)
  {
    if Served(s.backend, f) {
      forall j | 0 <= j < |s.backend.sinks| ensures s.backend.sinks[j][..f] == Items(claims[..f]) {
        ServedFirst(s, claims, f, j);
      }
    }
  }

  /** The same from every reachable state. */
  lemma StopServesAfterAnyRun(cap: nat, width: nat, threads: set<Tid>, sinks: nat, es: seq<SysEvent>,
                              f: nat, more: seq<SysEvent>)
    requires CapacityOk(cap) && width >= 1
    ensures cap >= 1
    ensures var s := SysReached(cap, width, threads, sinks, es);
            HarmlessRun(cap, width, threads, sinks, es) && SysHarmless(SysStep(s, Stop), more)
            && CanStop(s) && Settled(s.ring.claims, s.ring.mem.producers, f) ==>
              StopSafe(SysExec(SysStep(s, Stop), more).backend, s.ring.claims, f)
  {
    SysReachedInv(cap, width, threads, sinks, es);
    var s := SysReached(cap, width, threads, sinks, es);
    if HarmlessRun(cap, width, threads, sinks, es) && SysHarmless(SysStep(s, Stop), more)
       && CanStop(s) && Settled(s.ring.claims, s.ring.mem.producers, f) {
      StopServes(s, f, more);
    }
  }
}
