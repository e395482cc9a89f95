/** What the running worker and a manual Drain deliver, while no producer moves inside TryPush. */
module LogWorker {
  import opened MpscRing
  import opened MpscSafety
  import opened MpscCode
  import opened LogSystem
  import opened LogDelivery

  // ---------------------------------------------------------------- steps left

  /** Consumer-side steps from a phase until the next entry has reached all sinks or TryPop fails;
      a batch at its limit takes two more to start the next one. */
  function PhaseWork(p: Phase, m: Memory, sinks: nat): nat {
    match p
    case Draining(_, count, limit) => PopSteps(m) + (if count < limit then 0 else 2)
    case Dispatching(_, _, _, _, next) => m.width + 6 + (if next <= sinks then sinks - next else 0)
    case Top => m.width + 4
    case _ => 0
  }

  function Work(left: nat, p: Phase, m: Memory, sinks: nat): nat {
    left * (sinks + m.width + 8) + PhaseWork(p, m, sinks)
  }

  /** An upper bound on the steps until the worker has caught up with the frontier. */
  function WorkSteps(s: Sys, f: nat): nat {
    Work(if Left(s, f) > 0 then Left(s, f) else 0, s.backend.phase, s.ring.mem, |s.backend.sinks|)
  }

  // ---------------------------------------------------------------- the running worker

  ghost predicate Working(s: Sys, f: nat) {
    SysInv(s) && Frontier(s.ring.claims, s.ring.mem.producers, f) && s.backend.running
  }

  /** Everything before the frontier has been popped and dispatched. */
  predicate Caught(s: Sys, f: nat) {
    |s.ring.mem.popped| == f && !s.backend.phase.Dispatching?
  }

  lemma PopWorks(ring: State, b: Backend, left: nat)
    requires StateShape(ring) && BackendOk(ring.mem, b) && MovesRing(ring.mem, 0, b) && left > 0
    ensures var m', b' := ConsumerStep(ring.mem, 0), BackendStep(ring.mem, 0, b);
            && b'.running == b.running && |b'.sinks| == |b.sinks|
            && |m'.popped| == |ring.mem.popped| + (if ring.mem.consumer.Bump? then 1 else 0)
            && Work(if ring.mem.consumer.Bump? then left - 1 else left, b'.phase, m', |b'.sinks|)
               < Work(left, b.phase, ring.mem, |b.sinks|)
  {
    OneLess(left, |b.sinks| + ring.mem.width + 8);
  }

  /** The loop's other steps: next batch, next entry, next sink. */
  lemma LoopWorks(ring: State, b: Backend, left: nat)
    requires StateShape(ring) && BackendOk(ring.mem, b) && !MovesRing(ring.mem, 0, b) && b.running
    requires ring.mem.consumer.Ready? ==> (CanPop(ring.mem, 0) <==> left > 0)
    requires left > 0 || b.phase.Dispatching?
    ensures var b' := BackendStep(ring.mem, 0, b);
            && b'.running && |b'.sinks| == |b.sinks|
            && PhaseWork(b'.phase, ring.mem, |b'.sinks|) < PhaseWork(b.phase, ring.mem, |b.sinks|)
  {
  }

  lemma FrontierLeft(s: Sys, f: nat)
    requires SysInv(s) && Frontier(s.ring.claims, s.ring.mem.producers, f)
    ensures Left(s, f) >= 0
    ensures s.ring.mem.consumer.Ready? ==> (CanPop(s.ring.mem, 0) <==> Left(s, f) > 0)
  {
    FrontierBound(s.ring, f);
    if s.ring.mem.consumer.Ready? { FrontierPop(s, f); }
  }

  lemma WorkPop(s: Sys, f: nat)
    requires SysShape(s) && BackendOk(s.ring.mem, s.backend) && s.backend.running
    requires MovesRing(s.ring.mem, 0, s.backend) && Left(s, f) > 0
    ensures WorkSteps(SysStep(s, Consumer), f) < WorkSteps(s, f) && SysStep(s, Consumer).backend.running
  {
    ConsumerIs(s);
    ConsumerFrame(s.ring, s.backend);
    PopWorks(s.ring, s.backend, Left(s, f));
  }

  lemma WorkLoop(s: Sys, f: nat)
    requires SysShape(s) && BackendOk(s.ring.mem, s.backend) && s.backend.running
    requires !MovesRing(s.ring.mem, 0, s.backend) && Left(s, f) >= 0
    requires s.ring.mem.consumer.Ready? ==> (CanPop(s.ring.mem, 0) <==> Left(s, f) > 0)
    requires Left(s, f) > 0 || s.backend.phase.Dispatching?
    ensures WorkSteps(SysStep(s, Consumer), f) < WorkSteps(s, f) && SysStep(s, Consumer).backend.running
  {
    ConsumerIs(s);
    LoopWorks(s.ring, s.backend, Left(s, f));
  }

  lemma WorkShrinks(s: Sys, f: nat)
    requires Working(s, f) && !Caught(s, f)
    ensures WorkSteps(SysStep(s, Consumer), f) < WorkSteps(s, f) && SysStep(s, Consumer).backend.running
  {
    FrontierLeft(s, f);
    if MovesRing(s.ring.mem, 0, s.backend) {
      LeftWhilePopping(s, f);
      WorkPop(s, f);
    } else {
      WorkLoop(s, f);
    }
  }

  lemma WorkingStays(s: Sys, f: nat)
    requires Working(s, f) && SysStep(s, Consumer).backend.running
    ensures Working(SysStep(s, Consumer), f)
  {
    KeepConsumer(s);
    ConsumerStays(s);
  }

  /** Once caught up the worker goes round without finding anything. */
  lemma CaughtStays(s: Sys, f: nat)
    requires Working(s, f) && Caught(s, f)
    ensures Caught(SysStep(s, Consumer), f) && SysStep(s, Consumer).backend.running
  {
    FrontierLeft(s, f);
    ConsumerIs(s);
    if MovesRing(s.ring.mem, 0, s.backend) { LeftWhilePopping(s, f); }
  }

  /** What other threads do outside TryPush keeps the invariant, the ring and the backend. */
  lemma OutsideInv(s: Sys, e: SysEvent)
    requires SysInv(s) && Outside(s.ring.mem.producers, e) && !e.Consumer?
    ensures SysInv(SysStep(s, e)) && SysStep(s, e).ring == s.ring && SysStep(s, e).backend == s.backend
  {
    OutsideStep(s, e);
    OutsideHarmless(s, e);
    SysStepInv(s, e);
  }

  lemma WorkConsumes(s: Sys, f: nat)
    requires Working(s, f)
    ensures SameClaims(s, SysStep(s, Consumer)) && Working(SysStep(s, Consumer), f)
    ensures Caught(SysStep(s, Consumer), f) || WorkSteps(SysStep(s, Consumer), f) < WorkSteps(s, f)
    ensures Caught(s, f) ==> Caught(SysStep(s, Consumer), f)
  {
    if Caught(s, f) { CaughtStays(s, f); } else { WorkShrinks(s, f); }
    WorkingStays(s, f);
    ConsumerStays(s);
  }

  /** Working, and what is left, depend on the ring and the backend alone. */
  lemma WorkSame(s: Sys, s': Sys, f: nat)
    requires Working(s, f) && SysInv(s') && s'.ring == s.ring && s'.backend == s.backend
    ensures Working(s', f) && WorkSteps(s', f) == WorkSteps(s, f) && (Caught(s', f) <==> Caught(s, f))
  {
  }

  lemma WorkMoves(s: Sys, f: nat, e: SysEvent)
    requires Working(s, f) && Outside(s.ring.mem.producers, e)
    ensures SameClaims(s, SysStep(s, e)) && Working(SysStep(s, e), f)
    ensures var s' := SysStep(s, e);
            Caught(s', f) || WorkSteps(s', f) + (if e.Consumer? then 1 else 0) <= WorkSteps(s, f)
    ensures Caught(s, f) ==> Caught(SysStep(s, e), f)
  {
    if e.Consumer? {
      WorkConsumes(s, f);
    } else {
      OutsideInv(s, e);
      WorkSame(s, SysStep(s, e), f);
    }
  }

  lemma {:induction false} WorkRun(s: Sys, f: nat, es: seq<SysEvent>)
    requires Working(s, f) && AllOutside(s.ring.mem.producers, es)
    ensures SameClaims(s, SysExec(s, es)) && Working(SysExec(s, es), f)
    ensures Caught(SysExec(s, es), f) || WorkSteps(SysExec(s, es), f) + Turns(es) <= WorkSteps(s, f)
  {
    if es != [] {
      var front := es[..|es| - 1];
      WorkRun(s, f, front);
      WorkMoves(SysExec(s, front), f, es[|es| - 1]);
    }
  }

  /** Every sink has exactly the first n claimed entries. */
  ghost predicate SinksHave(b: Backend, claims: seq<Claim>, n: nat) {
    n <= |claims| && forall j :: 0 <= j < |b.sinks| ==> b.sinks[j] == Items(claims[..n])
  }

  lemma CaughtHave(s: Sys, f: nat)
    requires SysInv(s) && f <= |s.ring.claims| && Caught(s, f)
    ensures SinksHave(s.backend, s.ring.claims, f)
  {
    assert s.ring.mem.popped == Items(s.ring.claims[..f]);
  }

  /** A running worker hands every entry before the frontier to every sink, exactly once and in claim
      order, within WorkSteps(s, f) consumer-side steps, and keeps it so. */
  lemma WorkerDelivers(s: Sys, f: nat, es: seq<SysEvent>)
    requires Working(s, f) && AllOutside(s.ring.mem.producers, es) && Turns(es) >= WorkSteps(s, f)
    ensures SameClaims(s, SysExec(s, es)) && SinksHave(SysExec(s, es).backend, s.ring.claims, f)
    ensures SysExec(s, es).backend.running
  {
    WorkRun(s, f, es);
    if !Caught(SysExec(s, es), f) { WorkShrinks(SysExec(s, es), f); }
    CaughtHave(SysExec(s, es), f);
  }

  /** Start on an idle backend sets the worker running. */
  lemma StartWorks(s: Sys, f: nat)
    requires SysInv(s) && s.backend.phase.Off? && Frontier(s.ring.claims, s.ring.mem.producers, f)
    ensures Working(SysStep(s, Start), f) && SysStep(s, Start).ring == s.ring
  {
    ControlIs(s, Start);
    SysStepInv(s, Start);
  }

  /** The same from every state reached without a harmful step, for a worker that is running. */
  lemma WorkerAfterAnyRun(cap: nat, width: nat, threads: set<Tid>, sinks: nat, es: seq<SysEvent>,
                          f: nat, more: seq<SysEvent>)
    requires CapacityOk(cap) && width >= 1
    ensures cap >= 1
    ensures var s := SysReached(cap, width, threads, sinks, es);
            HarmlessRun(cap, width, threads, sinks, es) && s.backend.running
            && Frontier(s.ring.claims, s.ring.mem.producers, f)
            && AllOutside(s.ring.mem.producers, more) && Turns(more) >= WorkSteps(s, f) ==>
              SinksHave(SysExec(s, more).backend, s.ring.claims, f)
  {
    SysReachedInv(cap, width, threads, sinks, es);
    var s := SysReached(cap, width, threads, sinks, es);
    if HarmlessRun(cap, width, threads, sinks, es) && s.backend.running
       && Frontier(s.ring.claims, s.ring.mem.producers, f)
       && AllOutside(s.ring.mem.producers, more) && Turns(more) >= WorkSteps(s, f) {
      WorkerDelivers(s, f, more);
    }
  }

  /** And for one that Start sets running. */
  lemma StartAfterAnyRun(cap: nat, width: nat, threads: set<Tid>, sinks: nat, es: seq<SysEvent>,
                         f: nat, more: seq<SysEvent>)
    requires CapacityOk(cap) && width >= 1
    ensures cap >= 1
    ensures var s := SysReached(cap, width, threads, sinks, es);
            HarmlessRun(cap, width, threads, sinks, es) && s.backend.phase.Off?
            && Frontier(s.ring.claims, s.ring.mem.producers, f)
            && AllOutside(s.ring.mem.producers, more) && Turns(more) >= WorkSteps(SysStep(s, Start), f) ==>
              SinksHave(SysExec(SysStep(s, Start), more).backend, s.ring.claims, f)
  {
    SysReachedInv(cap, width, threads, sinks, es);
    var s := SysReached(cap, width, threads, sinks, es);
    if HarmlessRun(cap, width, threads, sinks, es) && s.backend.phase.Off?
       && Frontier(s.ring.claims, s.ring.mem.producers, f)
       && AllOutside(s.ring.mem.producers, more) && Turns(more) >= WorkSteps(SysStep(s, Start), f) {
      StartWorks(s, f);
      WorkerDelivers(SysStep(s, Start), f, more);
    }
  }

  lemma ExitFinds(m: Memory, b: Backend)
    requires Shape(m) && BackendOk(m, b) && !b.phase.Exited? && BackendStep(m, 0, b).phase.Exited?
    ensures m.consumer.Ready? && !CanPop(m, 0) && BackendStep(m, 0, b).sinks == b.sinks && !b.phase.Dispatching?
  {
  }

  /** The worker returns only after a TryPop has failed: every sink then has all entries that are
      published. */
  lemma WorkerExitsDrained(s: Sys, f: nat)
    requires SysInv(s) && Settled(s.ring.claims, s.ring.mem.producers, f)
    requires !s.backend.phase.Exited? && SysStep(s, Consumer).backend.phase.Exited?
    ensures var b := SysStep(s, Consumer).backend;
            forall j :: 0 <= j < |b.sinks| ==> |b.sinks[j]| >= f && b.sinks[j][..f] == Items(s.ring.claims[..f])
  {
    ConsumerIs(s);
    ExitFinds(s.ring.mem, s.backend);
    SettledPop(s.ring, f);
    forall j | 0 <= j < |s.backend.sinks|
      ensures |s.backend.sinks[j]| >= f && s.backend.sinks[j][..f] == Items(s.ring.claims[..f])
    {
      SinkHolds(s, j);
    }
  }

  /** The worker and Stop drain in batches of at most 64. */
  lemma BatchesOf64(cap: nat, width: nat, threads: set<Tid>, sinks: nat, es: seq<SysEvent>)
    requires CapacityOk(cap) && width >= 1
    ensures cap >= 1
    ensures var p := SysReached(cap, width, threads, sinks, es).backend.phase;
            (HarmlessRun(cap, width, threads, sinks, es) && (p.Draining? || p.Dispatching?) && !p.mode.Manual?)
            ==> p.limit == 64
  {
    SysReachedInv(cap, width, threads, sinks, es);
  }

  // ---------------------------------------------------------------- a manual Drain

  /** How many entries are still to be popped by a Drain that has handed over `count`. */
  function ToPop(left: int, count: nat, limit: nat): int {
    if limit - count <= left then limit - count else left
  }

  /** A Drain call is under way, after which `target` entries will have been popped in all. */
  ghost predicate DrainGoes(popped: nat, consumer: Consumer, p: Phase, f: nat, target: nat) {
    match p
    case Draining(mode, count, limit) =>
      && mode.Manual? && count <= limit && (!consumer.Ready? ==> count < limit)
      && popped + ToPop(f - popped, count, limit) == target
    case Dispatching(mode, count, limit, _, _) =>
      mode.Manual? && count < limit && popped + ToPop(f - popped, count + 1, limit) == target
    case _ => false
  }

  ghost predicate DrainInv(s: Sys, f: nat, target: nat) {
    && SysInv(s) && Frontier(s.ring.claims, s.ring.mem.producers, f)
    && DrainGoes(|s.ring.mem.popped|, s.ring.mem.consumer, s.backend.phase, f, target)
  }

  /** The Drain call has returned. */
  ghost predicate Drained(s: Sys, f: nat, target: nat) {
    && SysInv(s) && Frontier(s.ring.claims, s.ring.mem.producers, f)
    && s.backend.phase.Off? && |s.ring.mem.popped| == target
  }

  function DrainSteps(s: Sys, target: nat): nat {
    var left := target - |s.ring.mem.popped|;
    Work(if left > 0 then left else 0, s.backend.phase, s.ring.mem, |s.backend.sinks|) + 1
  }

  lemma DrainPops(ring: State, b: Backend, f: nat, target: nat)
    requires StateShape(ring) && BackendOk(ring.mem, b) && MovesRing(ring.mem, 0, b)
    requires DrainGoes(|ring.mem.popped|, ring.mem.consumer, b.phase, f, target) && |ring.mem.popped| < f
    ensures var m', b' := ConsumerStep(ring.mem, 0), BackendStep(ring.mem, 0, b);
            DrainGoes(|m'.popped|, m'.consumer, b'.phase, f, target) && |ring.mem.popped| < target
  {
  }

  lemma DrainLoops(ring: State, b: Backend, f: nat, target: nat)
    requires StateShape(ring) && BackendOk(ring.mem, b) && !MovesRing(ring.mem, 0, b) && |ring.mem.popped| <= f
    requires DrainGoes(|ring.mem.popped|, ring.mem.consumer, b.phase, f, target)
    requires ring.mem.consumer.Ready? ==> (CanPop(ring.mem, 0) <==> |ring.mem.popped| < f)
    ensures var b' := BackendStep(ring.mem, 0, b);
            && |b'.sinks| == |b.sinks|
            && (DrainGoes(|ring.mem.popped|, ring.mem.consumer, b'.phase, f, target)
                || (b'.phase.Off? && |ring.mem.popped| == target))
            && PhaseWork(b'.phase, ring.mem, |b'.sinks|) < PhaseWork(b.phase, ring.mem, |b.sinks|)
  {
  }

  lemma DrainPop(s: Sys, f: nat, target: nat)
    requires SysShape(s) && BackendOk(s.ring.mem, s.backend) && MovesRing(s.ring.mem, 0, s.backend)
    requires DrainGoes(|s.ring.mem.popped|, s.ring.mem.consumer, s.backend.phase, f, target) && Left(s, f) > 0
    ensures var s' := SysStep(s, Consumer);
            DrainGoes(|s'.ring.mem.popped|, s'.ring.mem.consumer, s'.backend.phase, f, target)
            && DrainSteps(s', target) < DrainSteps(s, target)
  {
    ConsumerIs(s);
    ConsumerFrame(s.ring, s.backend);
    DrainPops(s.ring, s.backend, f, target);
    PopWorks(s.ring, s.backend, target - |s.ring.mem.popped|);
  }

  lemma DrainLoop(s: Sys, f: nat, target: nat)
    requires SysShape(s) && BackendOk(s.ring.mem, s.backend) && !MovesRing(s.ring.mem, 0, s.backend)
    requires DrainGoes(|s.ring.mem.popped|, s.ring.mem.consumer, s.backend.phase, f, target) && Left(s, f) >= 0
    requires s.ring.mem.consumer.Ready? ==> (CanPop(s.ring.mem, 0) <==> Left(s, f) > 0)
    ensures var s' := SysStep(s, Consumer);
            && s'.ring == s.ring && DrainSteps(s', target) < DrainSteps(s, target)
            && (DrainGoes(|s.ring.mem.popped|, s.ring.mem.consumer, s'.backend.phase, f, target)
                || (s'.backend.phase.Off? && |s.ring.mem.popped| == target))
  {
    ConsumerIs(s);
    DrainLoops(s.ring, s.backend, f, target);
  }

  lemma DrainShrinks(s: Sys, f: nat, target: nat)
    requires DrainInv(s, f, target)
    ensures DrainSteps(SysStep(s, Consumer), target) < DrainSteps(s, target)
    ensures DrainInv(SysStep(s, Consumer), f, target) || Drained(SysStep(s, Consumer), f, target)
  {
    KeepConsumer(s);
    ConsumerStays(s);
    FrontierLeft(s, f);
    if MovesRing(s.ring.mem, 0, s.backend) {
      LeftWhilePopping(s, f);
      DrainPop(s, f, target);
    } else {
      DrainLoop(s, f, target);
    }
  }

  lemma DrainMoves(s: Sys, f: nat, target: nat, e: SysEvent)
    requires DrainInv(s, f, target) && Outside(s.ring.mem.producers, e)
    ensures SameClaims(s, SysStep(s, e))
    ensures var s' := SysStep(s, e);
            Drained(s', f, target)
            || (DrainInv(s', f, target)
                && DrainSteps(s', target) + (if e.Consumer? then 1 else 0) <= DrainSteps(s, target))
  {
    if e.Consumer? {
      DrainShrinks(s, f, target);
      ConsumerStays(s);
    } else {
      OutsideInv(s, e);
    }
  }

  lemma DrainedStays(s: Sys, f: nat, target: nat, e: SysEvent)
    requires Drained(s, f, target) && Outside(s.ring.mem.producers, e)
    ensures Drained(SysStep(s, e), f, target) && SameClaims(s, SysStep(s, e))
  {
    if e.Consumer? {
      KeepConsumer(s);
      ConsumerIs(s);
    } else {
      OutsideInv(s, e);
    }
  }

  lemma {:induction false} DrainRun(s: Sys, f: nat, target: nat, es: seq<SysEvent>)
    requires DrainInv(s, f, target) && AllOutside(s.ring.mem.producers, es)
    ensures SameClaims(s, SysExec(s, es))
    ensures var s' := SysExec(s, es);
            Drained(s', f, target)
            || (DrainInv(s', f, target) && DrainSteps(s', target) + Turns(es) <= DrainSteps(s, target))
  {
    if es != [] {
      var front, e := es[..|es| - 1], es[|es| - 1];
      DrainRun(s, f, target, front);
      var mid := SysExec(s, front);
      if Drained(mid, f, target) { DrainedStays(mid, f, target, e); } else { DrainMoves(mid, f, target, e); }
    }
  }

  /** The entries popped once a Drain(max) has returned: max more, or all before the frontier. */
  function DrainTarget(popped: nat, f: nat, max: nat): nat {
    if popped + max <= f then popped + max else if popped <= f then f else popped
  }

  lemma DrainStarts(s: Sys, f: nat, max: nat)
    requires SysInv(s) && s.backend.phase.Off? && Frontier(s.ring.claims, s.ring.mem.producers, f)
    ensures DrainInv(SysStep(s, Drain(max)), f, DrainTarget(|s.ring.mem.popped|, f, max))
    ensures SysStep(s, Drain(max)).ring == s.ring
  {
    ControlIs(s, Drain(max));
    SysStepInv(s, Drain(max));
    FrontierBound(s.ring, f);
  }

  /** Drain(max) on an idle backend returns within the computed steps, having handed the next
      min(max, entries before the frontier) entries to every sink, in claim order, and no other. */
  lemma DrainDelivers(s: Sys, f: nat, max: nat, es: seq<SysEvent>)
    requires SysInv(s) && s.backend.phase.Off? && Frontier(s.ring.claims, s.ring.mem.producers, f)
    requires AllOutside(s.ring.mem.producers, es)
    requires Turns(es) >= DrainSteps(SysStep(s, Drain(max)), DrainTarget(|s.ring.mem.popped|, f, max))
    ensures SinksHave(s.backend, s.ring.claims, |s.ring.mem.popped|)
    ensures var s' := SysExec(SysStep(s, Drain(max)), es);
            && s'.backend.phase.Off? && SameClaims(s, s')
            && SinksHave(s'.backend, s.ring.claims, DrainTarget(|s.ring.mem.popped|, f, max))
  {
    var target := DrainTarget(|s.ring.mem.popped|, f, max);
    CaughtHave(s, |s.ring.mem.popped|);
    DrainStarts(s, f, max);
    DrainRun(SysStep(s, Drain(max)), f, target, es);
    var s' := SysExec(SysStep(s, Drain(max)), es);
    if !Drained(s', f, target) { DrainShrinks(s', f, target); }
    CaughtHave(s', target);
  }

  /** The same from every state reached without a harmful step. */
  lemma DrainAfterAnyRun(cap: nat, width: nat, threads: set<Tid>, sinks: nat, es: seq<SysEvent>,
                         f: nat, max: nat, more: seq<SysEvent>)
    requires CapacityOk(cap) && width >= 1
    ensures cap >= 1
    ensures var s := SysReached(cap, width, threads, sinks, es);
            var target := DrainTarget(|s.ring.mem.popped|, f, max);
            HarmlessRun(cap, width, threads, sinks, es) && s.backend.phase.Off?
            && Frontier(s.ring.claims, s.ring.mem.producers, f)
            && AllOutside(s.ring.mem.producers, more) && Turns(more) >= DrainSteps(SysStep(s, Drain(max)), target) ==>
              var s' := SysExec(SysStep(s, Drain(max)), more);
              && s'.backend.phase.Off? && SinksHave(s.backend, s.ring.claims, |s.ring.mem.popped|)
              && SinksHave(s'.backend, s.ring.claims, target)
  {
    SysReachedInv(cap, width, threads, sinks, es);
    var s := SysReached(cap, width, threads, sinks, es);
    var target := DrainTarget(|s.ring.mem.popped|, f, max);
    if HarmlessRun(cap, width, threads, sinks, es) && s.backend.phase.Off?
       && Frontier(s.ring.claims, s.ring.mem.producers, f)
       && AllOutside(s.ring.mem.producers, more) && Turns(more) >= DrainSteps(SysStep(s, Drain(max)), target) {
      DrainDelivers(s, f, max, more);
    }
  }
}
