/** The logger on the 32-bit ring: its run is the run of the system that is followed, with the ring's
    counters truncated, so what holds there holds of the code. */
module LogCode {
  import opened MpscRing
  import opened MpscSafety
  import opened MpscWrap
  import opened MpscCode
  import opened LogSystem
  import opened LogDelivery
  import opened LogWorker

  // ---------------------------------------------------------------- the code's system

  ghost predicate CodeShape(c: CodeSys) {
    Shape(c.ring) && RestShape(c.ring, RestOf(c))
  }

  function CodeRing(c: CodeSys, e: SysEvent): (r: Memory)
    requires Shape(c.ring)
    ensures Shape(r) && r.width == c.ring.width && r.producers.Keys == c.ring.producers.Keys
  {
    var x := RingEventOf(c.ring, TWO32, c.callers, c.backend, e);
    if x == [] then c.ring else MemStep(c.ring, x[0], TWO32)
  }

  function CodeSysStep(c: CodeSys, e: SysEvent): (r: CodeSys)
    requires CodeShape(c)
    ensures CodeShape(r)
  {
    RestKeeps(c.ring, TWO32, RestOf(c), e);
    WithRest(CodeRing(c, e), RestStep(c.ring, TWO32, RestOf(c), e))
  }

  function CodeSysExec(c: CodeSys, es: seq<SysEvent>): (r: CodeSys)
    requires CodeShape(c)
    ensures CodeShape(r)
  {
    if es == [] then c else CodeSysStep(CodeSysExec(c, es[..|es| - 1]), es[|es| - 1])
  }

  function TruncateSys(s: Sys): CodeSys {
    WithRest(Truncate(s.ring.mem), RestOf(s))
  }

  // ---------------------------------------------------------------- one step

  lemma MovesAgree(s: Sys)
    requires SysInv(s) && Shape(Truncate(s.ring.mem))
    ensures MovesRing(Truncate(s.ring.mem), TWO32, s.backend) <==> MovesRing(s.ring.mem, 0, s.backend)
  {
    ConsumerAgrees(s.ring);
  }

  lemma ReturnedAgree(callers: map<Tid, Caller>, m: Memory, t: Tid)
    ensures HasReturned(callers, Truncate(m).producers, t) <==> HasReturned(callers, m.producers, t)
    ensures HasReturned(callers, m.producers, t) ==> Truncate(m).producers[t] == m.producers[t]
  {
  }

  lemma RestAgrees(s: Sys, e: SysEvent)
    requires SysInv(s) && Shape(Truncate(s.ring.mem))
    ensures RestStep(Truncate(s.ring.mem), TWO32, RestOf(s), e) == RestStep(s.ring.mem, 0, RestOf(s), e)
    ensures RingEventOf(Truncate(s.ring.mem), TWO32, s.callers, s.backend, e) == RingEvent(s, e)
  {
    MovesAgree(s);
    if e.Leave? { ReturnedAgree(s.callers, s.ring.mem, e.t); }
  }

  lemma RingAgrees(s: Sys, e: SysEvent)
    requires SysInv(s) && !SysHarmful(s, e)
    ensures Shape(Truncate(s.ring.mem))
    ensures Truncate(RingStep(s, e).mem) ==
              if RingEvent(s, e) == [] then Truncate(s.ring.mem)
              else MemStep(Truncate(s.ring.mem), RingEvent(s, e)[0], TWO32)
  {
    TruncateShape(s.ring.mem);
    if RingEvent(s, e) != [] { CodeStepRefines(s.ring, RingEvent(s, e)[0]); }
  }

  lemma TruncatedShape(s: Sys)
    requires SysShape(s)
    ensures CodeShape(TruncateSys(s))
  {
    TruncateShape(s.ring.mem);
  }

  /** One event of the code's system is one event of the system that follows it, truncated. */
  lemma CodeSysStepRefines(s: Sys, e: SysEvent)
    requires SysInv(s) && !SysHarmful(s, e)
    ensures CodeShape(TruncateSys(s)) && CodeSysStep(TruncateSys(s), e) == TruncateSys(SysStep(s, e))
  {
    TruncatedShape(s);
    RestAgrees(s, e);
    RingAgrees(s, e);
  }

  lemma {:induction false} CodeSysRuns(s: Sys, es: seq<SysEvent>)
    requires SysInv(s) && SysHarmless(s, es)
    ensures CodeShape(TruncateSys(s)) && CodeSysExec(TruncateSys(s), es) == TruncateSys(SysExec(s, es))
  {
    if es == [] {
      TruncatedShape(s);
    } else {
      var front := es[..|es| - 1];
      CodeSysRuns(s, front);
      SysExecInv(s, front);
      CodeSysStepRefines(SysExec(s, front), es[|es| - 1]);
    }
  }

  // ---------------------------------------------------------------- what the code promises

  /** A new logger of the code. */
  function CodeInit(cap: nat, width: nat, threads: set<Tid>, sinks: nat): (c: CodeSys)
    requires cap >= 1 && width >= 1
    ensures CodeShape(c)
  {
    WithRest(InitMemory(cap, width, threads), RestOf(SysInit(cap, width, threads, sinks)))
  }

  function CodeSysReached(cap: nat, width: nat, threads: set<Tid>, sinks: nat, es: seq<SysEvent>): CodeSys
    requires cap >= 1 && width >= 1
  {
    CodeSysExec(CodeInit(cap, width, threads, sinks), es)
  }

  lemma CodeSysFollows(cap: nat, width: nat, threads: set<Tid>, sinks: nat, es: seq<SysEvent>)
    requires CapacityOk(cap) && width >= 1
    ensures cap >= 1
    ensures HarmlessRun(cap, width, threads, sinks, es) ==>
              && SysInv(SysReached(cap, width, threads, sinks, es))
              && CodeSysReached(cap, width, threads, sinks, es)
                 == TruncateSys(SysReached(cap, width, threads, sinks, es))
  {
    InitSys(cap, width, threads, sinks);
    TruncateInit(cap, width, threads);
    SysReachedInv(cap, width, threads, sinks, es);
    if HarmlessRun(cap, width, threads, sinks, es) { CodeSysRuns(SysInit(cap, width, threads, sinks), es); }
  }

  /** A run that accepts fewer than 2^32 entries is harmless. */
  lemma ShortSysHarmless(cap: nat, width: nat, threads: set<Tid>, sinks: nat, es: seq<SysEvent>)
    requires CapacityOk(cap) && width >= 1
    ensures cap >= 1
    ensures |SysReached(cap, width, threads, sinks, es).ring.claims| < TWO32 ==>
              HarmlessRun(cap, width, threads, sinks, es)
  {
    InitInv(cap, width, threads);
    var s := SysInit(cap, width, threads, sinks);
    RingRuns(s, es);
    if |SysReached(cap, width, threads, sinks, es).ring.claims| < TWO32 { ShortHarmless(s.ring, RingTrace(s, es)); }
  }

  /** The claims of the run, in order. */
  function ClaimsOf(cap: nat, width: nat, threads: set<Tid>, sinks: nat, es: seq<SysEvent>): seq<Claim>
    requires cap >= 1 && width >= 1
  {
    SysReached(cap, width, threads, sinks, es).ring.claims
  }

  lemma UndecidedTruncated(ps: map<Tid, Producer>, callers: map<Tid, Caller>)
    requires callers.Keys == ps.Keys
    ensures Undecided(TruncateProducers(ps), callers) == Undecided(ps, callers)
  {
    assert forall t :: t in callers ==>
      (IsUndecided(TruncateProducer(ps[t]), callers[t]) <==> IsUndecided(ps[t], callers[t]));
  }

  /** The code's counters account for every call. */
  lemma CodeAccounting(cap: nat, width: nat, threads: set<Tid>, sinks: nat, es: seq<SysEvent>)
    requires CapacityOk(cap) && width >= 1
    ensures cap >= 1
    ensures HarmlessRun(cap, width, threads, sinks, es) ==>
              var c := CodeSysReached(cap, width, threads, sinks, es);
              Accounted(|c.ring.popped|, |ClaimsOf(cap, width, threads, sinks, es)|, c.ring.producers, RestOf(c))
  {
    CodeSysFollows(cap, width, threads, sinks, es);
    Accounting(cap, width, threads, sinks, es);
    var s := SysReached(cap, width, threads, sinks, es);
    if HarmlessRun(cap, width, threads, sinks, es) { UndecidedTruncated(s.ring.mem.producers, s.callers); }
  }

  /** The code's sinks receive the claimed entries, whole and in order. */
  lemma CodeDelivered(cap: nat, width: nat, threads: set<Tid>, sinks: nat, es: seq<SysEvent>, j: nat)
    requires CapacityOk(cap) && width >= 1
    ensures cap >= 1
    ensures HarmlessRun(cap, width, threads, sinks, es) ==>
              var c := CodeSysReached(cap, width, threads, sinks, es);
              j < |c.backend.sinks| ==>
                Received(c.backend.sinks[j], |c.ring.popped|, ClaimsOf(cap, width, threads, sinks, es))
  {
    CodeSysFollows(cap, width, threads, sinks, es);
    Delivered(cap, width, threads, sinks, es, j);
  }

  /** The code's Stop has returned with the ring empty and every sink holding, flushed, the claims. */
  ghost predicate AllDelivered(c: CodeSys, claims: seq<Claim>) {
    && c.backend.phase.Off? && |c.ring.popped| == |claims| && |c.backend.flushed| == |c.backend.sinks|
    && forall j :: 0 <= j < |c.backend.sinks| ==>
         c.backend.sinks[j] == Items(claims) && c.backend.flushed[j] == |claims|
  }

  lemma FinishedDelivers(s: Sys)
    requires s.backend.phase.Off? && Finished(s, |s.ring.claims|)
    ensures AllDelivered(TruncateSys(s), s.ring.claims)
  {
    assert s.ring.claims[..|s.ring.claims|] == s.ring.claims;
  }

  lemma OutsideSame(s: Sys, e: SysEvent)
    requires SysShape(s) && Outside(s.ring.mem.producers, e)
    ensures SysStep(s, e).ring.mem.producers == s.ring.mem.producers && !SysHarmful(s, e)
  {
    OutsideHarmless(s, e);
    if e.Consumer? { ConsumerStays(s); } else { OutsideStep(s, e); }
  }

  /** A run in which no producer moves inside TryPush is harmless. */
  lemma {:induction false} OutsideRunHarmless(s: Sys, es: seq<SysEvent>)
    requires SysShape(s) && AllOutside(s.ring.mem.producers, es)
    ensures SysHarmless(s, es) && SysExec(s, es).ring.mem.producers == s.ring.mem.producers
  {
    if es != [] {
      var front, e := es[..|es| - 1], es[|es| - 1];
      OutsideRunHarmless(s, front);
      OutsideSame(SysExec(s, front), e);
    }
  }

  /** The code's run follows, if no producer moves inside TryPush. */
  lemma CodeOutsideRun(s: Sys, es: seq<SysEvent>)
    requires SysInv(s) && AllOutside(s.ring.mem.producers, es)
    ensures CodeShape(TruncateSys(s)) && CodeSysExec(TruncateSys(s), es) == TruncateSys(SysExec(s, es))
  {
    OutsideRunHarmless(s, es);
    CodeSysRuns(s, es);
  }

  lemma CodeStopRun(s: Sys, more: seq<SysEvent>)
    requires SysInv(s) && CanStop(s) && Frontier(s.ring.claims, s.ring.mem.producers, |s.ring.claims|)
    requires AllOutside(s.ring.mem.producers, more) && Turns(more) >= StopSteps(SysStep(s, Stop), |s.ring.claims|)
    ensures CodeShape(TruncateSys(s))
    ensures AllDelivered(CodeSysExec(CodeSysStep(TruncateSys(s), Stop), more), s.ring.claims)
  {
    var f, s1 := |s.ring.claims|, SysStep(s, Stop);
    StopBegins(s, f);
    StopDelivers(s1, f, more);
    CodeSysStepRefines(s, Stop);
    CodeOutsideRun(s1, more);
    FinishedDelivers(SysExec(s1, more));
  }

  /** Stop of the code, called after any harmless run with no producer mid-push, empties the ring into
      every sink. */
  lemma CodeStopDeliversAll(cap: nat, width: nat, threads: set<Tid>, sinks: nat, es: seq<SysEvent>, more: seq<SysEvent>)
    requires CapacityOk(cap) && width >= 1
    ensures cap >= 1
    ensures var s, c := SysReached(cap, width, threads, sinks, es), CodeSysReached(cap, width, threads, sinks, es);
            HarmlessRun(cap, width, threads, sinks, es) && CanStop(s) && NoWriters(s.ring.mem.producers)
            && AllOutside(s.ring.mem.producers, more) && Turns(more) >= StopSteps(SysStep(s, Stop), |s.ring.claims|) ==>
              AllDelivered(CodeSysExec(CodeSysStep(c, Stop), more), s.ring.claims)
  {
    CodeSysFollows(cap, width, threads, sinks, es);
    var s := SysReached(cap, width, threads, sinks, es);
    if HarmlessRun(cap, width, threads, sinks, es) && CanStop(s) && NoWriters(s.ring.mem.producers)
       && AllOutside(s.ring.mem.producers, more) && Turns(more) >= StopSteps(SysStep(s, Stop), |s.ring.claims|) {
      assert Frontier(s.ring.claims, s.ring.mem.producers, |s.ring.claims|);
      CodeStopRun(s, more);
    }
  }

  // ---------------------------------------------------------------- the code's worker and Drain

  lemma CodeWorkRun(s: Sys, f: nat, more: seq<SysEvent>)
    requires Working(s, f) && AllOutside(s.ring.mem.producers, more) && Turns(more) >= WorkSteps(s, f)
    ensures CodeShape(TruncateSys(s))
    ensures SinksHave(CodeSysExec(TruncateSys(s), more).backend, s.ring.claims, f)
  {
    WorkerDelivers(s, f, more);
    CodeOutsideRun(s, more);
  }

  /** The code's running worker hands every entry before the frontier to every sink. */
  lemma CodeWorkerDelivers(cap: nat, width: nat, threads: set<Tid>, sinks: nat, es: seq<SysEvent>,
                           f: nat, more: seq<SysEvent>)
    requires CapacityOk(cap) && width >= 1
    ensures cap >= 1
    ensures var s, c := SysReached(cap, width, threads, sinks, es), CodeSysReached(cap, width, threads, sinks, es);
            HarmlessRun(cap, width, threads, sinks, es) && c.backend.running
            && Frontier(s.ring.claims, s.ring.mem.producers, f)
            && AllOutside(s.ring.mem.producers, more) && Turns(more) >= WorkSteps(s, f) ==>
              SinksHave(CodeSysExec(c, more).backend, s.ring.claims, f)
  {
    CodeSysFollows(cap, width, threads, sinks, es);
    var s, c := SysReached(cap, width, threads, sinks, es), CodeSysReached(cap, width, threads, sinks, es);
    if HarmlessRun(cap, width, threads, sinks, es) && c.backend.running
       && Frontier(s.ring.claims, s.ring.mem.producers, f)
       && AllOutside(s.ring.mem.producers, more) && Turns(more) >= WorkSteps(s, f) {
      CodeWorkRun(s, f, more);
    }
  }

  lemma CodeStartRun(s: Sys, f: nat, more: seq<SysEvent>)
    requires SysInv(s) && s.backend.phase.Off? && Frontier(s.ring.claims, s.ring.mem.producers, f)
    requires AllOutside(s.ring.mem.producers, more) && Turns(more) >= WorkSteps(SysStep(s, Start), f)
    ensures CodeShape(TruncateSys(s))
    ensures SinksHave(CodeSysExec(CodeSysStep(TruncateSys(s), Start), more).backend, s.ring.claims, f)
  {
    StartWorks(s, f);
    CodeSysStepRefines(s, Start);
    CodeWorkRun(SysStep(s, Start), f, more);
  }

  /** So does the worker that Start sets running on an idle backend of the code. */
  lemma CodeStartDelivers(cap: nat, width: nat, threads: set<Tid>, sinks: nat, es: seq<SysEvent>,
                          f: nat, more: seq<SysEvent>)
    requires CapacityOk(cap) && width >= 1
    ensures cap >= 1
    ensures var s, c := SysReached(cap, width, threads, sinks, es), CodeSysReached(cap, width, threads, sinks, es);
            HarmlessRun(cap, width, threads, sinks, es) && c.backend.phase.Off?
            && Frontier(s.ring.claims, s.ring.mem.producers, f)
            && AllOutside(s.ring.mem.producers, more) && Turns(more) >= WorkSteps(SysStep(s, Start), f) ==>
              SinksHave(CodeSysExec(CodeSysStep(c, Start), more).backend, s.ring.claims, f)
  {
    CodeSysFollows(cap, width, threads, sinks, es);
    var s, c := SysReached(cap, width, threads, sinks, es), CodeSysReached(cap, width, threads, sinks, es);
    if HarmlessRun(cap, width, threads, sinks, es) && c.backend.phase.Off?
       && Frontier(s.ring.claims, s.ring.mem.producers, f)
       && AllOutside(s.ring.mem.producers, more) && Turns(more) >= WorkSteps(SysStep(s, Start), f) {
      CodeStartRun(s, f, more);
    }
  }

  lemma CodeDrainRun(s: Sys, f: nat, max: nat, more: seq<SysEvent>)
    requires SysInv(s) && s.backend.phase.Off? && Frontier(s.ring.claims, s.ring.mem.producers, f)
    requires AllOutside(s.ring.mem.producers, more)
    requires Turns(more) >= DrainSteps(SysStep(s, Drain(max)), DrainTarget(|s.ring.mem.popped|, f, max))
    ensures CodeShape(TruncateSys(s))
    ensures var c' := CodeSysExec(CodeSysStep(TruncateSys(s), Drain(max)), more);
            c'.backend.phase.Off? && SinksHave(c'.backend, s.ring.claims, DrainTarget(|s.ring.mem.popped|, f, max))
  {
    DrainDelivers(s, f, max, more);
    DrainStarts(s, f, max);
    CodeSysStepRefines(s, Drain(max));
    CodeOutsideRun(SysStep(s, Drain(max)), more);
  }

  /** Drain(max) on an idle backend of the code hands over the next min(max, entries before the
      frontier) entries and returns. */
  lemma CodeDrainDelivers(cap: nat, width: nat, threads: set<Tid>, sinks: nat, es: seq<SysEvent>,
                          f: nat, max: nat, more: seq<SysEvent>)
    requires CapacityOk(cap) && width >= 1
    ensures cap >= 1
    ensures var s, c := SysReached(cap, width, threads, sinks, es), CodeSysReached(cap, width, threads, sinks, es);
            var target := DrainTarget(|c.ring.popped|, f, max);
            HarmlessRun(cap, width, threads, sinks, es) && c.backend.phase.Off?
            && Frontier(s.ring.claims, s.ring.mem.producers, f)
            && AllOutside(s.ring.mem.producers, more) && Turns(more) >= DrainSteps(SysStep(s, Drain(max)), target) ==>
              var c' := CodeSysExec(CodeSysStep(c, Drain(max)), more);
              c'.backend.phase.Off? && SinksHave(c'.backend, s.ring.claims, target)
  {
    CodeSysFollows(cap, width, threads, sinks, es);
    var s, c := SysReached(cap, width, threads, sinks, es), CodeSysReached(cap, width, threads, sinks, es);
    var target := DrainTarget(|c.ring.popped|, f, max);
    if HarmlessRun(cap, width, threads, sinks, es) && c.backend.phase.Off?
       && Frontier(s.ring.claims, s.ring.mem.producers, f)
       && AllOutside(s.ring.mem.producers, more) && Turns(more) >= DrainSteps(SysStep(s, Drain(max)), target) {
      CodeDrainRun(s, f, max, more);
    }
  }
}
