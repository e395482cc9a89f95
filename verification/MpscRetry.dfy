/** How often TryPush goes round its loop: every round is paid for by another producer's claim or by
    a spurious failure of the compare-exchange, except exactly those that start stuck on a full
    ring. No assumption on wrap-around or on the age of snapshots is needed. */
module MpscRetry {
  import opened MpscRing
  import opened MpscSafety
  import opened MpscWrap
  import opened MpscCode

  /** A round ends in a retry although nobody claimed a position, if and only if it starts stuck. */
  lemma UnpaidExactly(s: State, t: Tid, spurious: bool)
    requires Inv(s) && t in s.mem.producers && s.mem.producers[t].LoadSeq?
    ensures (Step(s, Move(t, spurious)).mem.producers[t].LoadPos? && s.mem.producers[t].pos == |s.claims|)
            <==> Stuck(s, t)
  {
    var LoadSeq(item, pos) := s.mem.producers[t];
    SlotReading(s, t);
    CapacityBounds(s.mem.cap);
    Decision(s, t, spurious);
    var read := s.mem.sequence[Slot(s.mem.cap, pos)];
    if read != pos && pos == |s.claims| { TruncatedCompare(read, pos); }
  }

  /** Rounds of thread t's current call that started stuck. */
  ghost function Spins(s: State, es: seq<Event>, t: Tid): nat
    requires StateShape(s)
  {
    if es == [] then 0
    else CountSpin(Exec(s, es[..|es| - 1]), es[|es| - 1], t, Spins(s, es[..|es| - 1], t))
  }

  /** One event further: a new call counts from zero. */
  ghost function CountSpin(before: State, e: Event, t: Tid, k: nat): nat {
    if e.Call? && e.t == t && CanCall(before.mem, t, e.item) then 0
    else if e.Move? && e.t == t && Stuck(before, t) then k + 1
    else k
  }

  ghost predicate OnlyOthers(claims: seq<Claim>, t: Tid, lo: nat, hi: nat) {
    lo <= hi <= |claims| && forall i :: lo <= i < hi ==> claims[i].tid != t
  }

  /** Rounds of a call: they are paid for by the positions from start to upTo, which others
      claimed, and by spurious failures; one may be current, and k started stuck. */
  ghost predicate Paid(claims: seq<Claim>, l: Loop, t: Tid, upTo: nat, current: nat, k: nat) {
    OnlyOthers(claims, t, l.start, upTo) && k <= l.rounds <= (upTo - l.start) + l.spurious + current + k
  }

  /** The rounds of the current call so far, against what happened since the call began. */
  ghost predicate LoopOk(p: Producer, l: Loop, claims: seq<Claim>, t: Tid, k: nat) {
    match p
    case LoadPos(_) => Paid(claims, l, t, |claims|, 0, k)
    case LoadSeq(_, pos) => Paid(claims, l, t, pos, 0, k) && OnlyOthers(claims, t, l.start, |claims|)
    case Cas(_, pos) => Paid(claims, l, t, pos, 1, k) && OnlyOthers(claims, t, l.start, |claims|)
    case Write(_, pos, _) => Paid(claims, l, t, pos, 1, k)
    case _ => true
  }

  lemma LoadSeqPays(s: State, t: Tid, spurious: bool, k: nat)
    requires Inv(s) && t in s.mem.producers && s.mem.producers[t].LoadSeq?
    requires LoopOk(s.mem.producers[t], s.loops[t], s.claims, t, k)
    ensures var s' := Step(s, Move(t, spurious));
            LoopOk(s'.mem.producers[t], s'.loops[t], s'.claims, t, if Stuck(s, t) then k + 1 else k)
  {
    assert ProducerOk(s, t);
    UnpaidExactly(s, t, spurious);
    Decision(s, t, spurious);
  }

  lemma OtherPhasesPay(s: State, t: Tid, spurious: bool, k: nat)
    requires Inv(s) && t in s.mem.producers && !s.mem.producers[t].LoadSeq?
    requires LoopOk(s.mem.producers[t], s.loops[t], s.claims, t, k)
    ensures var s' := Step(s, Move(t, spurious)); LoopOk(s'.mem.producers[t], s'.loops[t], s'.claims, t, k)
  {
    assert ProducerOk(s, t);
  }

  lemma OthersKeep(s: State, e: Event, t: Tid, k: nat)
    requires StateShape(s) && t in s.mem.producers && (!e.Consume? ==> e.t != t)
    requires LoopOk(s.mem.producers[t], s.loops[t], s.claims, t, k)
    ensures var s' := Step(s, e); LoopOk(s'.mem.producers[t], s'.loops[t], s'.claims, t, k)
  {
    var s' := Step(s, e);
    assert s'.mem.producers[t] == s.mem.producers[t] && s'.loops[t] == s.loops[t];
  }

  lemma CallStarts(s: State, t: Tid, item: Item)
    requires Inv(s) && CanCall(s.mem, t, item)
    ensures var s' := Step(s, Call(t, item)); LoopOk(s'.mem.producers[t], s'.loops[t], s'.claims, t, 0)
  {
  }

  ghost predicate LoopHolds(s: State, t: Tid, k: nat) {
    t in s.mem.producers && t in s.loops && LoopOk(s.mem.producers[t], s.loops[t], s.claims, t, k)
  }

  lemma StepPays(s: State, e: Event, t: Tid, k: nat)
    requires Inv(s) && LoopHolds(s, t, k)
    ensures LoopHolds(Step(s, e), t, CountSpin(s, e, t, k))
  {
    if e.Consume? || e.t != t {
      OthersKeep(s, e, t, k);
    } else if e.Call? {
      if CanCall(s.mem, t, e.item) { CallStarts(s, t, e.item); } else { assert Step(s, e) == s; }
    } else if s.mem.producers[t].LoadSeq? {
      LoadSeqPays(s, t, e.spurious, k);
    } else {
      OtherPhasesPay(s, t, e.spurious, k);
    }
  }

  lemma {:induction false} RunPays(s: State, es: seq<Event>, t: Tid)
    requires Inv(s) && t in s.mem.producers && s.mem.producers[t].Idle?
    ensures LoopHolds(Exec(s, es), t, Spins(s, es, t))
  {
    if es != [] {
      var front := es[..|es| - 1];
      ExecInv(s, front);
      RunPays(s, front, t);
      StepPays(Exec(s, front), es[|es| - 1], t, Spins(s, front, t));
    }
  }

  /** Positions claimed since thread t's call began, its own not counted. */
  function Claimed(s: State, t: Tid): nat
    requires t in s.mem.producers
  {
    if s.mem.producers[t].Write? then s.mem.producers[t].pos else |s.claims|
  }

  predicate Running(s: State, t: Tid) {
    t in s.mem.producers && !s.mem.producers[t].Idle? && !s.mem.producers[t].Returned?
  }

  /** In every reachable state a running TryPush has started at most (positions other producers
      claimed since it began) + (spurious failures) + 1 + (rounds that started stuck) rounds, and
      at least those last ones. */
  lemma RetryBound(cap: nat, width: nat, threads: set<Tid>, es: seq<Event>, t: Tid)
    requires CapacityOk(cap)
    ensures cap >= 1
    ensures var s := Reached(cap, width, threads, es);
            Running(s, t) ==>
              var l, spins := s.loops[t], Spins(Init(cap, width, threads), es, t);
              && OnlyOthers(s.claims, t, l.start, Claimed(s, t))
              && spins <= l.rounds <= (Claimed(s, t) - l.start) + l.spurious + 1 + spins
  {
    ReachedInv(cap, width, threads, es);
    var s := Reached(cap, width, threads, es);
    if Running(s, t) {
      InitInv(cap, width, threads);
      RunPays(Init(cap, width, threads), es, t);
      assert ProducerOk(s, t);
    }
  }

  /** Before wrapping no round starts stuck, so the bound holds without the last term. */
  lemma {:induction false} UnwrappedNeverSpins(s: State, es: seq<Event>, t: Tid)
    requires Inv(s) && Unwrapped(Exec(s, es))
    ensures Spins(s, es, t) == 0
  {
    if es != [] {
      var front := es[..|es| - 1];
      ExecInv(s, front);
      UnwrappedNeverSpins(s, front, t);
      UnwrappedNotStuck(Exec(s, front), t);
    }
  }

  lemma UnwrappedNotStuck(s: State, t: Tid)
    requires Inv(s) && Unwrapped(s)
    ensures !Stuck(s, t)
  {
    if Stuck(s, t) {
      SlotReading(s, t);
      CapacityBounds(s.mem.cap);
    }
  }

  /** From a stuck state the bound without the last term fails: running on alone, the thread adds
      rounds and nobody claims. */
  lemma StuckBreaksBound(s: State, t: Tid) returns (n: nat)
    requires Stuck(s, t)
    ensures var s' := Exec(s, Repeat(Move(t, false), 2 * n));
            && Running(s', t) && s'.claims == s.claims
            && s'.loops[t].rounds > (Claimed(s', t) - s'.loops[t].start) + s'.loops[t].spurious + 1
  {
    var bound := |s.claims| - s.loops[t].start + s.loops[t].spurious + 1;
    n := if bound >= 0 then bound + 1 else 0;
    SpinsWhenFull(s, t, n);
  }

  // ---------------------------------------------------------------- the same for the code

  /** Rounds of thread t's current call in the code's run that started stuck. */
  ghost function SpinsInCode(s: State, es: seq<Event>, t: Tid): nat
    requires StateShape(s)
  {
    if es == [] then 0
    else CountSpin(CodeExec(s, es[..|es| - 1]), es[|es| - 1], t, SpinsInCode(s, es[..|es| - 1], t))
  }

  /** Going on to the compare-exchange with an old snapshot counts as a round like any other. */
  lemma GoesOnPays(s: State, e: Event, t: Tid, k: nat)
    requires Inv(s) && LoopHolds(s, t, k) && e.Move? && e.t == t && OldLook(s.mem, t)
    ensures LoopHolds(GoesOn(s, e, t), t, k) && !Stuck(s, t)
  {
    OldLookBehind(s, t);
  }

  /** Renewing a snapshot only moves it on. */
  lemma RenewedPays(s: State, t: Tid, k: nat)
    requires Inv(s) && LoopHolds(s, t, k) && OldCas(s.mem, t)
    ensures LoopHolds(Renewed(s, t), t, k) && CountSpin(Renewed(s, t), Move(t, false), t, k) == k
  {
    assert ProducerOk(s, t);
  }

  lemma OthersRenew(s: State, u: Tid, t: Tid, k: nat)
    requires StateShape(s) && LoopHolds(s, t, k) && OldCas(s.mem, u) && u != t
    ensures LoopHolds(Renewed(s, u), t, k)
  {
  }

  lemma OthersGoOn(s: State, e: Event, t: Tid, k: nat)
    requires StateShape(s) && LoopHolds(s, t, k) && e.Move? && OldLook(s.mem, e.t) && e.t != t
    ensures LoopHolds(GoesOn(s, e, e.t), t, k)
  {
  }

  lemma OldLookPays(s: State, e: Event, t: Tid, k: nat)
    requires Inv(s) && LoopHolds(s, t, k) && e.Move? && OldLook(s.mem, e.t)
    ensures LoopHolds(GoesOn(s, e, e.t), t, CountSpin(s, e, t, k))
  {
    if e.t == t { GoesOnPays(s, e, t, k); } else { OthersGoOn(s, e, t, k); }
  }

  lemma OldCasPays(s: State, u: Tid, t: Tid, k: nat)
    requires Inv(s) && LoopHolds(s, t, k) && OldCas(s.mem, u) && Inv(Renewed(s, u))
    ensures LoopHolds(Step(Renewed(s, u), Move(u, false)), t, CountSpin(s, Move(u, false), t, k))
  {
    if u == t { RenewedPays(s, t, k); } else { OthersRenew(s, u, t, k); }
    StepPays(Renewed(s, u), Move(u, false), t, k);
  }

  lemma CodeStepPays(s: State, e: Event, t: Tid, k: nat)
    requires Inv(s) && !Harmful(s, e) && LoopHolds(s, t, k)
    ensures LoopHolds(CodeStep(s, e), t, CountSpin(s, e, t, k))
  {
    if e.Move? && OldLook(s.mem, e.t) {
      OldLookPays(s, e, t, k);
    } else if e.Move? && !e.spurious && OldCas(s.mem, e.t) {
      RenewedInv(s, e.t);
      OldCasPays(s, e.t, t, k);
    } else {
      StepPays(s, e, t, k);
    }
  }

  lemma {:induction false} CodeRunPays(s: State, es: seq<Event>, t: Tid)
    requires Inv(s) && t in s.mem.producers && s.mem.producers[t].Idle? && Harmless(s, es)
    ensures LoopHolds(CodeExec(s, es), t, SpinsInCode(s, es, t))
  {
    if es != [] {
      var front := es[..|es| - 1];
      CodeRuns(s, front);
      CodeRunPays(s, front, t);
      CodeStepPays(CodeExec(s, front), es[|es| - 1], t, SpinsInCode(s, front, t));
    }
  }

  /** The bound for the 32-bit code, in every run without a harmful compare-exchange. */
  lemma CodeRetryBound(cap: nat, width: nat, threads: set<Tid>, es: seq<Event>, t: Tid)
    requires CapacityOk(cap)
    ensures cap >= 1
    ensures var s := CodeHistory(cap, width, threads, es);
            Harmless(Init(cap, width, threads), es) && Running(s, t) ==>
              var l, spins := s.loops[t], SpinsInCode(Init(cap, width, threads), es, t);
              && OnlyOthers(s.claims, t, l.start, Claimed(s, t))
              && spins <= l.rounds <= (Claimed(s, t) - l.start) + l.spurious + 1 + spins
  {
    CodeFollows(cap, width, threads, es);
    CodeThreads(Init(cap, width, threads), es);
    var s := CodeHistory(cap, width, threads, es);
    if Harmless(Init(cap, width, threads), es) && Running(s, t) {
      InitInv(cap, width, threads);
      CodeRunPays(Init(cap, width, threads), es, t);
      assert ProducerOk(s, t);
    }
  }
}
