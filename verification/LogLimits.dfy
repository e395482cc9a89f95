/** A Stop that leaves an accepted entry behind: its producer has claimed a position and has not
    published it yet. */
module LogLimits {
  import opened MpscRing
  import opened MpscSafety
  import opened MpscWrap
  import opened MpscCode
  import opened MpscSolo
  import opened LogSystem
  import opened LogDelivery

  const PUSH: SysEvent := Push(0, false)

  lemma SysSnoc(s: Sys, es: seq<SysEvent>, e: SysEvent)
    requires SysShape(s)
    ensures SysExec(s, es + [e]) == SysStep(SysExec(s, es), e)
    ensures SysHarmless(s, es + [e]) <==> SysHarmless(s, es) && !SysHarmful(SysExec(s, es), e)
  {
    assert (es + [e])[..|es|] == es;
  }

  /** Thread 0 is inside TryPush, the backend at rest, and the ring as given. */
  ghost predicate Pushing(s: Sys, ring: State) {
    SysShape(s) && 0 in s.callers && s.callers[0] == In(0) && s.ring == ring
    && s.backend.phase.Off? && !s.backend.stopping
  }

  lemma EnterRing(s: Sys, payload: seq<Word>)
    requires SysShape(s) && CanLog(s.callers, s.ring.mem.width, 0, payload)
    requires s.sequence == 0 && s.backend.phase.Off? && !s.backend.stopping
    ensures !SysHarmful(s, Log(0, payload)) && !SysHarmful(SysStep(s, Log(0, payload)), Enter(0))
    ensures Pushing(SysStep(SysStep(s, Log(0, payload)), Enter(0)), Step(s.ring, Call(0, [0] + payload)))
  {
    LogStep(s, 0, payload);
    EnterIs(SysStep(s, Log(0, payload)), 0);
  }

  /** A step of thread 0 on a current snapshot. */
  lemma PushRing(s: Sys, ring: State)
    requires Pushing(s, ring) && Inv(ring) && Current(ring, 0)
    ensures !SysHarmful(s, PUSH) && Pushing(SysStep(s, PUSH), Step(ring, Move(0, false)))
    ensures Inv(Step(ring, Move(0, false))) && Current(Step(ring, Move(0, false)), 0)
  {
    PushIs(s, 0, false);
    AloneMove(ring, Move(0, false), 0);
    FreshIsStep(ring, Move(0, false));
    AloneStep(ring, Move(0, false), 0);
    StepInv(ring, Move(0, false));
  }

  /** The ring after a call's first four steps: the first position claimed, nothing written. */
  lemma ClaimedRing(ring: State, item: Item)
    requires Inv(ring) && Resting(ring, 0) && |item| == ring.mem.width && ring.claims == []
    ensures var r := ThreeMoves(Step(ring, Call(0, item)));
            r.claims == [Claim(0, item)] && 0 in r.mem.producers && r.mem.producers[0] == Write(item, 0, 0)
  {
    CapacityBounds(ring.mem.cap);
    assert SlotOk(ring, 0);
    BeginStep(ring, 0, item);
    AcceptStep(Step(Step(ring, Call(0, item)), Move(0, false)), 0, item, 0);
  }

  /** A new logger: thread 0 may log, nothing is claimed, and nobody consumes. */
  ghost predicate New(s: Sys, payload: seq<Word>) {
    && SysShape(s) && CanLog(s.callers, s.ring.mem.width, 0, payload)
    && s.sequence == 0 && s.backend.phase.Off? && !s.backend.stopping
    && Inv(s.ring) && Resting(s.ring, 0) && s.ring.claims == []
  }

  lemma InitNew(cap: nat, threads: set<Tid>, sinks: nat, payload: seq<Word>)
    requires CapacityOk(cap) && 0 in threads
    ensures cap >= 1 && New(SysInit(cap, |payload| + 1, threads, sinks), payload)
  {
    InitInv(cap, |payload| + 1, threads);
  }

  lemma Entered(init: Sys, payload: seq<Word>)
    requires New(init, payload)
    ensures Pushing(SysExec(init, [Log(0, payload)] + [Enter(0)]), Step(init.ring, Call(0, [0] + payload)))
    ensures SysHarmless(init, [Log(0, payload)] + [Enter(0)])
  {
    SysSnoc(init, [], Log(0, payload));
    assert [] + [Log(0, payload)] == [Log(0, payload)];
    SysSnoc(init, [Log(0, payload)], Enter(0));
    EnterRing(init, payload);
  }

  /** An entry is accepted and not published, and Stop may be called. */
  ghost predicate HalfPushed(s: Sys, item: Item) {
    CanStop(s) && s.ring.claims == [Claim(0, item)] && Frontier(s.ring.claims, s.ring.mem.producers, 0)
  }

  lemma HalfOf(s: Sys, ring: State, item: Item)
    requires Pushing(s, ring) && ring.claims == [Claim(0, item)]
    requires 0 in ring.mem.producers && ring.mem.producers[0] == Write(item, 0, 0)
    ensures HalfPushed(s, item)
  {
    assert Writing(ring.claims[0], ring.mem.producers, 0);
  }

  /** The ring after thread 0's next three steps. */
  function ThreeMoves(ring: State): State
    requires StateShape(ring)
  {
    Step(Step(Step(ring, Move(0, false)), Move(0, false)), Move(0, false))
  }

  lemma PushHalf(init: Sys, payload: seq<Word>) returns (es: seq<SysEvent>)
    requires New(init, payload)
    ensures HalfPushed(SysExec(init, es), [0] + payload) && SysHarmless(init, es)
  {
    var item := [0] + payload;
    Entered(init, payload);
    ClaimedRing(init.ring, item);
    StepInv(init.ring, Call(0, item));
    es := PushOn(init, [Log(0, payload)] + [Enter(0)], Step(init.ring, Call(0, item)), item);
  }

  lemma PushOn(init: Sys, es: seq<SysEvent>, ring: State, item: Item) returns (es': seq<SysEvent>)
    requires SysShape(init) && SysHarmless(init, es)
    requires Inv(ring) && Current(ring, 0) && Pushing(SysExec(init, es), ring)
    requires ThreeMoves(ring).claims == [Claim(0, item)] && 0 in ThreeMoves(ring).mem.producers
    requires ThreeMoves(ring).mem.producers[0] == Write(item, 0, 0)
    ensures HalfPushed(SysExec(init, es'), item) && SysHarmless(init, es')
  {
    es' := ThreePushes(init, es, ring);
    HalfOf(SysExec(init, es'), ThreeMoves(ring), item);
  }

  lemma PushOnce(init: Sys, es: seq<SysEvent>, ring: State)
    requires SysShape(init) && SysHarmless(init, es)
    requires Inv(ring) && Current(ring, 0) && Pushing(SysExec(init, es), ring)
    ensures Pushing(SysExec(init, es + [PUSH]), Step(ring, Move(0, false))) && SysHarmless(init, es + [PUSH])
    ensures Inv(Step(ring, Move(0, false))) && Current(Step(ring, Move(0, false)), 0)
  {
    PushRing(SysExec(init, es), ring);
    SysSnoc(init, es, PUSH);
  }

  lemma ThreePushes(init: Sys, es: seq<SysEvent>, ring: State) returns (es': seq<SysEvent>)
    requires SysShape(init) && SysHarmless(init, es)
    requires Inv(ring) && Current(ring, 0) && Pushing(SysExec(init, es), ring)
    ensures Pushing(SysExec(init, es'), ThreeMoves(ring)) && SysHarmless(init, es')
  {
    PushOnce(init, es, ring);
    var r1 := Step(ring, Move(0, false));
    PushOnce(init, es + [PUSH], r1);
    PushOnce(init, es + [PUSH] + [PUSH], Step(r1, Move(0, false)));
    es' := es + [PUSH] + [PUSH] + [PUSH];
  }

  function Consumers(n: nat): seq<SysEvent> {
    seq(n, _ => Consumer)
  }

  lemma {:induction false} TurnsAll(n: nat)
    ensures Turns(Consumers(n)) == n
  {
    if n > 0 {
      TurnsAll(n - 1);
      assert Consumers(n)[..n - 1] == Consumers(n - 1);
    }
  }

  /** For every ring, number of sinks and entry: Stop returns, with the entry claimed and no sink
      having it. */
  lemma StopLeavesEntry(cap: nat, threads: set<Tid>, sinks: nat, payload: seq<Word>)
    returns (es: seq<SysEvent>, more: seq<SysEvent>)
    requires CapacityOk(cap) && 0 in threads
    ensures cap >= 1
    ensures HarmlessRun(cap, |payload| + 1, threads, sinks, es)
    ensures var s := SysExec(SysStep(SysReached(cap, |payload| + 1, threads, sinks, es), Stop), more);
            && s.backend.phase.Off? && s.ring.claims == [Claim(0, [0] + payload)]
            && forall j :: 0 <= j < |s.backend.sinks| ==> s.backend.sinks[j] == []
  {
    CapacityBounds(cap);
    InitNew(cap, threads, sinks, payload);
    es := PushHalf(SysInit(cap, |payload| + 1, threads, sinks), payload);
    var s := SysReached(cap, |payload| + 1, threads, sinks, es);
    var n := StopSteps(SysStep(s, Stop), 0);
    more := Consumers(n);
    TurnsAll(n);
    StopAfterAnyRun(cap, |payload| + 1, threads, sinks, es, 0, more);
  }
}
