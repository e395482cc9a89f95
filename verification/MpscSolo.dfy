/** Calls that run alone: one whole TryPush or TryPop without interference. They build concrete
    runs. */
module MpscSolo {
  import opened Bits
  import opened MpscRing
  import opened MpscSafety
  import opened MpscWrap
  import opened MpscCode

  /** Only thread t and the consumer take part. */
  predicate By(es: seq<Event>, t: Tid) {
    forall i :: 0 <= i < |es| ==> es[i].Consume? || es[i].t == t
  }

  lemma ByConcat(a: seq<Event>, b: seq<Event>, t: Tid)
    requires By(a, t) && By(b, t)
    ensures By(a + b, t)
  {
  }

  /** The schedule, of thread t and the consumer, leads from s to s'. */
  ghost predicate Via(s: State, es: seq<Event>, s': State, t: Tid)
    requires StateShape(s)
  {
    By(es, t) && Exec(s, es) == s'
  }

  /** Some schedule of thread t and the consumer leads from s to s'. */
  ghost predicate Leads(s: State, s': State, t: Tid)
    requires StateShape(s)
  {
    exists es: seq<Event> :: Via(s, es, s', t)
  }

  /** Running a and then b, from the state in between. */
  lemma {:induction false} ExecVia(s: State, a: seq<Event>, s1: State, b: seq<Event>)
    requires StateShape(s) && StateShape(s1) && Exec(s, a) == s1
    ensures Exec(s, a + b) == Exec(s1, b)
    decreases |b|
  {
    if b == [] {
      assert a + b == a;
    } else {
      var front, e := b[..|b| - 1], b[|b| - 1];
      assert a + b == (a + front) + [e] && b == front + [e];
      ExecVia(s, a, s1, front);
      ExecSnoc(s, a + front, e);
      ExecSnoc(s1, front, e);
    }
  }

  lemma ExecConcat(s: State, a: seq<Event>, b: seq<Event>)
    requires StateShape(s)
    ensures Exec(s, a + b) == Exec(Exec(s, a), b)
  {
    ExecVia(s, a, Exec(s, a), b);
  }

  lemma LeadsTrans(s: State, s1: State, s2: State, t: Tid)
    requires StateShape(s) && StateShape(s1) && Leads(s, s1, t) && Leads(s1, s2, t)
    ensures Leads(s, s2, t)
  {
    var a :| Via(s, a, s1, t);
    var b :| Via(s1, b, s2, t);
    ViaConcat(s, a, s1, b, s2, t);
  }

  lemma ViaConcat(s: State, a: seq<Event>, s1: State, b: seq<Event>, s2: State, t: Tid)
    requires StateShape(s) && StateShape(s1) && Via(s, a, s1, t) && Via(s1, b, s2, t)
    ensures Via(s, a + b, s2, t)
  {
    ByConcat(a, b, t);
    ExecConcat(s, a, b);
  }

  /** One more event. */
  lemma LeadsStep(s: State, s1: State, e: Event, t: Tid)
    requires StateShape(s) && StateShape(s1) && Leads(s, s1, t) && (e.Consume? || e.t == t)
    ensures Leads(s, Step(s1, e), t)
  {
    var a :| Via(s, a, s1, t);
    ExecSnoc(s, a, e);
    ByConcat(a, [e], t);
    assert Via(s, a + [e], Step(s1, e), t);
  }

  lemma LeadsSelf(s: State, t: Tid)
    requires StateShape(s)
    ensures Leads(s, s, t)
  {
    assert Via(s, [], s, t);
  }

  lemma LeadsInv(s: State, s': State, t: Tid)
    requires Inv(s) && Leads(s, s', t)
    ensures Inv(s') && s'.mem.cap == s.mem.cap && s'.mem.width == s.mem.width
    ensures s'.mem.producers.Keys == s.mem.producers.Keys
  {
    var es :| Via(s, es, s', t);
    ExecInv(s, es);
    ExecCap(s, es);
  }

  lemma {:induction false} ByOthers(s: State, es: seq<Event>, t: Tid, u: Tid)
    requires StateShape(s) && By(es, t) && u != t && u in s.mem.producers
    ensures u in Exec(s, es).mem.producers && Exec(s, es).mem.producers[u] == s.mem.producers[u]
  {
    if es != [] {
      var front := es[..|es| - 1];
      ByOthers(s, front, t, u);
      StepOther(Exec(s, front), es[|es| - 1], t, u);
    }
  }

  lemma StepOther(s: State, e: Event, t: Tid, u: Tid)
    requires StateShape(s) && (e.Consume? || e.t == t) && u != t && u in s.mem.producers
    ensures u in Step(s, e).mem.producers && Step(s, e).mem.producers[u] == s.mem.producers[u]
  {
  }

  /** The other threads stay where they are. */
  lemma LeadsOthers(s: State, s': State, t: Tid, u: Tid)
    requires StateShape(s) && Leads(s, s', t) && u != t && u in s.mem.producers
    ensures u in s'.mem.producers && s'.mem.producers[u] == s.mem.producers[u]
  {
    var es :| Via(s, es, s', t);
    ByOthers(s, es, t, u);
  }

  // ---------------------------------------------------------------- one push, one pop

  /** The thread is not inside TryPush and the consumer is not inside TryPop. */
  predicate Resting(s: State, t: Tid) {
    && t in s.mem.producers && (s.mem.producers[t].Idle? || s.mem.producers[t].Returned?)
    && s.mem.consumer.Ready?
  }

  /** Between s and s' only thread t moved, to p; nothing was claimed, released or consumed. */
  predicate OnlyMoved(s: State, s': State, t: Tid, p: Producer) {
    && s'.claims == s.claims && s'.released == s.released
    && s'.mem.producers == s.mem.producers[t := p]
    && s'.mem.width == s.mem.width && s'.mem.consumer == s.mem.consumer
  }

  lemma UpdateTwice(ps: map<Tid, Producer>, t: Tid, p: Producer, q: Producer)
    ensures ps[t := p][t := q] == ps[t := q]
  {
  }

  lemma WriteStep(s: State, t: Tid)
    requires StateShape(s) && t in s.mem.producers && s.mem.producers[t].Write?
    ensures var p := s.mem.producers[t];
            OnlyMoved(s, Step(s, Move(t, false)), t,
                      if p.copied < s.mem.width then Write(p.item, p.pos, p.copied + 1) else Returned(true))
  {
  }

  /** A writer left alone copies the rest of its item, publishes and returns true. */
  lemma {:induction false} SoloWrite(start: State, s: State, t: Tid) returns (s': State)
    requires StateShape(start) && Leads(start, s, t)
    requires StateShape(s) && t in s.mem.producers && s.mem.producers[t].Write?
    ensures StateShape(s') && Leads(start, s', t) && OnlyMoved(s, s', t, Returned(true))
    decreases s.mem.width - s.mem.producers[t].copied
  {
    var s1 := Step(s, Move(t, false));
    WriteStep(s, t);
    LeadsStep(start, s, Move(t, false), t);
    if s.mem.producers[t].copied < s.mem.width {
      s' := SoloWrite(start, s1, t);
      UpdateTwice(s.mem.producers, t, s1.mem.producers[t], Returned(true));
    } else {
      s' := s1;
    }
  }

  lemma BeginStep(s: State, t: Tid, item: Item)
    requires StateShape(s) && Resting(s, t) && |item| == s.mem.width
    ensures var s' := Step(Step(s, Call(t, item)), Move(t, false));
            && s'.claims == s.claims && s'.released == s.released
            && s'.mem == s.mem.(producers := s.mem.producers[t := LoadSeq(item, s.mem.writePos)])
  {
    var s1 := Step(s, Call(t, item));
    assert s1.mem == s.mem.(producers := s.mem.producers[t := LoadPos(item)]);
  }

  lemma AcceptStep(s: State, t: Tid, item: Item, pos: nat)
    requires StateShape(s) && t in s.mem.producers && s.mem.producers[t] == LoadSeq(item, pos)
    requires s.mem.sequence[Slot(s.mem.cap, pos)] == pos == s.mem.writePos
    ensures var s' := Step(Step(s, Move(t, false)), Move(t, false));
            && s'.claims == s.claims + [Claim(t, item)] && s'.released == s.released
            && s'.mem.width == s.mem.width && s'.mem.consumer == s.mem.consumer
            && s'.mem.producers == s.mem.producers[t := Write(item, pos, 0)]
  {
    var s1 := Step(s, Move(t, false));
    assert s1.mem == s.mem.(producers := s.mem.producers[t := Cas(item, pos)]);
  }

  /** A call left alone loads the position and the free slot's sequence, and claims. */
  lemma SoloClaim(s: State, t: Tid, item: Item) returns (s': State)
    requires StateShape(s) && Resting(s, t) && |item| == s.mem.width
    requires s.mem.sequence[Slot(s.mem.cap, s.mem.writePos)] == s.mem.writePos
    ensures StateShape(s') && Leads(s, s', t)
    ensures s'.claims == s.claims + [Claim(t, item)] && s'.released == s.released
    ensures s'.mem.width == s.mem.width && s'.mem.consumer == s.mem.consumer
    ensures s'.mem.producers == s.mem.producers[t := Write(item, s.mem.writePos, 0)]
  {
    var m := Move(t, false);
    var s1 := Step(s, Call(t, item));
    var s2 := Step(s1, m);
    assert Leads(s, s2, t) by {
      LeadsSelf(s, t);
      LeadsStep(s, s, Call(t, item), t);
      LeadsStep(s, s1, m, t);
    }
    assert t in s2.mem.producers && s2.claims == s.claims && s2.released == s.released
        && s2.mem == s.mem.(producers := s.mem.producers[t := LoadSeq(item, s.mem.writePos)]) by {
      BeginStep(s, t, item);
    }
    s' := SoloAccept(s, s2, t, item);
    UpdateTwice(s.mem.producers, t, s2.mem.producers[t], Write(item, s.mem.writePos, 0));
  }

  lemma SoloAccept(s: State, s2: State, t: Tid, item: Item) returns (s': State)
    requires StateShape(s) && StateShape(s2) && Leads(s, s2, t)
    requires t in s2.mem.producers && s2.mem.producers[t] == LoadSeq(item, s2.mem.writePos)
    requires s2.mem.sequence[Slot(s2.mem.cap, s2.mem.writePos)] == s2.mem.writePos
    ensures StateShape(s') && Leads(s, s', t)
    ensures s'.claims == s2.claims + [Claim(t, item)] && s'.released == s2.released
    ensures s'.mem.width == s2.mem.width && s'.mem.consumer == s2.mem.consumer
    ensures s'.mem.producers == s2.mem.producers[t := Write(item, s2.mem.writePos, 0)]
  {
    var m := Move(t, false);
    AcceptStep(s2, t, item, s2.mem.writePos);
    LeadsStep(s, s2, m, t);
    LeadsStep(s, Step(s2, m), m, t);
    s' := Step(Step(s2, m), m);
  }

  /** An uncontended push onto a ring with room claims the next position and returns true. */
  lemma SoloPush(s: State, t: Tid, item: Item) returns (s': State)
    requires Inv(s) && Resting(s, t) && |item| == s.mem.width
    requires |s.claims| < s.released + s.mem.cap
    ensures Leads(s, s', t) && Inv(s') && s'.mem.cap == s.mem.cap && s'.mem.width == s.mem.width
    ensures s'.claims == s.claims + [Claim(t, item)] && s'.released == s.released
    ensures s'.mem.producers == s.mem.producers[t := Returned(true)] && s'.mem.consumer == s.mem.consumer
  {
    assert SlotOk(s, |s.claims|);
    s' := SoloPushRun(s, t, item);
    LeadsInv(s, s', t);
  }

  lemma SoloPushRun(s: State, t: Tid, item: Item) returns (s': State)
    requires StateShape(s) && Resting(s, t) && |item| == s.mem.width
    requires s.mem.sequence[Slot(s.mem.cap, s.mem.writePos)] == s.mem.writePos
    ensures StateShape(s') && Leads(s, s', t)
    ensures s'.claims == s.claims + [Claim(t, item)] && s'.released == s.released
    ensures s'.mem.producers == s.mem.producers[t := Returned(true)] && s'.mem.consumer == s.mem.consumer
  {
    var s1 := SoloClaim(s, t, item);
    s' := SoloWrite(s, s1, t);
    UpdateTwice(s.mem.producers, t, s1.mem.producers[t], Returned(true));
  }

  lemma CopyStep(s: State)
    requires StateShape(s) && s.mem.consumer.Copy?
    ensures var s' := Step(s, Consume);
            && s'.claims == s.claims && s'.mem.producers == s.mem.producers && s'.mem.width == s.mem.width
            && if |s.mem.consumer.buf| < s.mem.width
               then s'.released == s.released && s'.mem.consumer.Copy?
                    && |s'.mem.consumer.buf| == |s.mem.consumer.buf| + 1
               else s'.released == s.released + 1 && s'.mem.consumer.Bump?
  {
  }

  /** A consumer left alone copies the rest of the item, releases the slot and returns. */
  lemma {:induction false} SoloCopy(start: State, s: State, t: Tid) returns (s': State)
    requires StateShape(start) && Leads(start, s, t) && StateShape(s) && s.mem.consumer.Copy?
    ensures StateShape(s') && Leads(start, s', t) && s'.mem.consumer.Ready?
    ensures s'.claims == s.claims && s'.released == s.released + 1 && s'.mem.producers == s.mem.producers
    decreases s.mem.width - |s.mem.consumer.buf|
  {
    var s1 := Step(s, Consume);
    CopyStep(s);
    LeadsStep(start, s, Consume, t);
    if |s.mem.consumer.buf| < s.mem.width {
      s' := SoloCopy(start, s1, t);
    } else {
      s' := Step(s1, Consume);
      LeadsStep(start, s1, Consume, t);
    }
  }

  /** An uncontended pop of a published position returns the item claimed for it. */
  lemma SoloPop(s: State, t: Tid) returns (s': State)
    requires Inv(s) && s.mem.consumer.Ready? && s.released < |s.claims| && !Owned(s, s.released)
    ensures Leads(s, s', t) && Inv(s') && s'.mem.cap == s.mem.cap && s'.mem.width == s.mem.width
    ensures s'.claims == s.claims && s'.released == s.released + 1
    ensures s'.mem.producers == s.mem.producers && s'.mem.consumer.Ready?
    ensures s'.mem.popped == s.mem.popped + [s.claims[s.released].item]
  {
    CapacityBounds(s.mem.cap);
    assert SlotOk(s, s.released);
    LeadsSelf(s, t);
    LeadsStep(s, s, Consume, t);
    s' := SoloCopy(s, Step(s, Consume), t);
    LeadsInv(s, s', t);
    PoppedNext(s, s');
  }

  lemma PoppedNext(s: State, s': State)
    requires Shape(s.mem) && Shape(s'.mem) && History(s) && History(s') && ConsumerOk(s) && ConsumerOk(s')
    requires s.mem.consumer.Ready? && s'.mem.consumer.Ready?
    requires s'.claims == s.claims && s'.released == s.released + 1
    ensures s'.mem.popped == s.mem.popped + [s.claims[s.released].item]
  {
  }

  // ---------------------------------------------------------------- building a state

  /** Thread 0 at rest and nobody writing, with `waiting` items in the ring after `total` pushes. */
  ghost predicate Loaded(s: State, cap: nat, width: nat, total: nat, waiting: nat) {
    && Inv(s) && s.mem.cap == cap && s.mem.width == width && Resting(s, 0)
    && (forall t :: t in s.mem.producers ==> !s.mem.producers[t].Write?)
    && |s.claims| == total == s.released + waiting
  }

  lemma InitLoaded(cap: nat, width: nat, threads: set<Tid>)
    requires CapacityOk(cap) && 0 in threads
    ensures cap >= 1 && Loaded(Init(cap, width, threads), cap, width, 0, 0)
  {
    InitInv(cap, width, threads);
  }

  lemma InitResting(cap: nat, width: nat, threads: set<Tid>, t: Tid)
    requires cap >= 1 && t in threads
    ensures Resting(Init(cap, width, threads), t)
  {
  }

  lemma LoadOne(s: State, cap: nat, item: Item, total: nat, waiting: nat) returns (s': State)
    requires Loaded(s, cap, |item|, total, waiting) && waiting < cap
    ensures Leads(s, s', 0) && Loaded(s', cap, |item|, total + 1, waiting + 1)
    ensures s'.claims == s.claims + [Claim(0, item)]
  {
    s' := SoloPush(s, 0, item);
  }

  lemma UnloadOne(s: State, cap: nat, width: nat, total: nat, waiting: nat) returns (s': State)
    requires Loaded(s, cap, width, total, waiting) && waiting > 0
    ensures Leads(s, s', 0) && Loaded(s', cap, width, total, waiting - 1)
    ensures s'.claims == s.claims
  {
    s' := SoloPop(s, 0);
  }

  /** Pushing and popping alternately carries the counters to any value. */
  lemma {:induction false} Pump(start: State, cap: nat, item: Item, from: nat, more: nat) returns (s: State)
    requires CapacityOk(cap) && Loaded(start, cap, |item|, from, 0)
    ensures Leads(start, s, 0) && Loaded(s, cap, |item|, from + more, 0)
  {
    if more == 0 {
      s := start;
      LeadsSelf(s, 0);
    } else {
      CapacityBounds(cap);
      var s0 := Pump(start, cap, item, from, more - 1);
      var s1 := LoadOne(s0, cap, item, from + more - 1, 0);
      s := UnloadOne(s1, cap, |item|, from + more, 1);
      LeadsTrans(start, s0, s1, 0);
      LeadsTrans(start, s1, s, 0);
    }
  }

  predicate AllFrom(claims: seq<Claim>, lo: nat, c: Claim) {
    forall p :: lo <= p < |claims| ==> claims[p] == c
  }

  lemma AllFromSnoc(claims: seq<Claim>, lo: nat, c: Claim)
    requires AllFrom(claims, lo, c)
    ensures AllFrom(claims + [c], lo, c)
  {
  }

  /** Pump, and then push `waiting` items that stay. */
  lemma {:induction false} Fill(start: State, cap: nat, item: Item, from: nat, more: nat, waiting: nat)
    returns (s: State)
    requires CapacityOk(cap) && waiting <= cap && Loaded(start, cap, |item|, from, 0)
    ensures Leads(start, s, 0) && Loaded(s, cap, |item|, from + more + waiting, waiting)
    ensures AllFrom(s.claims, s.released, Claim(0, item))
  {
    if waiting == 0 {
      s := Pump(start, cap, item, from, more);
    } else {
      var s0 := Fill(start, cap, item, from, more, waiting - 1);
      s := LoadOne(s0, cap, item, from + more + waiting - 1, waiting - 1);
      LeadsTrans(start, s0, s, 0);
      AllFromSnoc(s0.claims, s0.released, Claim(0, item));
    }
  }

  // ---------------------------------------------------------------- the same for the code

  /** If thread t has a snapshot, it is the current write position. */
  predicate Current(s: State, t: Tid) {
    t in s.mem.producers && (s.mem.producers[t].LoadSeq? || s.mem.producers[t].Cas?) ==>
      s.mem.producers[t].pos == |s.claims|
  }

  lemma AloneStep(s: State, e: Event, t: Tid)
    requires StateShape(s) && Current(s, t) && s.mem.writePos == |s.claims| && (e.Consume? || e.t == t)
    ensures Current(Step(s, e), t)
  {
  }

  /** A producer that runs alone never moves on a stale snapshot, whatever the others hold. */
  lemma {:induction false} AloneFresh(s: State, es: seq<Event>, t: Tid)
    requires Inv(s) && By(es, t) && Current(s, t)
    ensures FreshRun(s, es) && Current(Exec(s, es), t)
  {
    if es != [] {
      var front := es[..|es| - 1];
      AloneFresh(s, front, t);
      ExecInv(s, front);
      ExecCap(s, front);
      AloneStep(Exec(s, front), es[|es| - 1], t);
      AloneMove(Exec(s, front), es[|es| - 1], t);
    }
  }

  lemma AloneMove(s: State, e: Event, t: Tid)
    requires Inv(s) && Current(s, t) && (e.Consume? || e.t == t)
    ensures FreshMove(s, e)
  {
    CapacityBounds(s.mem.cap);
  }

  /** Some schedule without moves on stale snapshots leads from s to s'. */
  ghost predicate Freshly(s: State, s': State)
    requires StateShape(s)
  {
    exists es: seq<Event> :: FreshRun(s, es) && Exec(s, es) == s'
  }

  lemma FreshSnoc(s: State, es: seq<Event>, e: Event)
    requires StateShape(s)
    ensures FreshRun(s, es + [e]) <==> FreshRun(s, es) && FreshMove(Exec(s, es), e)
  {
    assert (es + [e])[..|es|] == es;
  }

  lemma {:induction false} FreshConcat(s: State, a: seq<Event>, b: seq<Event>)
    requires StateShape(s) && FreshRun(s, a) && FreshRun(Exec(s, a), b)
    ensures FreshRun(s, a + b)
    decreases |b|
  {
    if b == [] {
      assert a + b == a;
    } else {
      var front, e := b[..|b| - 1], b[|b| - 1];
      assert b == front + [e];
      FreshSnoc(Exec(s, a), front, e);
      FreshConcat(s, a, front);
      ExecConcat(s, a, front);
      FreshSnoc(s, a + front, e);
      assert a + b == (a + front) + [e];
    }
  }

  /** Fresh so far, and then thread t alone. */
  lemma FreshlyAlone(s: State, s1: State, s2: State, t: Tid)
    requires Inv(s) && StateShape(s1) && Freshly(s, s1) && Leads(s1, s2, t) && Current(s1, t)
    ensures Freshly(s, s2)
  {
    var a :| FreshRun(s, a) && Exec(s, a) == s1;
    var b :| Via(s1, b, s2, t);
    ExecInv(s, a);
    AloneFresh(s1, b, t);
    FreshConcat(s, a, b);
    ExecConcat(s, a, b);
  }

  lemma FreshlyStep(s: State, s1: State, e: Event)
    requires StateShape(s) && StateShape(s1) && Freshly(s, s1) && FreshMove(s1, e)
    ensures Freshly(s, Step(s1, e))
  {
    var a :| FreshRun(s, a) && Exec(s, a) == s1;
    ExecSnoc(s, a, e);
    FreshSnoc(s, a, e);
  }

  /** A state freshly reached is one the code reaches, its counters truncated. */
  lemma FreshlyCode(cap: nat, width: nat, threads: set<Tid>, s: State) returns (es: seq<Event>)
    requires CapacityOk(cap) && cap >= 1 && Freshly(Init(cap, width, threads), s)
    ensures FreshRun(Init(cap, width, threads), es)
    ensures Reached(cap, width, threads, es) == s && CodeReached(cap, width, threads, es) == Truncate(s.mem)
  {
    es :| FreshRun(Init(cap, width, threads), es) && Exec(Init(cap, width, threads), es) == s;
    CodeRefines(cap, width, threads, es);
  }
}
