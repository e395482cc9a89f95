/** What the ring promises in every reachable state of every schedule. */
module MpscSafety {
  import opened MpscRing

  /** The state after a schedule, from the constructor's state. */
  function Reached(cap: nat, width: nat, threads: set<Tid>, es: seq<Event>): State
    requires cap >= 1
  {
    Exec(Init(cap, width, threads), es)
  }

  lemma ReachedInv(cap: nat, width: nat, threads: set<Tid>, es: seq<Event>)
    requires CapacityOk(cap)
    ensures cap >= 1 && Inv(Reached(cap, width, threads, es))
    ensures Reached(cap, width, threads, es).mem.cap == cap
    ensures Reached(cap, width, threads, es).mem.producers.Keys == threads
  {
    InitInv(cap, width, threads);
    ExecInv(Init(cap, width, threads), es);
    ExecCap(Init(cap, width, threads), es);
  }

  lemma {:induction false} ExecCap(s: State, es: seq<Event>)
    requires StateShape(s)
    ensures Exec(s, es).mem.cap == s.mem.cap && Exec(s, es).mem.width == s.mem.width
    ensures Exec(s, es).mem.producers.Keys == s.mem.producers.Keys
  {
    if es != [] { ExecCap(s, es[..|es| - 1]); }
  }

  // ---------------------------------------------------------------- who may touch what

  datatype Thread = Pushing(t: Tid) | Popping

  /** The thread is in a phase in which it reads or writes the data of slot i. */
  predicate Touches(m: Memory, who: Thread, i: nat)
    requires m.cap >= 1
  {
    match who
    case Pushing(t) =>
      t in m.producers && m.producers[t].Write? && Slot(m.cap, m.producers[t].pos) == i
    case Popping => m.consumer.Copy? && Slot(m.cap, m.readPos) == i
  }

  lemma InvExclusive(s: State, a: Thread, b: Thread, i: nat)
    requires Inv(s) && Touches(s.mem, a, i) && Touches(s.mem, b, i)
    ensures a == b
  {
    var p := Touching(s, a, i);
    var q := Touching(s, b, i);
    SlotInjective(s.mem.cap, s.released, p, q);
  }

  /** No slot's data is ever touched by two threads at once. */
  lemma Exclusive(cap: nat, width: nat, threads: set<Tid>, es: seq<Event>, a: Thread, b: Thread, i: nat)
    requires CapacityOk(cap)
    ensures cap >= 1
    ensures var m := Reached(cap, width, threads, es).mem;
            m.cap >= 1 && (Touches(m, a, i) && Touches(m, b, i) ==> a == b)
  {
    ReachedInv(cap, width, threads, es);
    var s := Reached(cap, width, threads, es);
    if Touches(s.mem, a, i) && Touches(s.mem, b, i) { InvExclusive(s, a, b, i); }
  }

  /** A touching thread works for one window position; a writer holds its claim, and a
      position being read is published. */
  lemma Touching(s: State, who: Thread, i: nat) returns (p: nat)
    requires Inv(s) && Touches(s.mem, who, i)
    ensures s.released <= p < |s.claims| && Slot(s.mem.cap, p) == i
    ensures who.Pushing? ==> s.claims[p].tid == who.t && s.mem.sequence[i] == p
    ensures who.Popping? ==> s.mem.sequence[i] == p + 1
  {
    match who
    case Pushing(t) =>
      assert ProducerOk(s, t);
      p := s.mem.producers[t].pos;
    case Popping =>
      p := s.released;
  }

  /** Window bounds, and the meaning of a slot's sequence: with p the one window position that
      uses the slot, p + 1 means published, p means free (p not yet claimed) or being written by
      the one thread that claimed p; no other value occurs. */
  lemma SlotMeaning(cap: nat, width: nat, threads: set<Tid>, es: seq<Event>, p: nat)
    requires CapacityOk(cap)
    ensures cap >= 1
    ensures var s := Reached(cap, width, threads, es);
            && s.released <= |s.claims| <= s.released + cap
            && s.mem.cap == cap == |s.mem.sequence| == |s.mem.data|
    ensures var s := Reached(cap, width, threads, es);
            s.released <= p < s.released + cap ==>
              var seen := s.mem.sequence[Slot(cap, p)];
              && (seen == p || seen == p + 1)
              && (seen == p + 1 <==> p < |s.claims| && !Owned(s, p))
              && (seen == p + 1 ==> s.mem.data[Slot(cap, p)] == s.claims[p].item)
              && (forall q :: s.released <= q < s.released + cap && Slot(cap, q) == Slot(cap, p) ==> q == p)
  {
    ReachedInv(cap, width, threads, es);
    var s := Reached(cap, width, threads, es);
    if s.released <= p < s.released + cap {
      assert SlotOk(s, p);
      if p < |s.claims| && Owned(s, p) {
        assert ProducerOk(s, s.claims[p].tid);
      }
      forall q | s.released <= q < s.released + cap && Slot(cap, q) == Slot(cap, p) ensures q == p {
        SlotInjective(cap, s.released, p, q);
      }
    }
  }

  /** Two writers never hold the same position. */
  lemma ClaimedOnce(cap: nat, width: nat, threads: set<Tid>, es: seq<Event>, t: Tid, u: Tid)
    requires CapacityOk(cap)
    ensures cap >= 1
    ensures var ps := Reached(cap, width, threads, es).mem.producers;
            t in ps && u in ps && ps[t].Write? && ps[u].Write? && ps[t].pos == ps[u].pos ==> t == u
  {
    ReachedInv(cap, width, threads, es);
    var s := Reached(cap, width, threads, es);
    if t in s.mem.producers && u in s.mem.producers {
      assert ProducerOk(s, t) && ProducerOk(s, u);
    }
  }

  // ---------------------------------------------------------------- first in, first out

  function Items(claims: seq<Claim>): (r: seq<Item>)
    ensures |r| == |claims|
    ensures forall i :: 0 <= i < |claims| ==> r[i] == claims[i].item
  {
    seq(|claims|, i requires 0 <= i < |claims| => claims[i].item)
  }

  lemma {:induction false} MinePrefix(claims: seq<Claim>, n: nat, t: Tid)
    requires n <= |claims|
    ensures Mine(claims[..n], t) <= Mine(claims, t)
  {
    if n == |claims| {
      assert claims[..n] == claims;
    } else {
      var front := claims[..|claims| - 1];
      MinePrefix(front, n, t);
      assert front[..n] == claims[..n];
    }
  }

  /** The items popped are exactly the first claimed items, whole and in claim order. */
  lemma Fifo(cap: nat, width: nat, threads: set<Tid>, es: seq<Event>)
    requires CapacityOk(cap)
    ensures cap >= 1
    ensures var s := Reached(cap, width, threads, es);
            && |s.mem.popped| <= s.released <= |s.mem.popped| + 1
            && |s.mem.popped| <= |s.claims|
            && s.mem.popped == Items(s.claims[..|s.mem.popped|])
  {
    ReachedInv(cap, width, threads, es);
  }

  /** A claim of thread t at or behind position n is not among t's first n positions. */
  lemma {:induction false} MineShorter(claims: seq<Claim>, n: nat, q: nat, t: Tid)
    requires n <= q < |claims| && claims[q].tid == t
    ensures |Mine(claims[..n], t)| < |Mine(claims, t)|
  {
    var front := claims[..|claims| - 1];
    assert front[..n] == claims[..n];
    if q == |claims| - 1 { MinePrefix(front, n, t); } else { MineShorter(front, n, q, t); }
  }

  lemma PoppedArePushed(s: State, t: Tid)
    requires Inv(s) && t in s.mem.producers
    ensures |s.mem.popped| <= |s.claims| && Mine(s.claims[..|s.mem.popped|], t) <= s.mem.pushed[t]
  {
    MinePrefix(s.claims, |s.mem.popped|, t);
    assert ProducerOk(s, t);
    if s.mem.producers[t].Write? {
      MineShorter(s.claims, |s.mem.popped|, s.mem.producers[t].pos, t);
    }
  }

  /** The popped items of each thread are, in order, the first items that thread pushed. */
  lemma FifoPerThread(cap: nat, width: nat, threads: set<Tid>, es: seq<Event>, t: Tid)
    requires CapacityOk(cap) && t in threads
    ensures cap >= 1
    ensures var s := Reached(cap, width, threads, es);
            && |s.mem.popped| <= |s.claims| && t in s.mem.pushed
            && Mine(s.claims[..|s.mem.popped|], t) <= s.mem.pushed[t]
  {
    ReachedInv(cap, width, threads, es);
    PoppedArePushed(Reached(cap, width, threads, es), t);
  }

  // ---------------------------------------------------------------- full

  /** No counter or sequence number has reached 2^32 yet. */
  predicate Unwrapped(s: State) {
    |s.claims| + s.mem.cap <= TWO32
  }

  lemma Decision(s: State, t: Tid, spurious: bool)
    requires StateShape(s) && t in s.mem.producers && s.mem.producers[t].LoadSeq?
    ensures var LoadSeq(item, pos) := s.mem.producers[t];
            Step(s, Move(t, spurious)).mem.producers[t]
              == Look(item, pos, s.mem.sequence[Slot(s.mem.cap, pos)])
  {
  }

  /** Before wrapping, the loaded sequence and the snapshot compare as unbounded numbers do. */
  lemma UnwrappedLook(item: Item, pos: nat, read: nat)
    requires pos < TWO32 && read < TWO32
    ensures Look(item, pos, read) ==
              if read == pos then Cas(item, pos) else if read < pos then Returned(false) else LoadPos(item)
  {
  }

  lemma UnwrappedDecision(s: State, t: Tid)
    requires Inv(s) && t in s.mem.producers && s.mem.producers[t].LoadSeq? && Unwrapped(s)
    ensures s.mem.cap >= 1
    ensures var LoadSeq(item, pos) := s.mem.producers[t];
            var p' := Look(item, pos, s.mem.sequence[Slot(s.mem.cap, pos)]);
            && (p' == Returned(false) <==> pos == |s.claims| == s.released + s.mem.cap)
            && (p' == LoadPos(item) ==> pos < |s.claims|)
            && (p' == Cas(item, pos) || p' == Returned(false) || p' == LoadPos(item))
  {
    var LoadSeq(item, pos) := s.mem.producers[t];
    assert ProducerOk(s, t);
    CapacityBounds(s.mem.cap);
    SlotReading(s, t);
    UnwrappedLook(item, pos, s.mem.sequence[Slot(s.mem.cap, pos)]);
  }

  /** Before wrapping, TryPush decides to return false exactly when, at its load of the slot's
      sequence, every slot is claimed and none released (W = R + Capacity), however old its
      position snapshot is. */
  lemma FalseMeansFull(cap: nat, width: nat, threads: set<Tid>, es: seq<Event>, t: Tid, spurious: bool)
    requires CapacityOk(cap)
    ensures cap >= 1
    ensures var s := Reached(cap, width, threads, es);
            Unwrapped(s) && t in s.mem.producers && s.mem.producers[t].LoadSeq? ==>
              (Step(s, Move(t, spurious)).mem.producers[t] == Returned(false)
               <==> s.mem.producers[t].pos == |s.claims| == s.released + cap)
  {
    ReachedInv(cap, width, threads, es);
    var s := Reached(cap, width, threads, es);
    if Unwrapped(s) && t in s.mem.producers && s.mem.producers[t].LoadSeq? {
      UnwrappedDecision(s, t);
      Decision(s, t, spurious);
    }
  }
}
