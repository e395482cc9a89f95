/** Which capacities work. The ring's static assertion admits every power of two; capacity 1 is one
    of them, and there "published" and "free again" are the same sequence number. */
module MpscCapacity {
  import opened Bits
  import opened MpscRing
  import opened MpscSafety
  import opened MpscWrap

  /** More positions are claimed and unreleased than there are slots. */
  predicate Overruns(cap: nat, width: nat, threads: set<Tid>, es: seq<Event>)
    requires cap >= 1
  {
    var s := Reached(cap, width, threads, es);
    |s.claims| > s.released + cap
  }

  /** One slot of one word, thread 0 alone in phase p, and n positions claimed. */
  predicate At(s: State, n: nat, sequence: nat, word: Word, p: Producer) {
    && s.mem.cap == 1 && s.mem.width == 1 && s.mem.sequence == [sequence] && s.mem.data == [[word]]
    && s.mem.writePos == n == |s.claims| && s.released == 0
    && 0 in s.mem.producers && s.mem.producers[0] == p
  }

  const GO: Event := Move(0, false)

  lemma SlotZero(pos: nat)
    ensures Slot(1, pos) == 0
  {
  }

  lemma StepCall(s: State, n: nat, sequence: nat, word: Word, p: Producer, item: Item)
    requires StateShape(s) && At(s, n, sequence, word, p) && (p.Idle? || p.Returned?) && |item| == 1
    ensures At(Step(Step(s, Call(0, item)), GO), n, sequence, word, LoadSeq(item, n))
  {
    assert At(Step(s, Call(0, item)), n, sequence, word, LoadPos(item));
  }

  lemma StepClaim(s: State, n: nat, word: Word, item: Item)
    requires StateShape(s) && At(s, n, n, word, LoadSeq(item, n))
    ensures At(Step(Step(s, GO), GO), n + 1, n, word, Write(item, n, 0))
  {
    SlotZero(n);
    assert At(Step(s, GO), n, n, word, Cas(item, n));
  }

  lemma StepWrite(s: State, n: nat, word: Word, item: Item)
    requires StateShape(s) && At(s, n + 1, n, word, Write(item, n, 0)) && |item| == 1
    ensures At(Step(Step(s, GO), GO), n + 1, n + 1, item[0], Returned(true))
  {
    SlotZero(n);
    assert [word][0 := item[0]] == [item[0]] && [[word]][0 := [item[0]]] == [[item[0]]];
    assert Step(s, GO).mem.data == [[item[0]]];
    assert At(Step(s, GO), n + 1, n, item[0], Write(item, n, 1));
  }

  /** On the one-slot ring a push finds the slot free whatever it holds, and returns true. */
  lemma PushAgain(es: seq<Event>, n: nat, word: Word, p: Producer, item: Item) returns (es': seq<Event>)
    requires At(Reached(1, 1, {0}, es), n, n, word, p) && (p.Idle? || p.Returned?) && |item| == 1
    ensures At(Reached(1, 1, {0}, es'), n + 1, n + 1, item[0], Returned(true))
  {
    var e1 := es + [Call(0, item)];
    var e2 := e1 + [GO];
    var e4 := e2 + [GO] + [GO];
    var init := Init(1, 1, {0});
    ExecSnoc(init, es, Call(0, item));
    ExecSnoc(init, e1, GO);
    StepCall(Exec(init, es), n, n, word, p, item);
    ExecSnoc(init, e2, GO);
    ExecSnoc(init, e2 + [GO], GO);
    StepClaim(Exec(init, e2), n, word, item);
    ExecSnoc(init, e4, GO);
    ExecSnoc(init, e4 + [GO], GO);
    StepWrite(Exec(init, e4), n, word, item);
    es' := e4 + [GO] + [GO];
  }

  /** Two pushes in a row both return true on the one-slot ring, and the first item is gone. */
  lemma CapacityOneOverwrites(a: Word, b: Word) returns (es: seq<Event>)
    ensures At(Reached(1, 1, {0}, es), 2, 2, b, Returned(true)) && Overruns(1, 1, {0}, es)
  {
    assert Reached(1, 1, {0}, []) == Init(1, 1, {0});
    assert At(Init(1, 1, {0}), 0, 0, 0, Idle) by {
      var m := InitMemory(1, 1, {0});
      assert m.sequence == [0];
      assert m.data[0] == [0] && m.data == [[0]];
    }
    es := PushAgain([], 0, 0, Idle, [a]);
    es := PushAgain(es, 1, a, Returned(true), [b]);
  }

  /** Among the capacities the assertion admits, exactly capacity 1 can be overrun, whatever the
      items' size and the number of producers. */
  lemma CapacityExactly(k: nat)
    requires k <= 31
    ensures (exists width: nat, threads: set<Tid>, es: seq<Event> :: Overruns(Pow2(k), width, threads, es))
            <==> Pow2(k) == 1
  {
    if k == 0 {
      var es := CapacityOneOverwrites(1, 2);
      assert Overruns(Pow2(k), 1, {0}, es);
    } else {
      assert Pow2(k) == 2 * Pow2(k - 1);
      assert CapacityOk(Pow2(k));
      forall width: nat, threads: set<Tid>, es: seq<Event> ensures !Overruns(Pow2(k), width, threads, es) {
        ReachedInv(Pow2(k), width, threads, es);
      }
    }
  }
}
