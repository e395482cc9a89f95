/** The ring buffer and the backend as objects, used by one thread at a time: the embedded mode
    without a worker thread, and the tail of `Stop` after the worker has been joined. */
module RingObject {
  import opened Bits
  import opened MpscRing
  import opened MpscSafety
  import opened MpscWrap

  /** Slot k of the window starting at position `base`: an item of `contents`, or free. */
  predicate SlotHolds(cap: nat, sequence: seq<nat>, data: seq<Item>, base: nat, contents: seq<Item>, k: nat)
    requires |sequence| == |data| == cap >= 1
  {
    var i := Slot(cap, base + k);
    if k < |contents|
    then sequence[i] == (base + k + 1) % TWO32 && data[i] == contents[k]
    else sequence[i] == (base + k) % TWO32
  }

  /** At rest, the slots hold exactly `contents`, oldest first, from unbounded position `base`. */
  ghost predicate Holds(cap: nat, sequence: seq<nat>, data: seq<Item>, base: nat, contents: seq<Item>) {
    && CapacityOk(cap) && |sequence| == |data| == cap >= 1 && |contents| <= cap
    && forall k: nat :: k < cap ==> SlotHolds(cap, sequence, data, base, contents, k)
  }

  /** Every concurrent run that comes to rest leaves such slots: the object below can take over
      from it, holding the claimed and unpopped entries. */
  lemma QuietHolds(s: State)
    requires Inv(s) && s.mem.consumer.Ready?
    requires forall t :: t in s.mem.producers ==> !s.mem.producers[t].Write?
    ensures Holds(s.mem.cap, TruncateSeq(s.mem.sequence), s.mem.data, s.released, Items(s.claims[s.released..]))
  {
    var contents := Items(s.claims[s.released..]);
    forall k: nat | k < s.mem.cap
      ensures SlotHolds(s.mem.cap, TruncateSeq(s.mem.sequence), s.mem.data, s.released, contents, k)
    {
      assert SlotOk(s, s.released + k);
    }
  }

  lemma PushHolds(cap: nat, sequence: seq<nat>, data: seq<Item>, base: nat, contents: seq<Item>, item: Item)
    requires Holds(cap, sequence, data, base, contents) && |contents| < cap
    ensures var i := Slot(cap, base + |contents|);
            Holds(cap, sequence[i := (base + |contents| + 1) % TWO32], data[i := item], base, contents + [item])
  {
    var i, n := Slot(cap, base + |contents|), |contents|;
    var sequence', data' := sequence[i := (base + n + 1) % TWO32], data[i := item];
    forall k: nat | k < cap ensures SlotHolds(cap, sequence', data', base, contents + [item], k) {
      assert SlotHolds(cap, sequence, data, base, contents, k);
      SlotInjective(cap, base, base + k, base + n);
    }
  }

  lemma PopHolds(cap: nat, sequence: seq<nat>, data: seq<Item>, base: nat, contents: seq<Item>)
    requires Holds(cap, sequence, data, base, contents) && contents != []
    ensures Holds(cap, sequence[Slot(cap, base) := (base + cap) % TWO32], data, base + 1, contents[1..])
  {
    var sequence' := sequence[Slot(cap, base) := (base + cap) % TWO32];
    var base', rest := base + 1, contents[1..];
    forall k: nat | k < cap ensures SlotHolds(cap, sequence', data, base', rest, k) {
      if k + 1 < cap {
        assert SlotHolds(cap, sequence, data, base, contents, k + 1);
        SlotInjective(cap, base, base, base + (k + 1));
        assert base' + k == base + (k + 1);
      } else {
        assert base' + k == base + cap;
        SlotNextLap(cap, base);
      }
    }
  }

  /** What a push sees in its slot: its own position if there is room; otherwise a sequence that is
      smaller, as 32-bit numbers, exactly if the write counter is at least Capacity - 1. */
  lemma Looked(cap: nat, sequence: seq<nat>, data: seq<Item>, base: nat, contents: seq<Item>)
    requires Holds(cap, sequence, data, base, contents)
    ensures cap >= 1 && Slot(cap, (base + |contents|) % TWO32) == Slot(cap, base + |contents|)
    ensures var pos, read := (base + |contents|) % TWO32, sequence[Slot(cap, base + |contents|)];
            && (read == pos <==> |contents| < cap)
            && (|contents| == cap ==> (read < pos <==> pos >= cap - 1))
  {
    CapacityBounds(cap);
    SlotTruncated(cap, base + |contents|);
    if |contents| == cap {
      SlotNextLap(cap, base);
      assert SlotHolds(cap, sequence, data, base, contents, 0);
      BorrowExact(base + cap, cap - 1);
    } else {
      assert SlotHolds(cap, sequence, data, base, contents, |contents|);
    }
  }

  /** How TryPush ends; or that it keeps reloading the same position on a full ring. */
  datatype Outcome = Pushed | Full | Spinning

  class RingBuffer {
    const cap: nat
    const sequence: array<nat>
    const data: array<Item>
    var writePos: nat
    var readPos: nat
    ghost var base: nat              // readPos as an unbounded position
    ghost var contents: seq<Item>

    ghost predicate Valid()
      reads this, sequence, data
    {
      && sequence.Length == data.Length == cap
      && Holds(cap, sequence[..], data[..], base, contents)
      && readPos == base % TWO32 && writePos == (base + |contents|) % TWO32
    }

    constructor (capacity: nat)
      requires CapacityOk(capacity)
      ensures Valid() && contents == [] && cap == capacity && base == 0
      ensures fresh(sequence) && fresh(data)
    {
      cap := capacity;
      sequence := new nat[capacity];
      data := new Item[capacity];
      writePos, readPos := 0, 0;
      base, contents := 0, [];
      new;
      CapacityBounds(cap);
      for i := 0 to cap
        modifies sequence
        invariant forall j :: 0 <= j < i ==> sequence[j] == j
      {
        sequence[i] := i;
      }
      forall k: nat | k < cap ensures SlotHolds(cap, sequence[..], data[..], base, contents, k) {
        SlotIsMod(cap, k);
        RemainderUnique(k, cap, 0, k);
      }
    }

    /** `spurious` is the number of times the weak compare-exchange fails for no reason. The source
        reloads without limit; here `patience` says after how many reloads the call is given up as
        spinning. It spins, for every patience, exactly if the ring is full and the 32-bit write
        counter is below Capacity - 1. */
    method TryPush(item: Item, spurious: nat, patience: nat) returns (outcome: Outcome)
      requires Valid()
      modifies this, sequence, data
      ensures Valid() && base == old(base)
      ensures outcome == Pushed <==> |old(contents)| < cap
      ensures outcome == Full <==> |old(contents)| == cap && old(writePos) >= cap - 1
      ensures contents == if outcome == Pushed then old(contents) + [item] else old(contents)
    {
      var pos := writePos;
      var failures, left := spurious, patience;
      while true
        invariant Valid() && pos == writePos == old(writePos)
        invariant base == old(base) && contents == old(contents)
        decreases failures + left
      {
        var i := And(pos, cap - 1);
        var read := sequence[i];
        Looked(cap, sequence[..], data[..], base, contents);
        if read == pos {
          if failures == 0 {
            PushHolds(cap, sequence[..], data[..], base, contents, item);
            AddTruncated(base + |contents|, 1);
            writePos := (pos + 1) % TWO32;
            data[i] := item;
            sequence[i] := (pos + 1) % TWO32;
            contents := contents + [item];
            return Pushed;
          }
          failures := failures - 1;
          pos := writePos;
        } else if read < pos {
          return Full;
        } else {
          if left == 0 { return Spinning; }
          left := left - 1;
          pos := writePos;
        }
      }
    }

    method TryPop() returns (ok: bool, item: Item)
      requires Valid()
      modifies this, sequence
      ensures Valid()
      ensures ok <==> old(contents) != []
      ensures ok ==> item == old(contents)[0] && contents == old(contents)[1..] && base == old(base) + 1
      ensures !ok ==> contents == old(contents) && base == old(base)
    {
      CapacityBounds(cap);
      SlotTruncated(cap, base);
      var i := And(readPos, cap - 1);
      assert SlotHolds(cap, sequence[..], data[..], base, contents, 0);
      CongruentClose(base, base + 1, TWO32);
      AddTruncated(base, 1);
      AddTruncated(base, cap);
      if sequence[i] == (readPos + 1) % TWO32 {
        PopHolds(cap, sequence[..], data[..], base, contents);
        item := data[i];
        sequence[i] := (readPos + cap) % TWO32;
        readPos := (readPos + 1) % TWO32;
        base, contents := base + 1, contents[1..];
        ok := true;
      } else {
        ok, item := false, [];
      }
    }

    method Empty() returns (empty: bool)
      requires Valid()
      ensures empty <==> contents == []
    {
      SlotTruncated(cap, base);
      assert SlotHolds(cap, sequence[..], data[..], base, contents, 0);
      CongruentClose(base, base + 1, TWO32);
      AddTruncated(base, 1);
      empty := sequence[And(readPos, cap - 1)] != (readPos + 1) % TWO32;
    }
  }

  class LoggerBackend {
    const ring: RingBuffer
    var sinks: seq<seq<Item>>       // the entries each sink has been handed
    var flushed: seq<nat>           // how many each had at its last Flush
    var running: bool

    ghost predicate Valid()
      reads this, ring, ring.sequence, ring.data
    {
      ring.Valid() && |flushed| == |sinks|
    }

    constructor (capacity: nat, sinkCount: nat)
      requires CapacityOk(capacity)
      ensures Valid() && fresh(ring) && fresh(ring.sequence) && fresh(ring.data)
      ensures ring.contents == [] && |sinks| == sinkCount && forall j :: 0 <= j < sinkCount ==> sinks[j] == []
    {
      ring := new RingBuffer(capacity);
      sinks := seq(sinkCount, _ => []);
      flushed := seq(sinkCount, _ => 0);
      running := false;
    }

    method Dispatch(entry: Item)
      requires |flushed| == |sinks|
      modifies this`sinks
      ensures |sinks| == |old(sinks)|
      ensures forall j :: 0 <= j < |sinks| ==> sinks[j] == old(sinks)[j] + [entry]
    {
      for k := 0 to |sinks|
        invariant |sinks| == |old(sinks)|
        invariant forall j :: 0 <= j < k ==> sinks[j] == old(sinks)[j] + [entry]
        invariant forall j :: k <= j < |sinks| ==> sinks[j] == old(sinks)[j]
      {
        sinks := sinks[k := sinks[k] + [entry]];
      }
    }

    /** Hands over the oldest entries, at most `max`, to every sink and in order. */
    method Drain(max: nat) returns (count: nat)
      requires Valid()
      modifies this`sinks, ring, ring.sequence
      ensures Valid()
      ensures count == if max < |old(ring.contents)| then max else |old(ring.contents)|
      ensures ring.contents == old(ring.contents)[count..]
      ensures |sinks| == |old(sinks)|
      ensures forall j :: 0 <= j < |sinks| ==> sinks[j] == old(sinks)[j] + old(ring.contents)[..count]
    {
      count := 0;
      ghost var queue := ring.contents;
      while count < max
        invariant Valid() && count <= max && count <= |queue|
        invariant ring.contents == queue[count..]
        invariant |sinks| == |old(sinks)|
        invariant forall j :: 0 <= j < |sinks| ==> sinks[j] == old(sinks)[j] + queue[..count]
      {
        var ok, entry := ring.TryPop();
        if !ok { break; }
        assert queue[..count + 1] == queue[..count] + [entry];
        Dispatch(entry);
        count := count + 1;
      }
    }

    /** Runs after the worker, if any, has been joined: empties the ring into every sink in
        batches of 64, then flushes. */
    method Stop()
      requires Valid()
      modifies this, ring, ring.sequence
      ensures Valid() && !running && ring.contents == []
      ensures |sinks| == |old(sinks)|
      ensures forall j :: 0 <= j < |sinks| ==>
                sinks[j] == old(sinks)[j] + old(ring.contents) && flushed[j] == |sinks[j]|
    {
      running := false;
      ghost var queue := ring.contents;
      ghost var done := 0;
      var drained := 1;
      while drained > 0
        invariant Valid() && done <= |queue| && !running
        invariant ring.contents == queue[done..]
        invariant drained == 0 ==> done == |queue|
        invariant |sinks| == |old(sinks)|
        invariant forall j :: 0 <= j < |sinks| ==> sinks[j] == old(sinks)[j] + queue[..done]
        decreases |queue| - done, drained
      {
        drained := Drain(64);
        assert queue[..done + drained] == queue[..done] + queue[done..][..drained];
        done := done + drained;
      }
      assert queue[..done] == queue;
      for k := 0 to |sinks|
        invariant Valid() && !running && ring.contents == [] && |flushed| == |sinks| == |old(sinks)|
        invariant forall j :: 0 <= j < |sinks| ==> sinks[j] == old(sinks)[j] + queue
        invariant forall j :: 0 <= j < k ==> flushed[j] == |sinks[j]|
      {
        flushed := flushed[k := |sinks[k]|];
      }
    }
  }
}
