/** `WorkQueueImpl`: a ring of slots whose indices the consumer moves back. */
module RingBuffer {
  import opened Bytes
  import opened Common

  /** `p % size` in the first three rounds. */
  function SlotOf(size: nat, p: nat): (i: nat)
    requires p < 3 * size
    ensures i < size
  {
    if p < size then p else if p < 2 * size then p - size else p - 2 * size
  }

  lemma AtLeast(size: nat, d: int)
    ensures d >= 1 ==> size * d >= size
    ensures d <= -1 ==> size * d + size <= 0
  {
  }

  lemma Remainder(size: nat, p: nat, d: nat, r: nat)
    requires r < size && p == size * d + r
    ensures p % size == r
  {
    var d', r' := p / size, p % size;
    assert size * (d - d') == size * d - size * d' == r' - r;
    AtLeast(size, d - d');
  }

  lemma SlotIsModulo(size: nat, p: nat)
    requires p < 3 * size
    ensures p % size == SlotOf(size, p)
  {
    Remainder(size, p, if p < size then 0 else if p < 2 * size then 1 else 2, SlotOf(size, p));
  }

  /** What the live slots hold, oldest first. */
  function Live<T>(slots: seq<T>, head: nat, tail: nat): (s: seq<T>)
    requires tail <= head <= tail + |slots| && tail <= |slots|
    ensures |s| == head - tail
  {
    seq(head - tail, k requires 0 <= k < head - tail => slots[SlotOf(|slots|, tail + k)])
  }

  lemma LivePushed<T>(slots: seq<T>, head: nat, tail: nat, e: T)
    requires tail <= head < tail + |slots| && tail <= |slots|
    ensures Live(slots[SlotOf(|slots|, head) := e], head + 1, tail) == Live(slots, head, tail) + [e]
  {
    var before := Live(slots, head, tail);
    var after := Live(slots[SlotOf(|slots|, head) := e], head + 1, tail);
    forall k | 0 <= k < head - tail ensures after[k] == before[k] {
      assert SlotOf(|slots|, tail + k) != SlotOf(|slots|, head);
    }
    assert tail + (head - tail) == head && after[head - tail] == e;
  }

  lemma LiveMoved<T>(slots: seq<T>, head: nat, tail: nat)
    requires tail <= head <= tail + |slots| && tail == |slots|
    ensures Live(slots, head, tail) == Live(slots, head - |slots|, 0)
  {
    var before, after := Live(slots, head, tail), Live(slots, head - |slots|, 0);
    forall k | 0 <= k < head - tail ensures after[k] == before[k] {
      assert SlotOf(|slots|, tail + k) == SlotOf(|slots|, k);
    }
  }

  // ------------------------------------------------------------------ the bounded queue

  datatype Op<T> = Push(event: T) | Pop

  function Offer<T>(size: nat, s: seq<T>, e: T): seq<T> {
    if |s| == size then s else s + [e]
  }

  /** The contents after `ops`, and what was popped. */
  function After<T>(size: nat, s: seq<T>, ops: seq<Op<T>>): (seq<T>, seq<T>)
    requires PopsPossible(size, s, ops)
    decreases |ops|, 1
  {
    if ops == [] then (s, [])
    else
      var (t, popped) := After(size, s, ops[..|ops| - 1]);
      match ops[|ops| - 1]
      case Push(e) => (Offer(size, t, e), popped)
      case Pop => (t[1..], popped + [t[0]])
  }

  predicate PopsPossible<T>(size: nat, s: seq<T>, ops: seq<Op<T>>)
    decreases |ops|, 0
  {
    ops == [] || (PopsPossible(size, s, ops[..|ops| - 1])
                  && (ops[|ops| - 1].Pop? ==> After(size, s, ops[..|ops| - 1]).0 != []))
  }

  lemma {:induction false} PossiblePrefix<T>(size: nat, s: seq<T>, ops: seq<Op<T>>, n: nat)
    requires n <= |ops| && PopsPossible(size, s, ops)
    ensures PopsPossible(size, s, ops[..n])
  {
    if n == |ops| {
      assert ops[..n] == ops;
    } else {
      PossiblePrefix(size, s, ops[..|ops| - 1], n);
      assert ops[..|ops| - 1][..n] == ops[..n];
    }
  }

  /** The pushes that found room. */
  function Accepted<T>(size: nat, s: seq<T>, ops: seq<Op<T>>): seq<T>
    requires PopsPossible(size, s, ops)
  {
    if ops == [] then []
    else
      var front, last := ops[..|ops| - 1], ops[|ops| - 1];
      Accepted(size, s, front)
      + if last.Push? && |After(size, s, front).0| != size then [last.event] else []
  }

  function Pushes<T>(ops: seq<Op<T>>): seq<T> {
    if ops == [] then []
    else
      var last := ops[|ops| - 1];
      Pushes(ops[..|ops| - 1]) + if last.Push? then [last.event] else []
  }

  /** First in, first out, over every run: what was popped followed by what is queued is what was queued
      at first followed by the accepted events, in order; and never more than `size` are queued. */
  lemma {:induction false} FirstInFirstOut<T>(size: nat, s: seq<T>, ops: seq<Op<T>>)
    requires |s| <= size && PopsPossible(size, s, ops)
    ensures var (t, popped) := After(size, s, ops);
            popped + t == s + Accepted(size, s, ops) && |t| <= size
  {
    if ops == [] {
      assert [] + s == s + [];
    } else {
      var front, last := ops[..|ops| - 1], ops[|ops| - 1];
      FirstInFirstOut(size, s, front);
      var (t, popped) := After(size, s, front);
      var accepted := Accepted(size, s, front);
      if last.Pop? {
        assert t == [t[0]] + t[1..];
        Assoc(popped, [t[0]], t[1..]);
        assert accepted + [] == accepted;
      } else if |t| == size {
        assert accepted + [] == accepted;
      } else {
        Assoc(popped, t, [last.event]);
        Assoc(s, accepted, [last.event]);
      }
    }
  }

  /** Nothing is dropped as long as the pushes cannot outnumber the free slots. */
  lemma {:induction false} NothingDropped<T>(size: nat, s: seq<T>, ops: seq<Op<T>>)
    requires PopsPossible(size, s, ops) && |s| + |Pushes(ops)| <= size
    ensures Accepted(size, s, ops) == Pushes(ops) && |After(size, s, ops).0| <= |s| + |Pushes(ops)|
  {
    if ops == [] {
    } else {
      NothingDropped(size, s, ops[..|ops| - 1]);
    }
  }

  // ------------------------------------------------------------------ the ring

  class WorkQueue<T(0)> {
    const QUEUE_SIZE: nat
    const mEvents: array<T>
    var mHead: int32
    var mTail: int32

    /** The indices stay within two rounds, so they never overflow, however long the run. */
    ghost predicate Valid()
      reads this
    {
      && 0 < QUEUE_SIZE < 0x4000_0000 && mEvents.Length == QUEUE_SIZE
      && 0 <= mTail <= QUEUE_SIZE && mTail <= mHead <= mTail + QUEUE_SIZE
    }

    ghost function Contents(): seq<T>
      requires Valid()
      reads this, mEvents
    {
      Live(mEvents[..], mHead, mTail)
    }

    constructor (size: nat)
      requires 0 < size < 0x4000_0000
      ensures Valid() && fresh(mEvents) && QUEUE_SIZE == size && Contents() == []
    {
      QUEUE_SIZE, mEvents, mHead, mTail := size, new T[size], 0, 0;
    }

    method Size() returns (n: nat)
      requires Valid()
      ensures n == |Contents()|
    {
      n := mHead - mTail;
    }

    method IsEmpty() returns (b: bool)
      requires Valid()
      ensures b <==> Contents() == []
    {
      var n := Size();
      b := n == 0;
    }

    /** Only a new event is dropped, and only when the queue is full. */
    method Push(event: T)
      requires Valid()
      modifies this`mHead, mEvents
      ensures Valid()
      ensures Contents() == Offer(QUEUE_SIZE, old(Contents()), event)
    {
      var n := Size();
      if n == QUEUE_SIZE {
        return;
      }
      SlotIsModulo(QUEUE_SIZE, mHead);
      LivePushed(mEvents[..], mHead, mTail, event);
      mEvents[mHead % QUEUE_SIZE] := event;
      assert mEvents[..] == old(mEvents[..])[SlotOf(QUEUE_SIZE, mHead) := event];
      mHead := mHead + 1;
    }

    method Pop() returns (event: T)
      requires Valid() && Contents() != []
      modifies this`mHead, this`mTail
      ensures Valid() && 0 < mTail
      ensures [event] + Contents() == old(Contents())
    {
      SlotIsModulo(QUEUE_SIZE, mTail);
      event := mEvents[mTail % QUEUE_SIZE];
      Calibrate();
      mTail := mTail + 1;
    }

    method Calibrate()
      requires Valid()
      modifies this`mHead, this`mTail
      ensures Valid() && mTail < QUEUE_SIZE
      ensures Contents() == old(Contents())
    {
      var divisor := mTail / QUEUE_SIZE;
      assert divisor == if mTail < QUEUE_SIZE then 0 else 1;
      if divisor == 1 {
        LiveMoved(mEvents[..], mHead, mTail);
      }
      var queueStart := QUEUE_SIZE * divisor;
      mHead := mHead - queueStart;
      mTail := mTail - queueStart;
    }

    /** Any sequence of pushes, and of pops on a queue that is not empty. */
    method Run(ops: seq<Op<T>>) returns (popped: seq<T>)
      requires Valid() && PopsPossible(QUEUE_SIZE, Contents(), ops)
      modifies this`mHead, this`mTail, mEvents
      ensures Valid()
      ensures Contents() == After(QUEUE_SIZE, old(Contents()), ops).0
      ensures popped == After(QUEUE_SIZE, old(Contents()), ops).1
    {
      popped := [];
      var i := 0;
      assert ops[..0] == [];
      while i < |ops|
        invariant 0 <= i <= |ops| && Valid()
        invariant PopsPossible(QUEUE_SIZE, old(Contents()), ops[..i])
        invariant (Contents(), popped) == After(QUEUE_SIZE, old(Contents()), ops[..i])
        decreases |ops| - i
      {
        PossiblePrefix(QUEUE_SIZE, old(Contents()), ops, i + 1);
        assert ops[..i + 1][..i] == ops[..i];
        match ops[i] {
          case Push(e) =>
            Push(e);
          case Pop =>
            var e := Pop();
            popped := popped + [e];
        }
        i := i + 1;
      }
      assert ops[..i] == ops;
    }
  }
}
