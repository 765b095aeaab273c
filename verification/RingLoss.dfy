/** When the ring buffer between two threads loses an event it accepted: exactly when a push writes while
    every slot holds an event that was not read yet. */
module RingLoss {
  import RingBuffer
  import opened RingThreads

  /** All slots hold events that the consumer has not taken. */
  predicate Overwrites<T>(s: State<T>) {
    s.Count() - s.Taken() >= |s.slots|
  }

  /** No push of the run writes its event in such a state. */
  predicate NeverOverwrites<T>(s: State<T>, run: seq<Action<T>>)
    requires Possible(s, run)
    decreases |run|
  {
    run == [] || ((run[0].Store? ==> !Overwrites(s)) && NeverOverwrites(Next(s, run[0]), run[1..]))
  }

  /** What was returned are the first accepted events, what was not read is in its slot, and an event that
      was written has its slot for itself. Unlike `Inv` this asks nothing of when a push begins. */
  ghost predicate Kept<T>(s: State<T>) {
    && Indices(s) && InOrder(s)
    && (s.producer.Stored? ==>
          s.Count() < |s.slots| + s.Taken()
          && s.slots[RingBuffer.SlotOf(|s.slots|, s.head)] == s.producer.event)
  }

  lemma InitialKept<T>(slots: seq<T>)
    requires slots != []
    ensures Kept(Initial(slots))
  {
  }

  // ------------------------------------------------------------------ without overwriting

  lemma ProducerKeeps<T>(s: State<T>, a: Action<T>)
    requires Kept(s) && Enabled(s, a) && (a.ReadHead? || a.ReadTail? || a.Check? || a.AdvanceHead?)
    ensures Kept(Next(s, a))
  {
    var s' := Next(s, a);
    if a.AdvanceHead? {
      assert s'.accepted[..|s.delivered|] == s.accepted[..|s.delivered|];
    }
    forall k | s'.Taken() <= k < s'.Count() ensures Queued(s', k) {
      if k < s.Count() {
        assert Queued(s, k);
      }
    }
  }

  lemma StoreKeeps<T>(s: State<T>)
    requires Kept(s) && Enabled(s, Store) && !Overwrites(s)
    ensures Kept(Next(s, Store))
  {
    var s' := Next(s, Store);
    RingBuffer.SlotIsModulo(|s.slots|, s.head);
    forall k | s'.Taken() <= k < s'.Count() ensures Queued(s', k) {
      assert Queued(s, k);
      assert RingBuffer.SlotOf(|s.slots|, s.tail + k) != RingBuffer.SlotOf(|s.slots|, s.head);
    }
  }

  lemma TakeKeeps<T>(s: State<T>)
    requires Kept(s) && Enabled(s, Take)
    ensures Kept(Next(s, Take))
  {
    RingBuffer.SlotIsModulo(|s.slots|, s.tail);
    var s' := Next(s, Take);
    assert Queued(s, 0);
    forall k | s'.Taken() <= k < s'.Count() ensures Queued(s', k) {
      assert Queued(s, k);
    }
  }

  lemma MoveKeeps<T>(s: State<T>, a: Action<T>)
    requires Kept(s) && Enabled(s, a) && (a.MoveHead? || a.MoveTail?)
    ensures Kept(Next(s, a))
  {
    Rounds(|s.slots|, s.tail);
    var s' := Next(s, a);
    forall k | s'.Taken() <= k < s'.Count() ensures Queued(s', k) {
      assert Queued(s, k);
    }
  }

  lemma AdvanceTailKeeps<T>(s: State<T>)
    requires Kept(s) && Enabled(s, AdvanceTail)
    ensures Kept(Next(s, AdvanceTail))
  {
    var s' := Next(s, AdvanceTail);
    assert s'.delivered == s.accepted[..|s'.delivered|];
    forall k | s'.Taken() <= k < s'.Count() ensures Queued(s', k) {
      assert Queued(s, k + 1);
      assert s'.tail + k == s.tail + (k + 1);
    }
  }

  lemma StepKeeps<T>(s: State<T>, a: Action<T>)
    requires Kept(s) && Enabled(s, a) && (a.Store? ==> !Overwrites(s))
    ensures Kept(Next(s, a))
  {
    hide Kept;
    match a
    case ReadHead(_) | ReadTail(_) | Check | AdvanceHead => ProducerKeeps(s, a);
    case Store => StoreKeeps(s);
    case Take => TakeKeeps(s);
    case MoveHead | MoveTail => MoveKeeps(s, a);
    case AdvanceTail => AdvanceTailKeeps(s);
  }

  lemma {:induction false} RunKeeps<T>(s: State<T>, run: seq<Action<T>>)
    requires Kept(s) && Possible(s, run) && NeverOverwrites(s, run)
    ensures Kept(After(s, run))
    decreases |run|
  {
    hide Kept, Enabled, Next, Overwrites;
    if run == [] {
    } else {
      StepKeeps(s, run[0]);
      RunKeeps(Next(s, run[0]), run[1..]);
    }
  }

  // ------------------------------------------------------------------ with overwriting

  /** Written where every slot is taken, an event replaces the next one to be read. */
  lemma OverwrittenSlot<T>(s: State<T>)
    requires Indices(s) && Enabled(s, Store) && Overwrites(s)
    ensures s.Count() == |s.slots| + s.Taken()
    ensures s.head % |s.slots| == RingBuffer.SlotOf(|s.slots|, s.tail + s.Taken())
  {
    var size := |s.slots|;
    if size == 1 {
      assert s.head % 1 == 0;
    } else {
      RingBuffer.SlotIsModulo(size, s.head);
    }
  }

  /** The event that is overwritten. */
  function Victim<T>(s: State<T>): T
    requires Indices(s) && s.Taken() < s.Count()
  {
    s.accepted[|s.delivered| + s.Taken()]
  }

  /** A write keeps the order exactly if there is a free slot, or it puts back what it replaces. */
  lemma StoreSpoils<T>(s: State<T>)
    requires Kept(s) && Enabled(s, Store)
    ensures Indices(Next(s, Store))
    ensures InOrder(Next(s, Store)) <==> !Overwrites(s) || Victim(s) == s.producer.event
  {
    var s' := Next(s, Store);
    if !Overwrites(s) {
      StoreKeeps(s);
    } else {
      OverwrittenSlot(s);
      assert Queued(s', s.Taken()) <==> s.producer.event == Victim(s);
      forall k | s.Taken() < k < s.Count() ensures Queued(s', k) {
        assert Queued(s, k);
        assert RingBuffer.SlotOf(|s.slots|, s.tail + k) != RingBuffer.SlotOf(|s.slots|, s.tail + s.Taken());
      }
    }
  }

  predicate Distinct<T(==)>(es: seq<T>) {
    forall i, j :: 0 <= i < j < |es| ==> es[i] != es[j]
  }

  /** Events come from the pushes, and the one in progress is not accepted yet. */
  ghost predicate Sourced<T(!new)>(s: State<T>) {
    && Distinct(s.accepted) && (forall x <- s.accepted :: x in s.offered)
    && (!s.producer.Resting? ==> s.producer.event in s.offered && s.producer.event !in s.accepted)
  }

  lemma NewEvent<T>(es: seq<T>, e: T)
    requires Distinct(es + [e])
    ensures e !in es
  {
    forall i | 0 <= i < |es| ensures es[i] != e {
      assert (es + [e])[i] == es[i] && (es + [e])[|es|] == e;
    }
  }

  lemma StepSourced<T(!new)>(s: State<T>, a: Action<T>)
    requires Enabled(s, a) && Sourced(s) && Distinct(Next(s, a).offered)
    ensures Sourced(Next(s, a))
  {
    if a.ReadHead? || a.ReadTail? {
      NewEvent(s.offered, a.event);
    }
  }

  lemma {:induction false} OfferedGrows<T>(s: State<T>, run: seq<Action<T>>)
    requires Possible(s, run)
    ensures s.offered <= After(s, run).offered && s.accepted <= After(s, run).accepted
    decreases |run|
  {
    hide Enabled;
    if run == [] {
    } else {
      OfferedGrows(Next(s, run[0]), run[1..]);
    }
  }

  lemma DistinctPrefix<T>(es: seq<T>, fs: seq<T>)
    requires es <= fs && Distinct(fs)
    ensures Distinct(es)
  {
    forall i, j | 0 <= i < j < |es| ensures es[i] != es[j] {
      assert es[i] == fs[i] && es[j] == fs[j];
    }
  }

  /** Nothing knows the event any more: it was not returned, no slot holds it, and neither thread does. */
  predicate Gone<T(==)>(s: State<T>, x: T) {
    && x !in s.delivered && x !in s.slots
    && (s.producer.Resting? || s.producer.event != x) && (s.consumer.Waiting? || s.consumer.event != x)
  }

  lemma StepStaysGone<T>(s: State<T>, a: Action<T>, x: T)
    requires Enabled(s, a) && Gone(s, x) && (a.ReadHead? || a.ReadTail? ==> a.event != x)
    ensures Gone(Next(s, a), x)
  {
  }

  /** An event that is gone stays gone, whatever the threads do, unless it is offered again. */
  lemma {:induction false} StaysGone<T(!new)>(s: State<T>, run: seq<Action<T>>, x: T)
    requires Possible(s, run) && Gone(s, x) && x in s.offered && Distinct(After(s, run).offered)
    ensures Gone(After(s, run), x)
    decreases |run|
  {
    hide Enabled, Gone;
    if run == [] {
    } else {
      var s' := Next(s, run[0]);
      OfferedGrows(s', run[1..]);
      DistinctPrefix(s'.offered, After(s', run[1..]).offered);
      if run[0].ReadHead? || run[0].ReadTail? {
        NewEvent(s.offered, run[0].event);
      }
      hide Next;
      StepStaysGone(s, run[0], x);
      StaysGone(s', run[1..], x);
    }
  }

  /** As long as the order is kept, no accepted event is gone. */
  lemma NoneGone<T>(s: State<T>, x: T)
    requires Indices(s) && InOrder(s) && x in s.accepted
    ensures !Gone(s, x)
  {
    var n :| 0 <= n < |s.accepted| && s.accepted[n] == x;
    if n < |s.delivered| {
      assert s.delivered[n] == x;
    } else if s.Taken() <= n - |s.delivered| {
      assert Queued(s, n - |s.delivered|);
    }
  }

  /** Overwriting puts an accepted event out of the world. */
  lemma VictimGone<T(!new)>(s: State<T>)
    requires Kept(s) && Sourced(s) && Enabled(s, Store) && Overwrites(s)
    ensures Victim(s) in s.accepted && Gone(Next(s, Store), Victim(s))
  {
    OverwrittenSlot(s);
    var s', x := Next(s, Store), Victim(s);
    forall i | 0 <= i < |s.slots| ensures s'.slots[i] != x {
      SlotHolds(s, i);
    }
  }

  /** Slot `i` is that of event number `k` of the queue, and holds it. */
  ghost predicate InSlot<T>(s: State<T>, k: nat, i: nat)
    requires Indices(s) && k < s.Count()
  {
    RingBuffer.SlotOf(|s.slots|, s.tail + k) == i < |s.slots| && s.slots[i] == s.accepted[|s.delivered| + k]
  }

  /** With every slot taken, each slot holds one of the queued events. */
  lemma SlotHolds<T>(s: State<T>, i: nat)
    requires Indices(s) && InOrder(s) && s.Count() == |s.slots| + s.Taken() && i < |s.slots|
    ensures exists k: nat :: s.Taken() <= k < s.Count() && InSlot(s, k, i)
  {
    var size, start := |s.slots|, s.tail + s.Taken();
    var k := if i >= start then i - s.tail else if i + size >= start then i + size - s.tail
             else i + 2 * size - s.tail;
    assert RingBuffer.SlotOf(size, s.tail + k) == i;
    assert Queued(s, k);
    assert InSlot(s, k, i);
  }

  lemma Lost<T(!new)>(s: State<T>) returns (x: T)
    requires Kept(s) && Sourced(s) && Enabled(s, Store) && Overwrites(s)
    ensures x in s.accepted && x in s.offered && Gone(Next(s, Store), x)
  {
    VictimGone(s);
    x := Victim(s);
  }

  /** No accepted event has vanished. */
  ghost predicate NothingLost<T(!new)>(s: State<T>) {
    forall x <- s.accepted :: !Gone(s, x)
  }

  lemma KeptNothingLost<T(!new)>(s: State<T>)
    requires Indices(s) && InOrder(s)
    ensures NothingLost(s)
  {
    forall x | x in s.accepted ensures !Gone(s, x) {
      NoneGone(s, x);
    }
  }

  lemma {:induction false} LossFrom<T(!new)>(s: State<T>, run: seq<Action<T>>)
    requires Kept(s) && Sourced(s) && Possible(s, run) && Distinct(After(s, run).offered)
    ensures NeverOverwrites(s, run) <==> NothingLost(After(s, run))
    decreases |run|
  {
    hide Gone, InOrder, Indices, Enabled;
    if run == [] {
      KeptNothingLost(s);
    } else {
      var s' := Next(s, run[0]);
      OfferedGrows(s', run[1..]);
      if run[0].Store? && Overwrites(s) {
        var x := Lost(s);
        StaysGone(s', run[1..], x);
        assert x in After(s', run[1..]).accepted;
      } else {
        DistinctPrefix(s'.offered, After(s', run[1..]).offered);
        StepSourced(s, run[0]);
        StepKeeps(s, run[0]);
        hide Next, Kept, Sourced, Distinct;
        LossFrom(s', run[1..]);
      }
    }
  }

  /** In every interleaving of pushes of different events: what was returned are the first accepted events
      and the others are in their slots, exactly when no push writes while all slots are taken; and that
      is exactly when no accepted event has vanished. */
  lemma LossExactly<T(!new)>(slots: seq<T>, run: seq<Action<T>>)
    requires slots != [] && Possible(Initial(slots), run) && Distinct(After(Initial(slots), run).offered)
    ensures var s := After(Initial(slots), run);
            && (NeverOverwrites(Initial(slots), run) <==> Indices(s) && InOrder(s))
            && (NeverOverwrites(Initial(slots), run) <==> forall x <- s.accepted :: !Gone(s, x))
  {
    var s := After(Initial(slots), run);
    InitialKept(slots);
    LossFrom(Initial(slots), run);
    if NeverOverwrites(Initial(slots), run) {
      RunKeeps(Initial(slots), run);
    }
    hide Possible, After, NeverOverwrites, Gone, Distinct;
    if Indices(s) && InOrder(s) {
      KeptNothingLost(s);
    }
  }

  /** Where no push begins with more events than slots, none overwrites: the guard of the results before
      is enough, and `LossExactly` says what is needed. */
  lemma {:induction false} GuardedNeverOverwrites<T>(s: State<T>, run: seq<Action<T>>)
    requires Inv(s) && Possible(s, run) && Guarded(s, run, |s.slots|)
    ensures NeverOverwrites(s, run)
    decreases |run|
  {
    if run == [] {
    } else {
      AnyStep(s, run[0]);
      assert run[0].Store? ==> !Overwrites(s);
      hide Inv, Enabled, Next, Overwrites;
      GuardedNeverOverwrites(Next(s, run[0]), run[1..]);
    }
  }

  // ------------------------------------------------------------------ a run that loses an event

  /** The rest of a pop, and another one. */
  function TwoPops<T>(): seq<Action<T>> {
    [MoveTail, AdvanceTail, Take, MoveHead] + [MoveTail, AdvanceTail]
  }

  /** The first slot is being emptied while all are full and one more was pushed. */
  ghost predicate Overfull<T>(s: State<T>) {
    && Inv(s) && s.producer.Resting? && s.consumer.HeadMoved?
    && s.tail == |s.slots| && s.Count() == |s.slots| + 1
  }

  /** Where there are more events than slots, a push finds room and writes over the next event. */
  lemma PushOverwrites<T>(s: State<T>, e: T)
    requires Overfull(s) && |s.slots| > 1
    ensures Possible(s, PushSteps(e)) && Guarded(s, PushSteps(e), s.Count())
    ensures !NeverOverwrites(s, PushSteps(e))
    ensures var t := After(s, PushSteps(e));
            && t == s.(slots := t.slots, head := s.head + 1, offered := s.offered + [e], accepted := s.accepted + [e])
            && |t.slots| == |s.slots| && t.slots[1] == e
  {
    hide InOrder;
    FourSteps(s, ReadHead(e), Check, Store, AdvanceHead, s.Count());
    OverfullQueueLosesAnEvent(s, e);
    assert (s.tail + 1) % |s.slots| == 1 by {
      RingBuffer.SlotIsModulo(|s.slots|, s.tail + 1);
    }
    var s1 := Next(s, ReadHead(e));
    var s2 := Next(s1, Check);
    assert Overwrites(s2);
    assert PushSteps(e)[1..] == [Check, Store, AdvanceHead] && PushSteps(e)[1..][1..] == [Store, AdvanceHead];
    assert Possible(s1, [Check, Store, AdvanceHead]) && Possible(s2, [Store, AdvanceHead]);
    assert !NeverOverwrites(s2, [Store, AdvanceHead]);
    assert !NeverOverwrites(s1, [Check, Store, AdvanceHead]);
  }

  /** The four steps that return the event at hand and take the one in the second slot. */
  lemma PopReturns<T>(s: State<T>, limit: int) returns (t: State<T>)
    requires |s.slots| > 1 && s.consumer.HeadMoved? && s.consumer.start == s.tail == |s.slots| && s.head > 1
    ensures t == s.(tail := 1, delivered := s.delivered + [s.consumer.event], consumer := HeadMoved(s.slots[1], 0))
    ensures var run := [MoveTail, AdvanceTail, Take, MoveHead];
            Possible(s, run) && Guarded(s, run, limit) && After(s, run) == t
  {
    var s1 := s.(tail := 0, consumer := TailMoved(s.consumer.event));
    var s2 := s1.(tail := 1, delivered := s.delivered + [s.consumer.event], consumer := Waiting);
    assert 1 % |s.slots| == 1 && 1 / |s.slots| == 0;
    var s3 := s2.(consumer := Took(s.slots[1]));
    t := s3.(consumer := HeadMoved(s.slots[1], 0));
    assert Next(s, MoveTail) == s1 && Next(s1, AdvanceTail) == s2 && Next(s2, Take) == s3 && Next(s3, MoveHead) == t;
    hide Next;
    FourSteps(s, MoveTail, AdvanceTail, Take, MoveHead, limit);
  }

  /** The two pops return the event at hand and the one that the second slot holds. */
  lemma PopsReturn<T>(s: State<T>, limit: int)
    requires |s.slots| > 1 && s.consumer.HeadMoved? && s.consumer.start == s.tail == |s.slots| && s.head > 1
    ensures Possible(s, TwoPops()) && Guarded(s, TwoPops(), limit)
    ensures var t := After(s, TwoPops());
            t.delivered == s.delivered + [s.consumer.event] + [s.slots[1]] && t.accepted == s.accepted
  {
    var t := PopReturns(s, limit);
    var u := t.(consumer := TailMoved(s.slots[1]));
    assert Next(t, MoveTail) == u;
    OneStep(t, MoveTail, limit);
    OneStep(u, AdvanceTail, limit);
    Joined(t, [MoveTail], [AdvanceTail], limit);
    assert [MoveTail] + [AdvanceTail] == [Action<T>.MoveTail, AdvanceTail];
    Joined(s, [MoveTail, AdvanceTail, Take, MoveHead], [MoveTail, AdvanceTail], limit);
    hide Possible, Guarded, After;
  }

  /** For every size above one there is a run, in which no push begins with more than one event too many,
      that returns an event in the place of another which was accepted before it. */
  lemma LosesAnEvent<T(!new)>(slots: seq<T>, a: T, b: T) returns (run: seq<Action<T>>)
    requires |slots| > 1 && a != b
    ensures Possible(Initial(slots), run) && Guarded(Initial(slots), run, |slots| + 1)
    ensures var s := After(Initial(slots), run);
            |s.delivered| <= |s.accepted| && !(s.delivered <= s.accepted)
  {
    run := QueueOverfills(slots, a);
    var s0, limit := Initial(slots), |slots| + 1;
    var s := After(s0, run);
    WeakerGuard(s0, run, |slots|, limit);
    var n := |s.delivered|;
    var e := if s.accepted[n + 1] == a then b else a;
    hide Possible, Guarded, After, InOrder;
    PushOverwrites(s, e);
    var t := After(s, PushSteps(e));
    PopsReturn(t, limit);
    Joined(s0, run, PushSteps(e), limit);
    Joined(s0, run + PushSteps(e), TwoPops(), limit);
    run := run + PushSteps(e) + TwoPops();
    var u := After(s0, run);
    assert u.delivered[n + 1] == e && u.accepted[n + 1] == s.accepted[n + 1];
  }
}
