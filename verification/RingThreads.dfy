/** The ring buffer between two threads: `push` and `pop` cut into the steps that the other thread can
    come between. A notifier is attached, so the two changes of `mHead` exclude each other. */
module RingThreads {
  import opened RingBuffer

  /** Between the steps of `push`. The compiler may read `mHead` and `mTail` in either order. `began` is
      how many events the queue held when the push began; only the proofs look at it. */
  datatype Producer<T> =
    | Resting
    | SawHead(event: T, head: int, began: int)
    | SawTail(event: T, tail: int, began: int)
    | Cleared(event: T)
    | Stored(event: T)

  /** Between the steps of `pop`, which has taken the event by value. */
  datatype Consumer<T> =
    | Waiting
    | Took(event: T)
    | HeadMoved(event: T, start: int)
    | TailMoved(event: T)

  /** `offered` are the events of the pushes that began, `accepted` those that the head passed, `delivered`
      those returned, each in order. */
  datatype State<T> = State(head: int, tail: int, slots: seq<T>, producer: Producer<T>, consumer: Consumer<T>,
                            offered: seq<T>, accepted: seq<T>, delivered: seq<T>)
  {
    function Count(): int {
      |accepted| - |delivered|
    }

    /** What is still to be subtracted from the tail after it was subtracted from the head. */
    function Owed(): int {
      if consumer.HeadMoved? then consumer.start else 0
    }

    function Taken(): nat {
      if consumer.Waiting? then 0 else 1
    }

    function InProgress(): seq<T> {
      if producer.Resting? then [] else [producer.event]
    }
  }

  function Initial<T>(slots: seq<T>): State<T> {
    State(0, 0, slots, Resting, Waiting, [], [], [])
  }

  datatype Action<T> =
    | ReadHead(event: T) | ReadTail(event: T) | Check | Store | AdvanceHead
    | Take | MoveHead | MoveTail | AdvanceTail

  predicate Enabled<T>(s: State<T>, a: Action<T>) {
    && s.slots != []
    && match a
       case ReadHead(_) | ReadTail(_) => s.producer.Resting?
       case Check => s.producer.SawHead? || s.producer.SawTail?
       case Store => s.producer.Cleared?
       case AdvanceHead => s.producer.Stored?
       case Take => s.consumer.Waiting? && s.head != s.tail
       case MoveHead => s.consumer.Took?
       case MoveTail => s.consumer.HeadMoved?
       case AdvanceTail => s.consumer.TailMoved?
  }

  /** What `size() == QUEUE_SIZE` finds in the values that were read. */
  predicate LooksFull<T>(s: State<T>)
    requires s.producer.SawHead? || s.producer.SawTail?
  {
    if s.producer.SawHead? then s.producer.head - s.tail == |s.slots| else s.head - s.producer.tail == |s.slots|
  }

  function Next<T>(s: State<T>, a: Action<T>): State<T>
    requires Enabled(s, a)
  {
    match a
    case ReadHead(e) => s.(producer := SawHead(e, s.head, s.Count()), offered := s.offered + [e])
    case ReadTail(e) => s.(producer := SawTail(e, s.tail, s.Count()), offered := s.offered + [e])
    case Check => s.(producer := if LooksFull(s) then Resting else Cleared(s.producer.event))
    case Store =>
      s.(slots := s.slots[s.head % |s.slots| := s.producer.event], producer := Stored(s.producer.event))
    case AdvanceHead => s.(head := s.head + 1, accepted := s.accepted + [s.producer.event], producer := Resting)
    case Take => s.(consumer := Took(s.slots[s.tail % |s.slots|]))
    case MoveHead =>
      var start := |s.slots| * (s.tail / |s.slots|);
      s.(head := s.head - start, consumer := HeadMoved(s.consumer.event, start))
    case MoveTail => s.(tail := s.tail - s.consumer.start, consumer := TailMoved(s.consumer.event))
    case AdvanceTail =>
      s.(tail := s.tail + 1, delivered := s.delivered + [s.consumer.event], consumer := Waiting)
  }

  // ------------------------------------------------------------------ the invariant

  /** The indices, in effect, enclose the events that are queued; the head may be one round behind. */
  predicate Indices<T>(s: State<T>) {
    && 0 < |s.slots| && 0 <= s.tail <= |s.slots|
    && (s.consumer.HeadMoved? ==> s.consumer.start == if s.tail == |s.slots| then |s.slots| else 0)
    && (s.consumer.TailMoved? ==> s.tail < |s.slots|)
    && s.head + s.Owed() == s.tail + s.Count()
    && s.Taken() <= s.Count() <= |s.slots| + s.Taken()
  }

  /** The slot where event number `k` of the queue should be holds it. */
  ghost predicate Queued<T>(s: State<T>, k: nat)
    requires Indices(s) && k < s.Count()
  {
    s.slots[SlotOf(|s.slots|, s.tail + k)] == s.accepted[|s.delivered| + k]
  }

  /** What was returned are the first accepted events; what was not yet read is in its slot. */
  ghost predicate InOrder<T>(s: State<T>)
    requires Indices(s)
  {
    && s.delivered == s.accepted[..|s.delivered|]
    && (s.Taken() == 1 ==> s.consumer.event == s.accepted[|s.delivered|])
    && forall k :: s.Taken() <= k < s.Count() ==> Queued(s, k)
  }

  /** What the producer has seen so far, and that it has room when it writes. */
  ghost predicate Producing<T>(s: State<T>)
    requires Indices(s)
  {
    match s.producer
    case Resting => true
    case SawHead(_, h, began) =>
      && s.Count() <= began <= |s.slots| && h <= 2 * |s.slots| && (h == s.head || h == s.head + |s.slots|)
      && (s.Count() == |s.slots| && s.Taken() == 0 ==> h == s.head)
    case SawTail(_, t, began) =>
      && s.Count() <= began <= |s.slots| && s.head - t <= began
      && (s.Count() == |s.slots| && s.Taken() == 0 ==> t == s.tail)
    case Cleared(_) => s.Count() < |s.slots| + s.Taken()
    case Stored(e) => s.Count() < |s.slots| + s.Taken() && s.slots[SlotOf(|s.slots|, s.head)] == e
  }

  ghost predicate Inv<T>(s: State<T>) {
    Indices(s) && InOrder(s) && Producing(s)
  }

  /** A push may begin unless there are more events than slots: the last one read but not yet returned,
      and its slot already used again. */
  predicate Permitted<T>(s: State<T>, a: Action<T>) {
    a.ReadHead? || a.ReadTail? ==> s.Count() <= |s.slots|
  }

  lemma ProducerStep<T>(s: State<T>, a: Action<T>)
    requires Inv(s) && Enabled(s, a) && Permitted(s, a)
    requires a.ReadHead? || a.ReadTail? || a.Check? || a.AdvanceHead?
    ensures Inv(Next(s, a))
  {
    var s' := Next(s, a);
    if a.AdvanceHead? {
      assert s'.accepted[..|s.delivered|] == s.accepted[..|s.delivered|];
    }
    forall k | s'.Taken() <= k < s'.Count() ensures Queued(s', k) {
      if k < s.Count() {
        assert Queued(s, k);
      }
    }
  }

  lemma StoreStep<T>(s: State<T>)
    requires Inv(s) && Enabled(s, Store)
    ensures Inv(Next(s, Store))
  {
    var s' := Next(s, Store);
    SlotIsModulo(|s.slots|, s.head);
    forall k | s'.Taken() <= k < s'.Count() ensures Queued(s', k) {
      assert Queued(s, k);
      assert SlotOf(|s.slots|, s.tail + k) != SlotOf(|s.slots|, s.head);
    }
  }

  lemma TakeStep<T>(s: State<T>)
    requires Inv(s) && Enabled(s, Take)
    ensures Inv(Next(s, Take))
  {
    SlotIsModulo(|s.slots|, s.tail);
    var s' := Next(s, Take);
    assert Queued(s, 0);
    forall k | s'.Taken() <= k < s'.Count() ensures Queued(s', k) {
      assert Queued(s, k);
    }
  }

  lemma Rounds(size: nat, tail: nat)
    requires 0 < size && tail <= size
    ensures size * (tail / size) == if tail == size then size else 0
  {
    if tail < size {
      assert tail / size == 0;
    }
  }

  lemma MoveStep<T>(s: State<T>, a: Action<T>)
    requires Inv(s) && Enabled(s, a) && (a.MoveHead? || a.MoveTail?)
    ensures Inv(Next(s, a))
  {
    Rounds(|s.slots|, s.tail);
    var s' := Next(s, a);
    forall k | s'.Taken() <= k < s'.Count() ensures Queued(s', k) {
      assert Queued(s, k);
    }
  }

  lemma AdvanceTailStep<T>(s: State<T>)
    requires Inv(s) && Enabled(s, AdvanceTail)
    ensures Inv(Next(s, AdvanceTail))
  {
    var s' := Next(s, AdvanceTail);
    assert s'.delivered == s.accepted[..|s'.delivered|];
    forall k | s'.Taken() <= k < s'.Count() ensures Queued(s', k) {
      assert Queued(s, k + 1);
      assert s'.tail + k == s.tail + (k + 1);
    }
  }

  // ------------------------------------------------------------------ runs

  predicate Possible<T>(s: State<T>, run: seq<Action<T>>)
    decreases |run|
  {
    run == [] || (Enabled(s, run[0]) && Possible(Next(s, run[0]), run[1..]))
  }

  function After<T>(s: State<T>, run: seq<Action<T>>): State<T>
    requires Possible(s, run)
    decreases |run|
  {
    if run == [] then s else After(Next(s, run[0]), run[1..])
  }

  /** No push begins while there are more than `limit` events. */
  predicate Guarded<T>(s: State<T>, run: seq<Action<T>>, limit: int)
    requires Possible(s, run)
    decreases |run|
  {
    run == []
    || ((run[0].ReadHead? || run[0].ReadTail? ==> s.Count() <= limit) && Guarded(Next(s, run[0]), run[1..], limit))
  }

  lemma AnyStep<T>(s: State<T>, a: Action<T>)
    requires Inv(s) && Enabled(s, a) && Permitted(s, a)
    ensures Inv(Next(s, a)) && |Next(s, a).slots| == |s.slots|
  {
    hide Inv;
    match a
    case ReadHead(_) | ReadTail(_) | Check | AdvanceHead => ProducerStep(s, a);
    case Store => StoreStep(s);
    case Take => TakeStep(s);
    case MoveHead | MoveTail => MoveStep(s, a);
    case AdvanceTail => AdvanceTailStep(s);
  }

  lemma {:induction false} RunKeepsInv<T>(s: State<T>, run: seq<Action<T>>, limit: int)
    requires Inv(s) && Possible(s, run) && Guarded(s, run, limit) && limit <= |s.slots|
    ensures Inv(After(s, run)) && |After(s, run).slots| == |s.slots|
    decreases |run|
  {
    hide Inv, Enabled, Next;
    if run == [] {
    } else {
      AnyStep(s, run[0]);
      RunKeepsInv(Next(s, run[0]), run[1..], limit);
    }
  }

  lemma InitialInv<T>(slots: seq<T>)
    requires slots != []
    ensures Inv(Initial(slots))
  {
  }

  /** Two threads, any interleaving, reads of `mHead` and `mTail` torn apart, and the head seen before
      or after it was moved back: as long as no push begins with more events than slots, every accepted
      event is returned once and in order, and the others are still in their slots. */
  lemma DeliveredInOrder<T>(slots: seq<T>, run: seq<Action<T>>)
    requires slots != [] && Possible(Initial(slots), run) && Guarded(Initial(slots), run, |slots|)
    ensures var s := After(Initial(slots), run);
            && Inv(s) && s.delivered <= s.accepted
            && (s.producer.Resting? && s.consumer.Waiting? ==>
                  && |s.slots| == |slots| && 0 <= s.tail <= |slots| && s.tail <= s.head <= s.tail + |slots|
                  && s.delivered + Live(s.slots, s.head, s.tail) == s.accepted)
  {
    InitialInv(slots);
    RunKeepsInv(Initial(slots), run, |slots|);
    var s := After(Initial(slots), run);
    hide Possible, After, Guarded;
    if s.producer.Resting? && s.consumer.Waiting? {
      var live := Live(s.slots, s.head, s.tail);
      forall k | 0 <= k < s.Count() ensures live[k] == s.accepted[|s.delivered| + k] {
        assert Queued(s, k);
      }
      assert live == s.accepted[|s.delivered|..];
    }
  }

  /** The head was read before and the tail will be read after the consumer moved both back and emptied
      the queue. */
  predicate FalselyFull<T>(s: State<T>) {
    s.producer.SawHead? && s.producer.head == s.head + |s.slots| && s.Count() == 0
  }

  /** A push that began with room drops its event exactly when the empty queue looks full to it; any other
      that drops began on a full queue. */
  lemma WhenAPushDrops<T>(s: State<T>)
    requires Inv(s) && Enabled(s, Check)
    ensures s.producer.began < |s.slots| ==> (LooksFull(s) <==> FalselyFull(s))
    ensures LooksFull(s) ==> s.producer.began == |s.slots| || FalselyFull(s)
  {
    hide InOrder;
  }

  /** No check of the run finds the queue full. */
  predicate NoneDropped<T>(s: State<T>, run: seq<Action<T>>)
    requires Possible(s, run)
    decreases |run|
  {
    run == [] || ((run[0].Check? ==> !LooksFull(s)) && NoneDropped(Next(s, run[0]), run[1..]))
  }

  /** No check of the run happens while the empty queue looks full. */
  predicate NeverFalselyFull<T>(s: State<T>, run: seq<Action<T>>)
    requires Possible(s, run)
    decreases |run|
  {
    run == [] || ((run[0].Check? ==> !FalselyFull(s)) && NeverFalselyFull(Next(s, run[0]), run[1..]))
  }

  function Missing<T>(s: State<T>): int {
    |s.offered| - |s.accepted| - |s.InProgress()|
  }

  lemma StepMisses<T>(s: State<T>, a: Action<T>)
    requires Enabled(s, a)
    ensures Missing(Next(s, a)) == Missing(s) + if a.Check? && LooksFull(s) then 1 else 0
  {
  }

  ghost predicate AllAccepted<T>(s: State<T>) {
    s.offered == s.accepted + s.InProgress()
  }

  lemma StepAccepts<T>(s: State<T>, a: Action<T>)
    requires Enabled(s, a) && AllAccepted(s) && (a.Check? ==> !LooksFull(s))
    ensures AllAccepted(Next(s, a))
  {
  }

  /** In every run whatever, all offered events but the one in progress are accepted, in order, exactly
      when no check finds the queue full. */
  lemma {:induction false} AcceptedUnlessDropped<T>(s: State<T>, run: seq<Action<T>>)
    requires Possible(s, run)
    ensures Missing(After(s, run)) >= Missing(s)
    ensures NoneDropped(s, run) <==> Missing(After(s, run)) == Missing(s)
    ensures AllAccepted(s) && NoneDropped(s, run) ==> AllAccepted(After(s, run))
    decreases |run|
  {
    hide Enabled, Next, Missing, AllAccepted, LooksFull;
    if run == [] {
    } else {
      StepMisses(s, run[0]);
      if AllAccepted(s) && NoneDropped(s, run) {
        StepAccepts(s, run[0]);
      }
      AcceptedUnlessDropped(Next(s, run[0]), run[1..]);
    }
  }

  predicate BeganWithRoom<T>(s: State<T>) {
    s.producer.SawHead? || s.producer.SawTail? ==> s.producer.began < |s.slots|
  }

  lemma {:induction false} DropsAreFalse<T>(s: State<T>, run: seq<Action<T>>)
    requires Inv(s) && BeganWithRoom(s) && Possible(s, run) && Guarded(s, run, |s.slots| - 1)
    ensures NoneDropped(s, run) <==> NeverFalselyFull(s, run)
    decreases |run|
  {
    if run == [] {
    } else {
      if run[0].Check? {
        WhenAPushDrops(s);
      }
      var t := Next(s, run[0]);
      assert BeganWithRoom(t);
      AnyStep(s, run[0]);
      hide Inv, Next, LooksFull, FalselyFull;
      DropsAreFalse(t, run[1..]);
    }
  }

  /** When no push begins on a full queue, every event offered, but for a push in progress, is accepted,
      and so delivered once and in order, exactly in the runs in which no check meets that state. */
  lemma EveryEventIsDelivered<T>(slots: seq<T>, run: seq<Action<T>>)
    requires slots != [] && Possible(Initial(slots), run) && Guarded(Initial(slots), run, |slots| - 1)
    ensures var s := After(Initial(slots), run);
            && (s.offered == s.accepted + s.InProgress() <==> NeverFalselyFull(Initial(slots), run))
            && (s.producer.Resting? && s.consumer.Waiting? ==>
                  && |s.slots| == |slots| && 0 <= s.tail <= |slots| && s.tail <= s.head <= s.tail + |slots|
                  && (s.delivered + Live(s.slots, s.head, s.tail) == s.offered
                      <==> NeverFalselyFull(Initial(slots), run)))
  {
    InitialInv(slots);
    assert AllAccepted(Initial(slots)) && Missing(Initial(slots)) == 0;
    WeakerGuard(Initial(slots), run, |slots| - 1, |slots|);
    DeliveredInOrder(slots, run);
    AcceptedUnlessDropped(Initial(slots), run);
    DropsAreFalse(Initial(slots), run);
    hide Inv, Possible, After, Guarded, NoneDropped, NeverFalselyFull;
  }

  lemma {:induction false} WeakerGuard<T>(s: State<T>, run: seq<Action<T>>, low: int, high: int)
    requires Possible(s, run) && Guarded(s, run, low) && low <= high
    ensures Guarded(s, run, high)
    decreases |run|
  {
    hide Enabled, Next;
    if run == [] {
    } else {
      WeakerGuard(Next(s, run[0]), run[1..], low, high);
    }
  }

  /** A check that the consumer does not come between drops exactly when the queue is full and the
      head is not a round behind. */
  lemma UndisturbedCheck<T>(s: State<T>, a: Action<T>)
    requires Inv(s) && Enabled(s, a) && (a.ReadHead? || a.ReadTail?) && Permitted(s, a)
    ensures LooksFull(Next(s, a)) <==> s.Count() == |s.slots| && s.Owed() == 0
  {
    hide InOrder, Producing;
  }

  // ------------------------------------------------------------------ why the conditions are there

  lemma {:induction false} Joined<T>(s: State<T>, run1: seq<Action<T>>, run2: seq<Action<T>>, limit: int)
    requires Possible(s, run1) && Possible(After(s, run1), run2)
    requires Guarded(s, run1, limit) && Guarded(After(s, run1), run2, limit)
    ensures Possible(s, run1 + run2) && After(s, run1 + run2) == After(After(s, run1), run2)
    ensures Guarded(s, run1 + run2, limit)
    decreases |run1|
  {
    hide Enabled, Next;
    if run1 == [] {
      assert run1 + run2 == run2;
    } else {
      Joined(Next(s, run1[0]), run1[1..], run2, limit);
      assert (run1 + run2)[1..] == run1[1..] + run2;
    }
  }

  function PushSteps<T>(e: T): seq<Action<T>> {
    [ReadHead(e), Check, Store, AdvanceHead]
  }

  function PopSteps<T>(): seq<Action<T>> {
    [Take, MoveHead, MoveTail, AdvanceTail]
  }

  lemma OneStep<T>(s: State<T>, a: Action<T>, limit: int)
    requires Enabled(s, a) && (a.ReadHead? || a.ReadTail? ==> s.Count() <= limit)
    ensures Possible(s, [a]) && Guarded(s, [a], limit) && After(s, [a]) == Next(s, a)
  {
    hide Enabled, Next;
    assert [a][1..] == [] && After(Next(s, a), []) == Next(s, a);
  }

  lemma FourSteps<T>(s: State<T>, a: Action<T>, b: Action<T>, c: Action<T>, d: Action<T>, limit: int)
    requires Enabled(s, a) && (a.ReadHead? || a.ReadTail? ==> s.Count() <= limit)
    requires var t := Next(s, a); Enabled(t, b) && !b.ReadHead? && !b.ReadTail?
    requires var t := Next(Next(s, a), b); Enabled(t, c) && !c.ReadHead? && !c.ReadTail?
    requires var t := Next(Next(Next(s, a), b), c); Enabled(t, d) && !d.ReadHead? && !d.ReadTail?
    ensures Possible(s, [a, b, c, d]) && Guarded(s, [a, b, c, d], limit)
    ensures After(s, [a, b, c, d]) == Next(Next(Next(Next(s, a), b), c), d)
  {
    hide Enabled, Next;
    var s1 := Next(s, a);
    var s2 := Next(s1, b);
    var s3 := Next(s2, c);
    OneStep(s3, d, limit);
    assert [c, d][1..] == [d];
    assert Possible(s2, [c, d]) && Guarded(s2, [c, d], limit) && After(s2, [c, d]) == Next(s3, d);
    assert [b, c, d][1..] == [c, d];
    assert Possible(s1, [b, c, d]) && Guarded(s1, [b, c, d], limit) && After(s1, [b, c, d]) == Next(s3, d);
    assert [a, b, c, d][1..] == [b, c, d];
  }

  /** A push, undisturbed. */
  lemma PushRun<T>(s: State<T>, e: T, limit: int)
    requires Inv(s) && s.producer.Resting? && s.Count() <= limit <= |s.slots|
    requires s.Count() < |s.slots| || s.Owed() == |s.slots|
    ensures Possible(s, PushSteps(e)) && Guarded(s, PushSteps(e), limit)
    ensures var t := After(s, PushSteps(e));
            && Inv(t) && t.head == s.head + 1 && t.tail == s.tail && |t.slots| == |s.slots|
            && t.producer.Resting? && t.consumer == s.consumer && t.Count() == s.Count() + 1
  {
    FourSteps(s, ReadHead(e), Check, Store, AdvanceHead, limit);
    hide Inv;
    RunKeepsInv(s, PushSteps(e), limit);
  }

  /** A pop that the producer does not come between. */
  lemma PopRun<T>(s: State<T>, limit: int)
    requires Inv(s) && s.consumer.Waiting? && 0 < s.Count() && limit <= |s.slots|
    ensures Possible(s, PopSteps()) && Guarded(s, PopSteps(), limit)
    ensures var t := After(s, PopSteps());
            var start := if s.tail == |s.slots| then |s.slots| else 0;
            && Inv(t) && t.head == s.head - start && t.tail == s.tail - start + 1 && |t.slots| == |s.slots|
            && t.producer == s.producer && t.consumer.Waiting? && t.Count() == s.Count() - 1
  {
    Rounds(|s.slots|, s.tail);
    FourSteps(s, Take, MoveHead, MoveTail, AdvanceTail, limit);
    hide Inv;
    RunKeepsInv(s, PopSteps(), limit);
  }

  /** Between operations of both threads. */
  ghost predicate Quiet<T>(s: State<T>, size: nat, head: int, tail: int) {
    && Inv(s) && s.producer.Resting? && s.consumer.Waiting? && |s.slots| == size
    && s.head == head && s.tail == tail
  }

  /** Pushing and popping in turn moves both indices up to the end of the first round. */
  lemma {:induction false} Rotate<T>(s: State<T>, e: T, size: nat, n: nat, limit: int) returns (run: seq<Action<T>>)
    requires Quiet(s, size, 0, 0) && n <= size && 0 <= limit <= size
    ensures Possible(s, run) && Guarded(s, run, limit) && Quiet(After(s, run), size, n, n)
  {
    if n == 0 {
      run := [];
    } else {
      var front := Rotate(s, e, size, n - 1, limit);
      var t := After(s, front);
      hide Inv, Possible, Guarded, After;
      PushRun(t, e, limit);
      var t' := After(t, PushSteps(e));
      PopRun(t', limit);
      Joined(s, front, PushSteps(e), limit);
      Joined(s, front + PushSteps(e), PopSteps(), limit);
      run := front + PushSteps(e) + PopSteps();
    }
  }

  /** Pushes fill the queue. */
  lemma {:induction false} Fill<T>(s: State<T>, e: T, size: nat, n: nat, limit: int) returns (run: seq<Action<T>>)
    requires Quiet(s, size, size, size) && n <= size && n - 1 <= limit <= size
    ensures Possible(s, run) && Guarded(s, run, limit) && Quiet(After(s, run), size, size + n, size)
  {
    if n == 0 {
      run := [];
    } else {
      var front := Fill(s, e, size, n - 1, limit);
      var t := After(s, front);
      assert t.Count() == n - 1 && t.Owed() == 0;
      hide Inv, Possible, Guarded, After;
      PushRun(t, e, limit);
      Joined(s, front, PushSteps(e), limit);
      run := front + PushSteps(e);
    }
  }

  /** The second way to drop exists for every size above one, with no push beginning on a full queue:
      at the end of this run a push finds an empty queue full. */
  lemma EmptyQueueLooksFull<T>(slots: seq<T>, e: T) returns (run: seq<Action<T>>)
    requires |slots| > 1
    ensures Possible(Initial(slots), run) && Guarded(Initial(slots), run, |slots| - 1)
    ensures var s := After(Initial(slots), run);
            s.Count() == 0 && s.head == s.tail && Enabled(s, Check) && LooksFull(s) && FalselyFull(s)
  {
    var size, s, limit := |slots|, Initial(slots), |slots| - 1;
    InitialInv(slots);
    run := Rotate(s, e, size, size, limit);
    var t := After(s, run);
    hide Possible, Guarded, After;
    var push := Fill(t, e, size, 1, limit);
    Joined(s, run, push, limit);
    run := run + push;
    t := After(s, run);
    assert t.Count() == 1;
    OneStep(t, ReadHead(e), limit);
    Joined(s, run, [ReadHead(e)], limit);
    run := run + [ReadHead(e)];
    assert Inv(After(s, run)) by { AnyStep(t, ReadHead(e)); }
    PopRun(After(s, run), limit);
    Joined(s, run, PopSteps(), limit);
    run := run + PopSteps();
  }

  /** There are runs in which a push that begins on a full queue leaves more events than slots. */
  lemma QueueOverfills<T>(slots: seq<T>, e: T) returns (run: seq<Action<T>>)
    requires slots != []
    ensures Possible(Initial(slots), run) && Guarded(Initial(slots), run, |slots|)
    ensures var s := After(Initial(slots), run);
            && Inv(s) && s.producer.Resting? && s.Count() == |slots| + 1
            && s.consumer.HeadMoved? && s.tail == |s.slots| == |slots|
  {
    var size, s := |slots|, Initial(slots);
    InitialInv(slots);
    run := Rotate(s, e, size, size, size);
    hide Possible, Guarded, After;
    var pushes := Fill(After(s, run), e, size, size, size);
    Joined(s, run, pushes, size);
    run := run + pushes;
    var t := After(s, run);
    OneStep(t, Take, size);
    AnyStep(t, Take);
    var t' := Next(t, Take);
    Rounds(size, t'.tail);
    OneStep(t', MoveHead, size);
    AnyStep(t', MoveHead);
    Joined(s, run, [Take], size);
    Joined(s, run + [Take], [MoveHead], size);
    run := run + [Take] + [MoveHead];
    hide Inv, Next, Enabled;
    PushRun(After(s, run), e, size);
    Joined(s, run, PushSteps(e), size);
    run := run + PushSteps(e);
  }

  /** And a push that begins there finds room, and puts its event into the slot of the next event to be
      returned, which is lost. */
  lemma OverfullQueueLosesAnEvent<T>(s: State<T>, e: T)
    requires Inv(s) && s.producer.Resting? && |s.slots| > 1 && s.Count() == |s.slots| + 1
    ensures var run := [ReadHead(e), Check, Store, AdvanceHead];
            && Possible(s, run)
            && var t := After(s, run);
               s.Count() > 1 && |t.slots| == |s.slots| && t.slots[(s.tail + 1) % |s.slots|] == e
  {
    FourSteps(s, ReadHead(e), Check, Store, AdvanceHead, s.Count());
    SlotIsModulo(|s.slots|, s.head);
    SlotIsModulo(|s.slots|, s.tail + 1);
  }
}
