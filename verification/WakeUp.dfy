/** `QueueCoordinator::waitOnNotify`: one consumer sleeps on several queues, whose producers advance the
    head under the shared mutex and notify after they have released it. No notification is forced. */
module WakeUp {
  import opened Common

  /** `Owing(q)`: the head of queue `q` was advanced, and `notify` is still to be called. */
  datatype Producer = Idle | Owing(queue: nat)

  /** `Scanning(i)`: holds the mutex, and has found the queues before `i` empty. `Woken`: was notified, or
      woke without reason, and waits for the mutex. */
  datatype Consumer = Running | Scanning(next: nat) | Asleep | Woken

  /** `queued` are the numbers of events in the queues; `timed` says whether the wait has a timeout. */
  datatype State = State(queued: seq<nat>, producers: seq<Producer>, consumer: Consumer, timed: bool)

  datatype Action =
    | Advance(producer: nat, queue: nat)
    | Notify(producer: nat)
    | Pop(queue: nat)
    | Wait | Look | WakeForNoReason | Reacquire | TimeOut

  predicate Enabled(s: State, a: Action) {
    match a
    case Advance(p, q) =>
      p < |s.producers| && q < |s.queued| && s.producers[p].Idle? && !s.consumer.Scanning?
    case Notify(p) => p < |s.producers| && s.producers[p].Owing?
    case Pop(q) => s.consumer.Running? && q < |s.queued| && s.queued[q] > 0
    case Wait => s.consumer.Running?
    case Look => s.consumer.Scanning?
    case WakeForNoReason => s.consumer.Asleep?
    case Reacquire => s.consumer.Woken?
    case TimeOut => s.consumer.Asleep? && s.timed
  }

  function Next(s: State, a: Action): State
    requires Enabled(s, a)
  {
    match a
    case Advance(p, q) =>
      s.(queued := s.queued[q := s.queued[q] + 1], producers := s.producers[p := Owing(q)])
    case Notify(p) =>
      s.(producers := s.producers[p := Idle], consumer := if s.consumer.Asleep? then Woken else s.consumer)
    case Pop(q) => s.(queued := s.queued[q := s.queued[q] - 1])
    case Wait => s.(consumer := Scanning(0))
    case Look =>
      var i := s.consumer.next;
      s.(consumer := if i >= |s.queued| then Asleep else if s.queued[i] > 0 then Running else Scanning(i + 1))
    case WakeForNoReason => s.(consumer := Woken)
    case Reacquire => s.(consumer := Scanning(0))
    case TimeOut => s.(consumer := Running)
  }

  predicate Owed(s: State, q: nat) {
    exists p :: 0 <= p < |s.producers| && s.producers[p] == Owing(q)
  }

  predicate Inv(s: State) {
    && (s.consumer.Scanning? ==> forall q :: 0 <= q < s.consumer.next && q < |s.queued| ==> s.queued[q] == 0)
    && (s.consumer.Asleep? ==> forall q :: 0 <= q < |s.queued| && s.queued[q] > 0 ==> Owed(s, q))
  }

  predicate Initial(s: State) {
    && s.consumer.Running?
    && (forall q :: 0 <= q < |s.queued| ==> s.queued[q] == 0)
    && (forall p :: 0 <= p < |s.producers| ==> s.producers[p].Idle?)
  }

  /** `s` is reached by these actions. */
  ghost predicate Reached(s0: State, run: seq<Action>, s: State) {
    if run == [] then s == s0
    else
      var front, last := run[..|run| - 1], run[|run| - 1];
      exists t :: Reached(s0, front, t) && Steps(t, last, s)
  }

  predicate Steps(s: State, a: Action, s': State) {
    Enabled(s, a) && Next(s, a) == s'
  }

  lemma StepKeepsInv(s: State, a: Action, s': State)
    requires Inv(s) && Steps(s, a, s')
    ensures Inv(s')
  {
    if a.Advance? && s.consumer.Asleep? {
      forall q | 0 <= q < |s'.queued| && s'.queued[q] > 0 ensures Owed(s', q) {
        if q == a.queue {
          assert s'.producers[a.producer] == Owing(q);
        } else {
          var p :| 0 <= p < |s.producers| && s.producers[p] == Owing(q);
          assert s'.producers[p] == Owing(q);
        }
      }
    }
  }

  /** No wake-up is lost: in every run, with any number of queues and producers, if the consumer sleeps
      although a queue is not empty, then a producer that has advanced its head still owes a notify. */
  lemma {:induction false} NoLostWakeUp(s0: State, run: seq<Action>, s: State)
    requires Initial(s0) && Reached(s0, run, s)
    ensures Inv(s)
    ensures s.consumer.Asleep? ==> forall q :: 0 <= q < |s.queued| && s.queued[q] > 0 ==> Owed(s, q)
  {
    if run == [] {
    } else {
      var front, last := run[..|run| - 1], run[|run| - 1];
      var t :| Reached(s0, front, t) && Steps(t, last, s);
      NoLostWakeUp(s0, front, t);
      StepKeepsInv(t, last, s);
    }
  }

  /** An untimed wait is over only when some queue is not empty. */
  lemma WaitReturnsWithWork(s: State, a: Action, s': State)
    requires Steps(s, a, s') && !s.consumer.Running? && s'.consumer.Running? && !s.timed
    ensures exists q :: 0 <= q < |s'.queued| && s'.queued[q] > 0
  {
    assert a.Look? && s'.queued[s.consumer.next] > 0;
  }

  function Looks(n: nat): seq<Action> {
    if n == 0 then [] else Looks(n - 1) + [Look]
  }

  lemma OneLook()
    ensures Looks(1) == [Look]
  {
    assert Looks(0) + [Look] == [Look];
  }

  lemma OneMore(s0: State, run: seq<Action>, s: State, a: Action, s': State)
    requires Reached(s0, run, s) && Steps(s, a, s')
    ensures Reached(s0, run + [a], s')
  {
    assert (run + [a])[..|run + [a]| - 1] == run;
    hide Steps;
    assert Reached(s0, run, s) && Steps(s, a, s');
  }

  /** One look: the scan ends at a queue that is not empty, and goes on at an empty one. */
  lemma LookOnce(s0: State, run: seq<Action>, s: State) returns (s': State)
    requires Reached(s0, run, s) && s.consumer.Scanning? && s.consumer.next < |s.queued|
    ensures Reached(s0, run + [Look], s')
    ensures var i := s.consumer.next; s' == s.(consumer := if s.queued[i] > 0 then Running else Scanning(i + 1))
  {
    s' := Next(s, Look);
    assert Steps(s, Look, s');
    hide Reached, Steps;
    OneMore(s0, run, s, Look, s');
  }

  /** The consumer, looking on, comes to the first queue that is not empty. */
  lemma {:induction false} ScanFinds(s0: State, run: seq<Action>, s: State, q: nat) returns (n: nat, t: State)
    requires Reached(s0, run, s) && s.consumer.Scanning? && s.consumer.next <= q < |s.queued| && s.queued[q] > 0
    ensures Reached(s0, run + Looks(n), t) && t == s.(consumer := Running)
    decreases q - s.consumer.next
  {
    hide Reached, Looks;
    t := LookOnce(s0, run, s);
    if s.queued[s.consumer.next] > 0 {
      n := 1;
      OneLook();
    } else {
      var m;
      m, t := ScanFinds(s0, run + [Look], t, q);
      n := m + 1;
      LooksFirst(m);
      Assoc(run, [Look], Looks(m));
    }
  }

  lemma {:induction false} LooksFirst(n: nat)
    ensures [Look] + Looks(n) == Looks(n + 1)
  {
    if n == 0 {
      assert Looks(1) == Looks(0) + [Look];
    } else {
      LooksFirst(n - 1);
      assert [Look] + (Looks(n - 1) + [Look]) == [Look] + Looks(n - 1) + [Look];
    }
  }

  /** What is owed is enough: after that notify the consumer's own steps take it out of the wait. */
  lemma OwedNotifyWakes(s: State, q: nat) returns (p: nat, n: nat, t: State)
    requires Inv(s) && s.consumer.Asleep? && q < |s.queued| && s.queued[q] > 0
    ensures p < |s.producers| && s.producers[p] == Owing(q)
    ensures Reached(s, [Notify(p), Reacquire] + Looks(n), t)
    ensures t.consumer.Running? && t.queued == s.queued
  {
    p :| 0 <= p < |s.producers| && s.producers[p] == Owing(q);
    var s1 := Next(s, Notify(p));
    var s2 := Next(s1, Reacquire);
    assert Reached(s, [], s) && Steps(s, Notify(p), s1) && Steps(s1, Reacquire, s2);
    hide Reached;
    OneMore(s, [], s, Notify(p), s1);
    assert [] + [Notify(p)] == [Notify(p)];
    OneMore(s, [Notify(p)], s1, Reacquire, s2);
    assert [Notify(p)] + [Reacquire] == [Notify(p), Reacquire];
    n, t := ScanFinds(s, [Notify(p), Reacquire], s2, q);
  }
}
