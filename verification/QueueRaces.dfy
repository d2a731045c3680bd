// Reachable states: the nine messages that fill the queue, the rejection that closes it,
// and what becomes of the queue when the consumer skips the mutex, as the program does.

module QueueRaces {
  import opened CString
  import opened Options
  import opened Throttle
  import opened MessageQueue
  import opened QueueProtocol
  import opened QueueSafety

  const SomeMsg := Msg([], [], 0, false)

  // ---- Stretches of a run ----

  lemma ConsumerMovesAlone(v: Variant, s: State) returns (n: State)
    requires Reachable(v, s) && Enabled(s, Consume)
    ensures Reachable(v, n) && n == ConsumerNext(v, s) && (forall u: Thread :: At(n, u) == At(s, u))
  {
    hide Reachable;
    n := ReachStep(v, s, Consume);
  }

  predicate Idle(s: State) {
    !s.broken && s.local == None && s.global == Nobody
  }

  lemma Enters(v: Variant, s: State, t: Thread, m: Msg) returns (n: State)
    requires Reachable(v, s) && Idle(s) && At(s, t).Outside? && s.mem.count < MAX_MSG_COUNT
    ensures Reachable(v, n) && At(n, t) == AtRealloc(m) && (forall u: Thread :: u != t ==> At(n, u) == At(s, u))
    ensures n == s.(producers := n.producers, local := Some(t), global := ByProducer(t))
  {
    hide Reachable;
    n := ReachStep(v, s, Call(t, m));
    n := ReachStep(v, n, Produce(t, m));
    n := ReachStep(v, n, Produce(t, m));
    n := ReachStep(v, n, Produce(t, m));
  }

  lemma Stores(v: Variant, s: State, t: Thread, m: Msg) returns (n: State)
    requires Reachable(v, s) && !s.broken && At(s, t) == AtRealloc(m) && Tidy(s.mem)
    ensures Reachable(v, n) && At(n, t) == AtWriteCount(m, s.mem.count)
    ensures forall u: Thread :: u != t ==> At(n, u) == At(s, u)
    ensures n == s.(producers := n.producers, mem := Memory(s.mem.list + [m], s.mem.count))
  {
    hide Reachable;
    ResizedKeeps(s.mem, m);
    n := ReachStep(v, s, Produce(t, m));
    assert n.mem.list[s.mem.count := m] == s.mem.list + [m];
    n := ReachStep(v, n, Produce(t, m));
    n := ReachStep(v, n, Produce(t, m));
  }

  lemma Counts(v: Variant, s: State, t: Thread) returns (n: State)
    requires Reachable(v, s) && !s.broken && At(s, t).AtWriteCount?
    ensures Reachable(v, n) && At(n, t) == AtGlobalUnlock && (forall u: Thread :: u != t ==> At(n, u) == At(s, u))
    ensures n == s.(producers := n.producers, mem := s.mem.(count := At(s, t).n + 1),
                    accepted := s.accepted + [At(s, t).m])
  {
    hide Reachable;
    n := ReachStep(v, s, Produce(t, SomeMsg));
  }

  lemma Unlocks(v: Variant, s: State, t: Thread) returns (n: State)
    requires Reachable(v, s) && !s.broken && At(s, t) == AtGlobalUnlock
    ensures Reachable(v, n) && At(n, t) == (if s.handlerStarted then AtSignal else AtCreate)
    ensures forall u: Thread :: u != t ==> At(n, u) == At(s, u)
    ensures n == s.(producers := n.producers, global := Nobody)
  {
    hide Reachable;
    n := ReachStep(v, s, Produce(t, SomeMsg));
    n := ReachStep(v, n, Produce(t, SomeMsg));
  }

  lemma StartsConsumer(v: Variant, s: State, t: Thread) returns (n: State)
    requires Reachable(v, s) && !s.broken && At(s, t) == AtCreate
    ensures Reachable(v, n) && At(n, t) == Outside && (forall u: Thread :: u != t ==> At(n, u) == At(s, u))
    ensures n == s.(producers := n.producers, local := None, consumer := AtTest,
                    starts := s.starts + 1, handlerStarted := true)
  {
    hide Reachable;
    n := ReachStep(v, s, Produce(t, SomeMsg));
    n := ReachStep(v, n, Produce(t, SomeMsg));
    n := ReachStep(v, n, Produce(t, SomeMsg));
  }

  lemma Signals(v: Variant, s: State, t: Thread) returns (n: State)
    requires Reachable(v, s) && !s.broken && At(s, t) == AtGlobalUnlock && s.handlerStarted && !s.consumer.Asleep?
    ensures Reachable(v, n) && At(n, t) == Outside && (forall u: Thread :: u != t ==> At(n, u) == At(s, u))
    ensures n == s.(producers := n.producers, local := None, global := Nobody)
  {
    hide Reachable;
    n := Unlocks(v, s, t);
    n := ReachStep(v, n, Produce(t, SomeMsg));
    n := ReachStep(v, n, Produce(t, SomeMsg));
  }

  lemma Appends(v: Variant, s: State, t: Thread) returns (n: State)
    requires Reachable(v, s) && Idle(s) && At(s, t).Outside? && Tidy(s.mem) && s.mem.count < MAX_MSG_COUNT
    ensures Reachable(v, n) && At(n, t) == AtGlobalUnlock && (forall u: Thread :: u != t ==> At(n, u) == At(s, u))
    ensures n == s.(producers := n.producers, local := Some(t), global := ByProducer(t),
                    mem := Appended(s.mem, SomeMsg), accepted := s.accepted + [SomeMsg])
  {
    hide Reachable;
    n := Enters(v, s, t, SomeMsg);
    n := Stores(v, n, t, SomeMsg);
    n := Counts(v, n, t);
  }

  /** One more message in the queue, by a producer that nobody interrupts. */
  lemma Adds(v: Variant, s: State, t: Thread) returns (n: State)
    requires Reachable(v, s) && Idle(s) && At(s, t).Outside? && Tidy(s.mem) && s.mem.count < MAX_MSG_COUNT
    requires !s.consumer.Asleep? && s.handlerStarted
    ensures Reachable(v, n) && (forall u: Thread :: At(n, u) == At(s, u))
    ensures n == s.(producers := n.producers, mem := Appended(s.mem, SomeMsg), accepted := s.accepted + [SomeMsg])
  {
    hide Reachable;
    n := Appends(v, s, t);
    n := Signals(v, n, t);
  }

  lemma InitialIsReachable(v: Variant)
    ensures Reachable(v, Initial)
  {
    assert Run(v, Initial, []) == Some(Initial);
  }

  /** The first message, and the consumer's thread with it. */
  lemma AddsFirst(v: Variant) returns (n: State)
    ensures Reachable(v, n) && (forall u: Thread :: At(n, u) == Outside)
    ensures n == Initial.(producers := n.producers, mem := Memory([SomeMsg], 1), accepted := [SomeMsg],
                          consumer := AtTest, starts := 1, handlerStarted := true)
  {
    hide Reachable;
    InitialIsReachable(v);
    n := Appends(v, Initial, 1);
    n := Unlocks(v, n, 1);
    n := StartsConsumer(v, n, 1);
  }

  // ---- The bound is attained ----

  lemma {:induction false} Fills(v: Variant, k: nat) returns (n: State)
    requires 1 <= k <= MAX_MSG_COUNT
    ensures Reachable(v, n) && Idle(n) && (forall u: Thread :: At(n, u) == Outside)
    ensures Tidy(n.mem) && n.mem.count == k && n.consumer == AtTest && n.handlerStarted && n.rejections == 0
  {
    hide Reachable;
    if k == 1 {
      n := AddsFirst(v);
    } else {
      n := Fills(v, k - 1);
      n := Adds(v, n, 1);
    }
  }

  /** Nine messages queued and a tenth rejected, which leaves the mutex behind exactly when it leaks. */
  lemma RejectionHappens(v: Variant) returns (s: State)
    ensures Reachable(v, s) && s.mem.count == 9 && s.rejections == 1 && At(s, 2) == Outside
    ensures s.local == if v.leaks then Some(2) else None
  {
    hide Reachable;
    s := Fills(v, MAX_MSG_COUNT);
    s := ReachStep(v, s, Call(2, SomeMsg));
    s := ReachStep(v, s, Produce(2, SomeMsg));
    s := ReachStep(v, s, Produce(2, SomeMsg));
  }

  /** Some run orphans the producers' mutex exactly when the full branch leaks it. */
  lemma OrphanableIffLeaks(v: Variant)
    ensures (exists s :: Reachable(v, s) && Orphaned(s)) <==> v.leaks
  {
    if v.leaks {
      var s := RejectionHappens(v);
      assert Reachable(v, s) && Orphaned(s);
    } else if s :| Reachable(v, s) && Orphaned(s) {
      InvOfReachable(v, s);
      assert false;
    }
  }

  // ---- The consumer without the mutex ----

  /** From the first test of a queue with a message to the decision, with the mutex. */
  lemma TakesTurn(v: Variant, s: State) returns (n: State)
    requires Reachable(v, s) && Idle(s) && s.consumer == AtTest && s.mem.count > 0
    ensures Reachable(v, n) && n == s.(consumer := AtDecide, global := ByConsumer)
    ensures forall u: Thread :: At(n, u) == At(s, u)
  {
    hide Reachable;
    n := ConsumerMovesAlone(v, s);
    n := ConsumerMovesAlone(v, n);
    n := ConsumerMovesAlone(v, n);
  }

  /** The decision and the first half of `msg_count--`. */
  lemma Decides(v: Variant, s: State) returns (n: State)
    requires Reachable(v, s) && !s.broken && s.consumer == AtDecide && s.mem.list != []
    ensures Reachable(v, n) && |n.departed| == |s.departed| + 1
    ensures n == s.(consumer := AtStoreCount(s.mem.count), departed := n.departed)
    ensures forall u: Thread :: At(n, u) == At(s, u)
  {
    hide Reachable;
    n := ConsumerMovesAlone(v, s);
    n := ConsumerMovesAlone(v, n);
  }

  /** A count of one is written back as zero: nothing to shift. */
  lemma Empties(v: Variant, s: State) returns (n: State)
    requires Reachable(v, s) && !s.broken && s.consumer == AtStoreCount(1)
    ensures Reachable(v, n) && n == s.(consumer := AtReplace, mem := Memory(s.mem.list, 0))
    ensures forall u: Thread :: At(n, u) == At(s, u)
  {
    hide Reachable;
    n := ConsumerMovesAlone(v, s);
    n := ConsumerMovesAlone(v, n);
  }

  lemma Replaces(v: Variant, s: State) returns (n: State)
    requires Reachable(v, s) && !s.broken && s.consumer == AtReplace && s.mem.count == 0
    ensures Reachable(v, n) && n == s.(consumer := AtRecord, global := Released(s), mem := Memory([], 0))
    ensures forall u: Thread :: At(n, u) == At(s, u)
  {
    hide Reachable;
    n := ConsumerMovesAlone(v, s);
    n := ConsumerMovesAlone(v, n);
  }

  /** One message through the queue, and the consumer back at its unlocked test. */
  lemma ServesFirst(v: Variant) returns (n: State)
    ensures Reachable(v, n) && Idle(n) && (forall u: Thread :: At(n, u) == Outside)
    ensures n.mem == Memory([], 0) && n.consumer == AtTest && n.handlerStarted && n.accepted == [SomeMsg]
    ensures |n.departed| == 1
  {
    hide Reachable;
    n := AddsFirst(v);
    n := TakesTurn(v, n);
    n := Decides(v, n);
    n := Empties(v, n);
    n := Replaces(v, n);
    n := ConsumerMovesAlone(v, n);
  }

  predicate Unlocked(s: State, c: Consumer) {
    Idle(s) && s.handlerStarted && s.consumer == c && |s.departed| == 1
  }

  /** Past the test that read zero, inside the section without the mutex. */
  lemma SkipsLock(v: Variant) returns (n: State)
    requires v.skips
    ensures Reachable(v, n) && Unlocked(n, AtRetest) && (forall u: Thread :: At(n, u) == Outside)
    ensures n.mem == Memory([], 0) && n.accepted == [SomeMsg]
  {
    hide Reachable;
    n := ServesFirst(v);
    n := ConsumerMovesAlone(v, n);
  }

  /** A message comes between the two tests: the consumer deals with it without the mutex. */
  lemma DecidesUnlocked(v: Variant) returns (n: State)
    requires v.skips
    ensures Reachable(v, n) && Unlocked(n, AtDecide) && (forall u: Thread :: At(n, u) == Outside)
    ensures n.mem == Memory([SomeMsg], 1) && n.accepted == [SomeMsg, SomeMsg]
  {
    hide Reachable;
    n := SkipsLock(v);
    n := Adds(v, n, 2);
    n := ConsumerMovesAlone(v, n);
  }

  ghost predicate Exclusive(s: State) {
    ConsumerInList(s.consumer) ==> forall t: Thread :: !InList(At(s, t))
  }

  /** A producer stores to the list while the consumer is at its head. */
  lemma TwoInList(v: Variant) returns (s: State)
    requires v.skips
    ensures Reachable(v, s) && s.consumer == AtDecide && At(s, 3).AtRealloc?
  {
    s := DecidesUnlocked(v);
    s := Enters(v, s, 3, SomeMsg);
  }

  /** No two threads are ever in the list's critical section exactly when the lock is not skipped. */
  lemma ExclusiveIffNotSkipped(v: Variant)
    ensures (forall s :: Reachable(v, s) ==> Exclusive(s)) <==> !v.skips
  {
    if v.skips {
      var s := TwoInList(v);
      assert InList(At(s, 3)) && !Exclusive(s);
    } else {
      forall s | Reachable(v, s)
        ensures Exclusive(s)
      {
        SoundOfReachable(v, s);
      }
    }
  }

  /** With no thread in the critical section, what was accepted has departed or is in the list. */
  ghost predicate Conserving(s: State) {
    s.global == Nobody && !ConsumerInList(s.consumer) ==>
      s.accepted == Messages(s.departed) + s.mem.list && |s.mem.list| == s.mem.count
  }

  /** `msg_count--` interrupted by an append: the consumer writes back a count that misses it. */
  lemma LosesMessage(v: Variant) returns (s: State)
    requires v.skips
    ensures Reachable(v, s) && Idle(s) && s.consumer == AtRecord
    ensures |s.accepted| == 3 && |s.departed| == 2 && s.mem == Memory([], 0)
  {
    hide Reachable;
    s := DecidesUnlocked(v);
    s := Enters(v, s, 3, SomeMsg);
    s := Stores(v, s, 3, SomeMsg);
    s := Decides(v, s);
    s := LosesAppend(v, s);
  }

  lemma LosesAppend(v: Variant, s: State) returns (n: State)
    requires Reachable(v, s) && !s.broken && s.handlerStarted && s.global == ByProducer(3)
    requires At(s, 3) == AtWriteCount(SomeMsg, 1) && s.consumer == AtStoreCount(1)
    ensures Reachable(v, n) && Idle(n) && n.consumer == AtRecord
    ensures n.accepted == s.accepted + [SomeMsg] && n.departed == s.departed && n.mem == Memory([], 0)
  {
    hide Reachable;
    n := Counts(v, s, 3);
    n := Empties(v, n);
    n := Replaces(v, n);
    n := Signals(v, n, 3);
  }

  /** Every message accepted is kept until it departs exactly when the lock is not skipped. */
  lemma ConservingIffNotSkipped(v: Variant)
    ensures (forall s :: Reachable(v, s) ==> Conserving(s)) <==> !v.skips
  {
    if v.skips {
      var s := LosesMessage(v);
      MessagesAt(s.departed);
      assert !Conserving(s);
    } else {
      forall s | Reachable(v, s)
        ensures Conserving(s)
      {
        NothingLost(v, s);
      }
    }
  }

  /** The consumer sleeps on a message only while the producer that will signal it is on its way. */
  ghost predicate Heard(s: State) {
    s.consumer == Asleep && s.mem.count > 0 ==> exists t: Thread :: AboutToSignal(At(s, t))
  }

  /** The signal comes after the unlocked test and before the wait. */
  lemma SleepsThroughSignal(v: Variant) returns (s: State)
    requires v.skips
    ensures Reachable(v, s) && Idle(s) && s.consumer == Asleep && s.mem == Memory([SomeMsg], 1)
    ensures forall u: Thread :: At(s, u) == Outside
  {
    hide Reachable;
    s := SkipsLock(v);
    s := ConsumerMovesAlone(v, s);
    s := Adds(v, s, 2);
    s := ConsumerMovesAlone(v, s);
  }

  /** No wake-up is lost exactly when the lock is not skipped. */
  lemma HeardIffNotSkipped(v: Variant)
    ensures (forall s :: Reachable(v, s) ==> Heard(s)) <==> !v.skips
  {
    if v.skips {
      var s := SleepsThroughSignal(v);
      assert !Heard(s);
    } else {
      forall s | Reachable(v, s)
        ensures Heard(s)
      {
        SoundOfReachable(v, s);
      }
    }
  }

  /** The consumer frees the list a producer has just made room in. */
  lemma StoresOutside(v: Variant) returns (s: State)
    requires v.skips
    ensures Reachable(v, s) && s.broken
  {
    hide Reachable;
    s := DecidesUnlocked(v);
    s := Decides(v, s);
    s := Empties(v, s);
    s := Enters(v, s, 3, SomeMsg);
    s := ReachStep(v, s, Produce(3, SomeMsg));
    s := ReachStep(v, s, Consume);
    s := ReachStep(v, s, Produce(3, SomeMsg));
  }

  /** No access ever falls outside the list exactly when the lock is not skipped. */
  lemma InBoundsIffNotSkipped(v: Variant)
    ensures (forall s :: Reachable(v, s) ==> !s.broken) <==> !v.skips
  {
    if v.skips {
      var s := StoresOutside(v);
      assert s.broken;
    } else {
      forall s | Reachable(v, s)
        ensures !s.broken
      {
        NothingLost(v, s);
      }
    }
  }
}
