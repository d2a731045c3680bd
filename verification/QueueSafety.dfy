// What holds of the queue in every interleaving, and what holds only when the consumer
// takes the mutex every time.

module QueueSafety {
  import opened CString
  import opened Options
  import opened Throttle
  import opened MessageQueue
  import opened QueueProtocol

  // ---- The program as it is ----

  /** The count never leaves 0..9, and at most one consumer is ever created. */
  lemma QueueIsBounded(v: Variant, s: State)
    requires Reachable(v, s)
    ensures 0 <= s.mem.count <= 9 && s.starts <= 1
  {
    InvOfReachable(v, s);
  }

  lemma OneProducerInList(v: Variant, s: State, t: Thread, u: Thread)
    requires Reachable(v, s) && InList(At(s, t)) && InList(At(s, u))
    ensures t == u
  {
    InvOfReachable(v, s);
  }

  /** A message is turned away exactly when nine are counted at the test, and taken in as it is otherwise. */
  lemma RejectedIffFull(v: Variant, s: State, t: Thread, junk: Msg)
    requires Reachable(v, s) && !s.broken && At(s, t).AtCheck?
    ensures var n := Next(v, s, Produce(t, junk));
            if s.mem.count == 9 then n.rejections == s.rejections + 1 && At(n, t) == Outside
            else n.rejections == s.rejections && At(n, t) == AtGlobalLock(At(s, t).m)
  {
    InvOfReachable(v, s);
  }

  /** Nothing is dropped but a droppable message at a throttled moment. */
  lemma OnlyThrottledAreDropped(v: Variant, s: State, k: nat)
    requires Reachable(v, s) && k < |s.departed|
    ensures !s.departed[k].sent <==> s.departed[k].msg.drop && s.departed[k].throttled
  {
    InvOfReachable(v, s);
    assert DecidedOn(s.departed[k], s.recorded[..k]);
  }

  /**
   * Said without the throttle's own terms: a departed message was not sent exactly when it
   * was droppable and the last five times recorded before it lay no more than 1,500,000 ms
   * back all together.
   */
  lemma UnsentIff(v: Variant, s: State, k: nat)
    requires Reachable(v, s) && k < |s.departed|
    ensures k <= |s.recorded|
    ensures !s.departed[k].sent <==> s.departed[k].msg.drop && Behind(s.recorded[..k], s.departed[k].at) <= 1500000
  {
    InvOfReachable(v, s);
    assert DecidedOn(s.departed[k], s.recorded[..k]);
    ThrottledIff(s.recorded[..k], s.departed[k].at);
  }

  /** The sixth of six droppable messages within five minutes is dropped. */
  lemma BusyIsDropped(v: Variant, s: State, k: nat)
    requires Reachable(v, s) && 5 <= k < |s.departed| && k <= |s.recorded| && s.departed[k].msg.drop
    requires forall j :: k - 5 <= j < k ==> s.recorded[j] >= s.departed[k].at - 300000
    ensures !s.departed[k].sent
  {
    InvOfReachable(v, s);
    assert DecidedOn(s.departed[k], s.recorded[..k]);
    assert forall i :: 0 <= i < k ==> s.recorded[..k][i] == s.recorded[i];
    BusyIsThrottled(s.recorded[..k], s.departed[k].at);
  }

  /** No decision is in the future, and each message's time is recorded after its decision. */
  ghost predicate Recorded(s: State) {
    && |s.recorded| <= |s.departed|
    && (forall k :: 0 <= k < |s.departed| ==> s.departed[k].at <= s.clock)
    && (forall k :: 0 <= k < |s.recorded| ==> s.departed[k].at <= s.recorded[k])
  }

  lemma RecordedKept(v: Variant, s: State, step: Step)
    requires Timed(s) && Recorded(s) && Enabled(s, step)
    ensures Recorded(Next(v, s, step))
  {
    hide EnterNext, ListNext, LeaveNext, WaitNext, Throttled, Shift, DecidedOn, Window, Monotone;
  }

  lemma {:induction false} RecordedAlongRun(v: Variant, s: State, schedule: seq<Step>, s': State)
    requires Inv(v, s) && Recorded(s) && Run(v, s, schedule) == Some(s')
    ensures Recorded(s')
    decreases |schedule|
  {
    if schedule != [] {
      RecordedKept(v, s, schedule[0]);
      hide Inv, Recorded, Next, Enabled;
      InvKept(v, s, schedule[0]);
      RecordedAlongRun(v, Next(v, s, schedule[0]), schedule[1..], s');
    }
  }

  /** Decisions and the times recorded after them alternate, on one clock. */
  lemma TimesAreInOrder(v: Variant, s: State, k: nat)
    requires Reachable(v, s) && k < |s.departed|
    ensures s.departed[k].at <= s.clock
    ensures k < |s.recorded| ==> s.departed[k].at <= s.recorded[k] <= s.clock
    ensures 0 < k <= |s.recorded| ==> s.recorded[k - 1] <= s.departed[k].at
  {
    InvOfReachable(v, s);
    InvInitially(v);
    var schedule :| Run(v, Initial, schedule) == Some(s);
    RecordedAlongRun(v, Initial, schedule, s);
    assert DecidedOn(s.departed[k], s.recorded[..k]);
    assert 0 < k <= |s.recorded| ==> s.recorded[..k][k - 1] == s.recorded[k - 1];
  }

  /** The k-th message is never throttled while k < 5 and the clock is past 1,500,000 ms. */
  lemma FirstFiveDepart(v: Variant, s: State, k: nat)
    requires Reachable(v, s) && k < |s.departed| && k < 5
    requires s.departed[k].at > 1500000
    ensures !s.departed[k].throttled && s.departed[k].sent
  {
    InvOfReachable(v, s);
    assert DecidedOn(s.departed[k], s.recorded[..k]);
    FirstFiveNotThrottled(s.recorded[..k], s.departed[k].at);
  }

  /** Nor is one that leaves more than 300,000 ms after its predecessor was recorded. */
  lemma QuietDepart(v: Variant, s: State, k: nat)
    requires Reachable(v, s) && k < |s.departed|
    requires s.departed[k].at > 300000
    requires k > 0 ==> k <= |s.recorded| && s.departed[k].at - s.recorded[k - 1] > 300000
    ensures !s.departed[k].throttled && s.departed[k].sent
  {
    InvOfReachable(v, s);
    assert DecidedOn(s.departed[k], s.recorded[..k]);
    QuietPeriodNotThrottled(s.recorded[..k], s.departed[k].at);
  }

  lemma OrphanStays(v: Variant, s: State, step: Step)
    requires Inv(v, s) && Orphaned(s) && Enabled(s, step)
    ensures var n := Next(v, s, step);
            Orphaned(n) && n.accepted == s.accepted && n.rejections == s.rejections
  {
    hide Bounded, StartedOnce, Timed, Closed;
  }

  lemma {:induction false} OrphanedForever(v: Variant, s: State, schedule: seq<Step>, s': State)
    requires Inv(v, s) && Orphaned(s) && Run(v, s, schedule) == Some(s')
    ensures Orphaned(s') && s'.accepted == s.accepted && s'.rejections == s.rejections
    decreases |schedule|
  {
    hide Inv, Orphaned, Next, Enabled;
    if schedule != [] {
      OrphanStays(v, s, schedule[0]);
      InvKept(v, s, schedule[0]);
      OrphanedForever(v, Next(v, s, schedule[0]), schedule[1..], s');
    }
  }

  /** The first rejection that leaks is the last event at the door. */
  lemma RejectionClosesTheQueue(v: Variant, s: State, schedule: seq<Step>, s': State)
    requires Reachable(v, s) && Run(v, s, schedule) == Some(s')
    ensures Orphaned(s) <==> v.leaks && s.rejections > 0
    ensures v.leaks && s.rejections > 0 ==> s'.accepted == s.accepted && s'.rejections == s.rejections
    ensures v.leaks ==> s.rejections <= 1
  {
    InvOfReachable(v, s);
    if Orphaned(s) {
      OrphanedForever(v, s, schedule, s');
    }
  }

  // ---- When the consumer takes the mutex every time ----

  /** Outside the critical sections the list is the queue, and nothing accepted is missing. */
  lemma NothingLost(v: Variant, s: State)
    requires !v.skips && Reachable(v, s)
    ensures s.accepted == Messages(s.departed) + Queued(s)
    ensures s.global == Nobody ==> Queued(s) == s.mem.list && |s.mem.list| == s.mem.count
    ensures !s.broken
  {
    SoundOfReachable(v, s);
  }

  /** A step leaves the queue alone, appends to it what is accepted, or takes its head as what departs. */
  ghost predicate Atomic(s: State, n: State) {
    || (Queued(n) == Queued(s) && n.accepted == s.accepted && n.departed == s.departed)
    || (exists m: Msg :: Queued(n) == Queued(s) + [m] && n.accepted == s.accepted + [m] && n.departed == s.departed)
    || (exists d: Departure ::
          && Queued(s) == [d.msg] + Queued(n) && n.accepted == s.accepted
          && n.departed == s.departed + [d] && d.at == s.clock)
  }

  lemma ConsumeIsAtomic(v: Variant, s: State)
    requires !v.skips && Inv(v, s) && Sound(s) && Enabled(s, Consume)
    ensures Atomic(s, ConsumerNext(v, s))
  {
    hide Queued;
    var n := ConsumerNext(v, s);
    if Waiting(s.consumer) {
      QueuedStays(s, n);
    } else {
      ServeKeepsQueued(v, s);
      ServeKeepsShaped(v, s);
      if s.consumer.AtDecide? {
        assert n.departed == s.departed + [n.departed[|s.departed|]];
      }
    }
  }

  lemma ProduceIsAtomic(v: Variant, s: State, t: Thread, junk: Msg)
    requires !v.skips && Inv(v, s) && Sound(s) && Enabled(s, Produce(t, junk))
    ensures Atomic(s, ProducerNext(v, s, t, junk))
  {
    hide Queued;
    var n := ProducerNext(v, s, t, junk);
    if InList(At(s, t)) {
      ListKeepsQueued(v, s, t, junk);
      if At(s, t).AtWriteCount? {
        assert n.accepted == s.accepted + [At(s, t).m];
      }
    } else {
      QueuedStays(s, n);
    }
  }

  /** Each of the many small steps is one step of an atomic queue, or none. */
  lemma StepIsAtomic(v: Variant, s: State, step: Step)
    requires !v.skips && Reachable(v, s) && Enabled(s, step)
    ensures Atomic(s, Next(v, s, step))
  {
    hide Queued, Inv, Sound;
    SoundOfReachable(v, s);
    match step
    case Produce(t, junk) => ProduceIsAtomic(v, s, t, junk);
    case Consume => ConsumeIsAtomic(v, s);
    case _ => QueuedStays(s, Next(v, s, step));
  }

  lemma ProduceExtends(v: Variant, s: State, t: Thread, junk: Msg)
    requires !At(s, t).Outside?
    ensures var n := ProducerNext(v, s, t, junk); s.departed == n.departed && s.accepted <= n.accepted
  {
    hide EnterNext, LeaveNext, Resized;
  }

  lemma StepExtends(v: Variant, s: State, step: Step)
    requires Enabled(s, step)
    ensures var n := Next(v, s, step); s.departed <= n.departed && s.accepted <= n.accepted
  {
    hide ProducerNext, WaitNext, Throttled, Shift;
    if step.Produce? {
      ProduceExtends(v, s, step.t, step.junk);
    }
  }

  lemma {:induction false} RunExtends(v: Variant, s: State, schedule: seq<Step>, s': State)
    requires Run(v, s, schedule) == Some(s')
    ensures s.departed <= s'.departed && s.accepted <= s'.accepted
    decreases |schedule|
  {
    hide Next, Enabled;
    if schedule != [] {
      StepExtends(v, s, schedule[0]);
      RunExtends(v, Next(v, s, schedule[0]), schedule[1..], s');
    }
  }

  lemma {:induction false} MessagesAt(departed: seq<Departure>)
    ensures |Messages(departed)| == |departed|
    ensures forall k :: 0 <= k < |departed| ==> Messages(departed)[k] == departed[k].msg
  {
    if departed != [] {
      MessagesAt(departed[..|departed| - 1]);
    }
  }

  lemma RunConserves(v: Variant, s: State, schedule: seq<Step>, s': State)
    requires !v.skips && Reachable(v, s) && Run(v, s, schedule) == Some(s')
    ensures Messages(s.departed) + Queued(s) <= Messages(s'.departed) + Queued(s')
    ensures |s.departed| <= |s'.departed|
  {
    hide Inv, Queued, Run;
    SoundOfReachable(v, s);
    InvAlongRun(v, s, schedule, s');
    SoundAlongRun(v, s, schedule, s');
    RunExtends(v, s, schedule, s');
  }

  /**
   * First in, first out: however producers interleave, the message at position k is the
   * (k+1)-th to leave from now on, and until then it moves up one place per departure.
   */
  lemma FirstInFirstOut(v: Variant, s: State, schedule: seq<Step>, s': State, k: nat)
    requires !v.skips && Reachable(v, s) && Run(v, s, schedule) == Some(s')
    requires k < |Queued(s)|
    ensures var left := |s'.departed| - |s.departed|;
            && left >= 0
            && (k < left ==> s'.departed[|s.departed| + k].msg == Queued(s)[k])
            && (k >= left ==> k - left < |Queued(s')| && Queued(s')[k - left] == Queued(s)[k])
  {
    hide Queued, Run;
    RunConserves(v, s, schedule, s');
    MessagesAt(s.departed);
    MessagesAt(s'.departed);
    Positions(Messages(s.departed), Queued(s), Messages(s'.departed), Queued(s'), k);
  }

  lemma Positions(gone: seq<Msg>, queue: seq<Msg>, gone': seq<Msg>, queue': seq<Msg>, k: nat)
    requires gone + queue <= gone' + queue' && |gone| <= |gone'| && k < |queue|
    ensures var left := |gone'| - |gone|;
            && (k < left ==> gone'[|gone| + k] == queue[k])
            && (k >= left ==> k - left < |queue'| && queue'[k - left] == queue[k])
  {
    assert (gone + queue)[|gone| + k] == queue[k];
    assert (gone' + queue')[|gone| + k] == queue[k];
  }

  // ---- A critical section, whatever the other threads do meanwhile, is the method of the queue ----

  /** `who` holds the list's mutex before every step of the run, and after the last. */
  predicate HeldThroughout(v: Variant, s: State, schedule: seq<Step>, who: Owner)
    requires Run(v, s, schedule).Some?
    decreases |schedule|
  {
    s.global == who && (schedule != [] ==> HeldThroughout(v, Next(v, s, schedule[0]), schedule[1..], who))
  }

  /** What the list's memory is at each point of the producer's section that began on `before`. */
  predicate Appending(before: Memory, m: Msg, s: State, t: Thread)
    requires Tidy(before)
  {
    && s.global == ByProducer(t)
    && match At(s, t)
       case AtRealloc(m') => m' == m && s.mem == before
       case AtStore(m') =>
         m' == m && s.mem.count == before.count && |s.mem.list| == before.count + 1 && before.list <= s.mem.list
       case AtReadCount(m') => m' == m && s.mem == Memory(before.list + [m], before.count)
       case AtWriteCount(m', n) => m' == m && n == before.count && s.mem == Memory(before.list + [m], before.count)
       case AtGlobalUnlock => s.mem == Appended(before, m)
       case _ => false
  }

  lemma AppendingOwnStep(before: Memory, m: Msg, s: State, t: Thread, junk: Msg)
    requires Tidy(before) && Appending(before, m, s, t) && InList(At(s, t))
    ensures ListNext(s, t, junk).global == ByProducer(t) ==> Appending(before, m, ListNext(s, t, junk), t)
  {
    if At(s, t).AtRealloc? {
      ResizedKeeps(s.mem, junk);
    } else if At(s, t).AtStore? {
      assert s.mem.list[before.count := m] == before.list + [m];
    }
  }

  lemma AppendingOtherStep(v: Variant, before: Memory, m: Msg, s: State, t: Thread, step: Step)
    requires !v.skips && Inv(v, s) && Sound(s) && Enabled(s, step)
    requires Tidy(before) && Appending(before, m, s, t) && !(step.Produce? && step.t == t)
    ensures Appending(before, m, Next(v, s, step), t)
  {
    hide Queued, Messages, Bounded, StartedOnce, Timed, Closed, Appended, Tidy;
    var n := Next(v, s, step);
    assert At(n, t) == At(s, t);
    assert n.mem == s.mem;
  }

  lemma {:induction false} AppendingAlongRun(
      v: Variant, before: Memory, m: Msg, s: State, schedule: seq<Step>, s': State, t: Thread)
    requires !v.skips && Inv(v, s) && Sound(s) && Run(v, s, schedule) == Some(s')
    requires Tidy(before) && Appending(before, m, s, t) && HeldThroughout(v, s, schedule, ByProducer(t))
    ensures Appending(before, m, s', t)
    decreases |schedule|
  {
    if schedule != [] {
      var n := Next(v, s, schedule[0]);
      AppendingStep(v, before, m, s, t, schedule[0]);
      hide Inv, Sound, Next, Enabled, Appending;
      InvKept(v, s, schedule[0]);
      SoundKept(v, s, schedule[0]);
      AppendingAlongRun(v, before, m, n, schedule[1..], s', t);
    }
  }

  lemma AppendingStep(v: Variant, before: Memory, m: Msg, s: State, t: Thread, step: Step)
    requires !v.skips && Inv(v, s) && Sound(s) && Enabled(s, step)
    requires Tidy(before) && Appending(before, m, s, t) && Next(v, s, step).global == ByProducer(t)
    ensures Appending(before, m, Next(v, s, step), t)
  {
    if step.Produce? && step.t == t {
      AppendingOwnStep(before, m, s, t, step.junk);
    } else {
      AppendingOtherStep(v, before, m, s, t, step);
    }
  }

  /** From the lock to the unlock, a producer does to the memory what Queue.Append does. */
  lemma SectionIsAppend(v: Variant, s: State, schedule: seq<Step>, s': State, t: Thread)
    requires !v.skips && Reachable(v, s) && Run(v, s, schedule) == Some(s')
    requires At(s, t).AtRealloc? && At(s', t).AtGlobalUnlock? && HeldThroughout(v, s, schedule, ByProducer(t))
    ensures Tidy(s.mem) && s'.mem == Appended(s.mem, At(s, t).m)
  {
    SoundOfReachable(v, s);
    assert s.global == ByProducer(t);
    AppendingAlongRun(v, s.mem, At(s, t).m, s, schedule, s', t);
  }

  /** The same for the consumer's section that began on `s0`. */
  predicate RemovingHead(s0: State, s: State)
    requires Tidy(s0.mem) && s0.mem.list != []
  {
    var list := s0.mem.list;
    && s.global == ByConsumer
    && s.window == s0.window
    && (if s.consumer.AtDecide? then s.mem == s0.mem && s.departed == s0.departed
        else |s.departed| == |s0.departed| + 1 && DealtWith(s0, s.departed[|s0.departed|]) && s0.departed <= s.departed)
    && match s.consumer
       case AtDecide => true
       case AtLoadCount => s.mem == s0.mem
       case AtStoreCount(n) => s.mem == s0.mem && n == s0.mem.count
       case AtShift(i) =>
         && s.mem.count == s0.mem.count - 1 && i <= s.mem.count && |s.mem.list| == |list|
         && (forall k :: 0 <= k < i ==> s.mem.list[k] == list[k + 1])
         && (forall k :: i <= k < |list| ==> s.mem.list[k] == list[k])
       case AtReplace =>
         && s.mem.count == s0.mem.count - 1 && |s.mem.list| == |list|
         && (forall k :: 0 <= k < s.mem.count ==> s.mem.list[k] == list[k + 1])
       case AtUnlock => s.mem == HeadRemoved(s0.mem)
       case _ => false
  }

  predicate DealtWith(s0: State, d: Departure)
    requires s0.mem.list != []
  {
    d.msg == s0.mem.list[0] && d.throttled == Throttled(d.at, s0.window) && d.sent == IsSent(d.msg, d.throttled)
  }

  lemma RemovingShift(s0: State, s: State)
    requires Tidy(s0.mem) && s0.mem.list != [] && RemovingHead(s0, s) && s.consumer.AtShift?
    ensures RemovingHead(s0, ServeNext(s))
  {
    hide DealtWith;
  }

  lemma RemovingReplace(s0: State, s: State)
    requires Tidy(s0.mem) && s0.mem.list != [] && RemovingHead(s0, s) && s.consumer.AtReplace?
    ensures RemovingHead(s0, ServeNext(s))
  {
    hide DealtWith;
    assert s.mem.list[..s.mem.count] == s0.mem.list[1..];
  }

  lemma RemovingOwnStep(s0: State, s: State)
    requires Tidy(s0.mem) && s0.mem.list != [] && RemovingHead(s0, s) && Serving(s.consumer)
    ensures ServeNext(s).global == ByConsumer ==> RemovingHead(s0, ServeNext(s))
  {
    if s.consumer.AtShift? {
      RemovingShift(s0, s);
    } else if s.consumer.AtReplace? {
      RemovingReplace(s0, s);
    }
  }

  lemma RemovingOtherStep(v: Variant, s0: State, s: State, step: Step)
    requires !v.skips && Inv(v, s) && Sound(s) && Enabled(s, step) && !step.Consume?
    requires Tidy(s0.mem) && s0.mem.list != [] && RemovingHead(s0, s)
    ensures RemovingHead(s0, Next(v, s, step))
  {
    hide Queued, Messages, Bounded, Timed, Closed;
    var n := Next(v, s, step);
    assert n == s.(producers := n.producers, local := n.local, consumer := n.consumer, clock := n.clock,
                   rejections := n.rejections, handlerStarted := n.handlerStarted, starts := n.starts);
    assert n.consumer == s.consumer;
  }

  lemma RemovingStep(v: Variant, s0: State, s: State, step: Step)
    requires !v.skips && Inv(v, s) && Sound(s) && Enabled(s, step)
    requires Tidy(s0.mem) && s0.mem.list != [] && RemovingHead(s0, s) && Next(v, s, step).global == ByConsumer
    ensures RemovingHead(s0, Next(v, s, step))
  {
    if step.Consume? {
      RemovingOwnStep(s0, s);
    } else {
      RemovingOtherStep(v, s0, s, step);
    }
  }

  lemma {:induction false} RemovingAlongRun(v: Variant, s0: State, s: State, schedule: seq<Step>, s': State)
    requires !v.skips && Inv(v, s) && Sound(s) && Run(v, s, schedule) == Some(s')
    requires Tidy(s0.mem) && s0.mem.list != [] && RemovingHead(s0, s) && HeldThroughout(v, s, schedule, ByConsumer)
    ensures RemovingHead(s0, s')
    decreases |schedule|
  {
    if schedule != [] {
      var n := Next(v, s, schedule[0]);
      RemovingStep(v, s0, s, schedule[0]);
      hide Inv, Sound, Next, Enabled, RemovingHead;
      InvKept(v, s, schedule[0]);
      SoundKept(v, s, schedule[0]);
      RemovingAlongRun(v, s0, n, schedule[1..], s');
    }
  }

  /** From the decision to the unlock, the consumer does to the memory what Queue.ProcessHead does. */
  lemma SectionIsProcessHead(v: Variant, s: State, schedule: seq<Step>, s': State)
    requires !v.skips && Reachable(v, s) && Run(v, s, schedule) == Some(s')
    requires s.consumer.AtDecide? && s'.consumer.AtUnlock? && HeldThroughout(v, s, schedule, ByConsumer)
    ensures Tidy(s.mem) && s.mem.list != [] && s'.mem == HeadRemoved(s.mem)
    ensures |s'.departed| == |s.departed| + 1
    ensures var d := s'.departed[|s.departed|];
            d.msg == s.mem.list[0] && d.sent == IsSent(d.msg, Throttled(d.at, s.window))
  {
    SoundOfReachable(v, s);
    RemovingAlongRun(v, s, s, schedule, s');
  }
}
