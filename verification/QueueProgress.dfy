// The queue makes progress: the threads that are there, without further calls, can always
// empty it, unless the consumer skips the mutex.

module QueueProgress {
  import opened CString
  import opened Options
  import opened MessageQueue
  import opened QueueProtocol
  import opened QueueSafety
  import opened QueueRaces

  /** Steps of threads already at work: no new call, no spurious wake-up, no waiting for the clock. */
  predicate Working(schedule: seq<Step>) {
    forall k :: 0 <= k < |schedule| ==> schedule[k].Produce? || schedule[k].Consume?
  }

  ghost predicate Drainable(v: Variant, s: State) {
    exists schedule: seq<Step> ::
      Working(schedule) && Run(v, s, schedule).Some? && Queued(Run(v, s, schedule).value) == []
  }

  /** About to create the consumer. */
  predicate AboutToCreate(p: Producer) {
    p.AtGlobalUnlock? || p.AtStartTest? || p.AtCreate?
  }

  /** While there is no consumer, whoever put the first message in the queue is about to create it. */
  predicate Begun(s: State) {
    s.consumer.NotStarted? && s.mem.count > 0 ==> s.local.Some? && AboutToCreate(At(s, s.local.value))
  }

  lemma ProduceKeepsBegun(v: Variant, s: State, t: Thread, junk: Msg)
    requires Inv(v, s) && Begun(s) && Enabled(s, Produce(t, junk))
    ensures Begun(ProducerNext(v, s, t, junk))
  {
    hide Bounded, Timed, Closed;
  }

  lemma ConsumeKeepsBegun(v: Variant, s: State)
    requires Enabled(s, Consume)
    ensures Begun(ConsumerNext(v, s))
  {
  }

  lemma BegunKept(v: Variant, s: State, step: Step)
    requires Inv(v, s) && Begun(s) && Enabled(s, step)
    ensures Begun(Next(v, s, step))
  {
    match step
    case Produce(t, junk) =>
      hide ProducerNext;
      ProduceKeepsBegun(v, s, t, junk);
    case Consume =>
      hide ConsumerNext;
      ConsumeKeepsBegun(v, s);
    case _ =>
  }

  lemma {:induction false} BegunAlongRun(v: Variant, s: State, schedule: seq<Step>, s': State)
    requires Inv(v, s) && Begun(s) && Run(v, s, schedule) == Some(s')
    ensures Begun(s')
    decreases |schedule|
  {
    hide Inv, Begun, Next, Enabled;
    if schedule != [] {
      InvKept(v, s, schedule[0]);
      BegunKept(v, s, schedule[0]);
      BegunAlongRun(v, Next(v, s, schedule[0]), schedule[1..], s');
    }
  }

  lemma BegunOfReachable(v: Variant, s: State)
    requires Reachable(v, s)
    ensures Begun(s)
  {
    hide Inv, Run;
    var schedule :| Run(v, Initial, schedule) == Some(s);
    InvInitially(v);
    BegunAlongRun(v, Initial, schedule, s);
  }

  // ---- Whose turn it is, and what it leaves to do ----

  /** Whoever owns the mutex goes on; else the consumer; else the producer that starts or wakes it. */
  function Duty(s: State): Step
    requires s.global == Nobody && (s.consumer.NotStarted? || s.consumer.Asleep?) ==> s.local.Some?
  {
    match s.global
    case ByProducer(t) => Produce(t, SomeMsg)
    case ByConsumer => Consume
    case Nobody =>
      if s.consumer.NotStarted? || s.consumer.Asleep? then Produce(s.local.value, SomeMsg) else Consume
  }

  function ProducerRank(p: Producer): nat {
    match p
    case AtRealloc(_) => 10
    case AtStore(_) => 9
    case AtReadCount(_) => 8
    case AtWriteCount(_, _) => 7
    case AtGlobalUnlock => 6
    case AtStartTest => 5
    case AtCreate => 4
    case AtSetStarted => 3
    case AtSignal => 2
    case AtLocalUnlock => 1
    case _ => 0
  }

  function ConsumerRank(c: Consumer): nat {
    match c
    case AtLoadCount => 33
    case AtStoreCount(_) => 32
    case AtShift(i) => if i <= 9 then 31 - i else 21
    case AtReplace => 20
    case AtUnlock => 19
    case AtRecord => 18
    case NotStarted => 17
    case AtTest => 16
    case Asleep => 15
    case AtCondWait => 14
    case AtLock => 13
    case Woken => 13
    case AtRetest => 12
    case AtDecide => 11
  }

  /** Between the lock and the store to the count. */
  predicate Storing(p: Producer) {
    p.AtRealloc? || p.AtStore? || p.AtReadCount? || p.AtWriteCount?
  }

  /** Messages queued or about to be. */
  function Owed(s: State): nat {
    |Queued(s)| + (if s.global.ByProducer? && Storing(At(s, s.global.t)) then 1 else 0)
  }

  function LocalRank(s: State): nat {
    if s.local.Some? then ProducerRank(At(s, s.local.value)) else 0
  }

  function Work(s: State): nat {
    30 * Owed(s) + ConsumerRank(s.consumer) + LocalRank(s)
  }

  lemma ListDuty(v: Variant, s: State, t: Thread)
    requires Inv(v, s) && Sound(s) && s.global == ByProducer(t)
    ensures InList(At(s, t)) && Work(ListNext(s, t, SomeMsg)) < Work(s)
  {
    assert InList(At(s, t));
    ListKeepsQueued(v, s, t, SomeMsg);
    hide Queued, Resized, Bounded, StartedOnce, Timed, Closed, Shaped, Conserved, Awake;
  }

  lemma ConsumerWork(s: State, n: State)
    requires n.local == s.local && n.producers == s.producers && !s.global.ByProducer? && !n.global.ByProducer?
    requires 30 * |Queued(n)| + ConsumerRank(n.consumer) < 30 * |Queued(s)| + ConsumerRank(s.consumer)
    ensures Work(n) < Work(s)
  {
    hide Queued, ConsumerRank, ProducerRank;
  }

  lemma WaitRank(v: Variant, s: State)
    requires !v.skips && Sound(s) && Waiting(s.consumer) && Queued(s) != []
    ensures ConsumerRank(WaitNext(v, s).consumer) < ConsumerRank(s.consumer)
  {
    hide Conserved, Awake, Messages;
  }

  lemma WaitDuty(v: Variant, s: State)
    requires !v.skips && Inv(v, s) && Sound(s) && Waiting(s.consumer) && Queued(s) != [] && !s.global.ByProducer?
    ensures Work(WaitNext(v, s)) < Work(s)
  {
    hide Queued, ConsumerRank, Inv, Sound, Work;
    var n := WaitNext(v, s);
    QueuedStays(s, n);
    WaitRank(v, s);
    ConsumerWork(s, n);
  }

  lemma ServeRank(v: Variant, s: State)
    requires Inv(v, s) && Sound(s) && Serving(s.consumer)
    ensures if s.consumer.AtDecide? then ConsumerRank(ServeNext(s).consumer) <= 33 && ConsumerRank(s.consumer) == 11
            else if s.consumer.AtRecord? then ServeNext(s).consumer.AtTest?
            else ConsumerRank(ServeNext(s).consumer) < ConsumerRank(s.consumer)
  {
    ServeKeepsShaped(v, s);
    hide Conserved, Awake, Messages, Serialised, StartedOnce, Timed, Closed;
  }

  lemma ServeDuty(v: Variant, s: State)
    requires Inv(v, s) && Sound(s) && Serving(s.consumer) && !s.global.ByProducer?
    ensures Work(ServeNext(s)) < Work(s)
  {
    var n := ServeNext(s);
    ServeRank(v, s);
    ServeKeepsQueued(v, s);
    hide Queued, Inv, Sound, Work;
    ConsumerWork(s, n);
  }

  lemma LeaveRank(v: Variant, s: State, t: Thread)
    requires Inv(v, s) && Leaving(At(s, t)) && !At(s, t).AtLocalUnlock?
    requires s.consumer.NotStarted? || s.consumer.Asleep?
    ensures var n := LeaveNext(s, t);
            && n.local == s.local && n.global == s.global
            && ProducerRank(At(n, t)) < ProducerRank(At(s, t))
            && ConsumerRank(n.consumer) <= ConsumerRank(s.consumer)
  {
    hide Bounded, Timed, Closed;
  }

  /** The producer that starts or wakes the consumer. */
  lemma LeaveDuty(v: Variant, s: State, t: Thread)
    requires Inv(v, s) && Leaving(At(s, t)) && !At(s, t).AtLocalUnlock? && s.global == Nobody
    requires s.consumer.NotStarted? || s.consumer.Asleep?
    ensures s.local == Some(t) && Work(LeaveNext(s, t)) < Work(s)
  {
    var n := LeaveNext(s, t);
    assert s.local == Some(t);
    QueuedStays(s, n);
    LeaveRank(v, s, t);
    hide Queued, Inv, ConsumerRank, ProducerRank;
  }

  /** While something is queued, the thread on duty can move. */
  lemma DutyIs(v: Variant, s: State)
    requires !v.skips && Inv(v, s) && Sound(s) && Begun(s) && Queued(s) != []
    ensures s.global == Nobody && (s.consumer.NotStarted? || s.consumer.Asleep?) ==>
              && s.local.Some? && Leaving(At(s, s.local.value)) && !At(s, s.local.value).AtLocalUnlock?
    ensures s.global.ByProducer? ==> InList(At(s, s.global.t))
    ensures s.global == ByConsumer ==> Waiting(s.consumer) || Serving(s.consumer)
    ensures s.global == Nobody ==>
              s.consumer.NotStarted? || s.consumer.Asleep? || Waiting(s.consumer) || Serving(s.consumer)
  {
    hide Bounded, Timed, Closed, Conserved, Messages;
  }

  lemma DutyEnabled(v: Variant, s: State)
    requires !v.skips && Inv(v, s) && Sound(s) && Begun(s) && Queued(s) != []
    ensures s.global == Nobody && (s.consumer.NotStarted? || s.consumer.Asleep?) ==> s.local.Some?
    ensures Enabled(s, Duty(s)) && (Duty(s).Produce? || Duty(s).Consume?)
  {
    DutyIs(v, s);
    hide Queued, Inv, Conserved, Shaped, Awake, Begun, Messages;
  }

  lemma ConsumerDuty(v: Variant, s: State)
    requires !v.skips && Inv(v, s) && Sound(s) && Queued(s) != [] && !s.global.ByProducer?
    requires Waiting(s.consumer) || Serving(s.consumer)
    ensures Work(ConsumerNext(v, s)) < Work(s)
  {
    hide Inv, Sound, Queued, Work, WaitNext, ServeNext;
    if Waiting(s.consumer) {
      WaitDuty(v, s);
    } else {
      ServeDuty(v, s);
    }
  }

  lemma ProducerDuty(v: Variant, s: State, t: Thread)
    requires Inv(v, s) && Sound(s)
    requires || s.global == ByProducer(t)
             || (s.global == Nobody && (s.consumer.NotStarted? || s.consumer.Asleep?)
                 && Leaving(At(s, t)) && !At(s, t).AtLocalUnlock?)
    ensures !At(s, t).Outside? && Work(ProducerNext(v, s, t, SomeMsg)) < Work(s)
  {
    if s.global == ByProducer(t) {
      ListDuty(v, s, t);
    } else {
      LeaveDuty(v, s, t);
    }
    hide Inv, Sound, Work, ListNext, LeaveNext, EnterNext;
  }

  lemma DutyWorks(v: Variant, s: State)
    requires !v.skips && Inv(v, s) && Sound(s) && Begun(s) && Queued(s) != []
    requires s.global == Nobody && (s.consumer.NotStarted? || s.consumer.Asleep?) ==> s.local.Some?
    requires Enabled(s, Duty(s))
    ensures Work(Next(v, s, Duty(s))) < Work(s)
  {
    DutyIs(v, s);
    hide Inv, Sound, Begun, Queued, Work, ConsumerNext, ProducerNext;
    match Duty(s)
    case Produce(t, _) => ProducerDuty(v, s, t);
    case _ => ConsumerDuty(v, s);
  }

  // ---- Draining ----

  lemma {:induction false} DrainsFrom(v: Variant, s: State) returns (schedule: seq<Step>)
    requires !v.skips && Inv(v, s) && Sound(s) && Begun(s)
    ensures Working(schedule) && Run(v, s, schedule).Some? && Queued(Run(v, s, schedule).value) == []
    decreases Work(s)
  {
    hide Inv, Sound, Begun, Queued, Work, Next, Enabled, Duty;
    if Queued(s) == [] {
      return [];
    }
    DutyEnabled(v, s);
    DutyWorks(v, s);
    var step := Duty(s);
    var n := Next(v, s, step);
    InvKept(v, s, step);
    SoundKept(v, s, step);
    BegunKept(v, s, step);
    var rest := DrainsFrom(v, n);
    schedule := [step] + rest;
    assert schedule[1..] == rest;
  }

  /**
   * From every state of every run, leaking rejections included, the threads at work can
   * empty the queue by themselves, and every message accepted has then departed.
   */
  lemma EverythingCanDepart(v: Variant, s: State) returns (schedule: seq<Step>, s': State)
    requires !v.skips && Reachable(v, s)
    ensures Working(schedule) && Run(v, s, schedule) == Some(s')
    ensures s.accepted <= s'.accepted == Messages(s'.departed)
  {
    SoundOfReachable(v, s);
    BegunOfReachable(v, s);
    hide Inv, Queued, Run;
    schedule := DrainsFrom(v, s);
    s' := Run(v, s, schedule).value;
    SoundAlongRun(v, s, schedule, s');
    RunExtends(v, s, schedule, s');
  }

  /** The consumer asleep and no producer at work: no thread can take a step. */
  lemma NobodyMoves(v: Variant, s: State, schedule: seq<Step>)
    requires s.consumer == Asleep && (forall t: Thread :: At(s, t) == Outside)
    requires Working(schedule) && Run(v, s, schedule).Some?
    ensures schedule == []
  {
    assert forall step: Step :: step.Produce? || step.Consume? ==> !Enabled(s, step);
  }

  /** The threads at work can always empty the queue exactly when the lock is not skipped. */
  lemma DrainableIffNotSkipped(v: Variant)
    ensures (forall s :: Reachable(v, s) ==> Drainable(v, s)) <==> !v.skips
  {
    if v.skips {
      var s := SleepsThroughSignal(v);
      forall schedule: seq<Step> | Working(schedule) && Run(v, s, schedule).Some?
        ensures Queued(Run(v, s, schedule).value) != []
      {
        NobodyMoves(v, s, schedule);
      }
      assert !Drainable(v, s);
    } else {
      forall s | Reachable(v, s)
        ensures Drainable(v, s)
      {
        SoundOfReachable(v, s);
        BegunOfReachable(v, s);
        var schedule := DrainsFrom(v, s);
      }
    }
  }
}
