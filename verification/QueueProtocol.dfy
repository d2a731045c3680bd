// Every interleaving of the queue's producers with its consumer thread (irc.c), one
// statement that touches shared memory per step. `msg_count++` and `msg_count--` are a
// load and a store; the decision with the sending of the head, and the copy into the
// shrunk list, are one step each.

module QueueProtocol {
  import opened CString
  import opened Options
  import opened Throttle
  import opened MessageQueue

  /**
   * `leaks`: the full branch returns with the producers' mutex still held. `skips`: the
   * consumer tests the count before it locks, and does not lock when it reads zero. The
   * program is Variant(true, true).
   */
  datatype Variant = Variant(leaks: bool, skips: bool)

  type Thread = nat

  type FiveSlots = w: seq<nat> | |w| == HISTORY_SIZE witness [0, 0, 0, 0, 0]

  /** Where a producer stands in add_to_privmsg_queue; the argument is its message. */
  datatype Producer =
    | Outside
    | AtLocalLock(m: Msg)
    | AtCheck(m: Msg)
    | AtGlobalLock(m: Msg)
    | AtRealloc(m: Msg)
    | AtStore(m: Msg)
    | AtReadCount(m: Msg)
    | AtWriteCount(m: Msg, n: int)
    | AtGlobalUnlock
    | AtStartTest
    | AtCreate
    | AtSetStarted
    | AtSignal
    | AtLocalUnlock

  /** Where the consumer stands in handle_privmsg_queue. */
  datatype Consumer =
    | NotStarted
    | AtTest
    | AtLock
    | AtRetest
    | AtCondWait
    | Asleep
    | Woken
    | AtDecide
    | AtLoadCount
    | AtStoreCount(n: int)
    | AtShift(i: nat)
    | AtReplace
    | AtUnlock
    | AtRecord

  datatype Owner = Nobody | ByProducer(t: Thread) | ByConsumer

  /** A message the consumer dealt with: when, whether it was throttled, whether it was sent. */
  datatype Departure = Departure(msg: Msg, at: nat, throttled: bool, sent: bool)

  /** `broken` means an access outside the list: nothing is known after it. */
  datatype State = State(
    mem: Memory,
    window: FiveSlots,
    handlerStarted: bool,
    local: Option<Thread>,
    global: Owner,
    producers: map<Thread, Producer>,
    consumer: Consumer,
    clock: nat,
    broken: bool,
    // what an observer has seen
    accepted: seq<Msg>,
    departed: seq<Departure>,
    recorded: seq<nat>,
    rejections: nat,
    starts: nat)

  const Initial :=
    State(Memory([], 0), [0, 0, 0, 0, 0], false, None, Nobody, map[], NotStarted, 0, false, [], [], [], 0, 0)

  function At(s: State, t: Thread): Producer {
    if t in s.producers then s.producers[t] else Outside
  }

  function Move(s: State, t: Thread, p: Producer): State {
    s.(producers := s.producers[t := p])
  }

  /** `junk` is what realloc happens to leave in a new slot. */
  datatype Step =
    | Call(t: Thread, m: Msg)
    | Produce(t: Thread, junk: Msg)
    | Consume
    | SpuriousWakeup
    | Tick(ms: nat)

  predicate Enabled(s: State, step: Step) {
    && !s.broken
    && match step
       case Call(t, _) => At(s, t).Outside?
       case Produce(t, _) =>
         (match At(s, t)
          case Outside => false
          case AtLocalLock(_) => s.local == None
          case AtGlobalLock(_) => s.global == Nobody
          case _ => true)
       case Consume =>
         (match s.consumer
          case NotStarted => false
          case Asleep => false
          case AtLock => s.global == Nobody
          case Woken => s.global == Nobody
          case _ => true)
       case SpuriousWakeup => s.consumer.Asleep?
       case Tick(_) => true
  }

  predicate Entering(p: Producer) {
    p.AtLocalLock? || p.AtCheck? || p.AtGlobalLock?
  }

  /** Inside the critical section of the list. */
  predicate InList(p: Producer) {
    p.AtRealloc? || p.AtStore? || p.AtReadCount? || p.AtWriteCount? || p.AtGlobalUnlock?
  }

  predicate Leaving(p: Producer) {
    p.AtStartTest? || p.AtCreate? || p.AtSetStarted? || p.AtSignal? || p.AtLocalUnlock?
  }

  /** realloc to one slot more than the count. */
  function Resized(mem: Memory, junk: Msg): (r: Memory)
    ensures r.count == mem.count
  {
    var n := if mem.count < 0 then 0 else mem.count + 1;
    mem.(list := seq(n, i requires 0 <= i => if i < |mem.list| then mem.list[i] else junk))
  }

  /** Up to the second mutex. */
  function EnterNext(v: Variant, s: State, t: Thread): (n: State)
    requires Entering(At(s, t))
    ensures forall u: Thread :: u != t ==> At(n, u) == At(s, u)
    ensures n == s.(producers := n.producers, local := n.local, global := n.global, rejections := n.rejections)
  {
    match At(s, t)
    case AtLocalLock(m) => Move(s, t, AtCheck(m)).(local := Some(t))
    case AtCheck(m) =>
      if s.mem.count >= MAX_MSG_COUNT then
        Move(s, t, Outside).(local := if v.leaks then s.local else None, rejections := s.rejections + 1)
      else Move(s, t, AtGlobalLock(m))
    case AtGlobalLock(m) => Move(s, t, AtRealloc(m)).(global := ByProducer(t))
  }

  /** The critical section of the list. */
  function ListNext(s: State, t: Thread, junk: Msg): (n: State)
    requires InList(At(s, t))
    ensures forall u: Thread :: u != t ==> At(n, u) == At(s, u)
    ensures n == s.(producers := n.producers, global := n.global, mem := n.mem, broken := n.broken,
                    accepted := n.accepted)
  {
    match At(s, t)
    case AtRealloc(m) => Move(s, t, AtStore(m)).(mem := Resized(s.mem, junk))
    case AtStore(m) =>
      if 0 <= s.mem.count < |s.mem.list| then
        Move(s, t, AtReadCount(m)).(mem := s.mem.(list := s.mem.list[s.mem.count := m]))
      else s.(broken := true)
    case AtReadCount(m) => Move(s, t, AtWriteCount(m, s.mem.count))
    case AtWriteCount(m, n) =>
      Move(s, t, AtGlobalUnlock).(mem := s.mem.(count := n + 1), accepted := s.accepted + [m])
    case AtGlobalUnlock => Move(s, t, AtStartTest).(global := Nobody)
  }

  /** From there on: start the consumer or signal it, and release the first mutex. */
  function LeaveNext(s: State, t: Thread): (n: State)
    requires Leaving(At(s, t))
    ensures forall u: Thread :: u != t ==> At(n, u) == At(s, u)
    ensures n == s.(producers := n.producers, local := n.local, consumer := n.consumer,
                    handlerStarted := n.handlerStarted, starts := n.starts)
  {
    match At(s, t)
    case AtStartTest => Move(s, t, if s.handlerStarted then AtSignal else AtCreate)
    case AtCreate => Move(s, t, AtSetStarted).(consumer := AtTest, starts := s.starts + 1)
    case AtSetStarted => Move(s, t, AtLocalUnlock).(handlerStarted := true)
    case AtSignal => Move(s, t, AtLocalUnlock).(consumer := if s.consumer.Asleep? then Woken else s.consumer)
    case AtLocalUnlock => Move(s, t, Outside).(local := None)
  }

  function ProducerNext(v: Variant, s: State, t: Thread, junk: Msg): State
    requires !At(s, t).Outside?
  {
    if Entering(At(s, t)) then EnterNext(v, s, t)
    else if InList(At(s, t)) then ListNext(s, t, junk)
    else LeaveNext(s, t)
  }

  predicate Waiting(c: Consumer) {
    c.AtTest? || c.AtLock? || c.AtRetest? || c.AtCondWait? || c.Woken?
  }

  predicate Serving(c: Consumer) {
    c.AtDecide? || Departing(c)
  }

  /** Between the decision and the recording of its time. */
  predicate Departing(c: Consumer) {
    c.AtLoadCount? || c.AtStoreCount? || c.AtShift? || c.AtReplace? || c.AtUnlock? || c.AtRecord?
  }

  /** The mutex after the consumer lets go of it; letting go without it changes nothing. */
  function Released(s: State): Owner {
    if s.global == ByConsumer then Nobody else s.global
  }

  /** Until there is a message to deal with. */
  function WaitNext(v: Variant, s: State): (n: State)
    requires Waiting(s.consumer)
    ensures n == s.(consumer := n.consumer, global := n.global)
  {
    match s.consumer
    case AtTest => s.(consumer := if v.skips && s.mem.count <= 0 then AtRetest else AtLock)
    case AtLock => s.(consumer := AtRetest, global := ByConsumer)
    case AtRetest => s.(consumer := if s.mem.count == 0 then AtCondWait else AtDecide)
    case AtCondWait => s.(consumer := Asleep, global := Released(s))
    case Woken => s.(consumer := AtRetest, global := ByConsumer)
  }

  /** The message dealt with, removed, and its time recorded. */
  function ServeNext(s: State): (n: State)
    requires Serving(s.consumer)
    ensures n == s.(consumer := n.consumer, global := n.global, mem := n.mem, broken := n.broken,
                    departed := n.departed, window := n.window, recorded := n.recorded)
  {
    match s.consumer
    case AtDecide =>
      if s.mem.list == [] then s.(broken := true)
      else
        var head, throttled := s.mem.list[0], Throttled(s.clock, s.window);
        s.(consumer := AtLoadCount,
           departed := s.departed + [Departure(head, s.clock, throttled, IsSent(head, throttled))])
    case AtLoadCount => s.(consumer := AtStoreCount(s.mem.count))
    case AtStoreCount(n) => s.(consumer := AtShift(0), mem := s.mem.(count := n - 1))
    case AtShift(i) =>
      if i >= s.mem.count then s.(consumer := AtReplace)
      else if i + 1 >= |s.mem.list| then s.(broken := true)
      else s.(consumer := AtShift(i + 1), mem := s.mem.(list := s.mem.list[i := s.mem.list[i + 1]]))
    case AtReplace =>
      if 0 <= s.mem.count <= |s.mem.list| then
        s.(consumer := AtUnlock, mem := s.mem.(list := s.mem.list[..s.mem.count]))
      else s.(broken := true)
    case AtUnlock => s.(consumer := AtRecord, global := Released(s))
    case AtRecord => s.(consumer := AtTest, window := Shift(s.window, s.clock), recorded := s.recorded + [s.clock])
  }

  function ConsumerNext(v: Variant, s: State): State
    requires Waiting(s.consumer) || Serving(s.consumer)
  {
    if Waiting(s.consumer) then WaitNext(v, s) else ServeNext(s)
  }

  function Next(v: Variant, s: State, step: Step): State
    requires Enabled(s, step)
  {
    match step
    case Call(t, m) => Move(s, t, AtLocalLock(m))
    case Produce(t, junk) => ProducerNext(v, s, t, junk)
    case Consume => ConsumerNext(v, s)
    case SpuriousWakeup => s.(consumer := Woken)
    case Tick(ms) => s.(clock := s.clock + ms)
  }

  /** The state after a schedule, if every step of it is enabled in turn. */
  function Run(v: Variant, s: State, schedule: seq<Step>): Option<State>
    decreases |schedule|
  {
    if schedule == [] then Some(s)
    else if !Enabled(s, schedule[0]) then None
    else Run(v, Next(v, s, schedule[0]), schedule[1..])
  }

  ghost predicate Reachable(v: Variant, s: State) {
    exists schedule :: Run(v, Initial, schedule) == Some(s)
  }

  lemma {:induction false} RunOneMore(v: Variant, s: State, schedule: seq<Step>, s': State, step: Step)
    requires Run(v, s, schedule) == Some(s') && Enabled(s', step)
    ensures Run(v, s, schedule + [step]) == Some(Next(v, s', step))
    decreases |schedule|
  {
    if schedule != [] {
      RunOneMore(v, Next(v, s, schedule[0]), schedule[1..], s', step);
      assert (schedule + [step])[1..] == schedule[1..] + [step];
    }
  }

  lemma ReachStep(v: Variant, s: State, step: Step) returns (n: State)
    requires Reachable(v, s) && Enabled(s, step)
    ensures n == Next(v, s, step) && Reachable(v, n)
  {
    n := Next(v, s, step);
    var schedule :| Run(v, Initial, schedule) == Some(s);
    RunOneMore(v, Initial, schedule, s, step);
  }

  // ---- What every step keeps, in every variant ----

  /** Between the locking and the unlocking of the producers' mutex. */
  predicate InLocal(p: Producer) {
    !p.Outside? && !p.AtLocalLock?
  }

  predicate ConsumerInList(c: Consumer) {
    || c.AtRetest? || c.AtCondWait? || c.AtDecide? || c.AtLoadCount? || c.AtStoreCount? || c.AtShift?
    || c.AtReplace? || c.AtUnlock?
  }

  /** One producer at a time past the first mutex, and one owner of the second. */
  ghost predicate Serialised(s: State) {
    && (forall t: Thread :: InLocal(At(s, t)) ==> s.local == Some(t))
    && (forall t: Thread :: InList(At(s, t)) <==> s.global == ByProducer(t))
  }

  /** Past the capacity test and before its effect. */
  predicate Admitted(p: Producer) {
    p.AtGlobalLock? || p.AtRealloc? || p.AtStore? || p.AtReadCount? || p.AtWriteCount?
  }

  /** A producer that has passed the capacity test finds room, though it tested unlocked. */
  ghost predicate Bounded(s: State) {
    && 0 <= s.mem.count <= MAX_MSG_COUNT
    && (forall t: Thread :: Admitted(At(s, t)) ==> s.mem.count < MAX_MSG_COUNT)
    && (forall t: Thread :: At(s, t).AtWriteCount? ==> 0 <= At(s, t).n < MAX_MSG_COUNT)
    && (s.consumer.AtDecide? || s.consumer.AtLoadCount? ==> s.mem.count > 0)
    && (s.consumer.AtStoreCount? ==> 0 < s.consumer.n <= MAX_MSG_COUNT)
  }

  /** handler_started is tested, and set after the thread is created, under the first mutex. */
  ghost predicate StartedOnce(s: State) {
    && s.starts <= 1
    && (s.handlerStarted ==> s.starts == 1)
    && (s.consumer.NotStarted? <==> s.starts == 0)
    && (forall t: Thread :: At(s, t).AtCreate? ==> s.starts == 0)
    && (forall t: Thread :: At(s, t).AtSetStarted? ==> s.starts == 1)
    && (forall t: Thread :: At(s, t).AtSignal? ==> s.handlerStarted)
    && (s.starts == 1 && !s.handlerStarted ==> s.local.Some? && At(s, s.local.value).AtSetStarted?)
  }

  /** Each departure was decided on the window of the times recorded before it. */
  ghost predicate Timed(s: State) {
    && s.window == Window(s.recorded)
    && Monotone(s.recorded, s.clock)
    && |s.departed| == |s.recorded| + (if Departing(s.consumer) then 1 else 0)
    && (forall k :: 0 <= k < |s.departed| ==> DecidedOn(s.departed[k], s.recorded[..k]))
  }

  ghost predicate DecidedOn(d: Departure, recorded: seq<nat>) {
    && Monotone(recorded, d.at)
    && (d.throttled <==> Throttled(d.at, Window(recorded)))
    && d.sent == IsSent(d.msg, d.throttled)
  }

  /** The producers' mutex is held by nobody who will ever release it. */
  predicate Orphaned(s: State) {
    s.local.Some? && !InLocal(At(s, s.local.value))
  }

  predicate Closed(v: Variant, s: State) {
    && (Orphaned(s) <==> v.leaks && s.rejections > 0)
    && (v.leaks ==> s.rejections <= 1)
  }

  ghost predicate Inv(v: Variant, s: State) {
    Serialised(s) && Bounded(s) && StartedOnce(s) && Timed(s) && Closed(v, s)
  }

  // ---- One lemma per stretch of code and invariant ----

  lemma EnterKeepsSerialised(v: Variant, s: State, t: Thread)
    requires Inv(v, s) && Entering(At(s, t)) && Enabled(s, Produce(t, Msg([], [], 0, false)))
    ensures Serialised(EnterNext(v, s, t))
  {
    hide Bounded, StartedOnce, Timed, Closed;
  }

  lemma EnterKeepsBounded(v: Variant, s: State, t: Thread)
    requires Inv(v, s) && Entering(At(s, t)) && Enabled(s, Produce(t, Msg([], [], 0, false)))
    ensures Bounded(EnterNext(v, s, t))
  {
    hide StartedOnce, Timed, Closed;
  }

  lemma EnterKeepsStarted(v: Variant, s: State, t: Thread)
    requires Inv(v, s) && Entering(At(s, t)) && Enabled(s, Produce(t, Msg([], [], 0, false)))
    ensures StartedOnce(EnterNext(v, s, t))
  {
    hide Bounded, Timed, Closed;
  }

  lemma EnterKeepsClosed(v: Variant, s: State, t: Thread)
    requires Inv(v, s) && Entering(At(s, t)) && Enabled(s, Produce(t, Msg([], [], 0, false)))
    ensures Closed(v, EnterNext(v, s, t))
  {
    hide Bounded, StartedOnce, Timed;
  }

  lemma EnterKeepsInv(v: Variant, s: State, t: Thread)
    requires Inv(v, s) && Entering(At(s, t)) && Enabled(s, Produce(t, Msg([], [], 0, false)))
    ensures Inv(v, EnterNext(v, s, t))
  {
    hide Serialised, Bounded, StartedOnce, Closed, DecidedOn;
    EnterKeepsSerialised(v, s, t);
    EnterKeepsBounded(v, s, t);
    EnterKeepsStarted(v, s, t);
    EnterKeepsClosed(v, s, t);
  }

  lemma ListKeepsSerialised(v: Variant, s: State, t: Thread, junk: Msg)
    requires Inv(v, s) && InList(At(s, t))
    ensures Serialised(ListNext(s, t, junk))
  {
    hide Bounded, StartedOnce, Timed, Closed;
  }

  lemma ListKeepsBounded(v: Variant, s: State, t: Thread, junk: Msg)
    requires Inv(v, s) && InList(At(s, t))
    ensures Bounded(ListNext(s, t, junk))
  {
    hide StartedOnce, Timed, Closed;
  }

  lemma ListKeepsStarted(v: Variant, s: State, t: Thread, junk: Msg)
    requires Inv(v, s) && InList(At(s, t))
    ensures StartedOnce(ListNext(s, t, junk))
  {
    hide Bounded, Timed, Closed;
  }

  lemma ListKeepsClosed(v: Variant, s: State, t: Thread, junk: Msg)
    requires Inv(v, s) && InList(At(s, t))
    ensures Closed(v, ListNext(s, t, junk))
  {
    hide Bounded, StartedOnce, Timed;
  }

  lemma ListKeepsInv(v: Variant, s: State, t: Thread, junk: Msg)
    requires Inv(v, s) && InList(At(s, t))
    ensures Inv(v, ListNext(s, t, junk))
  {
    hide Serialised, Bounded, StartedOnce, Closed, DecidedOn;
    ListKeepsSerialised(v, s, t, junk);
    ListKeepsBounded(v, s, t, junk);
    ListKeepsStarted(v, s, t, junk);
    ListKeepsClosed(v, s, t, junk);
  }

  lemma LeaveKeepsSerialised(v: Variant, s: State, t: Thread)
    requires Inv(v, s) && Leaving(At(s, t))
    ensures Serialised(LeaveNext(s, t))
  {
    hide Bounded, StartedOnce, Timed, Closed;
  }

  lemma LeaveKeepsBounded(v: Variant, s: State, t: Thread)
    requires Inv(v, s) && Leaving(At(s, t))
    ensures Bounded(LeaveNext(s, t))
  {
    hide StartedOnce, Timed, Closed;
  }

  lemma LeaveKeepsStarted(v: Variant, s: State, t: Thread)
    requires Inv(v, s) && Leaving(At(s, t))
    ensures StartedOnce(LeaveNext(s, t))
  {
    hide Bounded, Timed, Closed;
  }

  lemma LeaveKeepsClosed(v: Variant, s: State, t: Thread)
    requires Inv(v, s) && Leaving(At(s, t))
    ensures Closed(v, LeaveNext(s, t))
  {
    hide Bounded, StartedOnce, Timed;
  }

  lemma LeaveKeepsTimed(v: Variant, s: State, t: Thread)
    requires Inv(v, s) && Leaving(At(s, t))
    ensures Timed(LeaveNext(s, t))
  {
    hide Serialised, Bounded, Closed, DecidedOn;
  }

  lemma LeaveKeepsInv(v: Variant, s: State, t: Thread)
    requires Inv(v, s) && Leaving(At(s, t))
    ensures Inv(v, LeaveNext(s, t))
  {
    hide Serialised, Bounded, StartedOnce, Timed, Closed;
    LeaveKeepsSerialised(v, s, t);
    LeaveKeepsTimed(v, s, t);
    LeaveKeepsBounded(v, s, t);
    LeaveKeepsStarted(v, s, t);
    LeaveKeepsClosed(v, s, t);
  }

  lemma WaitKeepsInv(v: Variant, s: State)
    requires Inv(v, s) && Waiting(s.consumer) && Enabled(s, Consume)
    ensures Inv(v, WaitNext(v, s))
  {
    assert forall t: Thread :: At(WaitNext(v, s), t) == At(s, t);
  }

  lemma RecordKeepsTimed(s: State)
    requires Timed(s) && s.consumer.AtRecord?
    ensures Timed(ServeNext(s))
  {
    var n := ServeNext(s);
    ShiftIsWindow(s.recorded, s.clock);
    forall k | 0 <= k < |n.departed|
      ensures DecidedOn(n.departed[k], n.recorded[..k])
    {
      assert n.recorded[..k] == s.recorded[..k];
    }
  }

  lemma ServeKeepsTimed(s: State)
    requires Timed(s) && Serving(s.consumer)
    ensures Timed(ServeNext(s))
  {
    hide DecidedOn, Window, Monotone, Shift;
    if s.consumer.AtRecord? {
      RecordKeepsTimed(s);
    } else if s.consumer.AtDecide? {
      DecideKeepsTimed(s);
    }
  }

  lemma DecideKeepsTimed(s: State)
    requires Timed(s) && s.consumer.AtDecide?
    ensures Timed(ServeNext(s))
  {
    assert s.recorded[..|s.recorded|] == s.recorded;
  }

  lemma ServeKeepsOthers(v: Variant, s: State)
    requires Inv(v, s) && Serving(s.consumer)
    ensures var n := ServeNext(s); Serialised(n) && StartedOnce(n) && Closed(v, n)
  {
    hide Bounded, Timed;
    assert forall t: Thread :: At(ServeNext(s), t) == At(s, t);
  }

  lemma ServeKeepsBounded(v: Variant, s: State)
    requires Inv(v, s) && Serving(s.consumer)
    ensures Bounded(ServeNext(s))
  {
    hide Serialised, StartedOnce, Timed, Closed;
    assert forall t: Thread :: At(ServeNext(s), t) == At(s, t);
  }

  lemma ServeKeepsInv(v: Variant, s: State)
    requires Inv(v, s) && Serving(s.consumer)
    ensures Inv(v, ServeNext(s))
  {
    hide Serialised, Bounded, StartedOnce, Timed, Closed;
    ServeKeepsTimed(s);
    ServeKeepsOthers(v, s);
    ServeKeepsBounded(v, s);
  }

  lemma CallKeepsInv(v: Variant, s: State, t: Thread, m: Msg)
    requires Inv(v, s) && At(s, t).Outside?
    ensures Inv(v, Move(s, t, AtLocalLock(m)))
  {
    assert forall u: Thread :: u != t ==> At(Move(s, t, AtLocalLock(m)), u) == At(s, u);
  }

  lemma {:induction false} InvKept(v: Variant, s: State, step: Step)
    requires Inv(v, s) && Enabled(s, step)
    ensures Inv(v, Next(v, s, step))
  {
    match step
    case Call(t, m) => CallKeepsInv(v, s, t, m);
    case Produce(t, junk) =>
      if Entering(At(s, t)) {
        EnterKeepsInv(v, s, t);
      } else if InList(At(s, t)) {
        ListKeepsInv(v, s, t, junk);
      } else {
        LeaveKeepsInv(v, s, t);
      }
    case Consume =>
      if Waiting(s.consumer) {
        WaitKeepsInv(v, s);
      } else {
        ServeKeepsInv(v, s);
      }
    case SpuriousWakeup => assert forall t: Thread :: At(Next(v, s, step), t) == At(s, t);
    case Tick(_) => assert forall t: Thread :: At(Next(v, s, step), t) == At(s, t);
  }

  // ---- What every step keeps when the consumer does not skip the lock ----

  /** The consumer is in its part of the critical section exactly when it owns the mutex. */
  predicate ConsumerLocks(s: State) {
    ConsumerInList(s.consumer) <==> s.global == ByConsumer
  }

  /** How the list and the count relate, by who holds the mutex and where that thread stands. */
  predicate Shaped(s: State) {
    var list, count := s.mem.list, s.mem.count;
    match s.global
    case Nobody => |list| == count
    case ByProducer(t) =>
      (match At(s, t)
       case AtStore(_) => |list| == count + 1
       case AtReadCount(m) => |list| == count + 1 && count >= 0 && list[count] == m
       case AtWriteCount(m, n) => |list| == count + 1 && n == count >= 0 && list[count] == m
       case _ => |list| == count)
    case ByConsumer =>
      (match s.consumer
       case AtCondWait => |list| == count == 0
       case AtDecide => |list| == count > 0
       case AtLoadCount => |list| == count > 0
       case AtStoreCount(n) => |list| == count == n > 0
       case AtShift(i) => |list| == count + 1 && i <= count
       case AtReplace => |list| == count + 1
       case _ => |list| == count)
  }

  function Slice(list: seq<Msg>, i: int, j: int): seq<Msg> {
    if 0 <= i <= j <= |list| then list[i..j] else []
  }

  /** The messages still to be dealt with; `list[..count]` unless the head is being removed. */
  function Queued(s: State): seq<Msg> {
    var list, count := s.mem.list, s.mem.count;
    match s.consumer
    case AtLoadCount => Slice(list, 1, count)
    case AtStoreCount(_) => Slice(list, 1, count)
    case AtShift(i) => Slice(list, 0, i) + Slice(list, i + 1, count + 1)
    case _ => Slice(list, 0, count)
  }

  function Messages(departed: seq<Departure>): seq<Msg> {
    if departed == [] then [] else Messages(departed[..|departed| - 1]) + [departed[|departed| - 1].msg]
  }

  predicate Conserved(s: State) {
    s.accepted == Messages(s.departed) + Queued(s)
  }

  /** Appended a message and not yet signalled. */
  predicate AboutToSignal(p: Producer) {
    p.AtGlobalUnlock? || p.AtStartTest? || p.AtSignal?
  }

  predicate Awake(s: State) {
    s.consumer.Asleep? && s.mem.count > 0 ==> s.local.Some? && AboutToSignal(At(s, s.local.value))
  }

  ghost predicate Sound(s: State) {
    ConsumerLocks(s) && Shaped(s) && Conserved(s) && Awake(s) && !s.broken
  }

  lemma MessagesGrow(departed: seq<Departure>, d: Departure)
    ensures Messages(departed + [d]) == Messages(departed) + [d.msg]
  {
    assert (departed + [d])[..|departed|] == departed;
  }

  /** Half way through the removal of the head. */
  predicate Removing(c: Consumer) {
    c.AtLoadCount? || c.AtStoreCount? || c.AtShift?
  }

  lemma QueuedStays(s: State, n: State)
    requires n.mem == s.mem && (n.consumer == s.consumer || (!Removing(s.consumer) && !Removing(n.consumer)))
    ensures Queued(n) == Queued(s)
  {
  }

  lemma EnterKeepsSound(v: Variant, s: State, t: Thread)
    requires Inv(v, s) && Sound(s) && Entering(At(s, t)) && Enabled(s, Produce(t, Msg([], [], 0, false)))
    ensures Sound(EnterNext(v, s, t))
  {
    hide Queued, Messages;
    QueuedStays(s, EnterNext(v, s, t));
  }

  lemma LeaveKeepsSound(v: Variant, s: State, t: Thread)
    requires Inv(v, s) && Sound(s) && Leaving(At(s, t))
    ensures Sound(LeaveNext(s, t))
  {
    hide Queued, Messages;
    QueuedStays(s, LeaveNext(s, t));
  }

  lemma ResizedKeeps(mem: Memory, junk: Msg)
    requires Tidy(mem)
    ensures |Resized(mem, junk).list| == mem.count + 1 && Resized(mem, junk).list[..mem.count] == mem.list
  {
  }

  lemma ListKeepsShaped(v: Variant, s: State, t: Thread, junk: Msg)
    requires Inv(v, s) && Sound(s) && InList(At(s, t))
    ensures var n := ListNext(s, t, junk); ConsumerLocks(n) && Shaped(n) && Awake(n) && !n.broken
  {
    hide Resized, Queued, Messages, StartedOnce, Timed, Closed;
    assert s.global == ByProducer(t);
    if At(s, t).AtRealloc? {
      ResizedKeeps(s.mem, junk);
    }
  }

  /** Only the store to the count adds to the queue, and what it adds is the message accepted. */
  lemma ListKeepsQueued(v: Variant, s: State, t: Thread, junk: Msg)
    requires Inv(v, s) && Sound(s) && InList(At(s, t))
    ensures var n := ListNext(s, t, junk);
            Queued(n) == Queued(s) + (if At(s, t).AtWriteCount? then [At(s, t).m] else [])
  {
    hide Resized, Conserved, Awake, StartedOnce, Timed, Closed;
    assert s.global == ByProducer(t);
    match At(s, t)
    case AtRealloc(_) => ResizedKeeps(s.mem, junk);
    case AtWriteCount(m, _) => CutAt(s.mem.list, s.mem.count);
    case _ =>
  }

  lemma ListKeepsSound(v: Variant, s: State, t: Thread, junk: Msg)
    requires Inv(v, s) && Sound(s) && InList(At(s, t))
    ensures Sound(ListNext(s, t, junk))
  {
    hide Queued, Messages, ConsumerLocks, Shaped, Awake, Inv, Resized;
    ListKeepsShaped(v, s, t, junk);
    ListKeepsQueued(v, s, t, junk);
    if At(s, t).AtWriteCount? {
      Regroup([], Messages(s.departed), Queued(s), [At(s, t).m]);
    }
  }

  lemma WaitKeepsSound(v: Variant, s: State)
    requires !v.skips && Inv(v, s) && Sound(s) && Waiting(s.consumer) && Enabled(s, Consume)
    ensures Sound(WaitNext(v, s))
  {
  }

  lemma ShiftedUp(list: seq<Msg>, i: nat, count: nat)
    requires |list| == count + 1 && i < count
    ensures var r := list[i := list[i + 1]];
            Slice(r, 0, i + 1) + Slice(r, i + 2, count + 1) == Slice(list, 0, i) + Slice(list, i + 1, count + 1)
  {
  }

  lemma ServeKeepsShaped(v: Variant, s: State)
    requires Inv(v, s) && Sound(s) && Serving(s.consumer)
    ensures ConsumerLocks(ServeNext(s)) && Shaped(ServeNext(s)) && !ServeNext(s).broken
  {
    hide Queued, Messages;
  }

  lemma ShiftKeepsQueued(s: State)
    requires s.consumer.AtShift? && |s.mem.list| == s.mem.count + 1 && s.consumer.i <= s.mem.count
    ensures Queued(ServeNext(s)) == Queued(s)
  {
    hide Slice;
    var list, i, count := s.mem.list, s.consumer.i, s.mem.count;
    if i < count {
      ShiftedUp(list, i, count);
    } else {
      SliceIsEmpty(list, i + 1);
    }
  }

  lemma SliceIsEmpty(list: seq<Msg>, i: nat)
    ensures Slice(list, i, i) == []
  {
  }

  lemma DecideTakesHead(s: State)
    requires s.consumer.AtDecide? && |s.mem.list| == s.mem.count > 0
    ensures Queued(s) == [s.mem.list[0]] + Queued(ServeNext(s))
  {
  }

  lemma RemovalKeepsQueued(s: State)
    requires s.consumer.AtStoreCount? && |s.mem.list| == s.mem.count == s.consumer.n > 0
    ensures Queued(ServeNext(s)) == Queued(s)
  {
    hide Slice;
    SliceIsEmpty(s.mem.list, 0);
  }

  lemma ReplaceKeepsQueued(s: State)
    requires s.consumer.AtReplace? && |s.mem.list| == s.mem.count + 1
    ensures Queued(ServeNext(s)) == Queued(s)
  {
  }

  /** Only the decision takes from the queue, and it takes the head. */
  lemma ServeKeepsQueued(v: Variant, s: State)
    requires ConsumerLocks(s) && Shaped(s) && Serving(s.consumer)
    ensures var n := ServeNext(s);
            if s.consumer.AtDecide? then Queued(s) == [s.mem.list[0]] + Queued(n) else Queued(n) == Queued(s)
  {
    hide Slice;
    match s.consumer
    case AtDecide => DecideTakesHead(s);
    case AtStoreCount(_) => RemovalKeepsQueued(s);
    case AtShift(_) => ShiftKeepsQueued(s);
    case AtReplace => ReplaceKeepsQueued(s);
    case _ =>
  }

  lemma ServeKeepsSound(v: Variant, s: State)
    requires Inv(v, s) && Sound(s) && Serving(s.consumer)
    ensures Sound(ServeNext(s))
  {
    hide Queued, Shaped, ConsumerLocks;
    ServeKeepsShaped(v, s);
    ServeKeepsQueued(v, s);
    var n := ServeNext(s);
    if s.consumer.AtDecide? {
      var d := n.departed[|s.departed|];
      MessagesGrow(s.departed, d);
      Regroup([], Messages(s.departed), [d.msg], Queued(n));
    }
  }

  lemma QuietKeepsSound(v: Variant, s: State, n: State)
    requires Inv(v, s) && Sound(s)
    requires n == s.(producers := n.producers, consumer := n.consumer, clock := n.clock)
    requires forall t: Thread :: InLocal(At(n, t)) || InLocal(At(s, t)) ==> At(n, t) == At(s, t)
    requires n.consumer == s.consumer || (s.consumer.Asleep? && n.consumer.Woken?)
    ensures Sound(n)
  {
    hide Queued, Messages;
    QueuedStays(s, n);
  }

  lemma {:induction false} SoundKept(v: Variant, s: State, step: Step)
    requires !v.skips && Inv(v, s) && Sound(s) && Enabled(s, step)
    ensures Sound(Next(v, s, step))
  {
    hide Sound, Inv;
    match step
    case Produce(t, junk) =>
      if Entering(At(s, t)) {
        EnterKeepsSound(v, s, t);
      } else if InList(At(s, t)) {
        ListKeepsSound(v, s, t, junk);
      } else {
        LeaveKeepsSound(v, s, t);
      }
    case Consume =>
      if Waiting(s.consumer) {
        WaitKeepsSound(v, s);
      } else {
        ServeKeepsSound(v, s);
      }
    case _ => QuietKeepsSound(v, s, Next(v, s, step));
  }

  lemma {:induction false} InvAlongRun(v: Variant, s: State, schedule: seq<Step>, s': State)
    requires Inv(v, s) && Run(v, s, schedule) == Some(s')
    ensures Inv(v, s')
    decreases |schedule|
  {
    hide Inv, Next, Enabled;
    if schedule != [] {
      InvKept(v, s, schedule[0]);
      InvAlongRun(v, Next(v, s, schedule[0]), schedule[1..], s');
    }
  }

  lemma {:induction false} SoundAlongRun(v: Variant, s: State, schedule: seq<Step>, s': State)
    requires !v.skips && Inv(v, s) && Sound(s) && Run(v, s, schedule) == Some(s')
    ensures Sound(s')
    decreases |schedule|
  {
    hide Inv, Sound, Next, Enabled;
    if schedule != [] {
      InvKept(v, s, schedule[0]);
      SoundKept(v, s, schedule[0]);
      SoundAlongRun(v, Next(v, s, schedule[0]), schedule[1..], s');
    }
  }

  lemma InvInitially(v: Variant)
    ensures Inv(v, Initial)
  {
    assert Initial.window == Window([]);
  }

  lemma InvOfReachable(v: Variant, s: State)
    requires Reachable(v, s)
    ensures Inv(v, s)
  {
    hide Inv, Run;
    var schedule :| Run(v, Initial, schedule) == Some(s);
    InvInitially(v);
    InvAlongRun(v, Initial, schedule, s);
  }

  lemma SoundOfReachable(v: Variant, s: State)
    requires !v.skips && Reachable(v, s)
    ensures Inv(v, s) && Sound(s)
  {
    hide Inv, Run;
    var schedule :| Run(v, Initial, schedule) == Some(s);
    InvInitially(v);
    InvAlongRun(v, Initial, schedule, s);
    SoundAlongRun(v, Initial, schedule, s);
  }
}
