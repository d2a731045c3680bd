// The channel list (channel.c) and its get-or-create callers: the list alone, and
// every interleaving of the receiver threads that look up and create in it.

module Channels {
  import opened Options
  import opened CString

  datatype Channel = Channel(name: Text, srv: nat)

  ghost predicate Unique(list: seq<Channel>) {
    forall i, j :: 0 <= i < j < |list| ==> list[i] != list[j]
  }

  function GotOrCreated(list: seq<Channel>, c: Channel): seq<Channel> {
    if c in list then list else list + [c]
  }

  class ChannelRegistry {
    var channels: seq<Channel>

    constructor ()
      ensures channels == []
    {
      channels := [];
    }

    /** get_channel: the position of the first channel with this name on this server. */
    method GetChannel(name: Text, srv: nat) returns (found: Option<nat>)
      ensures found.Some? ==> found.value < |channels| && channels[found.value] == Channel(name, srv)
                              && Channel(name, srv) !in channels[..found.value]
      ensures found == None <==> Channel(name, srv) !in channels
    {
      var i := 0;
      while i < |channels|
        invariant 0 <= i <= |channels|
        invariant Channel(name, srv) !in channels[..i]
      {
        if name == channels[i].name && channels[i].srv == srv {
          return Some(i);
        }
        i := i + 1;
      }
      return None;
    }

    method CreateChannel(name: Text, srv: nat) returns (at: nat)
      modifies this
      ensures channels == old(channels) + [Channel(name, srv)] && at == |old(channels)|
    {
      at := |channels|;
      channels := channels + [Channel(name, srv)];
    }

    /** What the event handlers do with a channel name, run by one thread alone. */
    method GetOrCreate(name: Text, srv: nat) returns (at: nat)
      requires Unique(channels)
      modifies this
      ensures Unique(channels) && at < |channels| && channels[at] == Channel(name, srv)
      ensures channels == GotOrCreated(old(channels), Channel(name, srv))
    {
      var found := GetChannel(name, srv);
      if found.Some? {
        return found.value;
      }
      at := CreateChannel(name, srv);
    }
  }

  /** The channel of a numeric reply: from its first '#' up to the next space. */
  function ChannelOf(buffer: Text): Text {
    var rest := buffer[Find(buffer, HASH)..];
    rest[..Find(rest, SPACE)]
  }

  /** A reply that names a channel after its first words yields that name, to the letter. */
  lemma ReplyChannel(before: Text, name: Text, after: Text)
    requires HASH !in before && name != [] && name[0] == HASH && SPACE !in name
    ensures ChannelOf(before + name + [SPACE] + after) == name
  {
    var buffer := before + name + [SPACE] + after;
    FindIs(buffer, HASH, |before|);
    var rest := buffer[|before|..];
    assert rest == name + [SPACE] + after;
    FindIs(rest, SPACE, |name|);
  }

  method ChannelName(buffer: Text) returns (name: Text)
    requires HASH in buffer && SPACE in buffer[Find(buffer, HASH)..]
    ensures name == ChannelOf(buffer)
  {
    var start := Find(buffer, HASH);
    var rest := buffer[start..];
    var len := 0;
    while rest[len] != SPACE
      invariant 0 <= len < |rest| && SPACE !in rest[..len]
      decreases |rest| - len
    {
      len := len + 1;
    }
    FindIs(rest, SPACE, len);
    return rest[..len];
  }

  // ---- Receiver threads ----

  type Thread = nat

  /** Where a thread stands between asking for a channel and having one; `r` numbers its request. */
  datatype Receiver =
    | Unborn
    | Idle
    | Scanning(name: Text, i: nat, r: nat)
    | Missed(name: Text, r: nat)
    | Ended

  predicate Alive(r: Receiver) {
    !r.Unborn? && !r.Ended?
  }

  predicate Busy(r: Receiver) {
    r.Scanning? || r.Missed?
  }

  datatype Outcome = Pending | Got(at: nat, made: bool) | GivenUp

  datatype Request = Request(t: Thread, name: Text, outcome: Outcome)

  /** `requests` is what an observer has seen. */
  datatype State = State(list: seq<Channel>, threads: map<Thread, Receiver>, requests: seq<Request>)

  const Initial := State([], map[], [])

  function At(s: State, t: Thread): Receiver {
    if t in s.threads then s.threads[t] else Unborn
  }

  function Move(s: State, t: Thread, r: Receiver): State {
    s.(threads := s.threads[t := r])
  }

  function Settled(s: State, r: nat, outcome: Outcome): State {
    if r < |s.requests| then s.(requests := s.requests[r := s.requests[r].(outcome := outcome)]) else s
  }

  /**
   * `server` says whose lines a thread receives, `starts` in which states it may be
   * started: a rejoin gives the same server a new thread.
   */
  datatype Program = Program(server: Thread -> nat, starts: (State, Thread) -> bool)

  datatype Step =
    | Start(t: Thread)
    | Ask(t: Thread, name: Text)
    | Scan(t: Thread)
    | Create(t: Thread)
    | GiveUp(t: Thread)
    | End(t: Thread)

  predicate Enabled(p: Program, s: State, step: Step) {
    match step
    case Start(t) => At(s, t).Unborn? && p.starts(s, t)
    case Ask(t, _) => At(s, t).Idle?
    case Scan(t) => At(s, t).Scanning?
    case Create(t) => At(s, t).Missed?
    case GiveUp(t) => At(s, t).Missed?
    case End(t) => At(s, t).Idle?
  }

  function Next(p: Program, s: State, step: Step): (n: State)
    requires Enabled(p, s, step)
    ensures forall u: Thread :: u != step.t ==> At(n, u) == At(s, u)
    ensures s.list <= n.list
  {
    var t := step.t;
    match step
    case Start(_) => Move(s, t, Idle)
    case Ask(_, name) =>
      Move(s, t, Scanning(name, 0, |s.requests|)).(requests := s.requests + [Request(t, name, Pending)])
    case Scan(_) =>
      var Scanning(name, i, r) := At(s, t);
      if i >= |s.list| then Move(s, t, Missed(name, r))
      else if s.list[i] == Channel(name, p.server(t)) then Settled(Move(s, t, Idle), r, Got(i, false))
      else Move(s, t, Scanning(name, i + 1, r))
    case Create(_) =>
      var Missed(name, r) := At(s, t);
      Settled(Move(s, t, Idle), r, Got(|s.list|, true)).(list := s.list + [Channel(name, p.server(t))])
    case GiveUp(_) => Settled(Move(s, t, Idle), At(s, t).r, GivenUp)
    case End(_) => Move(s, t, Ended)
  }

  function Run(p: Program, s: State, schedule: seq<Step>): Option<State>
    decreases |schedule|
  {
    if schedule == [] then Some(s)
    else if !Enabled(p, s, schedule[0]) then None
    else Run(p, Next(p, s, schedule[0]), schedule[1..])
  }

  ghost predicate Reachable(p: Program, s: State) {
    exists schedule :: Run(p, Initial, schedule) == Some(s)
  }

  lemma {:induction false} RunOneMore(p: Program, s: State, schedule: seq<Step>, s': State, step: Step)
    requires Run(p, s, schedule) == Some(s') && Enabled(p, s', step)
    ensures Run(p, s, schedule + [step]) == Some(Next(p, s', step))
    decreases |schedule|
  {
    hide Next, Enabled;
    if schedule != [] {
      RunOneMore(p, Next(p, s, schedule[0]), schedule[1..], s', step);
      assert (schedule + [step])[1..] == schedule[1..] + [step];
    }
  }

  lemma ReachStep(p: Program, s: State, step: Step) returns (n: State)
    requires Reachable(p, s) && Enabled(p, s, step)
    ensures n == Next(p, s, step) && Reachable(p, n)
  {
    hide Run, Next, Enabled;
    n := Next(p, s, step);
    var schedule :| Run(p, Initial, schedule) == Some(s);
    RunOneMore(p, Initial, schedule, s, step);
  }

  /** No server has two threads that are alive. */
  ghost predicate OneAlive(p: Program, s: State) {
    forall t: Thread, u: Thread :: t != u && Alive(At(s, t)) && Alive(At(s, u)) ==> p.server(t) != p.server(u)
  }

  ghost predicate AlwaysOneAlive(p: Program) {
    forall s :: Reachable(p, s) ==> OneAlive(p, s)
  }

  // ---- What every program keeps: answers are what was asked for ----

  /** A thread at work has its request pending, and what it has passed over was not it. */
  ghost predicate Working(p: Program, s: State, t: Thread) {
    Busy(At(s, t)) ==>
      && At(s, t).r < |s.requests|
      && s.requests[At(s, t).r] == Request(t, At(s, t).name, Pending)
      && (At(s, t).Scanning? ==>
            At(s, t).i <= |s.list| && Channel(At(s, t).name, p.server(t)) !in s.list[..At(s, t).i])
  }

  /** A pending request is the one its thread is at work on; an answered one got its own channel. */
  ghost predicate Kept(p: Program, s: State, k: nat)
    requires k < |s.requests|
  {
    var q := s.requests[k];
    match q.outcome
    case Pending => Busy(At(s, q.t)) && At(s, q.t).r == k
    case Got(at, _) => at < |s.list| && s.list[at] == Channel(q.name, p.server(q.t))
    case GivenUp => true
  }

  ghost predicate Served(p: Program, s: State) {
    && (forall t: Thread :: Working(p, s, t))
    && (forall k :: 0 <= k < |s.requests| ==> Kept(p, s, k))
  }

  lemma WorkingKept(p: Program, s: State, step: Step, t: Thread)
    requires Served(p, s) && Enabled(p, s, step)
    ensures Working(p, Next(p, s, step), t)
  {
    var n := Next(p, s, step);
    assert Working(p, s, t) && Working(p, s, step.t);
    if t == step.t {
      match At(s, t)
      case Scanning(name, i, r) =>
        if i < |s.list| {
          assert s.list[..i + 1] == s.list[..i] + [s.list[i]];
        }
      case _ =>
    } else {
      assert At(n, t) == At(s, t);
      assert At(s, t).Scanning? ==> n.list[..At(s, t).i] == s.list[..At(s, t).i];
    }
  }

  lemma RequestKept(p: Program, s: State, step: Step, k: nat)
    requires Served(p, s) && Enabled(p, s, step) && k < |Next(p, s, step).requests|
    ensures Kept(p, Next(p, s, step), k)
  {
    var n := Next(p, s, step);
    assert Working(p, s, step.t);
    if k < |s.requests| {
      assert Kept(p, s, k);
      assert At(n, s.requests[k].t) == At(s, s.requests[k].t) || s.requests[k].t == step.t;
    }
  }

  lemma ServedKept(p: Program, s: State, step: Step)
    requires Served(p, s) && Enabled(p, s, step)
    ensures Served(p, Next(p, s, step))
  {
    var n := Next(p, s, step);
    forall t: Thread
      ensures Working(p, n, t)
    {
      hide Next, Enabled, Served;
      WorkingKept(p, s, step, t);
    }
    forall k | 0 <= k < |n.requests|
      ensures Kept(p, n, k)
    {
      hide Next, Enabled, Served;
      RequestKept(p, s, step, k);
    }
  }

  lemma {:induction false} ServedAlongRun(p: Program, s: State, schedule: seq<Step>, s': State)
    requires Served(p, s) && Run(p, s, schedule) == Some(s')
    ensures Served(p, s')
    decreases |schedule|
  {
    hide Served, Next, Enabled;
    if schedule != [] {
      ServedKept(p, s, schedule[0]);
      ServedAlongRun(p, Next(p, s, schedule[0]), schedule[1..], s');
    }
  }

  lemma ServedOfReachable(p: Program, s: State)
    requires Reachable(p, s)
    ensures Served(p, s)
  {
    var schedule :| Run(p, Initial, schedule) == Some(s);
    ServedAlongRun(p, Initial, schedule, s);
  }

  /** However threads interleave, a request that got a channel got the one it asked for, for good. */
  lemma AnswerIsWhatWasAsked(p: Program, s: State, k: nat)
    requires Reachable(p, s) && k < |s.requests| && s.requests[k].outcome.Got?
    ensures var q := s.requests[k];
            q.outcome.at < |s.list| && s.list[q.outcome.at] == Channel(q.name, p.server(q.t))
  {
    ServedOfReachable(p, s);
    assert Kept(p, s, k);
  }

  /** A request is open exactly as long as its thread is at work on it. */
  lemma PendingIffWorking(p: Program, s: State, k: nat)
    requires Reachable(p, s) && k < |s.requests|
    ensures s.requests[k].outcome.Pending? <==> Busy(At(s, s.requests[k].t)) && At(s, s.requests[k].t).r == k
  {
    ServedOfReachable(p, s);
    assert Kept(p, s, k) && Working(p, s, s.requests[k].t);
  }

  /** The requests of a state, and how they went, are never changed again. */
  ghost predicate Remembers(s: State, n: State) {
    && |s.requests| <= |n.requests| && s.list <= n.list
    && forall k :: 0 <= k < |s.requests| ==>
         && n.requests[k].t == s.requests[k].t && n.requests[k].name == s.requests[k].name
         && (!s.requests[k].outcome.Pending? ==> n.requests[k].outcome == s.requests[k].outcome)
  }

  lemma StepRemembers(p: Program, s: State, step: Step)
    requires Served(p, s) && Enabled(p, s, step)
    ensures Remembers(s, Next(p, s, step))
  {
    assert Working(p, s, step.t);
  }

  /** Each request is settled once. */
  lemma {:induction false} SettledOnce(p: Program, s: State, schedule: seq<Step>, s': State)
    requires Served(p, s) && Run(p, s, schedule) == Some(s')
    ensures Remembers(s, s')
    decreases |schedule|
  {
    hide Served, Next, Enabled;
    if schedule != [] {
      var n := Next(p, s, schedule[0]);
      StepRemembers(p, s, schedule[0]);
      ServedKept(p, s, schedule[0]);
      SettledOnce(p, n, schedule[1..], s');
      assert forall k :: 0 <= k < |s.requests| ==> n.requests[k].t == s.requests[k].t;
    }
  }

  /** An answer is the first channel of that name and server there is, or a new one at the end. */
  lemma AnswerIsFirstOrNew(p: Program, s: State, step: Step, k: nat)
    requires Reachable(p, s) && Enabled(p, s, step) && k < |s.requests| && s.requests[k].outcome.Pending?
    requires Next(p, s, step).requests[k].outcome.Got?
    ensures var n, q := Next(p, s, step), s.requests[k];
            var key, o := Channel(q.name, p.server(q.t)), n.requests[k].outcome;
            && step.t == q.t
            && (if o.made then o.at == |s.list| && n.list == s.list + [key]
                else n.list == s.list && o.at < |s.list| && s.list[o.at] == key && key !in s.list[..o.at])
  {
    ServedOfReachable(p, s);
    assert Working(p, s, step.t) && Kept(p, s, k);
  }

  // ---- One thread alive per server ----

  /** A name that was missed is still not there. */
  ghost predicate StillMissing(p: Program, s: State, t: Thread) {
    At(s, t).Missed? ==> Channel(At(s, t).name, p.server(t)) !in s.list
  }

  ghost predicate Inv(p: Program, s: State) {
    Served(p, s) && Unique(s.list) && forall t: Thread :: StillMissing(p, s, t)
  }

  lemma StillMissingKept(p: Program, s: State, step: Step, t: Thread)
    requires OneAlive(p, s) && Working(p, s, t) && StillMissing(p, s, t) && Enabled(p, s, step)
    ensures StillMissing(p, Next(p, s, step), t)
  {
    var n := Next(p, s, step);
    if t == step.t {
      match At(s, t)
      case Scanning(name, i, _) =>
        if i >= |s.list| {
          assert s.list[..i] == s.list;
        }
      case _ =>
    } else {
      assert At(n, t) == At(s, t);
    }
  }

  lemma InvKept(p: Program, s: State, step: Step)
    requires OneAlive(p, s) && Inv(p, s) && Enabled(p, s, step)
    ensures Inv(p, Next(p, s, step))
  {
    var n := Next(p, s, step);
    assert StillMissing(p, s, step.t);
    ServedKept(p, s, step);
    forall t: Thread
      ensures StillMissing(p, n, t)
    {
      assert Working(p, s, t) && StillMissing(p, s, t);
      hide Next, Working;
      StillMissingKept(p, s, step, t);
    }
    assert Unique(n.list) by {
      hide Served;
    }
  }

  lemma {:induction false} InvAlongRun(p: Program, s: State, schedule: seq<Step>, s': State)
    requires AlwaysOneAlive(p) && Reachable(p, s) && Inv(p, s) && Run(p, s, schedule) == Some(s')
    ensures Inv(p, s')
    decreases |schedule|
  {
    hide Reachable, Inv, Next, Enabled, OneAlive;
    if schedule != [] {
      var n := ReachStep(p, s, schedule[0]);
      InvKept(p, s, schedule[0]);
      InvAlongRun(p, n, schedule[1..], s');
    }
  }

  lemma InvOfReachable(p: Program, s: State)
    requires AlwaysOneAlive(p) && Reachable(p, s)
    ensures Inv(p, s)
  {
    assert Reachable(p, Initial) by {
      assert Run(p, Initial, []) == Some(Initial);
    }
    var schedule :| Run(p, Initial, schedule) == Some(s);
    hide AlwaysOneAlive, Reachable, Run;
    InvAlongRun(p, Initial, schedule, s);
  }

  // ---- Two threads of one server, both alive, can always make two entries ----

  /** A thread alive gets to the end of what it is doing. */
  lemma {:induction false} ComesToRest(p: Program, s: State, t: Thread) returns (n: State)
    requires Reachable(p, s) && Alive(At(s, t))
    ensures Reachable(p, n) && At(n, t).Idle? && (forall u: Thread :: u != t ==> At(n, u) == At(s, u))
    decreases match At(s, t) case Scanning(_, i, _) => 2 + if i < |s.list| then |s.list| - i else 0
                             case Missed(_, _) => 1
                             case _ => 0
  {
    hide Reachable;
    if At(s, t).Idle? {
      return s;
    }
    n := ReachStep(p, s, if At(s, t).Missed? then GiveUp(t) else Scan(t));
    n := ComesToRest(p, n, t);
  }

  /** A name that is not in the list is looked for in vain. */
  lemma {:induction false} ScansToTheEnd(p: Program, s: State, t: Thread) returns (n: State)
    requires Reachable(p, s) && At(s, t).Scanning? && forall k :: 0 <= k < |s.list| ==> s.list[k].name != At(s, t).name
    ensures Reachable(p, n) && At(n, t) == Missed(At(s, t).name, At(s, t).r) && n.list == s.list
    ensures forall u: Thread :: u != t ==> At(n, u) == At(s, u)
    decreases |s.list| - At(s, t).i
  {
    hide Reachable;
    var name := At(s, t).name;
    var more := At(s, t).i < |s.list|;
    n := ReachStep(p, s, Scan(t));
    if more {
      n := ScansToTheEnd(p, n, t);
    }
  }

  /** A name longer than every other. */
  function Fresh(list: seq<Channel>): (name: Text)
    ensures forall k :: 0 <= k < |list| ==> |list[k].name| < |name|
  {
    if list == [] then []
    else
      var rest := Fresh(list[1..]);
      if |list[0].name| < |rest| then rest else list[0].name + [HASH]
  }

  lemma Misses(p: Program, s: State, t: Thread, name: Text) returns (n: State)
    requires Reachable(p, s) && At(s, t).Idle? && forall k :: 0 <= k < |s.list| ==> s.list[k].name != name
    ensures Reachable(p, n) && At(n, t).Missed? && At(n, t).name == name && n.list == s.list
    ensures forall u: Thread :: u != t ==> At(n, u) == At(s, u)
  {
    hide Reachable;
    n := ReachStep(p, s, Ask(t, name));
    n := ScansToTheEnd(p, n, t);
  }

  lemma BothCreate(p: Program, s: State, t: Thread, u: Thread, name: Text) returns (n: State)
    requires t != u && p.server(t) == p.server(u)
    requires Reachable(p, s) && At(s, t).Missed? && At(s, u).Missed? && At(s, t).name == At(s, u).name == name
    ensures Reachable(p, n) && !Unique(n.list)
  {
    hide Reachable;
    var m := ReachStep(p, s, Create(t));
    n := ReachStep(p, m, Create(u));
    assert n.list[|s.list|] == n.list[|s.list| + 1];
  }

  lemma TwoAliveDuplicate(p: Program, s: State, t: Thread, u: Thread) returns (n: State)
    requires Reachable(p, s) && t != u && p.server(t) == p.server(u) && Alive(At(s, t)) && Alive(At(s, u))
    ensures Reachable(p, n) && !Unique(n.list)
  {
    hide Reachable, Unique;
    n := ComesToRest(p, s, t);
    n := ComesToRest(p, n, u);
    var name := Fresh(n.list);
    assert forall k :: 0 <= k < |n.list| ==> n.list[k].name != name;
    n := Misses(p, n, t, name);
    n := Misses(p, n, u, name);
    n := BothCreate(p, n, t, u, name);
  }

  /**
   * Lookup and creation are separate critical sections, yet no interleaving makes two
   * entries for one name on one server, exactly because no server ever has two threads
   * alive at once.
   */
  lemma UniqueIffOneAlive(p: Program)
    ensures (forall s :: Reachable(p, s) ==> Unique(s.list)) <==> AlwaysOneAlive(p)
  {
    hide Reachable, Unique;
    if AlwaysOneAlive(p) {
      forall s | Reachable(p, s)
        ensures Unique(s.list)
      {
        InvOfReachable(p, s);
      }
    } else {
      var s :| Reachable(p, s) && !OneAlive(p, s);
      var t: Thread, u: Thread :|
        t != u && Alive(At(s, t)) && Alive(At(s, u)) && p.server(t) == p.server(u);
      var n := TwoAliveDuplicate(p, s, t, u);
    }
  }

  /** Every request for a name on a server, found or created, gets the same channel for good. */
  lemma SameKeySameChannel(p: Program, s: State, j: nat, k: nat)
    requires AlwaysOneAlive(p) && Reachable(p, s)
    requires j < |s.requests| && k < |s.requests| && s.requests[j].outcome.Got? && s.requests[k].outcome.Got?
    ensures var q, r := s.requests[j], s.requests[k];
            q.outcome.at == r.outcome.at <==> q.name == r.name && p.server(q.t) == p.server(r.t)
  {
    InvOfReachable(p, s);
    AnswerIsWhatWasAsked(p, s, j);
    AnswerIsWhatWasAsked(p, s, k);
  }

  // ---- A request, whatever the other threads do meanwhile, is the method of the registry ----

  /** The channels of one server, in order. */
  function OfServer(list: seq<Channel>, srv: nat): seq<Channel> {
    if list == [] then []
    else OfServer(list[..|list| - 1], srv) + if list[|list| - 1].srv == srv then [list[|list| - 1]] else []
  }

  lemma OfServerGrows(list: seq<Channel>, c: Channel, srv: nat)
    ensures OfServer(list + [c], srv) == OfServer(list, srv) + if c.srv == srv then [c] else []
  {
    assert (list + [c])[..|list|] == list;
  }

  lemma {:induction false} OfServerHas(list: seq<Channel>, c: Channel)
    ensures c in OfServer(list, c.srv) <==> c in list
  {
    if list != [] {
      OfServerHas(list[..|list| - 1], c);
      assert list == list[..|list| - 1] + [list[|list| - 1]];
    }
  }

  /** `t` is at work on the request numbered `r`. */
  predicate WorksOn(s: State, t: Thread, r: nat) {
    Busy(At(s, t)) && At(s, t).r == r
  }

  lemma OwnServerStays(p: Program, s: State, step: Step, t: Thread)
    requires OneAlive(p, s) && Enabled(p, s, step) && Busy(At(s, t)) && Busy(At(Next(p, s, step), t))
    ensures OfServer(Next(p, s, step).list, p.server(t)) == OfServer(s.list, p.server(t))
  {
    hide OfServer;
    if step.Create? {
      OfServerGrows(s.list, Channel(At(s, step.t).name, p.server(step.t)), p.server(t));
      assert OfServer(s.list, p.server(t)) + [] == OfServer(s.list, p.server(t));
    }
  }

  /** Once its thread has left it, a request is settled. */
  lemma LeftIsSettled(p: Program, s: State, step: Step, t: Thread, r: nat)
    requires Served(p, s) && Enabled(p, s, step) && WorksOn(s, t, r)
    ensures var n := Next(p, s, step);
            WorksOn(n, t, r) || (r < |n.requests| && !n.requests[r].outcome.Pending?)
  {
    assert Working(p, s, t);
  }

  lemma {:induction false} OwnServerAlongRun(
      p: Program, s: State, schedule: seq<Step>, s': State, t: Thread, r: nat)
    requires AlwaysOneAlive(p) && Reachable(p, s) && Run(p, s, schedule) == Some(s')
    requires WorksOn(s, t, r) && WorksOn(s', t, r)
    ensures OfServer(s'.list, p.server(t)) == OfServer(s.list, p.server(t))
    decreases |schedule|
  {
    hide Reachable, Next, Enabled, OfServer, OneAlive;
    if schedule != [] {
      ServedOfReachable(p, s);
      var n := ReachStep(p, s, schedule[0]);
      LeftIsSettled(p, s, schedule[0], t, r);
      ServedKept(p, s, schedule[0]);
      SettledOnce(p, n, schedule[1..], s');
      ReachAlong(p, s, schedule, s');
      ServedOfReachable(p, s');
      WorksOnPending(p, s', t, r);
      hide Served, Remembers;
      OwnServerStays(p, s, schedule[0], t);
      OwnServerAlongRun(p, n, schedule[1..], s', t, r);
    }
  }

  lemma WorksOnPending(p: Program, s: State, t: Thread, r: nat)
    requires Served(p, s) && WorksOn(s, t, r)
    ensures r < |s.requests| && s.requests[r] == Request(t, At(s, t).name, Pending)
  {
    assert Working(p, s, t);
  }

  /**
   * From its Ask to its answer, interleaved with anything, a request does to the channels of
   * its server what ChannelRegistry.GetOrCreate does to the list.
   */
  lemma SectionIsGetOrCreate(p: Program, s: State, schedule: seq<Step>, m: State, step: Step, t: Thread, r: nat)
    requires AlwaysOneAlive(p) && Reachable(p, s) && Run(p, s, schedule) == Some(m)
    requires WorksOn(s, t, r) && WorksOn(m, t, r) && Enabled(p, m, step)
    requires r < |Next(p, m, step).requests| && Next(p, m, step).requests[r].outcome.Got?
    ensures var n, key := Next(p, m, step), Channel(At(s, t).name, p.server(t));
            && OfServer(n.list, p.server(t)) == GotOrCreated(OfServer(s.list, p.server(t)), key)
            && n.requests[r].outcome.at < |n.list| && n.list[n.requests[r].outcome.at] == key
  {
    OwnServerAlongRun(p, s, schedule, m, t, r);
    ServedOfReachable(p, s);
    SettledOnce(p, s, schedule, m);
    WorksOnPending(p, s, t, r);
    ReachAlong(p, s, schedule, m);
    ServedOfReachable(p, m);
    WorksOnPending(p, m, t, r);
    InvOfReachable(p, m);
    SettlesNow(p, m, step, t, r);
  }

  lemma {:induction false} ReachAlong(p: Program, s: State, schedule: seq<Step>, s': State)
    requires Reachable(p, s) && Run(p, s, schedule) == Some(s')
    ensures Reachable(p, s')
    decreases |schedule|
  {
    hide Reachable, Next, Enabled;
    if schedule != [] {
      var n := ReachStep(p, s, schedule[0]);
      ReachAlong(p, n, schedule[1..], s');
    }
  }

  lemma SettlesNow(p: Program, m: State, step: Step, t: Thread, r: nat)
    requires Inv(p, m) && Reachable(p, m) && WorksOn(m, t, r) && Enabled(p, m, step)
    requires r < |m.requests| && m.requests[r] == Request(t, At(m, t).name, Pending)
    requires Next(p, m, step).requests[r].outcome.Got?
    ensures var n, key := Next(p, m, step), Channel(At(m, t).name, p.server(t));
            && OfServer(n.list, p.server(t)) == GotOrCreated(OfServer(m.list, p.server(t)), key)
            && n.requests[r].outcome.at < |n.list| && n.list[n.requests[r].outcome.at] == key
  {
    var key := Channel(At(m, t).name, p.server(t));
    AnswerIsFirstOrNew(p, m, step, r);
    MadeWasMissing(p, m, step, t, r);
    OfServerGrows(m.list, key, p.server(t));
    OfServerHas(m.list, key);
    hide Next, OfServer, Inv, Enabled;
  }

  lemma MadeWasMissing(p: Program, m: State, step: Step, t: Thread, r: nat)
    requires Inv(p, m) && WorksOn(m, t, r) && Enabled(p, m, step) && r < |m.requests|
    requires m.requests[r] == Request(t, At(m, t).name, Pending) && Next(p, m, step).requests[r].outcome.Got?
    ensures Next(p, m, step).requests[r].outcome.made ==> Channel(At(m, t).name, p.server(t)) !in m.list
  {
    assert StillMissing(p, m, t) && Working(p, m, step.t);
  }

  // ---- A rejoin ----

  /** A thread is started only when its server has none: at first, or once the last one has ended. */
  ghost predicate HandsOver(p: Program) {
    forall s: State, t: Thread, u: Thread ::
      p.starts(s, t) && Alive(At(s, u)) && u != t ==> p.server(u) != p.server(t)
  }

  lemma {:induction false} OneAliveAlongRun(p: Program, s: State, schedule: seq<Step>, s': State)
    requires HandsOver(p) && OneAlive(p, s) && Run(p, s, schedule) == Some(s')
    ensures OneAlive(p, s')
    decreases |schedule|
  {
    hide HandsOver, OneAlive, Next, Enabled;
    if schedule != [] {
      OneAliveKept(p, s, schedule[0]);
      OneAliveAlongRun(p, Next(p, s, schedule[0]), schedule[1..], s');
    }
  }

  lemma OneAliveKept(p: Program, s: State, step: Step)
    requires HandsOver(p) && OneAlive(p, s) && Enabled(p, s, step)
    ensures OneAlive(p, Next(p, s, step))
  {
    var n := Next(p, s, step);
    assert Alive(At(n, step.t)) && !step.Start? ==> Alive(At(s, step.t));
  }

  /** However often a server is rejoined, its channels stay unique if each new thread waits for the last to end. */
  lemma RejoinKeepsUnique(p: Program, s: State)
    requires HandsOver(p) && Reachable(p, s)
    ensures Unique(s.list) && OneAlive(p, s)
  {
    forall r | Reachable(p, r)
      ensures OneAlive(p, r)
    {
      var schedule :| Run(p, Initial, schedule) == Some(r);
      OneAliveAlongRun(p, Initial, schedule, r);
    }
    InvOfReachable(p, s);
  }

  ghost predicate StartsWhenFree(p: Program) {
    forall s: State, t: Thread ::
      p.starts(s, t) <==> forall u: Thread :: u != t && Alive(At(s, u)) ==> p.server(u) != p.server(t)
  }

  /** A thread that has ended makes room for the next of its server. */
  lemma RejoinHappens(p: Program, t: Thread, u: Thread) returns (s: State)
    requires StartsWhenFree(p) && t != u && p.server(t) == p.server(u)
    ensures HandsOver(p) && Reachable(p, s) && At(s, t).Ended? && At(s, u).Idle?
  {
    assert Reachable(p, Initial) by {
      assert Run(p, Initial, []) == Some(Initial);
    }
    hide Reachable;
    assert p.starts(Initial, t);
    s := ReachStep(p, Initial, Start(t));
    s := ReachStep(p, s, End(t));
    assert forall w: Thread :: !Alive(At(s, w));
    assert p.starts(s, u);
    s := ReachStep(p, s, Start(u));
  }
}
