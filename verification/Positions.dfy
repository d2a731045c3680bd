// Whose plugin an answer hits: STOP pauses and FAIL removes the plugin that stands in the
// plugin list where the callback stands in its bucket (plugin_handler.c).

module Positions {
  import opened CString
  import opened PluginAnswers
  import opened CallbackSort
  import opened CallbackIndex
  import opened Dispatch
  import EventParsers

  /** The i-th listener stands at the position of the plugin that owns it. */
  predicate AtOwner(s: State, listeners: seq<Callback>, i: nat)
    requires i < |listeners|
  {
    i < |s.live| && listeners[i] in s.live[i].callbacks
  }

  /** Every listener of the event does. */
  ghost predicate Aligned(s: State, name: Text) {
    var listeners := Listeners(s.index, name);
    forall i :: 0 <= i < |listeners| ==> AtOwner(s, listeners, i)
  }

  ghost predicate NoFail(answers: Answers) {
    forall name: Text, i: nat :: answers(name, i) != BCIRC_PLUGIN_FAIL
  }

  ghost predicate Stopped(calls: seq<Call>, owner: Owner) {
    exists k :: 0 <= k < |calls| && calls[k].answer == BCIRC_PLUGIN_STOP && calls[k].callback in owner.callbacks
  }

  /** The plugins paused are those that own a callback that was called and answered STOP. */
  ghost predicate PausesOwners(s: State, w: Walked) {
    && w.end != Fault
    && forall j :: 0 <= j < |s.live| ==> (s.live[j].key in w.paused <==> Stopped(w.calls, s.live[j]))
  }

  /** One callback gives one answer, all others OK. */
  function Only(name: Text, i: nat, answer: int): Answers {
    (other: Text, j: nat) => if other == name && j == i then answer else BCIRC_PLUGIN_OK
  }

  predicate Quiet(answer: int) {
    !ActsOnPlugin(answer) && answer != BCIRC_PLUGIN_BREAK
  }

  lemma {:induction false} QuietWalk(s: State, paused: set<nat>, name: Text, args: seq<Arg>, answers: Answers,
                                     i: nat, n: nat)
    requires forall k :: i <= k < n ==> Quiet(answers(name, k))
    ensures var w := Walk(s, paused, name, args, answers, i, n);
            && w.s == s && w.paused == paused
            && w.end == (if i >= n || n <= |Listeners(s.index, name)| then Through else Fault)
            && (forall k :: 0 <= k < |w.calls| ==> Quiet(w.calls[k].answer))
    decreases n - i
  {
    if i < n && i < |Listeners(s.index, name)| {
      QuietWalk(s, paused, name, args, answers, i + 1, n);
    }
  }

  /** Where the walk stands when it comes to the only callback that is not quiet. */
  lemma {:induction false} WalkUpTo(s: State, paused: set<nat>, name: Text, args: seq<Arg>, answers: Answers,
                                    j: nat, i: nat, n: nat)
    requires j <= i < n <= |Listeners(s.index, name)|
    requires forall k :: j <= k < i ==> Quiet(answers(name, k))
    ensures var w, rest := Walk(s, paused, name, args, answers, j, n), Walk(s, paused, name, args, answers, i, n);
            && w.s == rest.s && w.paused == rest.paused && w.end == rest.end
            && |w.calls| == i - j + |rest.calls|
            && (forall k :: 0 <= k < i - j ==> Quiet(w.calls[k].answer))
            && w.calls[i - j..] == rest.calls
    decreases i - j
  {
    if j < i {
      WalkUpTo(s, paused, name, args, answers, j + 1, i, n);
    }
  }

  lemma OnlyAnswers(name: Text, i: nat, answer: int)
    ensures Only(name, i, answer)(name, i) == answer
    ensures forall other: Text, j: nat :: other != name || j != i ==> Only(name, i, answer)(other, j) == BCIRC_PLUGIN_OK
  {
  }

  /** The turn of a callback that answers STOP or FAIL. */
  lemma WalkActs(s: State, paused: set<nat>, name: Text, args: seq<Arg>, answers: Answers, i: nat, n: nat)
    requires i < n <= |Listeners(s.index, name)| && ActsOnPlugin(answers(name, i))
    ensures var answer := answers(name, i);
            var call := Call(Listeners(s.index, name)[i], args, answer);
            Walk(s, paused, name, args, answers, i, n) ==
            if i >= |s.live| then Walked(s, paused, [call], Fault)
            else
              var rest := Walk(Acted(s, i, answer), Pausing(s, paused, i, answer), name, args, answers, i + 1, n);
              rest.(calls := [call] + rest.calls)
  {
  }

  // ---- STOP ----

  lemma OwnedOnce(ops: seq<Op>, c: Callback, i: nat, j: nat)
    requires var s := Run(Initial, ops);
             i < |s.live| && j < |s.live| && c in s.live[i].callbacks && c in s.live[j].callbacks
    ensures i == j
  {
    var s := Run(Initial, ops);
    InvOfRun(ops);
    RegisteredOnce(s.registered, c);
    CountPositive(s.live[i].callbacks, c);
    CountPositive(s.live[j].callbacks, c);
    if i != j {
      TallyAtTwo(s.live, i, j, c);
    }
  }

  lemma {:induction false} TallyAtOne(hs: seq<Owner>, i: nat, c: Callback)
    requires i < |hs|
    ensures Tally(hs, c) >= Count(hs[i].callbacks, c)
  {
    if i > 0 {
      TallyAtOne(hs[1..], i - 1, c);
    }
  }

  lemma {:induction false} TallyAtTwo(hs: seq<Owner>, i: nat, j: nat, c: Callback)
    requires i < |hs| && j < |hs| && i != j
    ensures Tally(hs, c) >= Count(hs[i].callbacks, c) + Count(hs[j].callbacks, c)
  {
    if i == 0 {
      TallyAtOne(hs[1..], j - 1, c);
    } else if j == 0 {
      TallyAtOne(hs[1..], i - 1, c);
    } else {
      TallyAtTwo(hs[1..], i - 1, j - 1, c);
    }
  }

  lemma AlignedIsGentle(s: State, name: Text, answers: Answers)
    requires Aligned(s, name) && NoFail(answers)
    ensures Gentle(s, name, answers)
  {
    var listeners := Listeners(s.index, name);
    assert forall k :: 0 <= k < |listeners| && answers(name, k) == BCIRC_PLUGIN_STOP ==> AtOwner(s, listeners, k);
  }

  /** An aligned event's own walk adds exactly the owners of those that answered STOP. */
  lemma AlignedPausesOwners(ops: seq<Op>, paused: set<nat>, name: Text, args: seq<Arg>, answers: Answers, j: nat)
    requires var s := Run(Initial, ops); Aligned(s, name) && Gentle(s, name, answers) && j < |s.live|
    ensures var s := Run(Initial, ops);
            var w := Walk(s, paused, name, args, answers, 0, |Listeners(s.index, name)|);
            s.live[j].key in w.paused <==> s.live[j].key in paused || Stopped(w.calls, s.live[j])
  {
    hide Walk, FirstBreak, Listeners;
    var s := Run(Initial, ops);
    var listeners := Listeners(s.index, name);
    var b := FirstBreak(answers, name, 0, |listeners|);
    var w := Walk(s, paused, name, args, answers, 0, |listeners|);
    InvOfRun(ops);
    WalkGently(s, paused, name, args, answers, 0);
    if StopHits(s, name, answers, 0, b, s.live[j].key) {
      assert AtOwner(s, listeners, j);
      assert w.calls[j].answer == BCIRC_PLUGIN_STOP && w.calls[j].callback == listeners[j];
    }
    if Stopped(w.calls, s.live[j]) {
      var k :| 0 <= k < |w.calls| && w.calls[k].answer == BCIRC_PLUGIN_STOP
               && w.calls[k].callback in s.live[j].callbacks;
      assert AtOwner(s, listeners, k);
      OwnedOnce(ops, listeners[k], k, j);
      assert k < b;
    }
  }

  lemma StoppedOfJoin(a: seq<Call>, b: seq<Call>, owner: Owner)
    ensures Stopped(a + b, owner) <==> Stopped(a, owner) || Stopped(b, owner)
  {
    if Stopped(a, owner) {
      var k :| 0 <= k < |a| && a[k].answer == BCIRC_PLUGIN_STOP && a[k].callback in owner.callbacks;
      assert (a + b)[k] == a[k];
    }
    if Stopped(b, owner) {
      var k :| 0 <= k < |b| && b[k].answer == BCIRC_PLUGIN_STOP && b[k].callback in owner.callbacks;
      assert (a + b)[|a| + k] == b[k];
    }
  }

  /** The announcement of an event that has listeners, or had. */
  predicate MayAnnounce(s: State, name: Text) {
    GetCbIndex(s.index, name) != -1 && name != CALLBACKS_EXECUTED
  }

  lemma WhenAligned(ops: seq<Op>, name: Text, args: seq<Arg>, answers: Answers)
    requires var s := Run(Initial, ops);
             Aligned(s, name) && (MayAnnounce(s, name) ==> Aligned(s, CALLBACKS_EXECUTED))
    requires NoFail(answers)
    ensures var s := Run(Initial, ops); PausesOwners(s, DispatchOf(s, {}, name, args, answers))
  {
    var s := Run(Initial, ops);
    var w := DispatchOf(s, {}, name, args, answers);
    AlignedIsGentle(s, name, answers);
    InvOfRun(ops);
    var own := Walk(s, {}, name, args, answers, 0, |Listeners(s.index, name)|);
    WalkIsOrdered(s, {}, name, args, answers);
    forall j | 0 <= j < |s.live|
      ensures s.live[j].key in own.paused <==> Stopped(own.calls, s.live[j])
    {
      AlignedPausesOwners(ops, {}, name, args, answers, j);
    }
    if own.end == Through && MayAnnounce(s, name) {
      WhenAnnounced(ops, own, args + [EventName(name)], answers);
    }
  }

  lemma WhenAnnounced(ops: seq<Op>, own: Walked, args: seq<Arg>, answers: Answers)
    requires var s := Run(Initial, ops); Aligned(s, CALLBACKS_EXECUTED) && NoFail(answers) && own.s == s
    requires PausesOwners(Run(Initial, ops), own)
    ensures var s := Run(Initial, ops);
            var a := DispatchOf(s, own.paused, CALLBACKS_EXECUTED, args, answers);
            PausesOwners(s, Walked(s, a.paused, own.calls + a.calls, a.end)) && a.s == s
  {
    var s := Run(Initial, ops);
    var a := DispatchOf(s, own.paused, CALLBACKS_EXECUTED, args, answers);
    InvOfRun(ops);
    AlignedIsGentle(s, CALLBACKS_EXECUTED, answers);
    WalkIsOrdered(s, own.paused, CALLBACKS_EXECUTED, args, answers);
    forall j | 0 <= j < |s.live|
      ensures s.live[j].key in a.paused <==> Stopped(own.calls + a.calls, s.live[j])
    {
      AlignedPausesOwners(ops, own.paused, CALLBACKS_EXECUTED, args, answers, j);
      StoppedOfJoin(own.calls, a.calls, s.live[j]);
    }
  }

  /** A STOP at position `i` alone, in the event's own walk: `plugin_list[i]` is paused, if there is one. */
  lemma OnlyStop(s: State, name: Text, args: seq<Arg>, i: nat)
    requires i < |Listeners(s.index, name)|
    ensures var w := Walk(s, {}, name, args, Only(name, i, BCIRC_PLUGIN_STOP), 0, |Listeners(s.index, name)|);
            if i >= |s.live| then w.end == Fault
            else
              && w.s == s && w.end == Through && w.paused == {s.live[i].key} && i < |w.calls|
              && w.calls[i].answer == BCIRC_PLUGIN_STOP && w.calls[i].callback == Listeners(s.index, name)[i]
              && (forall k :: 0 <= k < |w.calls| && k != i ==> w.calls[k].answer != BCIRC_PLUGIN_STOP)
  {
    hide Only, Walk;
    var n := |Listeners(s.index, name)|;
    var answers := Only(name, i, BCIRC_PLUGIN_STOP);
    var w := Walk(s, {}, name, args, answers, 0, n);
    OnlyAnswers(name, i, BCIRC_PLUGIN_STOP);
    WalkUpTo(s, {}, name, args, answers, 0, i, n);
    WalkActs(s, {}, name, args, answers, i, n);
    if i < |s.live| {
      var hit: set<nat> := {s.live[i].key};
      var rest := Walk(s, hit, name, args, answers, i + 1, n);
      assert {} + hit == hit;
      QuietWalk(s, hit, name, args, answers, i + 1, n);
      CallsBehind(w.calls, Call(Listeners(s.index, name)[i], args, BCIRC_PLUGIN_STOP), rest.calls, i);
    }
  }

  /** Calls in front, one, and calls behind. */
  lemma CallsBehind(calls: seq<Call>, call: Call, rest: seq<Call>, i: nat)
    requires i <= |calls| && calls[i..] == [call] + rest
    ensures i < |calls| && calls[i] == call
    ensures forall k :: i < k < |calls| ==> calls[k] == rest[k - i - 1]
  {
    assert calls[i..][0] == call;
    assert forall k :: i < k < |calls| ==> calls[k] == calls[i..][k - i];
  }

  lemma NotStopped(calls: seq<Call>, owner: Owner, i: nat)
    requires i < |calls| ==> calls[i].callback !in owner.callbacks
    requires forall k :: 0 <= k < |calls| && k != i ==> calls[k].answer != BCIRC_PLUGIN_STOP
    ensures !Stopped(calls, owner)
  {
  }

  /** The announcement while its listeners all answer OK. */
  lemma QuietAnnouncement(s: State, paused: set<nat>, args: seq<Arg>, answers: Answers)
    requires forall k: nat :: Quiet(answers(CALLBACKS_EXECUTED, k))
    ensures var a := DispatchOf(s, paused, CALLBACKS_EXECUTED, args, answers);
            && a.s == s && a.paused == paused && a.end == Through
            && (forall k :: 0 <= k < |a.calls| ==> Quiet(a.calls[k].answer))
  {
    QuietWalk(s, paused, CALLBACKS_EXECUTED, args, answers, 0, |Listeners(s.index, CALLBACKS_EXECUTED)|);
  }

  lemma WhenMisaligned(s: State, name: Text, args: seq<Arg>, i: nat)
    requires i < |Listeners(s.index, name)|
    requires !AtOwner(s, Listeners(s.index, name), i)
    ensures !PausesOwners(s, DispatchOf(s, {}, name, args, Only(name, i, BCIRC_PLUGIN_STOP)))
  {
    var answers := Only(name, i, BCIRC_PLUGIN_STOP);
    var own := Walk(s, {}, name, args, answers, 0, |Listeners(s.index, name)|);
    var w := DispatchOf(s, {}, name, args, answers);
    OnlyStop(s, name, args, i);
    if i < |s.live| {
      NotStopped(own.calls, s.live[i], i);
      if name != CALLBACKS_EXECUTED {
        var more := args + [EventName(name)];
        var a := DispatchOf(s, own.paused, CALLBACKS_EXECUTED, more, answers);
        QuietAnnouncement(s, own.paused, more, answers);
        NotStopped(a.calls, s.live[i], |a.calls|);
        StoppedOfJoin(own.calls, a.calls, s.live[i]);
      }
      assert s.live[i].key in w.paused && !Stopped(w.calls, s.live[i]);
    }
  }

  lemma WhenAnnouncementMisaligned(s: State, name: Text, args: seq<Arg>, i: nat)
    requires MayAnnounce(s, name) && i < |Listeners(s.index, CALLBACKS_EXECUTED)|
    requires !AtOwner(s, Listeners(s.index, CALLBACKS_EXECUTED), i)
    ensures !PausesOwners(s, DispatchOf(s, {}, name, args, Only(CALLBACKS_EXECUTED, i, BCIRC_PLUGIN_STOP)))
  {
    var answers := Only(CALLBACKS_EXECUTED, i, BCIRC_PLUGIN_STOP);
    var own := Walk(s, {}, name, args, answers, 0, |Listeners(s.index, name)|);
    var more := args + [EventName(name)];
    var a := Walk(s, {}, CALLBACKS_EXECUTED, more, answers, 0, |Listeners(s.index, CALLBACKS_EXECUTED)|);
    var w := DispatchOf(s, {}, name, args, answers);
    hide Only, Walk;
    OnlyAnswers(CALLBACKS_EXECUTED, i, BCIRC_PLUGIN_STOP);
    QuietWalk(s, {}, name, args, answers, 0, |Listeners(s.index, name)|);
    OnlyStop(s, CALLBACKS_EXECUTED, more, i);
    assert DispatchOf(s, {}, CALLBACKS_EXECUTED, more, answers) == a;
    assert w == Walked(a.s, a.paused, own.calls + a.calls, if a.end == Fault then Fault else Through);
    if i < |s.live| {
      NotStopped(own.calls, s.live[i], |own.calls|);
      NotStopped(a.calls, s.live[i], i);
      StoppedOfJoin(own.calls, a.calls, s.live[i]);
      assert s.live[i].key in w.paused && !Stopped(w.calls, s.live[i]);
    }
  }

  lemma OnlyStopIsNoFail(name: Text, i: nat)
    ensures NoFail(Only(name, i, BCIRC_PLUGIN_STOP))
  {
  }

  /**
   * While nobody answers FAIL, a dispatch pauses exactly the owners of the callbacks that
   * answered STOP, whatever they answer, exactly when every listener of the event, and of
   * its announcement, stands at its owner's position in the plugin list.
   */
  lemma {:induction false} PausesOwnersIffAligned(ops: seq<Op>, name: Text, args: seq<Arg>)
    ensures var s := Run(Initial, ops);
            (forall answers: Answers :: NoFail(answers) ==> PausesOwners(s, DispatchOf(s, {}, name, args, answers)))
            <==> Aligned(s, name) && (MayAnnounce(s, name) ==> Aligned(s, CALLBACKS_EXECUTED))
  {
    var s := Run(Initial, ops);
    if !Aligned(s, name) {
      var i :| 0 <= i < |Listeners(s.index, name)| && !AtOwner(s, Listeners(s.index, name), i);
      WhenMisaligned(s, name, args, i);
      OnlyStopIsNoFail(name, i);
    } else if MayAnnounce(s, name) && !Aligned(s, CALLBACKS_EXECUTED) {
      var i :| 0 <= i < |Listeners(s.index, CALLBACKS_EXECUTED)|
               && !AtOwner(s, Listeners(s.index, CALLBACKS_EXECUTED), i);
      WhenAnnouncementMisaligned(s, name, args, i);
      OnlyStopIsNoFail(CALLBACKS_EXECUTED, i);
    } else {
      forall answers: Answers | NoFail(answers)
        ensures PausesOwners(s, DispatchOf(s, {}, name, args, answers))
      {
        WhenAligned(ops, name, args, answers);
      }
    }
  }

  // ---- Two runs in which a STOP goes wrong ----

  lemma TwoListeners(c: Callback, d: Callback)
    requires c.name == [] && d.name == [] && c.priority > d.priority
    ensures IndexCallback(IndexCallback([], c), d) == [Holder([], [d, c])]
  {
    assert IndexCallback([], c) == [Holder([], [c])];
    SortInserts([c], d);
    assert Inserted([c], d) == [d, c];
  }

  /** Two plugins, the later one with the lower priority number: its STOP pauses the other. */
  lemma WrongPluginPaused() returns (ops: seq<Op>, w: Walked)
    ensures var s := Run(Initial, ops);
            && w == DispatchOf(s, {}, [], [], Only([], 0, BCIRC_PLUGIN_STOP))
            && |s.live| == 2 && w.paused == {s.live[0].key}
            && Stopped(w.calls, s.live[1]) && !Stopped(w.calls, s.live[0])
  {
    var first, c := LoadOne([], 5);
    var both, d := LoadOne(first, 1);
    TwoListeners(c, d);
    var s := Run(Initial, both);
    var answers := Only([], 0, BCIRC_PLUGIN_STOP);
    OnlyStop(s, [], [], 0);
    var own := Walk(s, {}, [], [], answers, 0, 2);
    w := DispatchOf(s, {}, [], [], answers);
    assert w.calls == own.calls;
    assert w.calls[0].callback in s.live[1].callbacks;
    NotStopped(w.calls, s.live[0], 0);
    return both, w;
  }

  /** One plugin that listens twice to one event: the second STOP reads behind the plugin list. */
  lemma StopBehindList() returns (ops: seq<Op>)
    ensures var s := Run(Initial, ops);
            && |s.live| == 1 && |Listeners(s.index, [])| == 2
            && DispatchOf(s, {}, [], [], Only([], 1, BCIRC_PLUGIN_STOP)).end == Fault
  {
    ops := LoadTwice();
    OnlyStop(Run(Initial, ops), [], [], 1);
  }

  lemma {:induction false} WalkPausesMore(s: State, paused: set<nat>, name: Text, args: seq<Arg>, answers: Answers,
                                          i: nat, n: nat)
    ensures paused <= Walk(s, paused, name, args, answers, i, n).paused
    decreases n - i
  {
    var answer := answers(name, i);
    if i < n && i < |Listeners(s.index, name)| && answer != BCIRC_PLUGIN_BREAK
       && (ActsOnPlugin(answer) ==> i < |s.live|) {
      WalkPausesMore(Acted(s, i, answer), Pausing(s, paused, i, answer), name, args, answers, i + 1, n);
    }
  }

  /**
   * A line that comes before the MOTD and is long enough makes get_chan_event answer zero,
   * which is STOP: it pauses the plugin that stands where the callback does.
   */
  lemma EarlyLinePauses(s: State, paused: set<nat>, name: Text, args: seq<Arg>, answers: Answers, i: nat,
                        line: Text, known: set<Text>)
    requires Gentle(s, name, answers) && i < FirstBreak(answers, name, 0, |Listeners(s.index, name)|)
    requires |line| >= 20 && EventParsers.Skipped(answers(name, i)) == EventParsers.ParseChanEvent(line, false, known)
    ensures i < |s.live| && s.live[i].key in DispatchOf(s, paused, name, args, answers).paused
  {
    var n := |Listeners(s.index, name)|;
    var w := Walk(s, paused, name, args, answers, 0, n);
    WalkGently(s, paused, name, args, answers, 0);
    assert StopHits(s, name, answers, 0, FirstBreak(answers, name, 0, n), s.live[i].key);
    var more := args + [EventName(name)];
    WalkPausesMore(w.s, w.paused, CALLBACKS_EXECUTED, more, answers, 0, |Listeners(w.s.index, CALLBACKS_EXECUTED)|);
  }

  // ---- FAIL ----

  ghost predicate ListensTo(owner: Owner, name: Text) {
    exists c: Callback :: c in owner.callbacks && c.name == name
  }

  lemma {:induction false} OrderedSubset(a: seq<Callback>, b: seq<Callback>)
    requires Ordered(a) && Ordered(b) && forall c :: c in a ==> c in b
    ensures |a| <= |b|
    decreases |b|
  {
    if a != [] {
      assert a[0] in b;
      if a[0] == b[0] {
        assert forall c :: c in a[1..] ==> c in a && c != a[0];
        OrderedSubset(a[1..], b[1..]);
      } else {
        assert b[0] !in a;
        OrderedSubset(a, b[1..]);
      }
    }
  }

  lemma {:induction false} WithoutIsShorter(s: seq<Callback>, c: Callback)
    requires c in s
    ensures |Without(s, c)| < |s|
  {
    if s[0] == c {
      WithoutIsNoLonger(s[1..], c);
    } else {
      WithoutIsShorter(s[1..], c);
    }
  }

  lemma {:induction false} WithoutIsNoLonger(s: seq<Callback>, c: Callback)
    ensures |Without(s, c)| <= |s|
  {
    if s != [] {
      WithoutIsNoLonger(s[1..], c);
    }
  }

  lemma {:induction false} CallbacksOfAt(owners: seq<Owner>, i: nat)
    requires DistinctKeys(owners) && i < |owners|
    ensures CallbacksOf(owners, owners[i].key) == owners[i].callbacks
  {
    if i > 0 {
      CallbacksOfAt(owners[1..], i - 1);
    }
  }

  /** Removing the plugin at `i` shortens the event's bucket exactly when that plugin listens to it. */
  lemma RemovalShrinks(ops: seq<Op>, name: Text, i: nat)
    requires i < |Run(Initial, ops).live|
    ensures var s := Run(Initial, ops);
            var n := Next(s, Remove(s.live[i].key));
            |Listeners(n.index, name)| < |Listeners(s.index, name)| <==> ListensTo(s.live[i], name)
  {
    var s := Run(Initial, ops);
    var cs := s.live[i].callbacks;
    var before, after := Listeners(s.index, name), Listeners(Next(s, Remove(s.live[i].key)).index, name);
    InvOfRun(ops);
    CallbacksOfAt(s.live, i);
    forall c
      ensures c in after <==> c in before && c !in cs
      ensures Ordered(after) && Ordered(before)
      ensures c in before <==> c.name == name && OwnedBySomeone(s, c)
    {
      RemovalIsExact(ops, s.live[i].key, name, c);
      IndexAgrees(ops, name, c);
    }
    if ListensTo(s.live[i], name) {
      var c :| c in cs && c.name == name;
      assert Holds(s.live, c);
      ShorterWithout(after, before, c);
    } else {
      OrderedIsUnique(after, before);
    }
  }

  lemma ShorterWithout(after: seq<Callback>, before: seq<Callback>, c: Callback)
    requires Ordered(after) && Ordered(before) && c in before && c !in after
    requires forall x :: x in after ==> x in before
    ensures |after| < |before|
  {
    WithoutIsOrdered(before, c);
    WithoutIsShorter(before, c);
    OrderedSubset(after, Without(before, c));
  }

  /** A FAIL at position `i` alone, in the event's own walk. */
  lemma OnlyFail(s: State, paused: set<nat>, name: Text, args: seq<Arg>, i: nat)
    requires i < |Listeners(s.index, name)|
    ensures var n := |Listeners(s.index, name)|;
            var w := Walk(s, paused, name, args, Only(name, i, BCIRC_PLUGIN_FAIL), 0, n);
            if i >= |s.live| then w.end == Fault
            else
              var r := Next(s, Remove(s.live[i].key));
              w.s == r && w.end == (if i + 1 < n && |Listeners(r.index, name)| < n then Fault else Through)
  {
    hide Only, Walk, Listeners;
    var n := |Listeners(s.index, name)|;
    var answers := Only(name, i, BCIRC_PLUGIN_FAIL);
    OnlyAnswers(name, i, BCIRC_PLUGIN_FAIL);
    WalkUpTo(s, paused, name, args, answers, 0, i, n);
    WalkActs(s, paused, name, args, answers, i, n);
    if i < |s.live| {
      QuietWalk(Next(s, Remove(s.live[i].key)), paused, name, args, answers, i + 1, n);
    }
  }

  /**
   * One callback answers FAIL and all others OK: the loop reads outside the plugin list or
   * behind the bucket that shrank under it exactly when there is no plugin at the
   * callback's position, or that plugin listens to the event and the callback is not last.
   */
  lemma {:induction false} FailFaultsIff(ops: seq<Op>, paused: set<nat>, name: Text, args: seq<Arg>, i: nat)
    requires i < |Listeners(Run(Initial, ops).index, name)|
    ensures var s := Run(Initial, ops);
            DispatchOf(s, paused, name, args, Only(name, i, BCIRC_PLUGIN_FAIL)).end == Fault
            <==> i >= |s.live| || (i + 1 < |Listeners(s.index, name)| && ListensTo(s.live[i], name))
  {
    var s := Run(Initial, ops);
    var answers := Only(name, i, BCIRC_PLUGIN_FAIL);
    OnlyFail(s, paused, name, args, i);
    if i < |s.live| {
      RemovalShrinks(ops, name, i);
      if name != CALLBACKS_EXECUTED {
        var w := Walk(s, paused, name, args, answers, 0, |Listeners(s.index, name)|);
        QuietAnnouncement(w.s, w.paused, args + [EventName(name)], answers);
      }
    }
  }
}
