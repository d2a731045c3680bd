// Which events survive whatever their listeners answer, several STOPs and FAILs included
// (plugin_handler.c, execute_callbacks).

module DispatchFaults {
  import opened CString
  import opened PluginAnswers
  import opened CallbackSort
  import opened CallbackIndex
  import opened Dispatch
  import opened Positions

  /**
   * From position `i` on, with `n` listeners: every FAIL moves the plugins behind it one
   * place forward, so a listener at `i + j` can hit any plugin from `i + j` to `i + 2 * j`.
   * There must be one, and it must not shorten the bucket before the last listener.
   */
  ghost predicate SturdyFrom(s: State, name: Text, i: nat, n: nat) {
    i < n ==>
      && 2 * n - 1 - i <= |s.live|
      && forall k :: i <= k <= 2 * n - 4 - i && k < |s.live| ==> !ListensTo(s.live[k], name)
  }

  ghost predicate Sturdy(s: State, name: Text) {
    SturdyFrom(s, name, 0, |Listeners(s.index, name)|)
  }

  lemma {:induction false} WithoutOwnerAt(owners: seq<Owner>, i: nat)
    requires DistinctKeys(owners) && i < |owners|
    ensures WithoutOwner(owners, owners[i].key) == owners[..i] + owners[i + 1..]
  {
    if i == 0 {
      NotOwned(owners[1..], owners[0].key);
    } else {
      WithoutOwnerAt(owners[1..], i - 1);
      assert owners[..i] == [owners[0]] + owners[1..][..i - 1] && owners[1..][i..] == owners[i + 1..];
    }
  }

  /** The state after a FAIL at position `i`: its plugin is gone, and the others have moved up. */
  lemma RemovedAt(ops: seq<Op>, i: nat) returns (more: seq<Op>)
    requires i < |Run(Initial, ops).live|
    ensures var s, n := Run(Initial, ops), Run(Initial, more);
            && n == Next(s, Remove(s.live[i].key))
            && n.live == s.live[..i] + s.live[i + 1..]
  {
    var s := Run(Initial, ops);
    var key := s.live[i].key;
    hide Next, Inv;
    RunOneMore(ops, Remove(key));
    InvOfRun(ops);
    RemovedLive(s, i);
    more := ops + [Remove(key)];
  }

  lemma RemovedLive(s: State, i: nat)
    requires Inv(s) && i < |s.live|
    ensures Next(s, Remove(s.live[i].key)).live == s.live[..i] + s.live[i + 1..]
  {
    hide RemovePlugin, RemoveAll, WithoutOwner, CallbacksOf, Filed, Agreed, Accounted;
    var key := s.live[i].key;
    RemovePluginIs(s, key, s.live, []);
    WithoutOwnerAt(s.live, i);
    assert [] + WithoutOwner(s.live, key) == WithoutOwner(s.live, key);
  }

  /** A plugin that does not listen to the event leaves its bucket as long as it was. */
  lemma RemovalKeepsLength(ops: seq<Op>, name: Text, i: nat)
    requires i < |Run(Initial, ops).live| && !ListensTo(Run(Initial, ops).live[i], name)
    ensures var s := Run(Initial, ops);
            |Listeners(Next(s, Remove(s.live[i].key)).index, name)| == |Listeners(s.index, name)|
  {
    hide Next, Listeners, ListensTo;
    RemovalShrinks(ops, name, i);
    RemovalShortens(ops, name, i);
  }

  lemma RemovalShortens(ops: seq<Op>, name: Text, i: nat)
    requires i < |Run(Initial, ops).live|
    ensures var s := Run(Initial, ops);
            |Listeners(Next(s, Remove(s.live[i].key)).index, name)| <= |Listeners(s.index, name)|
  {
    var s := Run(Initial, ops);
    var key := s.live[i].key;
    var before, after := Listeners(s.index, name), Listeners(Next(s, Remove(key)).index, name);
    hide Listeners, CallbacksOf, Next, Run;
    forall c
      ensures c in after <==> c in before && c !in CallbacksOf(s.live, key)
    {
      RemovalIsExact(ops, key, name, c);
    }
    var any := Callback(0, [], 0, 0);
    RemovalIsExact(ops, key, name, any);
    IndexAgrees(ops, name, any);
    OrderedSubset(after, before);
  }

  lemma SturdyAfterFail(s: State, r: State, name: Text, i: nat, n: nat)
    requires SturdyFrom(s, name, i, n) && i + 1 < n && i < |s.live|
    requires r.live == s.live[..i] + s.live[i + 1..]
    ensures SturdyFrom(r, name, i + 1, n)
  {
    assert forall k :: i <= k < |r.live| ==> r.live[k] == s.live[k + 1];
  }

  /** A sturdy walk ends without a fault. */
  lemma {:induction false} SturdyWalks(ops: seq<Op>, paused: set<nat>, name: Text, args: seq<Arg>, answers: Answers,
                                       i: nat, n: nat)
    requires var s := Run(Initial, ops); SturdyFrom(s, name, i, n) && (i < n ==> |Listeners(s.index, name)| >= n)
    ensures Walk(Run(Initial, ops), paused, name, args, answers, i, n).end != Fault
    decreases n - i
  {
    hide Listeners, ListensTo, Run;
    var s := Run(Initial, ops);
    var answer := answers(name, i);
    if i < n && answer != BCIRC_PLUGIN_BREAK {
      if answer == BCIRC_PLUGIN_FAIL {
        var more := RemovedAt(ops, i);
        if i + 1 < n {
          SturdyAfterFail(s, Run(Initial, more), name, i, n);
          RemovalKeepsLength(ops, name, i);
        }
        SturdyWalks(more, Pausing(s, paused, i, answer), name, args, answers, i + 1, n);
      } else {
        SturdyWalks(ops, Pausing(s, paused, i, answer), name, args, answers, i + 1, n);
      }
    }
  }

  // ---- Where it is not sturdy, some answers make it fault ----

  /** The same answers, but for one. */
  function But(answers: Answers, name: Text, i: nat, answer: int): Answers {
    (other: Text, j: nat) => if other == name && j == i then answer else answers(other, j)
  }

  lemma ButIs(answers: Answers, name: Text, i: nat, answer: int)
    ensures But(answers, name, i, answer)(name, i) == answer
    ensures forall other: Text, j: nat :: other != name || j != i ==>
              But(answers, name, i, answer)(other, j) == answers(other, j)
  {
  }

  lemma {:induction false} WalkSees(s: State, paused: set<nat>, name: Text, args: seq<Arg>, a: Answers, b: Answers,
                                    i: nat, n: nat)
    requires forall j: nat :: j >= i ==> a(name, j) == b(name, j)
    ensures Walk(s, paused, name, args, a, i, n) == Walk(s, paused, name, args, b, i, n)
    decreases n - i
  {
    var answer := a(name, i);
    if i < n && (ActsOnPlugin(answer) ==> i < |s.live|) {
      WalkSees(Acted(s, i, answer), Pausing(s, paused, i, answer), name, args, a, b, i + 1, n);
    }
  }

  /** One more answer in front of a walk that faults. */
  lemma FaultsLater(s: State, paused: set<nat>, name: Text, args: seq<Arg>, later: Answers, i: nat, n: nat, answer: int)
    returns (answers: Answers)
    requires i < n && i < |Listeners(s.index, name)| && (answer == BCIRC_PLUGIN_OK || answer == BCIRC_PLUGIN_FAIL)
    requires answer == BCIRC_PLUGIN_FAIL ==> i < |s.live|
    requires Walk(Acted(s, i, answer), paused, name, args, later, i + 1, n).end == Fault
    ensures Walk(s, paused, name, args, answers, i, n).end == Fault
  {
    hide But;
    answers := But(later, name, i, answer);
    ButIs(later, name, i, answer);
    WalkSees(Acted(s, i, answer), paused, name, args, answers, later, i + 1, n);
  }

  /** STOP with no plugin at the position. */
  lemma StopFaults(s: State, paused: set<nat>, name: Text, args: seq<Arg>, i: nat, n: nat) returns (answers: Answers)
    requires i < n && i < |Listeners(s.index, name)| && i >= |s.live|
    ensures Walk(s, paused, name, args, answers, i, n).end == Fault
  {
    answers := Only(name, i, BCIRC_PLUGIN_STOP);
    OnlyAnswers(name, i, BCIRC_PLUGIN_STOP);
  }

  /** FAIL where the plugin listens to the event and the callback is not the last. */
  lemma FailFaults(ops: seq<Op>, paused: set<nat>, name: Text, args: seq<Arg>, i: nat, n: nat)
    returns (answers: Answers)
    requires var s := Run(Initial, ops);
             i + 1 < n == |Listeners(s.index, name)| && i < |s.live| && ListensTo(s.live[i], name)
    ensures Walk(Run(Initial, ops), paused, name, args, answers, i, n).end == Fault
  {
    hide Only, Listeners, ListensTo, Run, Next;
    var s := Run(Initial, ops);
    answers := Only(name, i, BCIRC_PLUGIN_FAIL);
    OnlyAnswers(name, i, BCIRC_PLUGIN_FAIL);
    RemovalShrinks(ops, name, i);
    QuietWalk(Next(s, Remove(s.live[i].key)), paused, name, args, answers, i + 1, n);
  }

  lemma NotSturdyAfterFail(s: State, r: State, name: Text, i: nat, n: nat)
    requires !SturdyFrom(s, name, i, n) && i < |s.live| && !ListensTo(s.live[i], name)
    requires r.live == s.live[..i] + s.live[i + 1..]
    ensures i + 1 < n
    ensures SturdyFrom(r, name, i + 1, n) ==> !SturdyFrom(s, name, i + 1, n)
  {
    assert forall k :: i < k < |s.live| ==> s.live[k] == r.live[k - 1];
  }

  lemma {:induction false} NotSturdyFaults(ops: seq<Op>, paused: set<nat>, name: Text, args: seq<Arg>, i: nat, n: nat)
    returns (answers: Answers)
    requires var s := Run(Initial, ops); !SturdyFrom(s, name, i, n) && n == |Listeners(s.index, name)|
    ensures Walk(Run(Initial, ops), paused, name, args, answers, i, n).end == Fault
    decreases n - i
  {
    hide Listeners, ListensTo, Run, Walk;
    var s := Run(Initial, ops);
    if i >= |s.live| {
      answers := StopFaults(s, paused, name, args, i, n);
    } else if i + 1 < n && ListensTo(s.live[i], name) {
      answers := FailFaults(ops, paused, name, args, i, n);
    } else {
      var more := RemovedAt(ops, i);
      NotSturdyAfterFail(s, Run(Initial, more), name, i, n);
      if SturdyFrom(Run(Initial, more), name, i + 1, n) {
        var later := NotSturdyFaults(ops, paused, name, args, i + 1, n);
        answers := FaultsLater(s, paused, name, args, later, i, n, BCIRC_PLUGIN_OK);
      } else {
        RemovalKeepsLength(ops, name, i);
        var later := NotSturdyFaults(more, paused, name, args, i + 1, n);
        answers := FaultsLater(s, paused, name, args, later, i, n, BCIRC_PLUGIN_FAIL);
      }
    }
  }

  /**
   * No answers at all make the loop over an event's n listeners fault exactly when there
   * are none, or there are 2n - 1 plugins of which the first 2n - 3 do not listen to it.
   */
  lemma {:induction false} WalkNeverFaultsIff(ops: seq<Op>, paused: set<nat>, name: Text, args: seq<Arg>)
    ensures var s := Run(Initial, ops);
            var n := |Listeners(s.index, name)|;
            (forall answers: Answers :: Walk(s, paused, name, args, answers, 0, n).end != Fault)
            <==> n == 0 || (2 * n - 1 <= |s.live| && forall k :: 0 <= k < 2 * n - 3 ==> !ListensTo(s.live[k], name))
  {
    var s := Run(Initial, ops);
    var n := |Listeners(s.index, name)|;
    assert Sturdy(s, name) <==>
           n == 0 || (2 * n - 1 <= |s.live| && forall k :: 0 <= k < 2 * n - 3 ==> !ListensTo(s.live[k], name));
    hide Walk, Run, Listeners;
    if Sturdy(s, name) {
      forall answers: Answers
        ensures Walk(s, paused, name, args, answers, 0, n).end != Fault
      {
        SturdyWalks(ops, paused, name, args, answers, 0, n);
      }
    } else {
      var answers := NotSturdyFaults(ops, paused, name, args, 0, n);
    }
  }

  // ---- With the announcement ----

  /** `own` for the event, `last` for the announcement. */
  function Both(own: Answers, last: Answers): Answers {
    (name: Text, j: nat) => if name == CALLBACKS_EXECUTED then last(name, j) else own(name, j)
  }

  lemma BothAre(own: Answers, last: Answers)
    ensures forall name: Text, j: nat :: name != CALLBACKS_EXECUTED ==> Both(own, last)(name, j) == own(name, j)
    ensures forall j: nat :: Both(own, last)(CALLBACKS_EXECUTED, j) == last(CALLBACKS_EXECUTED, j)
  {
  }

  /** Whatever the event's own listeners answer, the announcement that follows is sturdy. */
  ghost predicate StaysSturdy(s: State, name: Text, args: seq<Arg>) {
    forall answers: Answers ::
      var w := Walk(s, {}, name, args, answers, 0, |Listeners(s.index, name)|);
      w.end == Through ==> Sturdy(w.s, CALLBACKS_EXECUTED)
  }

  lemma SturdyDispatch(ops: seq<Op>, name: Text, args: seq<Arg>, answers: Answers)
    requires var s := Run(Initial, ops); Sturdy(s, name) && (MayAnnounce(s, name) ==> StaysSturdy(s, name, args))
    ensures DispatchOf(Run(Initial, ops), {}, name, args, answers).end != Fault
  {
    hide Run, Listeners, Walk, SturdyFrom;
    var s := Run(Initial, ops);
    var n := |Listeners(s.index, name)|;
    SturdyWalks(ops, {}, name, args, answers, 0, n);
    var w := Walk(s, {}, name, args, answers, 0, n);
    if w.end == Through && MayAnnounce(s, name) {
      var more := WalkIsRun(ops, {}, name, args, answers, 0, n);
      SturdyAnnouncement(ops + more, w.paused, args + [EventName(name)], answers);
    }
  }

  lemma SturdyAnnouncement(ops: seq<Op>, paused: set<nat>, args: seq<Arg>, answers: Answers)
    requires Sturdy(Run(Initial, ops), CALLBACKS_EXECUTED)
    ensures DispatchOf(Run(Initial, ops), paused, CALLBACKS_EXECUTED, args, answers).end != Fault
  {
    hide Run, Listeners, Walk, SturdyFrom;
    var n := |Listeners(Run(Initial, ops).index, CALLBACKS_EXECUTED)|;
    SturdyWalks(ops, paused, CALLBACKS_EXECUTED, args, answers, 0, n);
  }

  lemma NotSturdyDispatch(ops: seq<Op>, name: Text, args: seq<Arg>) returns (answers: Answers)
    requires !Sturdy(Run(Initial, ops), name)
    ensures DispatchOf(Run(Initial, ops), {}, name, args, answers).end == Fault
  {
    var s := Run(Initial, ops);
    assert GetCbIndex(s.index, name) != -1;
    hide Run, Walk;
    answers := NotSturdyFaults(ops, {}, name, args, 0, |Listeners(s.index, name)|);
  }

  lemma NotSturdyLater(ops: seq<Op>, name: Text, args: seq<Arg>) returns (answers: Answers)
    requires MayAnnounce(Run(Initial, ops), name) && !StaysSturdy(Run(Initial, ops), name, args)
    ensures DispatchOf(Run(Initial, ops), {}, name, args, answers).end == Fault
  {
    hide Run, Listeners, Walk, Both, SturdyFrom, Sturdy, DispatchOf;
    var s := Run(Initial, ops);
    var n := |Listeners(s.index, name)|;
    var own: Answers :|
      var w := Walk(s, {}, name, args, own, 0, n);
      w.end == Through && !Sturdy(w.s, CALLBACKS_EXECUTED);
    var w := Walk(s, {}, name, args, own, 0, n);
    var more := WalkIsRun(ops, {}, name, args, own, 0, n);
    var last := AnnouncementFaults(ops + more, w.paused, args + [EventName(name)]);
    answers := Both(own, last);
    BothAre(own, last);
    WalkSees(s, {}, name, args, answers, own, 0, n);
    AnnouncementSees(w.s, w.paused, args + [EventName(name)], answers, last);
    DispatchEnds(s, {}, name, args, answers);
  }

  lemma AnnouncementFaults(ops: seq<Op>, paused: set<nat>, args: seq<Arg>) returns (last: Answers)
    requires !Sturdy(Run(Initial, ops), CALLBACKS_EXECUTED)
    ensures DispatchOf(Run(Initial, ops), paused, CALLBACKS_EXECUTED, args, last).end == Fault
  {
    var s := Run(Initial, ops);
    assert GetCbIndex(s.index, CALLBACKS_EXECUTED) != -1;
    hide Run, Walk;
    last := NotSturdyFaults(ops, paused, CALLBACKS_EXECUTED, args, 0, |Listeners(s.index, CALLBACKS_EXECUTED)|);
  }

  lemma AnnouncementSees(s: State, paused: set<nat>, args: seq<Arg>, a: Answers, b: Answers)
    requires forall j: nat :: a(CALLBACKS_EXECUTED, j) == b(CALLBACKS_EXECUTED, j)
    ensures DispatchOf(s, paused, CALLBACKS_EXECUTED, args, a) == DispatchOf(s, paused, CALLBACKS_EXECUTED, args, b)
  {
    WalkSees(s, paused, CALLBACKS_EXECUTED, args, a, b, 0, |Listeners(s.index, CALLBACKS_EXECUTED)|);
  }

  lemma DispatchEnds(s: State, paused: set<nat>, name: Text, args: seq<Arg>, answers: Answers)
    requires MayAnnounce(s, name)
    ensures var w := Walk(s, paused, name, args, answers, 0, |Listeners(s.index, name)|);
            var a := DispatchOf(w.s, w.paused, CALLBACKS_EXECUTED, args + [EventName(name)], answers);
            w.end == Through && a.end == Fault ==> DispatchOf(s, paused, name, args, answers).end == Fault
  {
    hide Walk;
  }

  /**
   * No answers at all make a dispatch fault exactly when the event is sturdy, and its
   * announcement is in every state the event's own listeners can leave behind.
   */
  lemma {:induction false} DispatchNeverFaultsIff(ops: seq<Op>, name: Text, args: seq<Arg>)
    ensures var s := Run(Initial, ops);
            (forall answers: Answers :: DispatchOf(s, {}, name, args, answers).end != Fault)
            <==> Sturdy(s, name) && (MayAnnounce(s, name) ==> StaysSturdy(s, name, args))
  {
    hide Run, DispatchOf, Sturdy, StaysSturdy;
    var s := Run(Initial, ops);
    if !Sturdy(s, name) {
      var answers := NotSturdyDispatch(ops, name, args);
    } else if MayAnnounce(s, name) && !StaysSturdy(s, name, args) {
      var answers := NotSturdyLater(ops, name, args);
    } else {
      forall answers: Answers
        ensures DispatchOf(s, {}, name, args, answers).end != Fault
      {
        SturdyDispatch(ops, name, args, answers);
      }
    }
  }
}
