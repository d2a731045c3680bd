// What a dispatch does whatever its listeners answer, FAIL included: who is called with
// what, whom each answer hits, and what is announced (plugin_handler.c).

module DispatchAnswers {
  import opened CString
  import opened PluginAnswers
  import opened CallbackSort
  import opened CallbackIndex
  import opened Dispatch
  import opened Positions
  import opened DispatchFaults

  function FailsIn(calls: seq<Call>): nat {
    if calls == [] then 0 else (if calls[0].answer == BCIRC_PLUGIN_FAIL then 1 else 0) + FailsIn(calls[1..])
  }

  predicate HasBreak(calls: seq<Call>) {
    exists k :: 0 <= k < |calls| && calls[k].answer == BCIRC_PLUGIN_BREAK
  }

  /** Calls of one event from position `i` on: the same arguments for all, and the answers of their positions. */
  ghost predicate Answering(calls: seq<Call>, name: Text, args: seq<Arg>, answers: Answers, i: nat) {
    forall k :: 0 <= k < |calls| ==> calls[k].args == args && calls[k].answer == answers(name, i + k)
  }

  ghost predicate StandsFrom(c: Callback, listeners: seq<Callback>, i: nat) {
    exists q :: i <= q < |listeners| && listeners[q] == c
  }

  /** The k-th call is to a listener that stands at position `i + k` or behind it. */
  ghost predicate CallsFrom(calls: seq<Call>, listeners: seq<Callback>, i: nat) {
    forall k :: 0 <= k < |calls| ==> StandsFrom(calls[k].callback, listeners, i + k)
  }

  ghost predicate InOrder(calls: seq<Call>) {
    forall k, l :: 0 <= k < l < |calls| ==> Before(calls[k].callback, calls[l].callback)
  }

  /** In an ordered list nothing moves back when others leave. */
  lemma {:induction false} SubsetIndex(a: seq<Callback>, b: seq<Callback>, m: nat)
    requires Ordered(a) && Ordered(b) && m < |a| && forall c :: c in a ==> c in b
    ensures exists q :: m <= q < |b| && b[q] == a[m]
    decreases |b|
  {
    assert a[0] in b;
    if a[0] == b[0] {
      if m > 0 {
        assert forall c :: c in a[1..] ==> c in a && c != a[0];
        SubsetIndex(a[1..], b[1..], m - 1);
        var q :| m - 1 <= q < |b[1..]| && b[1..][q] == a[1..][m - 1];
        assert b[q + 1] == a[m];
      }
    } else {
      assert b[0] !in a;
      SubsetIndex(a, b[1..], m);
      var q :| m <= q < |b[1..]| && b[1..][q] == a[m];
      assert b[q + 1] == a[m];
    }
  }

  /** A removal only takes listeners away. */
  lemma RemovedListeners(ops: seq<Op>, name: Text, key: nat)
    ensures var before, after := Listeners(Run(Initial, ops).index, name),
                                 Listeners(Next(Run(Initial, ops), Remove(key)).index, name);
            Ordered(before) && Ordered(after) && forall c :: c in after ==> c in before
  {
    hide Next, Listeners, CallbacksOf;
    var s := Run(Initial, ops);
    var before, after := Listeners(s.index, name), Listeners(Next(s, Remove(key)).index, name);
    forall c
      ensures c in after ==> c in before
    {
      RemovalIsExact(ops, key, name, c);
    }
    var any := Callback(0, [], 0, 0);
    RemovalIsExact(ops, key, name, any);
    IndexAgrees(ops, name, any);
  }

  lemma CallsFromMore(calls: seq<Call>, before: seq<Callback>, after: seq<Callback>, i: nat)
    requires Ordered(before) && Ordered(after) && (forall c :: c in after ==> c in before)
    requires CallsFrom(calls, after, i)
    ensures CallsFrom(calls, before, i)
  {
    forall k | 0 <= k < |calls|
      ensures StandsFrom(calls[k].callback, before, i + k)
    {
      assert StandsFrom(calls[k].callback, after, i + k);
      var m :| i + k <= m < |after| && after[m] == calls[k].callback;
      SubsetIndex(after, before, m);
    }
  }

  lemma CallsFromOne(call: Call, rest: seq<Call>, listeners: seq<Callback>, i: nat)
    requires Ordered(listeners) && i < |listeners| && call.callback == listeners[i]
    requires CallsFrom(rest, listeners, i + 1) && InOrder(rest)
    ensures CallsFrom([call] + rest, listeners, i) && InOrder([call] + rest)
  {
    var calls := [call] + rest;
    forall k | 0 <= k < |calls|
      ensures StandsFrom(calls[k].callback, listeners, i + k)
      ensures k > 0 ==> Before(call.callback, calls[k].callback)
    {
      if k > 0 {
        assert StandsFrom(rest[k - 1].callback, listeners, i + 1 + (k - 1));
        var q :| i + k <= q < |listeners| && listeners[q] == rest[k - 1].callback;
      }
    }
  }

  /** What is called and how the walk ends. */
  ghost predicate WalksAll(s: State, name: Text, args: seq<Arg>, answers: Answers, i: nat, n: nat, w: Walked) {
    && Answering(w.calls, name, args, answers, i)
    && CallsFrom(w.calls, Listeners(s.index, name), i) && InOrder(w.calls)
    && (w.end == Broken <==> HasBreak(w.calls))
    && (w.end == Broken ==> w.calls[|w.calls| - 1].answer == BCIRC_PLUGIN_BREAK)
    && (w.end == Through && i <= n ==> |w.calls| == n - i)
    && (w.end != Fault ==> |w.s.live| + FailsIn(w.calls) == |s.live|)
  }

  lemma WalkEndsHere(s: State, paused: set<nat>, name: Text, args: seq<Arg>, answers: Answers, i: nat, n: nat)
    requires Ordered(Listeners(s.index, name))
    requires i >= n || i >= |Listeners(s.index, name)| || answers(name, i) == BCIRC_PLUGIN_BREAK
             || (ActsOnPlugin(answers(name, i)) && i >= |s.live|)
    ensures WalksAll(s, name, args, answers, i, n, Walk(s, paused, name, args, answers, i, n))
  {
    var w := Walk(s, paused, name, args, answers, i, n);
    if w.calls != [] {
      assert w.calls[1..] == [];
      assert w.calls[0].callback == Listeners(s.index, name)[i];
      assert w.end == Broken ==> HasBreak(w.calls);
    }
  }

  lemma AnsweringMore(call: Call, rest: seq<Call>, name: Text, args: seq<Arg>, answers: Answers, i: nat)
    requires Answering(rest, name, args, answers, i + 1) && call.args == args && call.answer == answers(name, i)
    ensures Answering([call] + rest, name, args, answers, i)
  {
    forall k | 0 < k < |[call] + rest|
      ensures ([call] + rest)[k].args == args && ([call] + rest)[k].answer == answers(name, i + k)
    {
      assert ([call] + rest)[k] == rest[k - 1];
    }
  }

  lemma BreakOfMore(call: Call, rest: seq<Call>)
    ensures HasBreak([call] + rest) <==> call.answer == BCIRC_PLUGIN_BREAK || HasBreak(rest)
  {
    var calls := [call] + rest;
    assert calls[0] == call;
    assert forall k :: 0 <= k < |rest| ==> calls[k + 1] == rest[k];
    assert forall k :: 0 < k < |calls| ==> calls[k] == rest[k - 1];
  }

  lemma BreakIsSomewhere(calls: seq<Call>)
    requires HasBreak(calls)
    ensures calls != []
  {
  }

  lemma LastOfMore(call: Call, rest: seq<Call>)
    requires rest != []
    ensures ([call] + rest)[|[call] + rest| - 1] == rest[|rest| - 1]
  {
  }

  lemma FailsOfMore(call: Call, rest: seq<Call>)
    ensures FailsIn([call] + rest) == (if call.answer == BCIRC_PLUGIN_FAIL then 1 else 0) + FailsIn(rest)
  {
    assert ([call] + rest)[1..] == rest;
  }

  /** One call in front of a walk. */
  lemma GoesOn(s: State, n': State, call: Call, name: Text, args: seq<Arg>, answers: Answers, i: nat, n: nat,
               rest: Walked)
    requires i < n && i < |Listeners(s.index, name)| && answers(name, i) != BCIRC_PLUGIN_BREAK
    requires call == Call(Listeners(s.index, name)[i], args, answers(name, i))
    requires var before, after := Listeners(s.index, name), Listeners(n'.index, name);
             Ordered(before) && Ordered(after) && forall c :: c in after ==> c in before
    requires |n'.live| + (if answers(name, i) == BCIRC_PLUGIN_FAIL then 1 else 0) == |s.live|
    requires WalksAll(n', name, args, answers, i + 1, n, rest)
    ensures WalksAll(s, name, args, answers, i, n, rest.(calls := [call] + rest.calls))
  {
    var listeners := Listeners(s.index, name);
    CallsFromMore(rest.calls, listeners, Listeners(n'.index, name), i + 1);
    CallsFromOne(call, rest.calls, listeners, i);
    AnsweringMore(call, rest.calls, name, args, answers, i);
    BreakOfMore(call, rest.calls);
    FailsOfMore(call, rest.calls);
    if rest.end == Broken {
      BreakIsSomewhere(rest.calls);
      LastOfMore(call, rest.calls);
    }
    hide Listeners, CallsFrom, InOrder, Answering, FailsIn, HasBreak, Ordered;
  }

  lemma WalkGoesOn(s: State, n': State, paused: set<nat>, name: Text, args: seq<Arg>, answers: Answers, i: nat, n: nat)
    requires i < n && i < |Listeners(s.index, name)| && answers(name, i) != BCIRC_PLUGIN_BREAK
    requires ActsOnPlugin(answers(name, i)) ==> i < |s.live|
    requires n' == Acted(s, i, answers(name, i))
    requires var before, after := Listeners(s.index, name), Listeners(n'.index, name);
             Ordered(before) && Ordered(after) && forall c :: c in after ==> c in before
    requires |n'.live| + (if answers(name, i) == BCIRC_PLUGIN_FAIL then 1 else 0) == |s.live|
    requires WalksAll(n', name, args, answers, i + 1, n,
                      Walk(n', Pausing(s, paused, i, answers(name, i)), name, args, answers, i + 1, n))
    ensures WalksAll(s, name, args, answers, i, n, Walk(s, paused, name, args, answers, i, n))
  {
    hide WalksAll, Listeners, Acted, Ordered, Pausing;
    var call := Call(Listeners(s.index, name)[i], args, answers(name, i));
    var rest := Walk(n', Pausing(s, paused, i, answers(name, i)), name, args, answers, i + 1, n);
    GoesOn(s, n', call, name, args, answers, i, n, rest);
  }

  lemma {:induction false} WalkCalls(ops: seq<Op>, paused: set<nat>, name: Text, args: seq<Arg>, answers: Answers,
                                     i: nat, n: nat)
    ensures var s := Run(Initial, ops);
            WalksAll(s, name, args, answers, i, n, Walk(s, paused, name, args, answers, i, n))
    decreases n - i
  {
    hide Run, Listeners, Walk, WalksAll, Next, Acted;
    var s := Run(Initial, ops);
    var answer := answers(name, i);
    IndexAgrees(ops, name, Callback(0, [], 0, 0));
    if i >= n || i >= |Listeners(s.index, name)| || answer == BCIRC_PLUGIN_BREAK
       || (ActsOnPlugin(answer) && i >= |s.live|) {
      WalkEndsHere(s, paused, name, args, answers, i, n);
    } else if answer == BCIRC_PLUGIN_FAIL {
      var more := RemovedAt(ops, i);
      RemovedListeners(ops, name, s.live[i].key);
      ActedIs(s, i, answer);
      WalkCalls(more, Pausing(s, paused, i, answer), name, args, answers, i + 1, n);
      WalkGoesOn(s, Run(Initial, more), paused, name, args, answers, i, n);
    } else {
      ActedIs(s, i, answer);
      WalkCalls(ops, Pausing(s, paused, i, answer), name, args, answers, i + 1, n);
      WalkGoesOn(s, s, paused, name, args, answers, i, n);
    }
  }

  lemma ActedIs(s: State, i: nat, answer: int)
    requires ActsOnPlugin(answer) ==> i < |s.live|
    ensures Acted(s, i, answer) == if answer == BCIRC_PLUGIN_FAIL then Next(s, Remove(s.live[i].key)) else s
  {
  }

  // ---- A whole dispatch ----

  /** The announcement's calls: its own listeners, with the event's name behind the arguments. */
  ghost predicate Announcement(s: State, name: Text, args: seq<Arg>, answers: Answers, calls: seq<Call>, end: End) {
    var more := args + [EventName(name)];
    && Answering(calls, CALLBACKS_EXECUTED, more, answers, 0)
    && CallsFrom(calls, Listeners(s.index, CALLBACKS_EXECUTED), 0) && InOrder(calls)
    && (end != Fault && !HasBreak(calls) ==> |calls| == |Listeners(s.index, CALLBACKS_EXECUTED)|)
    && (Gentle(s, CALLBACKS_EXECUTED, answers) ==> CallsListeners(s, CALLBACKS_EXECUTED, more, answers, calls))
  }

  lemma AnnouncementCalls(ops: seq<Op>, paused: set<nat>, name: Text, args: seq<Arg>, answers: Answers)
    ensures var s := Run(Initial, ops);
            var a := DispatchOf(s, paused, CALLBACKS_EXECUTED, args + [EventName(name)], answers);
            Announcement(s, name, args, answers, a.calls, a.end)
  {
    var s := Run(Initial, ops);
    var more := args + [EventName(name)];
    var n := |Listeners(s.index, CALLBACKS_EXECUTED)|;
    var a := DispatchOf(s, paused, CALLBACKS_EXECUTED, more, answers);
    WalkCalls(ops, paused, CALLBACKS_EXECUTED, more, answers, 0, n);
    InvOfRun(ops);
    assert a.calls == Walk(s, paused, CALLBACKS_EXECUTED, more, answers, 0, n).calls;
    assert a.end == Walk(s, paused, CALLBACKS_EXECUTED, more, answers, 0, n).end;
    if Gentle(s, CALLBACKS_EXECUTED, answers) {
      WalkIsOrdered(s, paused, CALLBACKS_EXECUTED, more, answers);
    }
  }

  /**
   * For all answers: a dispatch first calls listeners of the event, each with exactly its
   * arguments. If the event is in the index, is not the announcement and its own calls
   * ended neither at a BREAK nor in a fault, the listeners that the FAILs have left to the
   * announcement are called, with the event's name behind the arguments; otherwise nobody
   * is. It answers FAIL exactly for a BREAK among the event's own calls.
   */
  lemma {:induction false} DispatchCalls(ops: seq<Op>, paused: set<nat>, name: Text, args: seq<Arg>, answers: Answers)
    returns (own: Walked, announced: seq<Call>)
    ensures var s := Run(Initial, ops);
            var n := |Listeners(s.index, name)|;
            var w := DispatchOf(s, paused, name, args, answers);
            && own == Walk(s, paused, name, args, answers, 0, n)
            && w.calls == own.calls + announced
            && WalksAll(s, name, args, answers, 0, n, own)
            && (if MayAnnounce(s, name) && own.end == Through
                then Announcement(own.s, name, args, answers, announced, w.end)
                else announced == [] && w.end == own.end)
            && (own.end == Fault ==> w.end == Fault)
            && (w.end != Fault ==> (Result(w.end) == BCIRC_PLUGIN_FAIL <==> HasBreak(own.calls)))
  {
    var s := Run(Initial, ops);
    var n := |Listeners(s.index, name)|;
    own, announced := Walk(s, paused, name, args, answers, 0, n), [];
    WalkCalls(ops, paused, name, args, answers, 0, n);
    hide Run, WalksAll, Walk, Listeners, Announcement;
    if MayAnnounce(s, name) && own.end == Through {
      var more := WalkIsRun(ops, paused, name, args, answers, 0, n);
      AnnouncementCalls(ops + more, own.paused, name, args, answers);
      announced := DispatchOf(own.s, own.paused, CALLBACKS_EXECUTED, args + [EventName(name)], answers).calls;
      DispatchAnnounces(s, paused, name, args, answers);
    } else {
      DispatchStops(s, paused, name, args, answers);
    }
    EndHasBreak(s, name, args, answers, n, own);
  }

  lemma EndHasBreak(s: State, name: Text, args: seq<Arg>, answers: Answers, n: nat, w: Walked)
    requires WalksAll(s, name, args, answers, 0, n, w)
    ensures w.end == Broken <==> HasBreak(w.calls)
  {
  }

  lemma DispatchAnnounces(s: State, paused: set<nat>, name: Text, args: seq<Arg>, answers: Answers)
    requires MayAnnounce(s, name)
    requires Walk(s, paused, name, args, answers, 0, |Listeners(s.index, name)|).end == Through
    ensures var own := Walk(s, paused, name, args, answers, 0, |Listeners(s.index, name)|);
            var a := DispatchOf(own.s, own.paused, CALLBACKS_EXECUTED, args + [EventName(name)], answers);
            var w := DispatchOf(s, paused, name, args, answers);
            w.calls == own.calls + a.calls && w.end == if a.end == Fault then Fault else Through
  {
    hide Walk;
  }

  lemma DispatchStops(s: State, paused: set<nat>, name: Text, args: seq<Arg>, answers: Answers)
    requires !MayAnnounce(s, name) || Walk(s, paused, name, args, answers, 0, |Listeners(s.index, name)|).end != Through
    ensures var own := Walk(s, paused, name, args, answers, 0, |Listeners(s.index, name)|);
            var w := DispatchOf(s, paused, name, args, answers);
            w.calls == own.calls && w.end == own.end
  {
  }

  // ---- Whom an answer hits ----

  /**
   * The call `k` of a walk from `i` on goes to position `i + k` of the bucket in state `t`,
   * which the FAILs before it left; STOP then pauses, and FAIL removes for good, the plugin
   * at that position of the plugin list in `t`.
   */
  ghost predicate Hits(plugins: nat, t: State, name: Text, w: Walked, i: nat, k: nat)
    requires k < |w.calls|
  {
    && |t.live| + FailsIn(w.calls[..k]) == plugins
    && i + k < |Listeners(t.index, name)| && w.calls[k].callback == Listeners(t.index, name)[i + k]
    && (w.calls[k].answer == BCIRC_PLUGIN_STOP && i + k < |t.live| ==> t.live[i + k].key in w.paused)
    && (w.calls[k].answer == BCIRC_PLUGIN_FAIL && i + k < |t.live| ==> Gone(w.s.live, t.live[i + k].key))
  }

  lemma HitsMore(plugins: nat, fails: nat, t: State, name: Text, call: Call, rest: Walked, i: nat, k: nat)
    requires k < |rest.calls| && Hits(plugins, t, name, rest, i + 1, k)
    requires fails == if call.answer == BCIRC_PLUGIN_FAIL then 1 else 0
    ensures Hits(plugins + fails, t, name, rest.(calls := [call] + rest.calls), i, k + 1)
  {
    var calls := [call] + rest.calls;
    assert calls[..k + 1] == [call] + rest.calls[..k] && calls[k + 1] == rest.calls[k];
    FailsOfMore(call, rest.calls[..k]);
    hide Listeners, FailsIn, Gone;
  }

  lemma {:induction false} AnswerHits(ops: seq<Op>, paused: set<nat>, name: Text, args: seq<Arg>, answers: Answers,
                                      i: nat, n: nat, k: nat) returns (more: seq<Op>)
    requires k < |Walk(Run(Initial, ops), paused, name, args, answers, i, n).calls|
    ensures var w := Walk(Run(Initial, ops), paused, name, args, answers, i, n);
            Hits(|Run(Initial, ops).live|, Run(Initial, more), name, w, i, k)
    decreases n - i
  {
    var s := Run(Initial, ops);
    var answer := answers(name, i);
    if k == 0 {
      FirstAnswerHits(ops, paused, name, args, answers, i, n);
      return ops;
    }
    WalkTail(s, paused, name, args, answers, i, n);
    RemoverIs(ops, i, answer);
    hide Run, Walk, Acted, Pausing, Listeners, Hits;
    var call := Call(Listeners(s.index, name)[i], args, answer);
    var next := if answer == BCIRC_PLUGIN_FAIL then Remover(ops, i) else ops;
    var rest := Walk(Acted(s, i, answer), Pausing(s, paused, i, answer), name, args, answers, i + 1, n);
    more := AnswerHits(next, Pausing(s, paused, i, answer), name, args, answers, i + 1, n, k - 1);
    HitsMore(|Run(Initial, next).live|, if answer == BCIRC_PLUGIN_FAIL then 1 else 0, Run(Initial, more), name, call,
             rest, i, k - 1);
  }

  /** A walk that makes a second call. */
  lemma WalkTail(s: State, paused: set<nat>, name: Text, args: seq<Arg>, answers: Answers, i: nat, n: nat)
    requires |Walk(s, paused, name, args, answers, i, n).calls| > 1
    ensures i < n && i < |Listeners(s.index, name)| && (ActsOnPlugin(answers(name, i)) ==> i < |s.live|)
    ensures var answer := answers(name, i);
            var rest := Walk(Acted(s, i, answer), Pausing(s, paused, i, answer), name, args, answers, i + 1, n);
            Walk(s, paused, name, args, answers, i, n)
              == rest.(calls := [Call(Listeners(s.index, name)[i], args, answer)] + rest.calls)
  {
    hide Acted, Listeners;
  }

  function Remover(ops: seq<Op>, i: nat): seq<Op>
    requires i < |Run(Initial, ops).live|
  {
    ops + [Remove(Run(Initial, ops).live[i].key)]
  }

  lemma RemoverIs(ops: seq<Op>, i: nat, answer: int)
    requires ActsOnPlugin(answer) ==> i < |Run(Initial, ops).live|
    ensures var s := Run(Initial, ops);
            var next := if answer == BCIRC_PLUGIN_FAIL then Remover(ops, i) else ops;
            && Run(Initial, next) == Acted(s, i, answer)
            && |Run(Initial, next).live| + (if answer == BCIRC_PLUGIN_FAIL then 1 else 0) == |s.live|
  {
    if answer == BCIRC_PLUGIN_FAIL {
      var s := Run(Initial, ops);
      RunOneMore(ops, Remove(s.live[i].key));
      InvOfRun(ops);
      hide Next, Run, Inv;
      RemovedLive(s, i);
    }
  }

  lemma FirstAnswerHits(ops: seq<Op>, paused: set<nat>, name: Text, args: seq<Arg>, answers: Answers, i: nat, n: nat)
    requires Walk(Run(Initial, ops), paused, name, args, answers, i, n).calls != []
    ensures var w := Walk(Run(Initial, ops), paused, name, args, answers, i, n);
            Hits(|Run(Initial, ops).live|, Run(Initial, ops), name, w, i, 0)
  {
    var s := Run(Initial, ops);
    var answer := answers(name, i);
    var w := Walk(s, paused, name, args, answers, i, n);
    assert w.calls[..0] == [];
    if answer == BCIRC_PLUGIN_STOP && i < |s.live| {
      WalkPausesMore(s, Pausing(s, paused, i, answer), name, args, answers, i + 1, n);
    } else if answer == BCIRC_PLUGIN_FAIL && i < |s.live| {
      RemoverIs(ops, i, answer);
      KeyIsGone(ops, i);
      StaysGone(Remover(ops, i), paused, name, args, answers, i + 1, n, s.live[i].key);
    }
  }

  ghost predicate Gone(live: seq<Owner>, key: nat) {
    forall j :: 0 <= j < |live| ==> live[j].key != key
  }

  lemma KeyIsGone(ops: seq<Op>, i: nat)
    requires i < |Run(Initial, ops).live|
    ensures Gone(Run(Initial, Remover(ops, i)).live, Run(Initial, ops).live[i].key)
  {
    var s := Run(Initial, ops);
    RunOneMore(ops, Remove(s.live[i].key));
    InvOfRun(ops);
    hide Next, Run;
    RemovedLive(s, i);
  }

  lemma {:induction false} StaysGone(ops: seq<Op>, paused: set<nat>, name: Text, args: seq<Arg>, answers: Answers,
                                     i: nat, n: nat, key: nat)
    requires Gone(Run(Initial, ops).live, key)
    ensures Gone(Walk(Run(Initial, ops), paused, name, args, answers, i, n).s.live, key)
    decreases n - i
  {
    var s := Run(Initial, ops);
    var answer := answers(name, i);
    if i < n && i < |Listeners(s.index, name)| && answer != BCIRC_PLUGIN_BREAK
       && (ActsOnPlugin(answer) ==> i < |s.live|) {
      RemoverIs(ops, i, answer);
      if answer == BCIRC_PLUGIN_FAIL {
        RunOneMore(ops, Remove(s.live[i].key));
        InvOfRun(ops);
        RemovedLive(s, i);
        hide Run, Next, Inv;
        StaysGone(Remover(ops, i), Pausing(s, paused, i, answer), name, args, answers, i + 1, n, key);
      } else {
        StaysGone(ops, Pausing(s, paused, i, answer), name, args, answers, i + 1, n, key);
      }
    }
  }
}
