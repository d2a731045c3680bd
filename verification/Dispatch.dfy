// What execute_callbacks does with an event (plugin_handler.c): walk the listeners
// until one says BREAK, then announce that they have run. STOP and FAIL act on the
// plugin list at the position of the callback in its bucket.

module Dispatch {
  import opened CString
  import opened PluginAnswers
  import opened CallbackSort
  import opened CallbackIndex

  /** "callback_callbacks_executed" */
  const CALLBACKS_EXECUTED: Text :=
    [99, 97, 108, 108, 98, 97, 99, 107, 95, 99, 97, 108, 108, 98, 97, 99, 107, 115, 95,
     101, 120, 101, 99, 117, 116, 101, 100]

  /** An argument: a pointer passed through, or the event name appended at the end. */
  datatype Arg = Pointer(p: nat) | EventName(name: Text)

  datatype Call = Call(callback: Callback, args: seq<Arg>, answer: int)

  /** What the callback called at each position of each event answers, during one dispatch. */
  type Answers = (Text, nat) -> int

  /** A fault is an access outside the plugin list or outside a bucket. */
  datatype End = Through | Broken | Fault

  /** The lists and the paused plugins after a walk, the calls made, and how it ended. */
  datatype Walked = Walked(s: State, paused: set<nat>, calls: seq<Call>, end: End)

  predicate ActsOnPlugin(answer: int) {
    answer == BCIRC_PLUGIN_STOP || answer == BCIRC_PLUGIN_FAIL
  }

  function Acted(s: State, i: nat, answer: int): State
    requires ActsOnPlugin(answer) ==> i < |s.live|
  {
    if answer == BCIRC_PLUGIN_FAIL then Next(s, Remove(s.live[i].key)) else s
  }

  function Pausing(s: State, paused: set<nat>, i: nat, answer: int): set<nat>
    requires ActsOnPlugin(answer) ==> i < |s.live|
  {
    if answer == BCIRC_PLUGIN_STOP then paused + {s.live[i].key} else paused
  }

  /** The loop from position `i` on; `n` is the number of listeners there were before it. */
  function Walk(s: State, paused: set<nat>, name: Text, args: seq<Arg>, answers: Answers, i: nat, n: nat): Walked
    decreases n - i
  {
    if i >= n then Walked(s, paused, [], Through)
    else if i >= |Listeners(s.index, name)| then Walked(s, paused, [], Fault)
    else
      var answer := answers(name, i);
      var call := Call(Listeners(s.index, name)[i], args, answer);
      if answer == BCIRC_PLUGIN_BREAK then Walked(s, paused, [call], Broken)
      else if ActsOnPlugin(answer) && i >= |s.live| then Walked(s, paused, [call], Fault)
      else
        var rest := Walk(Acted(s, i, answer), Pausing(s, paused, i, answer), name, args, answers, i + 1, n);
        rest.(calls := [call] + rest.calls)
  }

  /** A dispatch, nested announcement included. */
  function DispatchOf(s: State, paused: set<nat>, name: Text, args: seq<Arg>, answers: Answers): Walked
    decreases if name == CALLBACKS_EXECUTED then 0 else 1
  {
    if GetCbIndex(s.index, name) == -1 then Walked(s, paused, [], Through)
    else
      var w := Walk(s, paused, name, args, answers, 0, |Listeners(s.index, name)|);
      if w.end != Through || name == CALLBACKS_EXECUTED then w
      else
        var a := DispatchOf(w.s, w.paused, CALLBACKS_EXECUTED, args + [EventName(name)], answers);
        Walked(a.s, a.paused, w.calls + a.calls, if a.end == Fault then Fault else Through)
  }

  /** What execute_callbacks returns, if it does. */
  function Result(end: End): int {
    if end == Broken then BCIRC_PLUGIN_FAIL else BCIRC_PLUGIN_OK
  }

  // ---- What a dispatch does to the plugins is a sequence of removals ----

  ghost predicate Removals(ops: seq<Op>) {
    forall k :: 0 <= k < |ops| ==> ops[k].Remove?
  }

  lemma {:induction false} WalkIsRun(before: seq<Op>, paused: set<nat>, name: Text, args: seq<Arg>, answers: Answers,
                                     i: nat, n: nat) returns (ops: seq<Op>)
    ensures Removals(ops)
    ensures Run(Initial, before + ops) == Walk(Run(Initial, before), paused, name, args, answers, i, n).s
    decreases n - i
  {
    var s := Run(Initial, before);
    var answer := answers(name, i);
    assert before + [] == before;
    if i >= n || i >= |Listeners(s.index, name)| || answer == BCIRC_PLUGIN_BREAK
       || (ActsOnPlugin(answer) && i >= |s.live|) {
      ops := [];
    } else if answer == BCIRC_PLUGIN_FAIL {
      var op := Remove(s.live[i].key);
      RunOneMore(before, op);
      var rest := WalkIsRun(before + [op], Pausing(s, paused, i, answer), name, args, answers, i + 1, n);
      ops := [op] + rest;
      assert before + ops == before + [op] + rest;
    } else {
      ops := WalkIsRun(before, Pausing(s, paused, i, answer), name, args, answers, i + 1, n);
    }
  }

  /**
   * Whatever the callbacks answer, even FAIL, the lists after a dispatch are those after
   * some removals: what holds after any operations holds after a dispatch.
   */
  lemma DispatchIsRun(before: seq<Op>, paused: set<nat>, name: Text, args: seq<Arg>, answers: Answers)
    returns (ops: seq<Op>)
    ensures Removals(ops)
    ensures Run(Initial, before + ops) == DispatchOf(Run(Initial, before), paused, name, args, answers).s
    decreases if name == CALLBACKS_EXECUTED then 0 else 1
  {
    var s := Run(Initial, before);
    assert before + [] == before;
    if GetCbIndex(s.index, name) == -1 {
      return [];
    }
    var n := |Listeners(s.index, name)|;
    var w := Walk(s, paused, name, args, answers, 0, n);
    ops := WalkIsRun(before, paused, name, args, answers, 0, n);
    if w.end == Through && name != CALLBACKS_EXECUTED {
      var more := DispatchIsRun(before + ops, w.paused, CALLBACKS_EXECUTED, args + [EventName(name)], answers);
      assert before + (ops + more) == before + ops + more;
      ops := ops + more;
    }
  }

  // ---- Order ----

  /** The first position from `i` on whose callback answers BREAK, or `n`. */
  function FirstBreak(answers: Answers, name: Text, i: nat, n: nat): (k: nat)
    requires i <= n
    ensures i <= k <= n
    ensures forall j :: i <= j < k ==> answers(name, j) != BCIRC_PLUGIN_BREAK
    ensures k < n ==> answers(name, k) == BCIRC_PLUGIN_BREAK
    decreases n - i
  {
    if i == n || answers(name, i) == BCIRC_PLUGIN_BREAK then i else FirstBreak(answers, name, i + 1, n)
  }

  /** Up to the first BREAK nobody answers FAIL, and nobody STOP at a position behind the plugin list. */
  ghost predicate Gentle(s: State, name: Text, answers: Answers) {
    var n := |Listeners(s.index, name)|;
    forall k :: 0 <= k < FirstBreak(answers, name, 0, n) ==>
      answers(name, k) != BCIRC_PLUGIN_FAIL && (answers(name, k) == BCIRC_PLUGIN_STOP ==> k < |s.live|)
  }

  /** The event has an entry in the index, is not the announcement, and nobody breaks it off. */
  predicate Announces(s: State, name: Text, answers: Answers) {
    var n := |Listeners(s.index, name)|;
    GetCbIndex(s.index, name) != -1 && name != CALLBACKS_EXECUTED && FirstBreak(answers, name, 0, n) == n
  }

  /** The calls of `listeners` from position `i` up to `j`. */
  function CallsOf(listeners: seq<Callback>, name: Text, args: seq<Arg>, answers: Answers, i: nat, j: nat):
    (calls: seq<Call>)
    requires i <= j <= |listeners|
    ensures |calls| == j - i
  {
    seq(j - i, k requires 0 <= k < j - i => Call(listeners[i + k], args, answers(name, i + k)))
  }

  lemma CallsGrow(listeners: seq<Callback>, name: Text, args: seq<Arg>, answers: Answers, i: nat, j: nat)
    requires i < j <= |listeners|
    ensures CallsOf(listeners, name, args, answers, i, j)
              == [Call(listeners[i], args, answers(name, i))] + CallsOf(listeners, name, args, answers, i + 1, j)
  {
  }

  /** A position from `i` up to `j` answers STOP and has `key` in the plugin list. */
  ghost predicate StopHits(s: State, name: Text, answers: Answers, i: nat, j: nat, key: nat) {
    exists k :: i <= k < j && k < |s.live| && answers(name, k) == BCIRC_PLUGIN_STOP && s.live[k].key == key
  }

  /** A walk with no FAIL, and no STOP behind the plugin list, before it breaks off. */
  lemma {:induction false} WalkGently(s: State, paused: set<nat>, name: Text, args: seq<Arg>, answers: Answers, i: nat)
    requires i <= |Listeners(s.index, name)|
    requires forall k :: i <= k < FirstBreak(answers, name, i, |Listeners(s.index, name)|) ==>
               answers(name, k) != BCIRC_PLUGIN_FAIL && (answers(name, k) == BCIRC_PLUGIN_STOP ==> k < |s.live|)
    ensures var listeners := Listeners(s.index, name);
            var b := FirstBreak(answers, name, i, |listeners|);
            var w := Walk(s, paused, name, args, answers, i, |listeners|);
            && w.s == s
            && w.end == (if b < |listeners| then Broken else Through)
            && w.calls == CallsOf(listeners, name, args, answers, i, if b < |listeners| then b + 1 else b)
            && (forall key :: key in w.paused <==> key in paused || StopHits(s, name, answers, i, b, key))
    decreases |Listeners(s.index, name)| - i
  {
    var listeners := Listeners(s.index, name);
    var b := FirstBreak(answers, name, i, |listeners|);
    if i < b {
      var more := Pausing(s, paused, i, answers(name, i));
      WalkGently(s, more, name, args, answers, i + 1);
      CallsGrow(listeners, name, args, answers, i, if b < |listeners| then b + 1 else b);
      forall key
        ensures key in more || StopHits(s, name, answers, i + 1, b, key)
                <==> key in paused || StopHits(s, name, answers, i, b, key)
      {
        StopHitsStep(s, name, answers, i, b, key);
      }
    }
  }

  lemma StopHitsStep(s: State, name: Text, answers: Answers, i: nat, j: nat, key: nat)
    requires i < j
    ensures StopHits(s, name, answers, i, j, key) <==>
            || StopHits(s, name, answers, i + 1, j, key)
            || (i < |s.live| && answers(name, i) == BCIRC_PLUGIN_STOP && s.live[i].key == key)
  {
  }

  /** Called in order of priority, none twice, all with the same arguments. */
  ghost predicate OrderedCalls(calls: seq<Call>, name: Text, args: seq<Arg>, answers: Answers) {
    && (forall i, j :: 0 <= i < j < |calls| ==> Before(calls[i].callback, calls[j].callback))
    && (forall i :: 0 <= i < |calls| ==>
          calls[i].callback.name == name && calls[i].args == args && calls[i].answer == answers(name, i))
  }

  lemma CallsAreOrdered(index: seq<Bucket>, name: Text, args: seq<Arg>, answers: Answers, n: nat)
    requires Filed(index) && n <= |Listeners(index, name)|
    ensures OrderedCalls(CallsOf(Listeners(index, name), name, args, answers, 0, n), name, args, answers)
  {
    var i := GetCbIndex(index, name);
    assert i >= 0 ==> ValidBucket(index[i]);
  }

  /** One event's part of a dispatch: every listener up to and including the first BREAK, in order. */
  ghost predicate CallsListeners(s: State, name: Text, args: seq<Arg>, answers: Answers, calls: seq<Call>) {
    var listeners := Listeners(s.index, name);
    var b := FirstBreak(answers, name, 0, |listeners|);
    && OrderedCalls(calls, name, args, answers)
    && |calls| == (if b < |listeners| then b + 1 else b)
    && (forall k :: 0 <= k < |calls| ==> calls[k].callback == listeners[k])
  }

  lemma WalkIsOrdered(s: State, paused: set<nat>, name: Text, args: seq<Arg>, answers: Answers)
    requires Filed(s.index) && Gentle(s, name, answers)
    ensures var w := Walk(s, paused, name, args, answers, 0, |Listeners(s.index, name)|);
            && w.s == s && CallsListeners(s, name, args, answers, w.calls)
            && (w.end == Broken <==> exists k :: 0 <= k < |w.calls| && w.calls[k].answer == BCIRC_PLUGIN_BREAK)
            && w.end != Fault
  {
    var listeners := Listeners(s.index, name);
    var b := FirstBreak(answers, name, 0, |listeners|);
    var w := Walk(s, paused, name, args, answers, 0, |listeners|);
    WalkGently(s, paused, name, args, answers, 0);
    CallsAreOrdered(s.index, name, args, answers, |w.calls|);
    assert b < |listeners| ==> w.calls[b].answer == BCIRC_PLUGIN_BREAK;
  }

  /**
   * After any registrations, loads and removals, while nobody reached answers FAIL or a
   * STOP behind the plugin list: a dispatch calls the listeners in order, up to the first
   * BREAK, and answers FAIL exactly when there is one. Otherwise, if anyone ever listened
   * to the event, the announcement follows once, to its own listeners, with the event's
   * name appended.
   */
  lemma {:induction false} DispatchIsOrdered(
      ops: seq<Op>, paused: set<nat>, name: Text, args: seq<Arg>, answers: Answers)
    returns (own: seq<Call>, announced: seq<Call>)
    requires var s := Run(Initial, ops);
             && Gentle(s, name, answers)
             && (Announces(s, name, answers) ==> Gentle(s, CALLBACKS_EXECUTED, answers))
    ensures var s := Run(Initial, ops);
            var w := DispatchOf(s, paused, name, args, answers);
            && w.s == s && w.end != Fault && w.calls == own + announced
            && CallsListeners(s, name, args, answers, own)
            && (Result(w.end) == BCIRC_PLUGIN_FAIL <==>
                exists k :: 0 <= k < |own| && own[k].answer == BCIRC_PLUGIN_BREAK)
            && (if Announces(s, name, answers)
                then CallsListeners(s, CALLBACKS_EXECUTED, args + [EventName(name)], answers, announced)
                else announced == [])
  {
    var s := Run(Initial, ops);
    InvOfRun(ops);
    var w := Walk(s, paused, name, args, answers, 0, |Listeners(s.index, name)|);
    WalkGently(s, paused, name, args, answers, 0);
    WalkIsOrdered(s, paused, name, args, answers);
    own, announced := w.calls, [];
    if Announces(s, name, answers) {
      var more := args + [EventName(name)];
      announced := DispatchOf(s, w.paused, CALLBACKS_EXECUTED, more, answers).calls;
      WalkIsOrdered(s, w.paused, CALLBACKS_EXECUTED, more, answers);
    }
  }
}
