// The plugin handler's global lists (plugin_handler.c) as the program changes them in
// place, proved against the operations of CallbackIndex and Dispatch.

module PluginHandler {
  import opened Options
  import opened CString
  import opened PluginAnswers
  import opened CallbackSort
  import CallbackIndex
  import opened Dispatch

  type Owner = CallbackIndex.Owner
  type Bucket = CallbackIndex.Bucket

  class Plugin {
    const handle: nat
    var callbacks: seq<Callback>
    var paused: bool

    constructor (handle: nat)
      ensures this.handle == handle && callbacks == [] && !paused
    {
      this.handle, callbacks, paused := handle, [], false;
    }
  }

  /** One event's entry in the index. */
  class EventIndex {
    const name: Text
    var callbacks: seq<Callback>

    constructor (name: Text, callbacks: seq<Callback>)
      ensures this.name == name && this.callbacks == callbacks
    {
      this.name, this.callbacks := name, callbacks;
    }
  }

  ghost function Owners(ps: seq<Plugin>): (r: seq<Owner>)
    reads ps
    ensures |r| == |ps|
  {
    seq(|ps|, i requires 0 <= i < |ps| reads ps => CallbackIndex.Holder(ps[i].handle, ps[i].callbacks))
  }

  ghost function Buckets(es: seq<EventIndex>): (r: seq<Bucket>)
    reads es
    ensures |r| == |es|
  {
    seq(|es|, i requires 0 <= i < |es| reads es => CallbackIndex.Holder(es[i].name, es[i].callbacks))
  }

  lemma OwnersOfMore(ps: seq<Plugin>, p: Plugin)
    ensures Owners(ps + [p]) == Owners(ps) + [CallbackIndex.Holder(p.handle, p.callbacks)]
  {
  }

  lemma OwnersOfFewer(ps: seq<Plugin>, n: nat)
    requires n <= |ps|
    ensures Owners(ps[..n]) == Owners(ps)[..n]
  {
  }

  /** A handle stands for a plugin's address. */
  ghost predicate DistinctHandles(ps: seq<Plugin>, next: nat) {
    && (forall i, j :: 0 <= i < j < |ps| ==> ps[i].handle != ps[j].handle)
    && (forall p :: p in ps ==> p.handle < next)
  }

  ghost predicate Disjoint(ps: seq<Plugin>, qs: seq<Plugin>) {
    forall p, q :: p in ps && q in qs ==> p.handle != q.handle
  }

  /** The last of those being loaded leaves them, and may join the others. */
  lemma LastMayJoin(ps: seq<Plugin>, loading: seq<Plugin>, next: nat)
    requires DistinctHandles(ps, next) && DistinctHandles(loading, next) && Disjoint(ps, loading) && loading != []
    ensures var n := |loading| - 1;
            && DistinctHandles(loading[..n], next) && Disjoint(ps, loading[..n])
            && DistinctHandles(ps + [loading[n]], next) && Disjoint(ps + [loading[n]], loading[..n])
  {
  }

  /** The list without `c`, and the times it was there. */
  method Drop(s: seq<Callback>, c: Callback) returns (kept: seq<Callback>, ghost dropped: seq<Callback>)
    ensures kept == CallbackIndex.Without(s, c) && dropped == CallbackIndex.Matches(s, c)
  {
    kept, dropped := [], [];
    var y := 0;
    while y < |s|
      invariant 0 <= y <= |s|
      invariant kept + CallbackIndex.Without(s[y..], c) == CallbackIndex.Without(s, c)
      invariant dropped + CallbackIndex.Matches(s[y..], c) == CallbackIndex.Matches(s, c)
    {
      DropStep(s, y, c, kept, dropped);
      if s[y] != c {
        kept := kept + [s[y]];
      } else {
        dropped := dropped + [s[y]];
      }
      y := y + 1;
    }
  }

  lemma DropStep(s: seq<Callback>, y: nat, c: Callback, kept: seq<Callback>, dropped: seq<Callback>)
    requires y < |s|
    ensures kept + CallbackIndex.Without(s[y..], c)
              == (if s[y] != c then kept + [s[y]] else kept) + CallbackIndex.Without(s[y + 1..], c)
    ensures dropped + CallbackIndex.Matches(s[y..], c)
              == (if s[y] == c then dropped + [s[y]] else dropped) + CallbackIndex.Matches(s[y + 1..], c)
  {
    assert s[y..][1..] == s[y + 1..];
  }

  /** The buckets with `c` taken out of the i-th. */
  ghost function Cleared(buckets: seq<Bucket>, i: nat, c: Callback): seq<Bucket>
    requires i < |buckets|
  {
    buckets[i := CallbackIndex.Holder(buckets[i].key, CallbackIndex.Without(buckets[i].callbacks, c))]
  }

  lemma ClearNothing(buckets: seq<Bucket>, c: Callback)
    ensures CallbackIndex.RemoveIndex(buckets[..0], c) + buckets[0..] == buckets
    ensures CallbackIndex.Freed(buckets[..0], c) == []
  {
  }

  lemma ClearAll(buckets: seq<Bucket>, i: nat, c: Callback)
    requires i == |buckets|
    ensures CallbackIndex.RemoveIndex(buckets[..i], c) + buckets[i..] == CallbackIndex.RemoveIndex(buckets, c)
    ensures CallbackIndex.Freed(buckets[..i], c) == CallbackIndex.Freed(buckets, c)
  {
    assert buckets[..i] == buckets;
  }

  lemma ClearStep(buckets: seq<Bucket>, i: nat, c: Callback)
    requires i < |buckets|
    ensures Cleared(CallbackIndex.RemoveIndex(buckets[..i], c) + buckets[i..], i, c)
              == CallbackIndex.RemoveIndex(buckets[..i + 1], c) + buckets[i + 1..]
    ensures CallbackIndex.Freed(buckets[..i + 1], c)
              == CallbackIndex.Freed(buckets[..i], c) + CallbackIndex.Matches(buckets[i].callbacks, c)
  {
    assert buckets[..i + 1] == buckets[..i] + [buckets[i]];
    CallbackIndex.FreedOfJoin(buckets[..i], [buckets[i]], c);
    assert [buckets[i]][1..] == [];
  }

  lemma RemovePluginStep(s: CallbackIndex.State, handle: nat, live: seq<Owner>, i: nat, kept: seq<Owner>)
    requires i < |live|
    ensures CallbackIndex.RemovePlugin(s, handle, live[i..], kept) ==
            if live[i].key == handle then
              CallbackIndex.RemovePlugin(CallbackIndex.RemoveAll(s, live[i].callbacks), handle, live[i + 1..], kept)
            else CallbackIndex.RemovePlugin(s, handle, live[i + 1..], kept + [live[i]])
  {
    assert live[i..][1..] == live[i + 1..];
  }

  lemma RemovePluginEnd(s: CallbackIndex.State, handle: nat, live: seq<Owner>, kept: seq<Owner>)
    requires live == []
    ensures CallbackIndex.RemovePlugin(s, handle, live, kept) == s.(live := kept)
  {
  }

  lemma DistinctGrow(ps: seq<Plugin>, kept: seq<Plugin>, i: nat, next: nat)
    requires DistinctHandles(ps, next) && DistinctHandles(kept, next) && i < |ps|
    requires forall q :: q in kept ==> q in ps[..i]
    ensures DistinctHandles(kept + [ps[i]], next)
  {
    forall k | 0 <= k < |kept|
      ensures kept[k].handle != ps[i].handle
    {
      assert kept[k] in ps[..i];
    }
  }

  /** A walk with the calls made before it. */
  function After(calls: seq<Call>, w: Walked): Walked {
    w.(calls := calls + w.calls)
  }

  /** One turn of the loop over the listeners. */
  lemma WalkStep(calls: seq<Call>, s: CallbackIndex.State, paused: set<nat>, name: Text, args: seq<Arg>,
                 answers: Answers, i: nat, n: nat)
    requires i < n
    ensures var listeners := CallbackIndex.Listeners(s.index, name);
            var answer := answers(name, i);
            After(calls, Walk(s, paused, name, args, answers, i, n)) ==
            if i >= |listeners| then Walked(s, paused, calls, Fault)
            else
              var grown := calls + [Call(listeners[i], args, answer)];
              if answer == BCIRC_PLUGIN_BREAK then Walked(s, paused, grown, Broken)
              else if ActsOnPlugin(answer) && i >= |s.live| then Walked(s, paused, grown, Fault)
              else
                After(grown, Walk(Acted(s, i, answer), Pausing(s, paused, i, answer), name, args, answers, i + 1, n))
  {
    var listeners := CallbackIndex.Listeners(s.index, name);
    var answer := answers(name, i);
    if i < |listeners| && answer != BCIRC_PLUGIN_BREAK && !(ActsOnPlugin(answer) && i >= |s.live|) {
      var call := Call(listeners[i], args, answer);
      var rest := Walk(Acted(s, i, answer), Pausing(s, paused, i, answer), name, args, answers, i + 1, n);
      assert calls + ([call] + rest.calls) == calls + [call] + rest.calls;
    }
  }

  lemma WalkEnd(calls: seq<Call>, s: CallbackIndex.State, paused: set<nat>, name: Text, args: seq<Arg>,
                answers: Answers, i: nat, n: nat)
    requires i >= n
    ensures After(calls, Walk(s, paused, name, args, answers, i, n)) == Walked(s, paused, calls, Through)
  {
  }

  class Handler {
    var pluginList: seq<Plugin>
    var indexList: seq<EventIndex>
    var nextAddress: nat
    // plugins inside their init function, and what an observer has seen
    ghost var loading: seq<Plugin>
    ghost var orphans: seq<Callback>
    ghost var registered: seq<Callback>
    ghost var freed: seq<Callback>

    ghost predicate Valid()
      reads this
    {
      && DistinctHandles(pluginList, nextAddress) && DistinctHandles(loading, nextAddress)
      && Disjoint(pluginList, loading)
      && (forall i, j :: 0 <= i < j < |indexList| ==> indexList[i] != indexList[j])
    }

    ghost function View(): CallbackIndex.State
      reads this, pluginList, loading, indexList
    {
      CallbackIndex.State(Owners(pluginList), Owners(loading), Buckets(indexList), nextAddress,
                          orphans, registered, freed)
    }

    constructor ()
      ensures Valid() && View() == CallbackIndex.Initial
    {
      pluginList, indexList, nextAddress := [], [], 0;
      loading, orphans, registered, freed := [], [], [], [];
    }

    /** The event of that name has its entry at `point`. */
    ghost predicate StandsAt(name: Text, point: nat)
      reads this
    {
      point < |indexList| && indexList[point].name == name && forall j :: 0 <= j < point ==> indexList[j].name != name
    }

    method GetCbIndex(cbName: Text) returns (r: int)
      ensures r == CallbackIndex.GetCbIndex(Buckets(indexList), cbName)
      ensures r >= 0 ==> StandsAt(cbName, r)
    {
      var i := 0;
      while i < |indexList|
        invariant 0 <= i <= |indexList|
        invariant forall j :: 0 <= j < i ==> indexList[j].name != cbName
      {
        if indexList[i].name == cbName {
          assert Buckets(indexList)[i].key == cbName;
          return i;
        }
        i := i + 1;
      }
      return -1;
    }

    method IndexCallback(c: Callback)
      requires Valid()
      modifies this`indexList, indexList
      ensures Valid()
      ensures Buckets(indexList) == CallbackIndex.IndexCallback(old(Buckets(indexList)), c)
      ensures Owners(pluginList) == old(Owners(pluginList)) && Owners(loading) == old(Owners(loading))
    {
      var point := GetCbIndex(c.name);
      if point >= 0 {
        indexList[point].callbacks := Sort(indexList[point].callbacks + [c]);
      } else {
        var entry := new EventIndex(c.name, [c]);
        indexList := indexList + [entry];
      }
    }

    /** The first half of load_plugin, up to the call of the plugin's init function. */
    method BeginLoad() returns (p: Plugin)
      requires Valid()
      modifies this`loading, this`nextAddress
      ensures Valid() && fresh(p) && loading == old(loading) + [p]
      ensures View() == CallbackIndex.Next(old(View()), CallbackIndex.BeginLoad)
    {
      p := new Plugin(nextAddress);
      nextAddress := nextAddress + 1;
      loading := loading + [p];
    }

    /** The second half: the innermost load ends, with what its init function answered. */
    method EndLoad(p: Plugin, initResult: int) returns (res: int)
      requires Valid() && loading != [] && loading[|loading| - 1] == p
      modifies this`loading, this`pluginList, this`orphans
      ensures Valid()
      ensures res == if initResult == BCIRC_PLUGIN_OK then 1 else -4
      ensures View() == CallbackIndex.Next(old(View()), CallbackIndex.EndLoad(initResult == BCIRC_PLUGIN_OK))
    {
      ghost var n := |loading| - 1;
      ghost var joining := Owners(loading)[n];
      OwnersOfFewer(loading, n);
      OwnersOfMore(pluginList, p);
      assert joining == CallbackIndex.Holder(p.handle, p.callbacks);
      LastMayJoin(pluginList, loading, nextAddress);
      hide Owners, DistinctHandles, Disjoint;
      loading := loading[..|loading| - 1];
      if initResult != BCIRC_PLUGIN_OK {
        orphans := orphans + p.callbacks;
        return -4;
      }
      pluginList := pluginList + [p];
      return 1;
    }

    method AddCallback(p: Plugin, c: Callback)
      requires Valid() && (p in pluginList || p in loading)
      modifies p
      ensures Valid() && Buckets(indexList) == old(Buckets(indexList))
      ensures Owners(pluginList) == CallbackIndex.AddTo(old(Owners(pluginList)), p.handle, c)
      ensures Owners(loading) == CallbackIndex.AddTo(old(Owners(loading)), p.handle, c)
      ensures || CallbackIndex.Owns(old(Owners(pluginList)), p.handle)
              || CallbackIndex.Owns(old(Owners(loading)), p.handle)
    {
      if p in pluginList {
        var i :| 0 <= i < |pluginList| && pluginList[i] == p;
        assert Owners(pluginList)[i].key == p.handle;
      } else {
        ghost var i :| 0 <= i < |loading| && loading[i] == p;
        assert Owners(loading)[i].key == p.handle;
      }
      p.callbacks := p.callbacks + [c];
    }

    method RegisterCallback(cbName: Option<Text>, cbFunc: Option<nat>, priority: int, p: Plugin?) returns (res: int)
      requires Valid() && (p != null ==> p in pluginList || p in loading)
      modifies this`indexList, this`nextAddress, this`registered, p, indexList
      ensures Valid()
      ensures res == if p == null || cbName == None || cbFunc == None then -1 else 1
      ensures View() == if res == -1 then old(View()) else
                CallbackIndex.Next(old(View()),
                  CallbackIndex.Register(p.handle, cbName.value, cbFunc.value, priority))
    {
      if p == null || cbName == None || cbFunc == None {
        return -1;
      }
      FileCallback(p, Callback(nextAddress, cbName.value, priority, cbFunc.value));
      return 1;
    }

    /** The callback is indexed first and joins its plugin's list last. */
    method FileCallback(p: Plugin, c: Callback)
      requires Valid() && (p in pluginList || p in loading)
      modifies this`indexList, this`nextAddress, this`registered, p, indexList
      ensures Valid()
      ensures View() == CallbackIndex.Registered(old(View()), p.handle, c)
      ensures CallbackIndex.Owns(old(View().live), p.handle) || CallbackIndex.Owns(old(View().loading), p.handle)
    {
      hide Owners, Buckets, CallbackIndex.AddTo, CallbackIndex.IndexCallback;
      IndexCallback(c);
      AddCallback(p, c);
      nextAddress := nextAddress + 1;
      registered := registered + [c];
    }

    /** One bucket's turn of remove_index: `c` is dropped from it, and freed each time. */
    method RemoveFrom(i: nat, c: Callback)
      requires Valid() && i < |indexList|
      modifies this`freed, indexList[i]
      ensures Buckets(indexList) == Cleared(old(Buckets(indexList)), i, c)
      ensures freed == old(freed) + CallbackIndex.Matches(old(Buckets(indexList))[i].callbacks, c)
    {
      ghost var dropped;
      indexList[i].callbacks, dropped := Drop(indexList[i].callbacks, c);
      freed := freed + dropped;
      assert forall j :: 0 <= j < |indexList| && j != i ==> indexList[j] != indexList[i];
    }

    /** remove_index: `c` is dropped from every bucket. */
    method RemoveIndex(c: Callback)
      requires Valid()
      modifies this`freed, indexList
      ensures Buckets(indexList) == CallbackIndex.RemoveIndex(old(Buckets(indexList)), c)
      ensures freed == old(freed) + CallbackIndex.Freed(old(Buckets(indexList)), c)
    {
      hide Buckets, Cleared, CallbackIndex.RemoveIndex, CallbackIndex.Freed, CallbackIndex.Matches;
      ghost var buckets := Buckets(indexList);
      ClearNothing(buckets, c);
      var i := 0;
      while i < |indexList|
        invariant 0 <= i <= |indexList|
        invariant Buckets(indexList) == CallbackIndex.RemoveIndex(buckets[..i], c) + buckets[i..]
        invariant freed == old(freed) + CallbackIndex.Freed(buckets[..i], c)
      {
        ClearStep(buckets, i, c);
        RemoveFrom(i, c);
        i := i + 1;
      }
      ClearAll(buckets, i, c);
    }

    /** remove_index for each callback of a removed plugin. */
    method RemoveCallbacks(cs: seq<Callback>)
      requires Valid()
      modifies this`freed, indexList
      ensures View() == CallbackIndex.RemoveAll(old(View()), cs)
    {
      var y := 0;
      while y < |cs|
        invariant 0 <= y <= |cs|
        invariant CallbackIndex.RemoveAll(View(), cs[y..]) == CallbackIndex.RemoveAll(old(View()), cs)
      {
        assert cs[y..][1..] == cs[y + 1..];
        RemoveIndex(cs[y]);
        y := y + 1;
      }
    }

    /** remove_plugin; a plugin that is not in the list changes nothing. */
    method RemovePlugin(p: Plugin) returns (res: int)
      requires Valid()
      requires forall q :: q in pluginList && q.handle == p.handle ==> q == p
      modifies this`pluginList, this`freed, indexList
      ensures Valid() && res == 1
      ensures View() == CallbackIndex.Next(old(View()), CallbackIndex.Remove(p.handle))
      ensures forall k :: 0 <= k < |pluginList| ==> pluginList[k] in old(pluginList)
    {
      hide CallbackIndex.RemovePlugin, CallbackIndex.RemoveAll;
      var newList: seq<Plugin> := [];
      ghost var before := View();
      var i := 0;
      assert before.live[0..] == before.live;
      while i < |pluginList|
        invariant 0 <= i <= |pluginList| && pluginList == old(pluginList)
        invariant View() == before.(index := View().index, freed := freed)
        invariant forall q :: q in newList ==> q in pluginList[..i]
        invariant DistinctHandles(newList, nextAddress)
        invariant CallbackIndex.RemovePlugin(View(), p.handle, before.live[i..], Owners(newList))
                    == CallbackIndex.RemovePlugin(before, p.handle, before.live, [])
      {
        RemovePluginStep(View(), p.handle, before.live, i, Owners(newList));
        assert pluginList[i] in pluginList && pluginList[..i + 1] == pluginList[..i] + [pluginList[i]];
        assert before.live[i] == Owners(pluginList)[i];
        if pluginList[i] == p {
          RemoveCallbacks(pluginList[i].callbacks);
        } else {
          assert Owners(newList + [pluginList[i]]) == Owners(newList) + [before.live[i]];
          DistinctGrow(pluginList, newList, i, nextAddress);
          newList := newList + [pluginList[i]];
        }
        i := i + 1;
      }
      RemovePluginEnd(View(), p.handle, before.live[i..], Owners(newList));
      assert pluginList[..i] == pluginList;
      pluginList := newList;
      return 1;
    }

    /** Which plugins in the list are paused, by handle. */
    ghost predicate PausedAre(paused: set<nat>)
      reads this, pluginList
    {
      forall p :: p in pluginList ==> (p.paused <==> p.handle in paused)
    }

    method ExecuteCallbacks(cbName: Text, args: seq<Arg>, answers: Answers, ghost before: set<nat>)
      returns (end: End, res: int, calls: seq<Call>, ghost paused: set<nat>)
      requires Valid() && PausedAre(before)
      modifies this`pluginList, this`freed, indexList, pluginList`paused
      ensures Valid() && PausedAre(paused)
      ensures forall k :: 0 <= k < |pluginList| ==> pluginList[k] in old(pluginList)
      ensures Walked(View(), paused, calls, end) == DispatchOf(old(View()), before, cbName, args, answers)
      ensures res == Result(end)
      decreases if cbName == CALLBACKS_EXECUTED then 0 else 1
    {
      var point := GetCbIndex(cbName);
      if point == -1 {
        return Through, BCIRC_PLUGIN_OK, [], before;
      }
      end, calls, paused := CallListeners(cbName, point, args, answers, before);
      if end == Broken {
        return end, BCIRC_PLUGIN_FAIL, calls, paused;
      }
      if end == Through && cbName != CALLBACKS_EXECUTED {
        var announced, own := [], calls;
        end, res, announced, paused :=
          ExecuteCallbacks(CALLBACKS_EXECUTED, args + [EventName(cbName)], answers, paused);
        end, calls := if end == Fault then Fault else Through, own + announced;
      }
      return end, BCIRC_PLUGIN_OK, calls, paused;
    }

    lemma ListenersStandAt(name: Text, point: nat)
      requires StandsAt(name, point)
      ensures CallbackIndex.Listeners(View().index, name) == indexList[point].callbacks
    {
      assert Buckets(indexList)[point].key == name;
      assert forall j :: 0 <= j < point ==> Buckets(indexList)[j].key == indexList[j].name;
    }

    /**
     * The loop over the listeners of the event at `point`. Their number is read once, before
     * it, though FAIL removes a plugin and its listeners meanwhile.
     */
    method CallListeners(name: Text, point: nat, args: seq<Arg>, answers: Answers, ghost before: set<nat>)
      returns (end: End, calls: seq<Call>, ghost paused: set<nat>)
      requires Valid() && PausedAre(before) && StandsAt(name, point)
      modifies this`pluginList, this`freed, indexList, pluginList`paused
      ensures Valid() && PausedAre(paused)
      ensures forall k :: 0 <= k < |pluginList| ==> pluginList[k] in old(pluginList)
      ensures Walked(View(), paused, calls, end)
                == Walk(old(View()), before, name, args, answers, 0, |old(indexList[point].callbacks)|)
    {
      hide Owners, Buckets, Walk, CallbackIndex.Listeners, Acted, Pausing, PausedAre, Valid;
      var cbCount := |indexList[point].callbacks|;
      var i := 0;
      calls, paused := [], before;
      while i < cbCount
        invariant 0 <= i <= cbCount && indexList == old(indexList)
        invariant Valid() && PausedAre(paused)
        invariant forall k :: 0 <= k < |pluginList| ==> pluginList[k] in old(pluginList)
        invariant Walk(old(View()), before, name, args, answers, 0, cbCount)
                    == After(calls, Walk(View(), paused, name, args, answers, i, cbCount))
      {
        ListenersStandAt(name, point);
        WalkStep(calls, View(), paused, name, args, answers, i, cbCount);
        if i >= |indexList[point].callbacks| {
          return Fault, calls, paused;
        }
        var answer := answers(name, i);
        calls := calls + [Call(indexList[point].callbacks[i], args, answer)];
        if answer == BCIRC_PLUGIN_BREAK {
          return Broken, calls, paused;
        }
        if ActsOnPlugin(answer) && i >= |pluginList| {
          return Fault, calls, paused;
        }
        paused := Act(i, answer, paused);
        i := i + 1;
      }
      WalkEnd(calls, View(), paused, name, args, answers, i, cbCount);
      return Through, calls, paused;
    }

    /** STOP pauses and FAIL removes the plugin at the position of the callback. */
    method Act(i: nat, answer: int, ghost before: set<nat>) returns (ghost paused: set<nat>)
      requires Valid() && PausedAre(before) && (ActsOnPlugin(answer) ==> i < |pluginList|)
      modifies this`pluginList, this`freed, indexList, pluginList`paused
      ensures Valid() && PausedAre(paused)
      ensures forall k :: 0 <= k < |pluginList| ==> pluginList[k] in old(pluginList)
      ensures View() == Acted(old(View()), i, answer) && paused == Pausing(old(View()), before, i, answer)
    {
      hide CallbackIndex.RemovePlugin, Buckets;
      paused := before;
      if answer == BCIRC_PLUGIN_STOP {
        pluginList[i].paused := true;
        paused := before + {pluginList[i].handle};
      } else if answer == BCIRC_PLUGIN_FAIL {
        var _ := RemovePlugin(pluginList[i]);
      }
    }
  }
}
