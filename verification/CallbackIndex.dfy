// The index of callbacks by event name and the plugins that own them
// (plugin_handler.c), as values, through any sequence of registrations, loads and
// removals.

module CallbackIndex {
  import opened CString
  import opened CallbackSort

  /** A list of callbacks and what it is filed under. */
  datatype Holder<K> = Holder(key: K, callbacks: seq<Callback>)

  type Owner = Holder<nat>
  type Bucket = Holder<Text>

  /**
   * `live` is plugin_list, `loading` the plugins inside their init function. An observer
   * keeps `orphans`, the callbacks of plugins whose init failed, and the registered and
   * freed callbacks. `next` is the next address.
   */
  datatype State = State(
    live: seq<Owner>,
    loading: seq<Owner>,
    index: seq<Bucket>,
    next: nat,
    orphans: seq<Callback>,
    registered: seq<Callback>,
    freed: seq<Callback>)

  const Initial := State([], [], [], 0, [], [], [])

  // ---- The index ----

  /** get_cb_index */
  function GetCbIndex(index: seq<Bucket>, name: Text): (r: int)
    ensures -1 <= r < |index|
    ensures r >= 0 ==> index[r].key == name && forall i :: 0 <= i < r ==> index[i].key != name
    ensures r == -1 ==> forall i :: 0 <= i < |index| ==> index[i].key != name
  {
    if index == [] then -1
    else if index[0].key == name then 0
    else
      var r := GetCbIndex(index[1..], name);
      if r == -1 then -1 else r + 1
  }

  /** index_callback */
  function IndexCallback(index: seq<Bucket>, c: Callback): seq<Bucket> {
    var i := GetCbIndex(index, c.name);
    if i >= 0 then index[i := Holder(c.name, Sort(index[i].callbacks + [c]))]
    else index + [Holder(c.name, [c])]
  }

  function Without(s: seq<Callback>, c: Callback): seq<Callback> {
    if s == [] then []
    else (if s[0] != c then [s[0]] else []) + Without(s[1..], c)
  }

  function Matches(s: seq<Callback>, c: Callback): seq<Callback> {
    if s == [] then []
    else (if s[0] == c then [s[0]] else []) + Matches(s[1..], c)
  }

  /** remove_index: `c` is taken out of every bucket. */
  function RemoveIndex(index: seq<Bucket>, c: Callback): (r: seq<Bucket>)
    ensures |r| == |index|
  {
    seq(|index|, i requires 0 <= i < |index| => Holder(index[i].key, Without(index[i].callbacks, c)))
  }

  /** What remove_index frees. */
  function Freed(index: seq<Bucket>, c: Callback): seq<Callback> {
    if index == [] then [] else Matches(index[0].callbacks, c) + Freed(index[1..], c)
  }

  // ---- The operations ----

  datatype Op =
    | BeginLoad
    | Register(handle: nat, name: Text, func: nat, priority: int)
    | EndLoad(ok: bool)
    | Remove(handle: nat)

  function Owns(owners: seq<Owner>, handle: nat): bool {
    exists i :: 0 <= i < |owners| && owners[i].key == handle
  }

  function AddTo(owners: seq<Owner>, handle: nat, c: Callback): (r: seq<Owner>)
    ensures |r| == |owners|
  {
    seq(|owners|, i requires 0 <= i < |owners| =>
      if owners[i].key == handle then Holder(handle, owners[i].callbacks + [c]) else owners[i])
  }

  /** `c` is indexed, then appended to its plugin's list. */
  function Registered(s: State, handle: nat, c: Callback): State {
    s.(live := AddTo(s.live, handle, c), loading := AddTo(s.loading, handle, c),
       index := IndexCallback(s.index, c), registered := s.registered + [c], next := s.next + 1)
  }

  /** remove_index for each callback of a removed plugin. */
  function RemoveAll(s: State, cs: seq<Callback>): State
    decreases |cs|
  {
    if cs == [] then s
    else
      RemoveAll(s.(index := RemoveIndex(s.index, cs[0]), freed := s.freed + Freed(s.index, cs[0])), cs[1..])
  }

  /** The loop of remove_plugin over plugin_list, from the front. */
  function RemovePlugin(s: State, handle: nat, live: seq<Owner>, kept: seq<Owner>): State
    decreases |live|
  {
    if live == [] then s.(live := kept)
    else if live[0].key == handle then RemovePlugin(RemoveAll(s, live[0].callbacks), handle, live[1..], kept)
    else RemovePlugin(s, handle, live[1..], kept + [live[0]])
  }

  /** An operation that names no plugin there is changes nothing. */
  function Next(s: State, op: Op): State {
    match op
    case BeginLoad => s.(loading := s.loading + [Holder(s.next, [])], next := s.next + 1)
    case Register(handle, name, func, priority) =>
      if !Owns(s.live, handle) && !Owns(s.loading, handle) then s
      else Registered(s, handle, Callback(s.next, name, priority, func))
    case EndLoad(ok) =>
      if s.loading == [] then s
      else
        var n := |s.loading| - 1;
        if ok then s.(loading := s.loading[..n], live := s.live + [s.loading[n]])
        else s.(loading := s.loading[..n], orphans := s.orphans + s.loading[n].callbacks)
    case Remove(handle) => RemovePlugin(s, handle, s.live, [])
  }

  function Run(s: State, ops: seq<Op>): State {
    if ops == [] then s else Next(Run(s, ops[..|ops| - 1]), ops[|ops| - 1])
  }

  // ---- Counting callbacks ----

  function Count(s: seq<Callback>, c: Callback): nat {
    if s == [] then 0 else (if s[0] == c then 1 else 0) + Count(s[1..], c)
  }

  function Tally<K>(hs: seq<Holder<K>>, c: Callback): nat {
    if hs == [] then 0 else Count(hs[0].callbacks, c) + Tally(hs[1..], c)
  }

  lemma {:induction false} CountOfJoin(a: seq<Callback>, b: seq<Callback>, c: Callback)
    ensures Count(a + b, c) == Count(a, c) + Count(b, c)
  {
    if a == [] {
      assert a + b == b;
    } else {
      CountOfJoin(a[1..], b, c);
      assert (a + b)[1..] == a[1..] + b;
    }
  }

  lemma {:induction false} CountIsMultiplicity(s: seq<Callback>, c: Callback)
    ensures Count(s, c) == multiset(s)[c]
  {
    if s != [] {
      CountIsMultiplicity(s[1..], c);
      assert s == [s[0]] + s[1..];
    }
  }

  lemma CountOfSort(s: seq<Callback>, c: Callback)
    ensures Count(Sort(s), c) == Count(s, c)
  {
    SortIsStable(s);
    CountIsMultiplicity(s, c);
    CountIsMultiplicity(Sort(s), c);
  }

  lemma {:induction false} CountWithout(s: seq<Callback>, x: Callback, c: Callback)
    ensures Count(Without(s, x), c) == if c == x then 0 else Count(s, c)
    ensures Count(Matches(s, x), c) == if c == x then Count(s, c) else 0
  {
    if s != [] {
      CountWithout(s[1..], x, c);
      CountOfJoin(if s[0] != x then [s[0]] else [], Without(s[1..], x), c);
      CountOfJoin(if s[0] == x then [s[0]] else [], Matches(s[1..], x), c);
    }
  }

  lemma {:induction false} TallyOfJoin<K>(a: seq<Holder<K>>, b: seq<Holder<K>>, c: Callback)
    ensures Tally(a + b, c) == Tally(a, c) + Tally(b, c)
  {
    if a == [] {
      assert a + b == b;
    } else {
      TallyOfJoin(a[1..], b, c);
      assert (a + b)[1..] == a[1..] + b;
    }
  }

  lemma {:induction false} TallyUpdated<K>(hs: seq<Holder<K>>, i: nat, h: Holder<K>, c: Callback)
    requires i < |hs|
    ensures Tally(hs[i := h], c) == Tally(hs, c) - Count(hs[i].callbacks, c) + Count(h.callbacks, c)
  {
    if i == 0 {
      assert hs[0 := h][1..] == hs[1..];
    } else {
      TallyUpdated(hs[1..], i - 1, h, c);
      assert hs[i := h][1..] == hs[1..][i - 1 := h];
    }
  }

  lemma {:induction false} TallyRemoved(index: seq<Bucket>, x: Callback, c: Callback)
    ensures Tally(RemoveIndex(index, x), c) == if c == x then 0 else Tally(index, c)
    ensures Count(Freed(index, x), c) == if c == x then Tally(index, c) else 0
  {
    if index != [] {
      CountWithout(index[0].callbacks, x, c);
      TallyRemoved(index[1..], x, c);
      CountOfJoin(Matches(index[0].callbacks, x), Freed(index[1..], x), c);
      assert RemoveIndex(index, x)[1..] == RemoveIndex(index[1..], x);
    }
  }

  lemma {:induction false} FreedOfJoin(a: seq<Bucket>, b: seq<Bucket>, c: Callback)
    ensures Freed(a + b, c) == Freed(a, c) + Freed(b, c)
  {
    hide Matches;
    if a == [] {
      assert a + b == b;
    } else {
      FreedOfJoin(a[1..], b, c);
      assert (a + b)[0] == a[0] && (a + b)[1..] == a[1..] + b;
      Regroup([], Matches(a[0].callbacks, c), Freed(a[1..], c), Freed(b, c));
    }
  }

  lemma TallyIndexed(index: seq<Bucket>, x: Callback, c: Callback)
    ensures Tally(IndexCallback(index, x), c) == Tally(index, c) + Count([x], c)
  {
    var i := GetCbIndex(index, x.name);
    if i >= 0 {
      var callbacks := index[i].callbacks;
      TallyUpdated(index, i, Holder(x.name, Sort(callbacks + [x])), c);
      CountOfSort(callbacks + [x], c);
      CountOfJoin(callbacks, [x], c);
    } else {
      TallyOfJoin(index, [Holder(x.name, [x])], c);
      assert [Holder(x.name, [x])][1..] == [];
    }
  }

  ghost predicate DistinctKeys<K>(hs: seq<Holder<K>>) {
    forall i, j :: 0 <= i < j < |hs| ==> hs[i].key != hs[j].key
  }

  lemma {:induction false} TallyAdded(owners: seq<Owner>, handle: nat, x: Callback, c: Callback)
    requires DistinctKeys(owners)
    ensures Tally(AddTo(owners, handle, x), c)
              == Tally(owners, c) + if Owns(owners, handle) then Count([x], c) else 0
  {
    if owners != [] {
      assert AddTo(owners, handle, x)[1..] == AddTo(owners[1..], handle, x);
      TallyAdded(owners[1..], handle, x, c);
      if owners[0].key == handle {
        CountOfJoin(owners[0].callbacks, [x], c);
        assert !Owns(owners[1..], handle);
      } else if Owns(owners, handle) {
        var i :| 0 <= i < |owners| && owners[i].key == handle;
        assert owners[1..][i - 1].key == handle;
      }
    }
  }

  /** Some list of `hs` has `c` in it. */
  ghost predicate Holds<K>(hs: seq<Holder<K>>, c: Callback) {
    exists i :: 0 <= i < |hs| && c in hs[i].callbacks
  }

  lemma {:induction false} CountPositive(s: seq<Callback>, c: Callback)
    ensures Count(s, c) > 0 <==> c in s
  {
    if s != [] {
      CountPositive(s[1..], c);
    }
  }

  lemma {:induction false} TallyPositive<K>(hs: seq<Holder<K>>, c: Callback)
    ensures Tally(hs, c) > 0 <==> Holds(hs, c)
  {
    if hs != [] {
      CountPositive(hs[0].callbacks, c);
      TallyPositive(hs[1..], c);
      if Holds(hs[1..], c) {
        var i :| 0 <= i < |hs[1..]| && c in hs[1..][i].callbacks;
        assert c in hs[i + 1].callbacks;
      }
      if Holds(hs, c) {
        var i :| 0 <= i < |hs| && c in hs[i].callbacks;
        assert i > 0 ==> c in hs[1..][i - 1].callbacks;
      }
    }
  }

  // ---- What every operation keeps ----

  /** By priority, and within a priority by registration. */
  predicate Before(a: Callback, b: Callback) {
    a.priority < b.priority || (a.priority == b.priority && a.addr < b.addr)
  }

  ghost predicate Ordered(s: seq<Callback>) {
    forall i, j :: 0 <= i < j < |s| ==> Before(s[i], s[j])
  }

  ghost predicate ValidBucket(b: Bucket) {
    Ordered(b.callbacks) && forall k :: 0 <= k < |b.callbacks| ==> b.callbacks[k].name == b.key
  }

  /** Event names are distinct, and every bucket holds its own event's callbacks in order. */
  ghost predicate Filed(index: seq<Bucket>) {
    DistinctKeys(index) && forall i :: 0 <= i < |index| ==> ValidBucket(index[i])
  }

  ghost predicate Keyed(s: State) {
    && DistinctKeys(s.live) && DistinctKeys(s.loading)
    && (forall i, j :: 0 <= i < |s.live| && 0 <= j < |s.loading| ==> s.live[i].key != s.loading[j].key)
    && (forall i :: 0 <= i < |s.live| ==> s.live[i].key < s.next)
    && (forall i :: 0 <= i < |s.loading| ==> s.loading[i].key < s.next)
  }

  /** What is indexed is what is owned. */
  ghost predicate Agreed(s: State) {
    forall c :: Tally(s.index, c) == Tally(s.live, c) + Tally(s.loading, c) + Count(s.orphans, c)
  }

  /** What was ever registered is indexed or freed, and registered once. */
  ghost predicate Accounted(s: State) {
    && (forall c :: Count(s.registered, c) == Tally(s.index, c) + Count(s.freed, c))
    && (forall i, j :: 0 <= i < j < |s.registered| ==> s.registered[i].addr < s.registered[j].addr)
    && (forall i :: 0 <= i < |s.registered| ==> s.registered[i].addr < s.next)
  }

  ghost predicate Inv(s: State) {
    Filed(s.index) && Keyed(s) && Agreed(s) && Accounted(s)
  }

  lemma {:induction false} RegisteredOnce(s: seq<Callback>, c: Callback)
    requires forall i, j :: 0 <= i < j < |s| ==> s[i].addr < s[j].addr
    ensures Count(s, c) <= 1
  {
    if s != [] {
      RegisteredOnce(s[1..], c);
      if s[0] == c {
        CountPositive(s[1..], c);
      }
    }
  }

  // ---- Registering ----

  lemma OrderedAround(a: seq<Callback>, c: Callback, b: seq<Callback>)
    requires Ordered(a) && Ordered(b)
    requires forall i :: 0 <= i < |a| ==> Before(a[i], c)
    requires forall j :: 0 <= j < |b| ==> Before(c, b[j])
    ensures Ordered(a + [c] + b)
  {
  }

  lemma {:induction false} SortIsOrdered(s: seq<Callback>, c: Callback)
    requires Ordered(s) && forall k :: 0 <= k < |s| ==> s[k].addr < c.addr
    ensures Ordered(Sort(s + [c]))
  {
    SortInserts(s, c);
    InsertedIsOrdered(s, c);
  }

  lemma InsertedIsOrdered(s: seq<Callback>, c: Callback)
    requires Ordered(s) && forall k :: 0 <= k < |s| ==> s[k].addr < c.addr
    ensures Ordered(Inserted(s, c))
  {
    var n := NotAbove(s, c.priority);
    AboveStayAbove(s, c, n);
    OrderedAround(s[..n], c, s[n..]);
  }

  lemma AboveStayAbove(s: seq<Callback>, c: Callback, n: nat)
    requires Ordered(s) && n <= |s| && (n < |s| ==> s[n].priority > c.priority)
    ensures forall j :: n <= j < |s| ==> Before(c, s[j])
  {
    assert forall j :: n < j < |s| ==> Before(s[n], s[j]);
  }

  lemma IndexedIsFiled(index: seq<Bucket>, c: Callback)
    requires Filed(index)
    requires forall x :: Holds(index, x) ==> x.addr < c.addr
    ensures Filed(IndexCallback(index, c))
  {
    var i := GetCbIndex(index, c.name);
    if i >= 0 {
      var s := index[i].callbacks;
      assert ValidBucket(index[i]);
      forall k | 0 <= k < |s|
        ensures s[k].addr < c.addr
      {
        assert s[k] in index[i].callbacks;
        assert Holds(index, s[k]);
      }
      SortIsOrdered(s, c);
      NamesOfSort(s, c);
    }
  }

  lemma NamesOfSort(s: seq<Callback>, c: Callback)
    requires forall k :: 0 <= k < |s| ==> s[k].name == c.name
    ensures forall k :: 0 <= k < |Sort(s + [c])| ==> Sort(s + [c])[k].name == c.name
  {
    var t := Sort(s + [c]);
    SortIsStable(s + [c]);
    forall k | 0 <= k < |t|
      ensures t[k].name == c.name
    {
      assert t[k] in multiset(t) && t[k] in multiset(s + [c]);
    }
  }

  lemma IndexedIsOld(s: State, c: Callback)
    requires Accounted(s) && Holds(s.index, c)
    ensures c.addr < s.next
  {
    TallyPositive(s.index, c);
    CountPositive(s.registered, c);
  }

  lemma RegisterKeepsInv(s: State, op: Op)
    requires Inv(s) && op.Register?
    ensures Inv(Next(s, op))
  {
    var n := Next(s, op);
    if n != s {
      var x := Callback(s.next, op.name, op.priority, op.func);
      RegisterKeepsFiled(s, x);
      RegisterKeepsAccounted(s, x);
      forall c
        ensures Tally(n.index, c) == Tally(n.live, c) + Tally(n.loading, c) + Count(n.orphans, c)
      {
        TallyIndexed(s.index, x, c);
        TallyAdded(s.live, op.handle, x, c);
        TallyAdded(s.loading, op.handle, x, c);
      }
    }
  }

  lemma RegisterKeepsFiled(s: State, x: Callback)
    requires Filed(s.index) && Accounted(s) && x.addr == s.next
    ensures Filed(IndexCallback(s.index, x))
  {
    forall c | Holds(s.index, c)
      ensures c.addr < x.addr
    {
      IndexedIsOld(s, c);
    }
    IndexedIsFiled(s.index, x);
  }

  lemma RegisterKeepsAccounted(s: State, x: Callback)
    requires Accounted(s) && x.addr == s.next
    ensures Accounted(s.(index := IndexCallback(s.index, x), registered := s.registered + [x], next := s.next + 1))
  {
    forall c
      ensures Count(s.registered + [x], c) == Tally(IndexCallback(s.index, x), c) + Count(s.freed, c)
    {
      TallyIndexed(s.index, x, c);
      CountOfJoin(s.registered, [x], c);
    }
  }

  // ---- Removing ----

  lemma {:induction false} WithoutIsOrdered(s: seq<Callback>, x: Callback)
    requires Ordered(s)
    ensures Ordered(Without(s, x))
    ensures forall c :: c in Without(s, x) <==> c in s && c != x
  {
    if s != [] {
      WithoutIsOrdered(s[1..], x);
      assert forall c :: c in s <==> c == s[0] || c in s[1..];
      if s[0] != x {
        assert forall j :: 0 <= j < |s[1..]| ==> Before(s[0], s[1..][j]);
        assert forall c :: c in s[1..] ==> Before(s[0], c);
        OrderedCons(s[0], Without(s[1..], x));
      }
    }
  }

  lemma OrderedCons(c: Callback, s: seq<Callback>)
    requires Ordered(s) && forall x :: x in s ==> Before(c, x)
    ensures Ordered([c] + s)
    ensures forall x :: x in [c] + s <==> x == c || x in s
  {
    assert forall j :: 0 <= j < |s| ==> s[j] in s;
  }

  lemma RemovedIsFiled(index: seq<Bucket>, x: Callback)
    requires Filed(index)
    ensures Filed(RemoveIndex(index, x))
  {
    var r := RemoveIndex(index, x);
    forall i | 0 <= i < |r|
      ensures ValidBucket(r[i])
    {
      var s := index[i].callbacks;
      assert ValidBucket(index[i]);
      WithoutIsOrdered(s, x);
      assert forall k :: 0 <= k < |r[i].callbacks| ==> r[i].callbacks[k] in s;
    }
  }

  /** Taking callbacks out one by one: they are gone, the rest is untouched, nothing is lost. */
  lemma {:induction false} RemoveAllKeeps(s: State, cs: seq<Callback>)
    requires Filed(s.index)
    ensures var r := RemoveAll(s, cs);
            && Filed(r.index) && |r.index| == |s.index|
            && r == s.(index := r.index, freed := r.freed)
            && (forall c :: Tally(r.index, c) == if c in cs then 0 else Tally(s.index, c))
            && (forall c :: Tally(r.index, c) + Count(r.freed, c) == Tally(s.index, c) + Count(s.freed, c))
            && (forall i :: 0 <= i < |s.index| ==> r.index[i].key == s.index[i].key)
    decreases |cs|
  {
    if cs != [] {
      var x := cs[0];
      var m := s.(index := RemoveIndex(s.index, x), freed := s.freed + Freed(s.index, x));
      RemovedIsFiled(s.index, x);
      RemoveAllKeeps(m, cs[1..]);
      forall c
        ensures Tally(m.index, c) == if c == x then 0 else Tally(s.index, c)
        ensures Tally(m.index, c) + Count(m.freed, c) == Tally(s.index, c) + Count(s.freed, c)
      {
        TallyRemoved(s.index, x, c);
        CountOfJoin(s.freed, Freed(s.index, x), c);
      }
      assert forall c :: c in cs <==> c == x || c in cs[1..];
    }
  }

  /** The callbacks of a plugin in the list, none if it is not there. */
  function CallbacksOf(owners: seq<Owner>, handle: nat): seq<Callback> {
    if owners == [] then []
    else if owners[0].key == handle then owners[0].callbacks
    else CallbacksOf(owners[1..], handle)
  }

  function WithoutOwner(owners: seq<Owner>, handle: nat): seq<Owner> {
    if owners == [] then []
    else (if owners[0].key == handle then [] else [owners[0]]) + WithoutOwner(owners[1..], handle)
  }

  lemma {:induction false} RemovePluginIs(s: State, handle: nat, live: seq<Owner>, kept: seq<Owner>)
    requires DistinctKeys(live)
    ensures RemovePlugin(s, handle, live, kept)
              == RemoveAll(s, CallbacksOf(live, handle)).(live := kept + WithoutOwner(live, handle))
    decreases |live|
  {
    hide RemoveAll;
    if live == [] {
      assert kept + [] == kept;
      RemoveNone(s);
    } else if live[0].key == handle {
      var after := RemoveAll(s, live[0].callbacks);
      NotOwned(live[1..], handle);
      RemovePluginIs(after, handle, live[1..], kept);
      RemoveNone(after);
      assert [] + WithoutOwner(live[1..], handle) == WithoutOwner(live[1..], handle);
    } else {
      RemovePluginIs(s, handle, live[1..], kept + [live[0]]);
      Regroup([], kept, [live[0]], WithoutOwner(live[1..], handle));
    }
  }

  lemma RemoveNone(s: State)
    ensures RemoveAll(s, []) == s
  {
  }

  lemma {:induction false} NotOwned(owners: seq<Owner>, handle: nat)
    requires forall i :: 0 <= i < |owners| ==> owners[i].key != handle
    ensures CallbacksOf(owners, handle) == [] && WithoutOwner(owners, handle) == owners
  {
    if owners != [] {
      NotOwned(owners[1..], handle);
    }
  }

  lemma {:induction false} TallyWithoutOwner(owners: seq<Owner>, handle: nat, c: Callback)
    requires DistinctKeys(owners)
    ensures Tally(owners, c) == Tally(WithoutOwner(owners, handle), c) + Count(CallbacksOf(owners, handle), c)
  {
    if owners != [] {
      if owners[0].key == handle {
        NotOwned(owners[1..], handle);
        assert WithoutOwner(owners, handle) == owners[1..];
      } else {
        TallyWithoutOwner(owners[1..], handle, c);
        assert WithoutOwner(owners, handle)[1..] == WithoutOwner(owners[1..], handle);
      }
    }
  }

  lemma {:induction false} WithoutOwnerKeys(owners: seq<Owner>, handle: nat)
    requires DistinctKeys(owners)
    ensures forall i :: 0 <= i < |WithoutOwner(owners, handle)| ==> WithoutOwner(owners, handle)[i] in owners
    ensures DistinctKeys(WithoutOwner(owners, handle))
  {
    if owners != [] {
      WithoutOwnerKeys(owners[1..], handle);
    }
  }

  lemma RemoveKeepsTallies(s: State, handle: nat, c: Callback)
    requires Inv(s)
    ensures var n := Next(s, Remove(handle));
            && Tally(n.index, c) == Tally(n.live, c) + Tally(n.loading, c) + Count(n.orphans, c)
            && Count(n.registered, c) == Tally(n.index, c) + Count(n.freed, c)
  {
    hide Filed, RemovePlugin, RemoveAll, CallbacksOf, WithoutOwner, Tally, Count;
    var cs := CallbacksOf(s.live, handle);
    RemovePluginIs(s, handle, s.live, []);
    RemoveAllKeeps(s, cs);
    assert [] + WithoutOwner(s.live, handle) == WithoutOwner(s.live, handle);
    TallyWithoutOwner(s.live, handle, c);
    CountPositive(cs, c);
    RegisteredOnce(s.registered, c);
  }

  lemma RemoveKeepsInv(s: State, handle: nat)
    requires Inv(s)
    ensures Inv(Next(s, Remove(handle)))
  {
    hide Filed, RemovePlugin, RemoveAll, CallbacksOf, WithoutOwner, Tally, Count;
    RemovePluginIs(s, handle, s.live, []);
    RemoveAllKeeps(s, CallbacksOf(s.live, handle));
    assert [] + WithoutOwner(s.live, handle) == WithoutOwner(s.live, handle);
    forall c
      ensures var n := Next(s, Remove(handle));
              && Tally(n.index, c) == Tally(n.live, c) + Tally(n.loading, c) + Count(n.orphans, c)
              && Count(n.registered, c) == Tally(n.index, c) + Count(n.freed, c)
    {
      RemoveKeepsTallies(s, handle, c);
    }
    WithoutOwnerKeys(s.live, handle);
  }

  // ---- Loading ----

  lemma TallyOfOneMore(hs: seq<Owner>, h: Owner, c: Callback)
    ensures Tally(hs + [h], c) == Tally(hs, c) + Count(h.callbacks, c)
  {
    TallyOfJoin(hs, [h], c);
    assert Tally([h][1..], c) == 0;
  }

  lemma BeginLoadKeepsInv(s: State)
    requires Inv(s)
    ensures Inv(Next(s, BeginLoad))
  {
    forall c
      ensures Tally(s.loading + [Holder(s.next, [])], c) == Tally(s.loading, c)
    {
      TallyOfOneMore(s.loading, Holder(s.next, []), c);
    }
  }

  lemma EndLoadKeepsInv(s: State, ok: bool)
    requires Inv(s)
    ensures Inv(Next(s, EndLoad(ok)))
  {
    if s.loading != [] {
      var n := Next(s, EndLoad(ok));
      var k := |s.loading| - 1;
      var last := s.loading[k];
      assert s.loading == s.loading[..k] + [last];
      forall c
        ensures Tally(n.index, c) == Tally(n.live, c) + Tally(n.loading, c) + Count(n.orphans, c)
      {
        TallyOfOneMore(s.loading[..k], last, c);
        TallyOfOneMore(s.live, last, c);
        CountOfJoin(s.orphans, last.callbacks, c);
      }
    }
  }

  // ---- Main results, for every sequence of operations ----

  lemma NextKeepsInv(s: State, op: Op)
    requires Inv(s)
    ensures Inv(Next(s, op))
  {
    match op
    case BeginLoad => BeginLoadKeepsInv(s);
    case Register(_, _, _, _) => RegisterKeepsInv(s, op);
    case EndLoad(ok) => EndLoadKeepsInv(s, ok);
    case Remove(handle) => RemoveKeepsInv(s, handle);
  }

  lemma {:induction false} InvOfRun(ops: seq<Op>)
    ensures Inv(Run(Initial, ops))
  {
    if ops != [] {
      InvOfRun(ops[..|ops| - 1]);
      NextKeepsInv(Run(Initial, ops[..|ops| - 1]), ops[|ops| - 1]);
    }
  }

  /** The callbacks execute_callbacks would walk for an event. */
  function Listeners(index: seq<Bucket>, name: Text): seq<Callback> {
    var i := GetCbIndex(index, name);
    if i >= 0 then index[i].callbacks else []
  }

  lemma ListenersAre(index: seq<Bucket>, name: Text, c: Callback)
    requires Filed(index)
    ensures Ordered(Listeners(index, name))
    ensures c in Listeners(index, name) <==> c.name == name && Holds(index, c)
  {
    var i := GetCbIndex(index, name);
    assert i >= 0 ==> ValidBucket(index[i]);
    if c in Listeners(index, name) {
      assert c in index[i].callbacks;
    }
    if c.name == name && Holds(index, c) {
      var j :| 0 <= j < |index| && c in index[j].callbacks;
      assert ValidBucket(index[j]) && index[j].key == name;
    }
  }

  /** Owned by a plugin in the list or being loaded, or left behind by a failed load. */
  ghost predicate OwnedBySomeone(s: State, c: Callback) {
    Holds(s.live, c) || Holds(s.loading, c) || c in s.orphans
  }

  /**
   * After any operations, the listeners of an event are exactly the callbacks owned
   * under its name, by priority and then in order of registration.
   */
  lemma IndexAgrees(ops: seq<Op>, name: Text, c: Callback)
    ensures var s := Run(Initial, ops);
            && Ordered(Listeners(s.index, name))
            && (c in Listeners(s.index, name) <==> c.name == name && OwnedBySomeone(s, c))
  {
    var s := Run(Initial, ops);
    InvOfRun(ops);
    ListenersAre(s.index, name, c);
    TallyPositive(s.index, c);
    TallyPositive(s.live, c);
    TallyPositive(s.loading, c);
    CountPositive(s.orphans, c);
  }

  lemma HasElement(s: seq<Callback>)
    requires s != []
    ensures exists c :: c in s
  {
    assert s[0] in s;
  }

  /** Order and contents leave no choice: this is the only such list. */
  lemma {:induction false} OrderedIsUnique(s: seq<Callback>, t: seq<Callback>)
    requires Ordered(s) && Ordered(t) && forall c :: c in s <==> c in t
    ensures s == t
  {
    if s == [] {
      if t != [] {
        HasElement(t);
      }
    } else if t == [] {
      HasElement(s);
    } else {
      assert s[0] in t && t[0] in s;
      assert s[0] == t[0];
      forall c
        ensures c in s[1..] <==> c in t[1..]
      {
        assert c in s <==> c == s[0] || c in s[1..];
        assert c in t <==> c == t[0] || c in t[1..];
      }
      OrderedIsUnique(s[1..], t[1..]);
      assert s == [s[0]] + s[1..] && t == [t[0]] + t[1..];
    }
  }

  /**
   * Removing a plugin takes exactly its callbacks out of every event, frees each of them
   * once, and leaves all others in place and order.
   */
  lemma RemovalIsExact(ops: seq<Op>, handle: nat, name: Text, c: Callback)
    ensures var s := Run(Initial, ops);
            var n := Next(s, Remove(handle));
            var cs := CallbacksOf(s.live, handle);
            && Ordered(Listeners(n.index, name))
            && (c in Listeners(n.index, name) <==> c in Listeners(s.index, name) && c !in cs)
            && Count(n.freed, c) == Count(s.freed, c) + (if c in cs then 1 else 0)
            && Count(n.freed, c) <= 1
  {
    var s := Run(Initial, ops);
    var cs := CallbacksOf(s.live, handle);
    InvOfRun(ops);
    RemoveKeepsInv(s, handle);
    RemovePluginIs(s, handle, s.live, []);
    RemoveAllKeeps(s, cs);
    var n := Next(s, Remove(handle));
    ListenersAre(s.index, name, c);
    ListenersAre(n.index, name, c);
    TallyPositive(s.index, c);
    TallyPositive(n.index, c);
    TallyWithoutOwner(s.live, handle, c);
    CountPositive(cs, c);
    RegisteredOnce(s.registered, c);
  }

  lemma ListenersIndexed(index: seq<Bucket>, c: Callback, name: Text)
    requires Filed(index)
    ensures Listeners(IndexCallback(index, c), name)
              == if name == c.name then Inserted(Listeners(index, name), c) else Listeners(index, name)
  {
    var i := GetCbIndex(index, c.name);
    var n := IndexCallback(index, c);
    assert i >= 0 ==> ValidBucket(index[i]);
    if i >= 0 {
      SortInserts(index[i].callbacks, c);
    }
    var j := GetCbIndex(index, name);
    assert j >= 0 ==> n[j].key == name;
    assert i < 0 ==> n[|index|].key == c.name;
  }

  lemma {:induction false} CallbacksAdded(owners: seq<Owner>, handle: nat, c: Callback)
    requires Owns(owners, handle)
    ensures CallbacksOf(AddTo(owners, handle, c), handle) == CallbacksOf(owners, handle) + [c]
  {
    assert AddTo(owners, handle, c)[1..] == AddTo(owners[1..], handle, c);
    if owners[0].key != handle {
      var i :| 0 <= i < |owners| && owners[i].key == handle;
      assert owners[1..][i - 1].key == handle;
      CallbacksAdded(owners[1..], handle, c);
    }
  }

  /**
   * A registration puts one new callback at the end of its plugin's list and behind the
   * listeners of its own or a lower priority, and touches no other event.
   */
  lemma {:induction false} RegistrationIsExact(ops: seq<Op>, handle: nat, name: Text, func: nat, priority: int,
                                               event: Text)
    requires var s := Run(Initial, ops); Owns(s.live, handle) || Owns(s.loading, handle)
    ensures var s := Run(Initial, ops);
            var n := Next(s, Register(handle, name, func, priority));
            var c := Callback(s.next, name, priority, func);
            && Listeners(n.index, event)
                 == (if event == name then Inserted(Listeners(s.index, name), c) else Listeners(s.index, event))
            && (Owns(s.live, handle) ==> CallbacksOf(n.live, handle) == CallbacksOf(s.live, handle) + [c])
            && (Owns(s.loading, handle) ==> CallbacksOf(n.loading, handle) == CallbacksOf(s.loading, handle) + [c])
            && Count(s.registered, c) == 0
  {
    var s := Run(Initial, ops);
    var c := Callback(s.next, name, priority, func);
    InvOfRun(ops);
    ListenersIndexed(s.index, c, event);
    CountPositive(s.registered, c);
    if Owns(s.live, handle) {
      CallbacksAdded(s.live, handle, c);
    }
    if Owns(s.loading, handle) {
      CallbacksAdded(s.loading, handle, c);
    }
  }

  // ---- Places in the plugin list ----

  /** The plugins in front keep their places, whatever else happens to the list. */
  ghost predicate Extends(live: seq<Owner>, more: seq<Owner>) {
    |live| <= |more| && forall i :: 0 <= i < |live| ==> more[i].key == live[i].key
  }

  lemma {:induction false} PlacesStay(ops: seq<Op>, more: seq<Op>)
    requires forall k :: 0 <= k < |more| ==> !more[k].Remove?
    ensures Extends(Run(Initial, ops).live, Run(Initial, ops + more).live)
    decreases |more|
  {
    if more == [] {
      assert ops + more == ops;
    } else {
      var n := |more| - 1;
      PlacesStay(ops, more[..n]);
      assert (ops + more)[..|ops + more| - 1] == ops + more[..n] && (ops + more)[|ops + more| - 1] == more[n];
    }
  }

  /**
   * A plugin whose load ends well goes behind all others, with all it registered, and keeps
   * that place, through further loads and registrations, until a plugin is removed. One
   * whose load fails takes no place.
   */
  lemma {:induction false} LoadJoinsLast(ops: seq<Op>, ok: bool, more: seq<Op>)
    requires Run(Initial, ops).loading != []
    requires forall k :: 0 <= k < |more| ==> !more[k].Remove?
    ensures var s, n := Run(Initial, ops), Run(Initial, ops + [EndLoad(ok)]);
            var last := s.loading[|s.loading| - 1];
            && n.live == s.live + (if ok then [last] else [])
            && n.loading + [last] == s.loading
            && Extends(n.live, Run(Initial, ops + [EndLoad(ok)] + more).live)
  {
    assert (ops + [EndLoad(ok)])[..|ops|] == ops;
    PlacesStay(ops + [EndLoad(ok)], more);
  }

  /** While no load begins or ends, the plugin whose load began last is the innermost. */
  lemma {:induction false} InnermostIsLast(ops: seq<Op>, mid: seq<Op>)
    requires forall k :: 0 <= k < |mid| ==> mid[k].Register? || mid[k].Remove?
    ensures var s, n := Run(Initial, ops), Run(Initial, ops + [BeginLoad] + mid);
            && |n.loading| == |s.loading| + 1
            && n.loading[|s.loading|].key == s.next
            && forall i :: 0 <= i < |s.loading| ==> n.loading[i].key == s.loading[i].key
    decreases |mid|
  {
    var all := ops + [BeginLoad] + mid;
    if mid == [] {
      assert all == ops + [BeginLoad] && all[..|ops|] == ops;
    } else {
      var n := |mid| - 1;
      InnermostIsLast(ops, mid[..n]);
      assert all[..|all| - 1] == ops + [BeginLoad] + mid[..n] && all[|all| - 1] == mid[n];
      LoadingStays(Run(Initial, ops + [BeginLoad] + mid[..n]), mid[n]);
    }
  }

  lemma LoadingStays(s: State, op: Op)
    requires op.Register? || op.Remove?
    ensures Extends(s.loading, Next(s, op).loading) && |Next(s, op).loading| == |s.loading|
  {
    if op.Remove? {
      RemoveKeepsLoading(s, op.handle, s.live, []);
    }
  }

  lemma {:induction false} RemoveKeepsLoading(s: State, handle: nat, live: seq<Owner>, kept: seq<Owner>)
    ensures RemovePlugin(s, handle, live, kept).loading == s.loading
    decreases |live|
  {
    if live != [] {
      if live[0].key == handle {
        RemoveAllKeepsLoading(s, live[0].callbacks);
        RemoveKeepsLoading(RemoveAll(s, live[0].callbacks), handle, live[1..], kept);
      } else {
        RemoveKeepsLoading(s, handle, live[1..], kept + [live[0]]);
      }
    }
  }

  lemma {:induction false} RemoveAllKeepsLoading(s: State, cs: seq<Callback>)
    ensures RemoveAll(s, cs).loading == s.loading
    decreases |cs|
  {
    if cs != [] {
      var m := s.(index := RemoveIndex(s.index, cs[0]), freed := s.freed + Freed(s.index, cs[0]));
      RemoveAllKeepsLoading(m, cs[1..]);
    }
  }

  // ---- Failed loads ----

  /** No init function failed after it had registered a callback. */
  ghost predicate CleanLoads(ops: seq<Op>) {
    forall k :: 0 <= k < |ops| && ops[k] == EndLoad(false) ==> EndsClean(Run(Initial, ops[..k]))
  }

  predicate EndsClean(s: State) {
    s.loading == [] || s.loading[|s.loading| - 1].callbacks == []
  }

  lemma OrphansGrow(s: State, op: Op)
    requires Inv(s)
    ensures Next(s, op).orphans == [] <==> s.orphans == [] && (op == EndLoad(false) ==> EndsClean(s))
  {
    if op.Remove? {
      RemovePluginIs(s, op.handle, s.live, []);
      RemoveAllKeeps(s, CallbacksOf(s.live, op.handle));
    }
  }

  lemma {:induction false} OrphansOfRun(ops: seq<Op>)
    ensures Run(Initial, ops).orphans == [] <==> CleanLoads(ops)
  {
    hide Inv, Next, EndsClean, CleanLoads;
    if ops == [] {
      CleanSoFar();
    } else {
      var k := |ops| - 1;
      OrphansOfRun(ops[..k]);
      InvOfRun(ops[..k]);
      OrphansGrow(Run(Initial, ops[..k]), ops[k]);
      CleanOneMore(ops, k);
    }
  }

  lemma CleanSoFar()
    ensures CleanLoads([])
  {
  }

  lemma CleanOneMore(ops: seq<Op>, k: nat)
    requires |ops| == k + 1
    ensures CleanLoads(ops) <==>
            CleanLoads(ops[..k]) && (ops[k] == EndLoad(false) ==> EndsClean(Run(Initial, ops[..k])))
  {
    hide Run, EndsClean;
    assert forall i :: 0 <= i < k ==> ops[..k][i] == ops[i] && ops[..k][..i] == ops[..i];
  }

  /**
   * The index agrees with the plugin list alone exactly when every load that failed had
   * registered nothing: what it did register stays indexed with no owner.
   */
  lemma AgreesWithLiveIffCleanLoads(ops: seq<Op>)
    requires Run(Initial, ops).loading == []
    ensures var s := Run(Initial, ops);
            (forall c :: Tally(s.index, c) == Tally(s.live, c)) <==> CleanLoads(ops)
  {
    var s := Run(Initial, ops);
    InvOfRun(ops);
    OrphansOfRun(ops);
    if s.orphans != [] {
      assert Count(s.orphans, s.orphans[0]) > 0;
      assert Tally(s.index, s.orphans[0]) != Tally(s.live, s.orphans[0]);
    }
  }

  // ---- Runs of single loads ----

  lemma RunOneMore(ops: seq<Op>, op: Op)
    ensures Run(Initial, ops + [op]) == Next(Run(Initial, ops), op)
  {
    assert (ops + [op])[..|ops|] == ops;
  }

  /** A plugin is loaded with one callback for the event named by the empty text. */
  lemma LoadOne(before: seq<Op>, priority: int) returns (ops: seq<Op>, c: Callback)
    requires var s := Run(Initial, before); s.loading == [] && !Owns(s.live, s.next)
    ensures var s, n := Run(Initial, before), Run(Initial, ops);
            && c == Callback(s.next + 1, [], priority, 0)
            && n.loading == [] && n.next == s.next + 2
            && n.live == s.live + [Holder(s.next, [c])] && n.index == IndexCallback(s.index, c)
  {
    var s := Run(Initial, before);
    var register := Register(s.next, [], 0, priority);
    c := RegisterOne(s, priority);
    RunOneMore(before, BeginLoad);
    RunOneMore(before + [BeginLoad], register);
    RunOneMore(before + [BeginLoad] + [register], EndLoad(true));
    ops := before + [BeginLoad] + [register] + [EndLoad(true)];
  }

  lemma RegisterOne(s: State, priority: int) returns (c: Callback)
    requires s.loading == [] && !Owns(s.live, s.next)
    ensures c == Callback(s.next + 1, [], priority, 0)
    ensures var n := Next(Next(s, BeginLoad), Register(s.next, [], 0, priority));
            && n.loading == [Holder(s.next, [c])] && n.live == s.live && n.next == s.next + 2
            && n.index == IndexCallback(s.index, c)
  {
    c := Callback(s.next + 1, [], priority, 0);
    var begun := Next(s, BeginLoad);
    assert begun.loading == [Holder(s.next, [])] && begun.loading[0].key == s.next;
    assert Owns(begun.loading, s.next) && begun.loading[0].callbacks + [c] == [c];
    assert AddTo(begun.loading, s.next, c) == [Holder(s.next, [c])];
    assert AddTo(s.live, s.next, c) == s.live;
  }

  /** A plugin is loaded with two callbacks for that event. */
  lemma LoadTwice() returns (ops: seq<Op>)
    ensures var s := Run(Initial, ops); |s.live| == 1 && |Listeners(s.index, [])| == 2
  {
    hide Sort;
    var register := Register(0, [], 0, 0);
    var c := RegisterOne(Initial, 0);
    assert Run(Initial, []) == Initial;
    RunOneMore([], BeginLoad);
    RunOneMore([] + [BeginLoad], register);
    RunOneMore([] + [BeginLoad] + [register], register);
    RunOneMore([] + [BeginLoad] + [register] + [register], EndLoad(true));
    ops := [] + [BeginLoad] + [register] + [register] + [EndLoad(true)];
    var s := Run(Initial, [] + [BeginLoad] + [register]);
    assert Owns(s.loading, 0) && s.index == [Holder([], [c])];
    SortInserts([c], Callback(2, [], 0, 0));
  }

  /** An init function registers a callback and fails: the callback is indexed and no plugin owns it. */
  lemma OrphanIsReachable() returns (ops: seq<Op>, c: Callback)
    ensures var s := Run(Initial, ops);
            s.live == [] && s.loading == [] && Listeners(s.index, []) == [c] && s.orphans == [c] && !CleanLoads(ops)
  {
    var register := Register(0, [], 0, 0);
    c := RegisterOne(Initial, 0);
    assert Run(Initial, []) == Initial;
    RunOneMore([], BeginLoad);
    RunOneMore([] + [BeginLoad], register);
    RunOneMore([] + [BeginLoad] + [register], EndLoad(false));
    ops := [] + [BeginLoad] + [register] + [EndLoad(false)];
    OrphansOfRun(ops);
  }
}
