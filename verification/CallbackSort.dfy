// The order of callbacks within one event (plugin_handler.c): the library's merge sort
// under a comparator that never answers "less".

module CallbackSort {
  import opened CString

  /** A registered callback; `addr` is its address, which grows with each registration. */
  datatype Callback = Callback(addr: nat, name: Text, priority: int, func: nat)

  /** compare_index: 1 for greater, 0 otherwise. */
  function CompareIndex(a: Callback, b: Callback): int {
    if a.priority > b.priority then 1 else 0
  }

  function Merge(a: seq<Callback>, b: seq<Callback>): seq<Callback> {
    if a == [] then b
    else if b == [] then a
    else if CompareIndex(a[0], b[0]) <= 0 then [a[0]] + Merge(a[1..], b)
    else [b[0]] + Merge(a, b[1..])
  }

  /** qsort as glibc does it when memory allows: halve, sort, merge from the left. */
  function Sort(s: seq<Callback>): seq<Callback>
    decreases |s|
  {
    if |s| <= 1 then s else Merge(Sort(s[..|s| / 2]), Sort(s[|s| / 2..]))
  }

  ghost predicate Sorted(s: seq<Callback>) {
    forall i, j :: 0 <= i < j < |s| ==> s[i].priority <= s[j].priority
  }

  /** The callbacks of one priority, in order. */
  function OfPriority(s: seq<Callback>, p: int): seq<Callback> {
    if s == [] then []
    else (if s[0].priority == p then [s[0]] else []) + OfPriority(s[1..], p)
  }

  /** Rearranged, with each priority's callbacks still in the order they had. */
  ghost predicate StablePermutation(s: seq<Callback>, t: seq<Callback>) {
    multiset(s) == multiset(t) && forall p :: OfPriority(s, p) == OfPriority(t, p)
  }

  lemma HeadOfPriority(s: seq<Callback>, p: int)
    requires s != []
    ensures s[0].priority == p ==> OfPriority(s, p) == [s[0]] + OfPriority(s[1..], p)
    ensures s[0].priority != p ==> OfPriority(s, p) == OfPriority(s[1..], p)
  {
  }

  lemma {:induction false} OfPriorityOfJoin(a: seq<Callback>, b: seq<Callback>, p: int)
    ensures OfPriority(a + b, p) == OfPriority(a, p) + OfPriority(b, p)
  {
    if a == [] {
      assert a + b == b;
    } else {
      OfPriorityOfJoin(a[1..], b, p);
      assert (a + b)[0] == a[0] && (a + b)[1..] == a[1..] + b;
      HeadOfPriority(a, p);
      HeadOfPriority(a + b, p);
      hide OfPriority;
      Regroup([], [a[0]], OfPriority(a[1..], p), OfPriority(b, p));
    }
  }

  lemma {:induction false} NoneOfPriority(s: seq<Callback>, p: int)
    requires forall i :: 0 <= i < |s| ==> s[i].priority != p
    ensures OfPriority(s, p) == []
  {
    if s != [] {
      NoneOfPriority(s[1..], p);
    }
  }

  lemma {:induction false} MergeIsStable(a: seq<Callback>, b: seq<Callback>, p: int)
    requires Sorted(a) && Sorted(b)
    ensures OfPriority(Merge(a, b), p) == OfPriority(a, p) + OfPriority(b, p)
  {
    if a != [] && b != [] {
      if CompareIndex(a[0], b[0]) <= 0 {
        MergeIsStable(a[1..], b, p);
      } else {
        MergeIsStable(a, b[1..], p);
        if b[0].priority == p {
          NoneOfPriority(a, p);
        }
      }
    }
  }

  /** Nothing in `s` sorts before `c`. */
  ghost predicate AtMost(c: Callback, s: seq<Callback>) {
    forall i :: 0 <= i < |s| ==> c.priority <= s[i].priority
  }

  lemma {:induction false} MergeAtMost(c: Callback, a: seq<Callback>, b: seq<Callback>)
    requires AtMost(c, a) && AtMost(c, b)
    ensures AtMost(c, Merge(a, b))
  {
    if a != [] && b != [] {
      if CompareIndex(a[0], b[0]) <= 0 {
        MergeAtMost(c, a[1..], b);
      } else {
        MergeAtMost(c, a, b[1..]);
      }
    }
  }

  lemma SortedCons(c: Callback, s: seq<Callback>)
    requires Sorted(s) && AtMost(c, s)
    ensures Sorted([c] + s)
  {
  }

  lemma {:induction false} MergeIsSorted(a: seq<Callback>, b: seq<Callback>)
    requires Sorted(a) && Sorted(b)
    ensures Sorted(Merge(a, b))
  {
    if a != [] && b != [] {
      if CompareIndex(a[0], b[0]) <= 0 {
        MergeIsSorted(a[1..], b);
        MergeAtMost(a[0], a[1..], b);
        SortedCons(a[0], Merge(a[1..], b));
      } else {
        MergeIsSorted(a, b[1..]);
        MergeAtMost(b[0], a, b[1..]);
        SortedCons(b[0], Merge(a, b[1..]));
      }
    }
  }

  lemma {:induction false} MergeIsPermutation(a: seq<Callback>, b: seq<Callback>)
    ensures multiset(Merge(a, b)) == multiset(a) + multiset(b)
  {
    if a != [] && b != [] {
      assert a == [a[0]] + a[1..] && b == [b[0]] + b[1..];
      if CompareIndex(a[0], b[0]) <= 0 {
        MergeIsPermutation(a[1..], b);
      } else {
        MergeIsPermutation(a, b[1..]);
      }
    }
  }

  /** The one-sided comparator is enough: the result is sorted and the sort is stable. */
  lemma {:induction false} SortIsStable(s: seq<Callback>)
    ensures Sorted(Sort(s)) && StablePermutation(s, Sort(s))
    decreases |s|
  {
    if |s| > 1 {
      var a, b := s[..|s| / 2], s[|s| / 2..];
      assert s == a + b;
      SortIsStable(a);
      SortIsStable(b);
      MergeIsSorted(Sort(a), Sort(b));
      MergeIsPermutation(Sort(a), Sort(b));
      forall p
        ensures OfPriority(s, p) == OfPriority(Sort(s), p)
      {
        OfPriorityOfJoin(a, b, p);
        MergeIsStable(Sort(a), Sort(b), p);
      }
    }
  }

  lemma FirstOfSorted(s: seq<Callback>, t: seq<Callback>)
    requires Sorted(s) && Sorted(t) && s != [] && t != []
    requires forall p :: OfPriority(s, p) == OfPriority(t, p)
    ensures s[0] == t[0]
  {
    hide OfPriority;
    var p, q := s[0].priority, t[0].priority;
    HeadOfPriority(s, p);
    HeadOfPriority(t, q);
    assert OfPriority(s, p) == OfPriority(t, p) && OfPriority(s, q) == OfPriority(t, q);
    if p < q {
      NoneOfPriority(t, p);
    } else if q < p {
      NoneOfPriority(s, q);
    } else {
      assert OfPriority(s, p)[0] == s[0] && OfPriority(t, p)[0] == t[0];
    }
  }

  lemma TailOfPriority(s: seq<Callback>, t: seq<Callback>, p: int)
    requires s != [] && t != [] && s[0] == t[0] && OfPriority(s, p) == OfPriority(t, p)
    ensures OfPriority(s[1..], p) == OfPriority(t[1..], p)
  {
    HeadOfPriority(s, p);
    HeadOfPriority(t, p);
    if s[0].priority == p {
      assert OfPriority(s, p)[1..] == OfPriority(s[1..], p);
      assert OfPriority(t, p)[1..] == OfPriority(t[1..], p);
    }
  }

  /** Sorted and stable says it all: there is one such arrangement. */
  lemma {:induction false} SortedIsUnique(s: seq<Callback>, t: seq<Callback>)
    requires Sorted(s) && Sorted(t) && |s| == |t|
    requires forall p :: OfPriority(s, p) == OfPriority(t, p)
    ensures s == t
  {
    if s != [] {
      FirstOfSorted(s, t);
      forall p
        ensures OfPriority(s[1..], p) == OfPriority(t[1..], p)
      {
        TailOfPriority(s, t, p);
      }
      SortedIsUnique(s[1..], t[1..]);
      assert s == [s[0]] + s[1..] && t == [t[0]] + t[1..];
    }
  }

  /** How many callbacks at the front may stay in front of one of priority `p`. */
  function NotAbove(s: seq<Callback>, p: int): (n: nat)
    ensures n <= |s|
    ensures forall i :: 0 <= i < n ==> s[i].priority <= p
    ensures n < |s| ==> s[n].priority > p
  {
    if s == [] || s[0].priority > p then 0 else 1 + NotAbove(s[1..], p)
  }

  /** `c` placed behind every callback of its own or a lower priority. */
  function Inserted(s: seq<Callback>, c: Callback): seq<Callback> {
    var n := NotAbove(s, c.priority);
    s[..n] + [c] + s[n..]
  }

  lemma InsertedIsSorted(s: seq<Callback>, c: Callback)
    requires Sorted(s)
    ensures Sorted(Inserted(s, c)) && |Inserted(s, c)| == |s| + 1
  {
  }

  lemma InsertBetween(a: seq<Callback>, c: Callback, b: seq<Callback>, p: int)
    requires forall i :: 0 <= i < |b| ==> b[i].priority != c.priority
    ensures OfPriority(a + [c] + b, p) == OfPriority(a + b + [c], p)
  {
    OfPriorityOfJoin(a + [c], b, p);
    OfPriorityOfJoin(a, [c], p);
    OfPriorityOfJoin(a + b, [c], p);
    OfPriorityOfJoin(a, b, p);
    if p == c.priority {
      NoneOfPriority(b, p);
    } else {
      NoneOfPriority([c], p);
    }
  }

  lemma AboveFrom(s: seq<Callback>, p: int, n: nat)
    requires Sorted(s) && n <= |s| && (n < |s| ==> s[n].priority > p)
    ensures forall i :: 0 <= i < |s[n..]| ==> s[n..][i].priority > p
  {
    assert forall i :: 0 <= i < |s[n..]| ==> s[n..][i] == s[n + i];
  }

  lemma InsertedIsStable(s: seq<Callback>, c: Callback, p: int)
    requires Sorted(s)
    ensures OfPriority(Inserted(s, c), p) == OfPriority(s + [c], p)
  {
    hide OfPriority, Sorted;
    var n := NotAbove(s, c.priority);
    AboveFrom(s, c.priority, n);
    assert s == s[..n] + s[n..];
    InsertBetween(s[..n], c, s[n..], p);
  }

  /** Appending to a sorted list and sorting again inserts behind the equals. */
  lemma SortInserts(s: seq<Callback>, c: Callback)
    requires Sorted(s)
    ensures Sort(s + [c]) == Inserted(s, c)
  {
    SortIsStable(s + [c]);
    InsertedIsSorted(s, c);
    assert |multiset(s + [c])| == |s| + 1;
    forall p
      ensures OfPriority(Sort(s + [c]), p) == OfPriority(Inserted(s, c), p)
    {
      InsertedIsStable(s, c, p);
    }
    SortedIsUnique(Sort(s + [c]), Inserted(s, c));
  }
}
