// bcirc_escape_buf (log.c): runs of '%' are made even so that a received line can
// be used as a printf format.

module Escape {
  import opened CString

  const MAX_LEN := 2048

  /** The escape loop, before its final truncation. */
  function Escaped(s: Text): Text {
    if s == [] then []
    else if s[0] != PERCENT then [s[0]] + Escaped(s[1..])
    else [PERCENT, PERCENT] + Escaped(s[if |s| > 1 && s[1] == PERCENT then 2 else 1..])
  }

  /** What the function hands back: its last output character is overwritten by the NUL. */
  function EscapedBuf(s: Text): Text
    requires s != []
  {
    var e := Escaped(s);
    if e == [] then [] else e[..|e| - 1]
  }

  /** A fault is the write in front of the copy when there is nothing in it. */
  datatype Escaping = Done(text: Text) | TooLong | Fault

  /**
   * bcirc_escape_buf, which answers -1 for TooLong: input is left when the 2048-byte copy
   * is full. The last slot of `copy` is the byte behind the buffer, which a '%' in the last
   * place spills into.
   */
  method EscapeBuf(str: Text) returns (r: Escaping)
    requires NUL !in str
    ensures r.Fault? <==> str == []
    ensures r.TooLong? <==>
              |Escaped(str)| > 2049 || (|Escaped(str)| == 2049 && str[|str| - 1] != PERCENT)
    ensures r.Done? ==> r.text == EscapedBuf(str)
  {
    hide Escaped;
    EscapedEnds(str, 0);
    var copy := new Byte[MAX_LEN + 1];
    var i: nat, len: nat := 0, 0;
    assert str[0..] == str;
    while i < |str|
      invariant i <= |str| && len <= MAX_LEN + 1
      invariant i > 0 <==> len > 0
      invariant len > MAX_LEN ==> str[i - 1] == PERCENT
      invariant copy[..len] + Escaped(str[i..]) == Escaped(str)
    {
      EscapedEnds(str, i);
      if len >= MAX_LEN {
        return TooLong;
      }
      ghost var done, i0 := copy[..len], i;
      copy[len] := str[i];
      len := len + 1;
      if str[i] == PERCENT {
        copy[len] := PERCENT;
        len := len + 1;
        if i + 1 < |str| && str[i + 1] == PERCENT {
          i := i + 1;
        }
      }
      i := i + 1;
      assert copy[..len] == done + Unit(str, i0);
      EscapedUnit(str, i0, done);
    }
    EscapedEnds(str, i);
    if len == 0 {
      return Fault;
    }
    copy[len - 1] := NUL;
    assert copy[..len - 1] == Escaped(str)[..len - 1];
    return Done(copy[..len - 1]);
  }

  /** What is left to escape is one byte exactly when it is one, and not '%'. */
  lemma EscapedEnds(s: Text, i: nat)
    requires i <= |s|
    ensures Escaped(s[i..]) == [] <==> i == |s|
    ensures i < |s| && |Escaped(s[i..])| == 1 ==> i == |s| - 1 && s[i] != PERCENT
  {
    if i + 1 < |s| {
      assert s[i..][1..] == s[i + 1..];
      EscapedNotEmpty(s[i + 1..]);
    }
  }

  /** What one turn of the loop at `s[i]` writes, and how much it reads. */
  function Unit(s: Text, i: nat): Text
    requires i < |s|
  {
    if s[i] == PERCENT then [PERCENT, PERCENT] else [s[i]]
  }

  lemma EscapedUnit(s: Text, i: nat, done: Text)
    requires i < |s|
    ensures var k := if s[i] == PERCENT && i + 1 < |s| && s[i + 1] == PERCENT then 2 else 1;
            done + Escaped(s[i..]) == (done + Unit(s, i)) + Escaped(s[i + k..])
  {
    var k := if s[i] == PERCENT && i + 1 < |s| && s[i + 1] == PERCENT then 2 else 1;
    assert s[i..][k..] == s[i + k..];
    assert Escaped(s[i..]) == Unit(s, i) + Escaped(s[i + k..]);
  }

  lemma EscapedNotEmpty(s: Text)
    requires s != []
    ensures Escaped(s) != []
  {
  }

  // ---- Shape and size ----

  /** `t[i..j]` is a maximal run of '%'. */
  ghost predicate PercentRun(t: Text, i: nat, j: nat) {
    && i < j <= |t|
    && (forall k :: i <= k < j ==> t[k] == PERCENT)
    && (i > 0 ==> t[i - 1] != PERCENT)
    && (j < |t| ==> t[j] != PERCENT)
  }

  ghost predicate EvenRuns(t: Text) {
    forall i: nat, j: nat :: PercentRun(t, i, j) ==> (j - i) % 2 == 0
  }

  /** The same, by walking the text: every '%' is followed by its twin. */
  predicate Paired(t: Text) {
    t == [] || if t[0] == PERCENT then |t| > 1 && t[1] == PERCENT && Paired(t[2..]) else Paired(t[1..])
  }

  lemma {:induction false} EscapedIsPaired(s: Text)
    ensures Paired(Escaped(s))
    decreases |s|
  {
    if s != [] {
      if s[0] != PERCENT {
        EscapedIsPaired(s[1..]);
        assert Escaped(s)[1..] == Escaped(s[1..]);
      } else {
        var rest := s[if |s| > 1 && s[1] == PERCENT then 2 else 1..];
        EscapedIsPaired(rest);
        assert Escaped(s)[2..] == Escaped(rest);
      }
    }
  }

  lemma {:induction false} PairedRunIsEven(t: Text, i: nat, j: nat)
    requires Paired(t) && PercentRun(t, i, j)
    ensures (j - i) % 2 == 0
    decreases |t|
  {
    if t[0] != PERCENT {
      PairedRunIsEven(t[1..], i - 1, j - 1);
    } else if i == 0 {
      if j > 2 {
        PairedRunIsEven(t[2..], 0, j - 2);
      }
    } else {
      PairedRunIsEven(t[2..], i - 2, j - 2);
    }
  }

  lemma {:induction false} PairedIsFixed(t: Text)
    requires Paired(t)
    ensures Escaped(t) == t
    decreases |t|
  {
    if t != [] {
      if t[0] == PERCENT {
        PairedIsFixed(t[2..]);
        assert t == [PERCENT, PERCENT] + t[2..];
      } else {
        PairedIsFixed(t[1..]);
        assert t == [t[0]] + t[1..];
      }
    }
  }

  /** Every run of '%' in the output has even length. */
  lemma EscapedHasEvenRuns(s: Text)
    ensures EvenRuns(Escaped(s))
  {
    EscapedIsPaired(s);
    forall i: nat, j: nat | PercentRun(Escaped(s), i, j)
      ensures (j - i) % 2 == 0
    {
      PairedRunIsEven(Escaped(s), i, j);
    }
  }

  /** Escaping is idempotent, and its fixed points are the texts whose runs are even. */
  lemma EscapedIsIdempotent(s: Text)
    ensures Escaped(Escaped(s)) == Escaped(s)
    ensures Escaped(s) == s <==> EvenRuns(s)
  {
    EscapedIsPaired(s);
    PairedIsFixed(Escaped(s));
    EscapedHasEvenRuns(s);
    if EvenRuns(s) {
      EvenRunsArePaired(s);
      PairedIsFixed(s);
    }
  }

  /** The length of the run of '%' at the front. */
  function LeadingRun(t: Text): (n: nat)
    ensures n <= |t| && (forall k :: 0 <= k < n ==> t[k] == PERCENT) && (n < |t| ==> t[n] != PERCENT)
  {
    if t != [] && t[0] == PERCENT then 1 + LeadingRun(t[1..]) else 0
  }

  lemma {:induction false} EvenRunsArePaired(t: Text)
    requires EvenRuns(t)
    ensures Paired(t)
    decreases |t|
  {
    if t != [] {
      if t[0] == PERCENT {
        var n := LeadingRun(t);
        assert PercentRun(t, 0, n);
        EvenRunsFrom(t, 2);
        EvenRunsArePaired(t[2..]);
      } else {
        EvenRunsFrom(t, 1);
        EvenRunsArePaired(t[1..]);
      }
    }
  }

  lemma EvenRunsFrom(t: Text, k: nat)
    requires EvenRuns(t) && k <= |t|
    requires (k == 1 && t[0] != PERCENT) || (k == 2 && t[0] == t[1] == PERCENT)
    ensures EvenRuns(t[k..])
  {
    forall i: nat, j: nat | PercentRun(t[k..], i, j)
      ensures (j - i) % 2 == 0
    {
      assert forall m :: i <= m < j ==> t[k + m] == t[k..][m];
      if k == 2 && i == 0 {
        assert PercentRun(t, 0, j + 2);
      } else {
        assert PercentRun(t, i + k, j + k);
      }
    }
  }

  lemma {:induction false} EscapedLength(s: Text)
    ensures |Escaped(s)| <= (3 * |s| + 1) / 2
    decreases |s|
  {
    if s != [] {
      if s[0] != PERCENT {
        EscapedLength(s[1..]);
      } else if |s| > 1 {
        EscapedLength(s[2..]);
        assert s[1..][1..] == s[2..];
      }
    }
  }

  /** '%' and another byte by turns: the input that grows most. */
  function Alternating(n: nat): (s: Text)
    ensures |s| == n
  {
    if n == 0 then [] else if n == 1 then [PERCENT] else [PERCENT, SPACE] + Alternating(n - 2)
  }

  /** The bound is attained at every length. */
  lemma {:induction false} EscapedLengthIsTight(n: nat)
    ensures |Escaped(Alternating(n))| == (3 * n + 1) / 2
  {
    if n > 1 {
      EscapedLengthIsTight(n - 2);
      var s := Alternating(n);
      assert s[2..] == Alternating(n - 2) && s[1..][1..] == s[2..];
    }
  }

  // ---- Escaping and concatenation ----

  /** A byte other than '%' breaks a run: both sides escape apart. */
  lemma {:induction false} EscapedSplit(a: Text, c: Byte, b: Text)
    requires c != PERCENT
    ensures Escaped(a + [c] + b) == Escaped(a) + [c] + Escaped(b)
    decreases |a|
  {
    var s := a + [c] + b;
    if a == [] {
      assert s[1..] == b;
    } else {
      var k := if a[0] == PERCENT && |a| > 1 && a[1] == PERCENT then 2 else 1;
      assert s[k..] == a[k..] + [c] + b;
      assert |a| > 1 ==> s[1] == a[1];
      EscapedSplit(a[k..], c, b);
    }
  }

  /** `n` times '%'. */
  function Percents(n: nat): Text {
    seq(n, _ => PERCENT)
  }

  /** A run of '%' becomes the next even one; with EscapedSplit this says what every text becomes. */
  lemma {:induction false} EscapedOfRun(n: nat)
    ensures Escaped(Percents(n)) == Percents(n + n % 2)
  {
    var s := Percents(n);
    if n == 1 {
      assert s[1..] == [] && Escaped(s) == [PERCENT, PERCENT] + Escaped([]);
    } else if n > 1 {
      assert s[2..] == Percents(n - 2);
      EscapedOfRun(n - 2);
    }
  }

  lemma {:induction false} EscapedFree(s: Text, delims: set<Byte>)
    requires FreeOf(s, delims) && PERCENT !in delims
    ensures FreeOf(Escaped(s), delims)
    decreases |s|
  {
    if s != [] {
      EscapedFree(s[if s[0] == PERCENT && |s| > 1 && s[1] == PERCENT then 2 else 1..], delims);
    }
  }

  lemma {:induction false} EscapedLiteral(s: Text)
    requires PERCENT !in s
    ensures Escaped(s) == s
  {
    if s != [] {
      EscapedLiteral(s[1..]);
      assert s == [s[0]] + s[1..];
    }
  }
}
