// A stream of lines as recv cuts it up: every chunk is escaped, truncated and split by
// itself (server.c).

module Stream {
  import opened Options
  import opened CString
  import opened Escape
  import opened Receiver
  import opened EventParsers
  import opened WireRoundTrip

  predicate ValidChunk(c: Text) {
    0 < |c| <= CHUNK
  }

  ghost predicate ValidChunks(chunks: seq<Text>) {
    forall i :: 0 <= i < |chunks| ==> ValidChunk(chunks[i])
  }

  function Joined(chunks: seq<Text>): Text {
    if chunks == [] then [] else chunks[0] + Joined(chunks[1..])
  }

  /** What ReceiveChunk answers. */
  function HandedOn(c: Text): Option<seq<Text>>
    requires ValidChunk(c)
  {
    if c[0] == NUL then None else Some(Lines(EscapedBuf(CStr(c))))
  }

  /** All the lines handed on, chunk after chunk, unless one of them is a fault. */
  ghost function Received(chunks: seq<Text>): Option<seq<Text>>
    requires ValidChunks(chunks)
  {
    if chunks == [] then Some([])
    else match HandedOn(chunks[0])
      case None => None
      case Some(lines) =>
        match Received(chunks[1..])
        case None => None
        case Some(rest) => Some(lines + rest)
  }

  /** The same for chunks without NUL. */
  ghost function Split(chunks: seq<Text>): seq<Text>
    requires ValidChunks(chunks)
  {
    if chunks == [] then [] else Lines(EscapedBuf(chunks[0])) + Split(chunks[1..])
  }

  ghost predicate NulFree(chunks: seq<Text>) {
    forall i :: 0 <= i < |chunks| ==> FreeOf(chunks[i], {NUL})
  }

  lemma WholeChunk(c: Text)
    requires FreeOf(c, {NUL})
    ensures CStr(c) == c
  {
    FindIs(c, NUL, |c|);
  }

  lemma {:induction false} ReceivedIsSplit(chunks: seq<Text>)
    requires ValidChunks(chunks) && NulFree(chunks)
    ensures Received(chunks) == Some(Split(chunks))
  {
    hide Lines, EscapedBuf;
    if chunks != [] {
      assert FreeOf(chunks[0], {NUL}) && chunks[0][0] != NUL;
      WholeChunk(chunks[0]);
      ReceivedIsSplit(chunks[1..]);
    }
  }

  predicate EndsLine(c: Text) {
    c != [] && c[|c| - 1] in LINE_ENDS
  }

  ghost predicate CutAtLineEnds(chunks: seq<Text>) {
    forall i :: 0 <= i < |chunks| ==> EndsLine(chunks[i])
  }

  // ---- Cut at line ends, nothing is lost ----

  lemma LinesSplitAtEnd(c: Text, rest: Text)
    requires EndsLine(c)
    ensures Lines(c + rest) == Lines(c) + Lines(rest)
  {
    var a, d := c[..|c| - 1], c[|c| - 1];
    assert c == a + [d] && c + rest == a + [d] + rest;
    TokensSplit(a, d, rest, LINE_ENDS);
    LinesDropLineEnd(c);
  }

  lemma {:induction false} SplitWhole(chunks: seq<Text>)
    requires ValidChunks(chunks) && CutAtLineEnds(chunks)
    ensures Split(chunks) == EscapeEach(Lines(Joined(chunks)))
  {
    hide Lines, EscapedBuf, EscapeEach;
    if chunks == [] {
      NothingReceived();
    } else {
      assert EndsLine(chunks[0]);
      ReceivedLines(chunks[0]);
      SplitWhole(chunks[1..]);
      LinesSplitAtEnd(chunks[0], Joined(chunks[1..]));
      EscapeEachOfJoin(Lines(chunks[0]), Lines(Joined(chunks[1..])));
    }
  }

  lemma NothingReceived()
    ensures EscapeEach(Lines([])) == []
  {
  }

  // ---- Cut elsewhere, something is ----

  lemma {:induction false} PairedOfJoin(a: Text, b: Text)
    requires Paired(a) && Paired(b)
    ensures Paired(a + b)
    decreases |a|
  {
    if a == [] {
      assert a + b == b;
    } else {
      var k := if a[0] == PERCENT then 2 else 1;
      PairedOfJoin(a[k..], b);
      assert (a + b)[k..] == a[k..] + b;
    }
  }

  lemma {:induction false} PairedPlusPercent(t: Text)
    requires Paired(t)
    ensures !Paired(t + [PERCENT])
    decreases |t|
  {
    if t != [] {
      var k := if t[0] == PERCENT then 2 else 1;
      PairedPlusPercent(t[k..]);
      assert (t + [PERCENT])[k..] == t[k..] + [PERCENT];
    }
  }

  ghost predicate AllPaired(lines: seq<Text>) {
    forall i :: 0 <= i < |lines| ==> Paired(lines[i])
  }

  lemma AllPairedOfJoin(a: seq<Text>, b: seq<Text>)
    requires AllPaired(a + b)
    ensures AllPaired(a) && AllPaired(b)
  {
    assert forall i :: 0 <= i < |a| ==> (a + b)[i] == a[i];
    assert forall i :: 0 <= i < |b| ==> (a + b)[|a| + i] == b[i];
  }

  lemma WordIsPaired(s: Text)
    requires FreeOf(s, LINE_ENDS) && AllPaired(Lines(s))
    ensures Paired(s)
  {
    TokensOfWord(s, LINE_ENDS);
    if s != [] {
      assert Lines(s)[0] == s;
    }
  }

  lemma {:induction false} LinesArePaired(s: Text)
    requires AllPaired(Lines(s))
    ensures Paired(s)
    decreases |s|
  {
    hide Lines, Paired;
    var n := FirstLineEnd(s);
    if n == |s| {
      assert s[..n] == s;
      WordIsPaired(s);
    } else {
      var a, d, b := s[..n], s[n], s[n + 1..];
      SplitLines(a, d, b);
      AllPairedOfJoin(Lines(a), Lines(b));
      WordIsPaired(a);
      LinesArePaired(b);
      LineEndIsPaired(d);
      PairedOfJoin(a, [d]);
      PairedOfJoin(a + [d], b);
    }
  }

  lemma SplitLines(a: Text, d: Byte, b: Text)
    requires d in LINE_ENDS
    ensures Lines(a + [d] + b) == Lines(a) + Lines(b)
  {
    TokensSplit(a, d, b, LINE_ENDS);
  }

  lemma LineEndIsPaired(d: Byte)
    requires d in LINE_ENDS
    ensures Paired([d])
  {
    assert [d][1..] == [];
  }

  lemma EscapedLinesArePaired(lines: seq<Text>)
    ensures AllPaired(EscapeEach(lines))
  {
    forall i | 0 <= i < |lines|
      ensures Paired(Escaped(lines[i]))
    {
      EscapedIsPaired(lines[i]);
    }
  }

  /** The truncation splits a pair: one of the lines of such a chunk is no escaped line. */
  lemma PercentIsNotLast(c: Text)
    requires c != [] && AllPaired(Lines(EscapedBuf(c)))
    ensures c[|c| - 1] != PERCENT
  {
    hide Lines, Paired, Escaped;
    var e := Escaped(c);
    EscapedKeepsLast(c);
    LinesArePaired(EscapedBuf(c));
    EscapedIsPaired(c);
    PairedPlusPercent(EscapedBuf(c));
    assert e == e[..|e| - 1] + [e[|e| - 1]];
  }

  ghost predicate NoPercentLast(chunks: seq<Text>) {
    forall i :: 0 <= i < |chunks| ==> chunks[i] != [] && chunks[i][|chunks[i]| - 1] != PERCENT
  }

  lemma {:induction false} PercentsAreNotLast(chunks: seq<Text>)
    requires ValidChunks(chunks) && AllPaired(Split(chunks))
    ensures NoPercentLast(chunks)
  {
    hide Lines, Paired, EscapedBuf;
    if chunks != [] {
      AllPairedOfJoin(Lines(EscapedBuf(chunks[0])), Split(chunks[1..]));
      PercentIsNotLast(chunks[0]);
      PercentsAreNotLast(chunks[1..]);
    }
  }

  lemma EscapedOfJoin(c: Text, rest: Text)
    requires c != [] && c[|c| - 1] != PERCENT
    ensures Escaped(c + rest) == Escaped(c) + Escaped(rest)
  {
    hide Escaped;
    var a, d := c[..|c| - 1], c[|c| - 1];
    EscapedSplit(a, d, rest);
    EscapedSplit(a, d, []);
    EscapedNothing();
    assert c + rest == a + [d] + rest && c == a + [d] + [];
    assert Escaped(a) + [d] + [] == Escaped(a) + [d];
  }

  lemma EscapedNothing()
    ensures Escaped([]) == []
  {
  }

  /** How many chunks do not end in a line end. */
  function Cuts(chunks: seq<Text>): nat {
    if chunks == [] then 0 else (if EndsLine(chunks[0]) then 0 else 1) + Cuts(chunks[1..])
  }

  lemma {:induction false} NoCuts(chunks: seq<Text>)
    requires Cuts(chunks) == 0
    ensures CutAtLineEnds(chunks)
  {
    if chunks != [] {
      NoCuts(chunks[1..]);
    }
  }

  lemma PrintedOfCut(c: Text)
    requires c != []
    ensures Printed(Escaped(c)) == TotalLength(Lines(EscapedBuf(c))) + (if EndsLine(c) then 0 else 1)
  {
    hide Lines, Escaped;
    var e := Escaped(c);
    EscapedKeepsLast(c);
    LinesKeepPrinted(EscapedBuf(c));
    PrintedOfJoin(e[..|e| - 1], [e[|e| - 1]]);
    assert e == e[..|e| - 1] + [e[|e| - 1]];
    assert [e[|e| - 1]][1..] == [];
  }

  /** Each such cut loses one printed byte. */
  lemma {:induction false} CutsLoseBytes(chunks: seq<Text>)
    requires ValidChunks(chunks) && NoPercentLast(chunks)
    ensures Printed(Escaped(Joined(chunks))) == TotalLength(Split(chunks)) + Cuts(chunks)
  {
    hide Lines, EscapedBuf, EndsLine;
    if chunks != [] {
      CutsLoseBytes(chunks[1..]);
      EscapedOfJoin(chunks[0], Joined(chunks[1..]));
      PrintedOfJoin(Escaped(chunks[0]), Escaped(Joined(chunks[1..])));
      PrintedOfCut(chunks[0]);
      TotalLengthOfJoin(Lines(EscapedBuf(chunks[0])), Split(chunks[1..]));
    }
  }

  lemma OnlyWhole(chunks: seq<Text>)
    requires ValidChunks(chunks) && Split(chunks) == EscapeEach(Lines(Joined(chunks)))
    ensures CutAtLineEnds(chunks)
  {
    hide Lines, Split, EscapeEach, CutAtLineEnds;
    var s := Joined(chunks);
    EscapedLinesArePaired(Lines(s));
    PercentsAreNotLast(chunks);
    CutsLoseBytes(chunks);
    LinesOfEscaped(s);
    LinesKeepPrinted(Escaped(s));
    NoCuts(chunks);
  }

  // ---- A NUL ----

  ghost predicate AllNulFree(lines: seq<Text>) {
    forall i :: 0 <= i < |lines| ==> FreeOf(lines[i], {NUL})
  }

  lemma AllNulFreeJoin(a: seq<Text>, b: seq<Text>)
    ensures AllNulFree(a + b) <==> AllNulFree(a) && AllNulFree(b)
  {
    assert forall i :: 0 <= i < |a| ==> (a + b)[i] == a[i];
    assert forall i :: 0 <= i < |b| ==> (a + b)[|a| + i] == b[i];
  }

  lemma WordIsNulFree(s: Text)
    requires FreeOf(s, LINE_ENDS)
    ensures AllNulFree(Lines(s)) <==> FreeOf(s, {NUL})
  {
    TokensOfWord(s, LINE_ENDS);
    if s != [] {
      assert Lines(s)[0] == s;
    }
  }

  /** A text has a NUL exactly when one of its lines has. */
  lemma {:induction false} LinesAreNulFree(s: Text)
    ensures AllNulFree(Lines(s)) <==> FreeOf(s, {NUL})
    decreases |s|
  {
    hide Lines;
    var n := FirstLineEnd(s);
    if n == |s| {
      assert s[..n] == s;
      WordIsNulFree(s);
    } else {
      var a, d, b := s[..n], s[n], s[n + 1..];
      SplitLines(a, d, b);
      AllNulFreeJoin(Lines(a), Lines(b));
      WordIsNulFree(a);
      LinesAreNulFree(b);
      assert FreeOf(s, {NUL}) <==> FreeOf(a, {NUL}) && FreeOf(b, {NUL}) by {
        NulFreeAround(a, d, b);
      }
    }
  }

  lemma NulFreeAround(a: Text, d: Byte, b: Text)
    requires d in LINE_ENDS
    ensures FreeOf(a + [d] + b, {NUL}) <==> FreeOf(a, {NUL}) && FreeOf(b, {NUL})
  {
    assert forall k :: 0 <= k < |a| ==> (a + [d] + b)[k] == a[k];
    assert forall k :: 0 <= k < |b| ==> (a + [d] + b)[|a| + 1 + k] == b[k];
  }

  /** What the C string of a chunk becomes has no NUL, whatever the chunk has. */
  lemma HandedOnIsNulFree(c: Text)
    requires ValidChunk(c) && HandedOn(c).Some?
    ensures AllNulFree(HandedOn(c).value)
  {
    hide Lines, Escaped;
    var s := CStr(c);
    EscapedFree(s, {NUL});
    LinesAreNulFree(EscapedBuf(s));
  }

  lemma {:induction false} ReceivedIsNulFree(chunks: seq<Text>)
    requires ValidChunks(chunks) && Received(chunks).Some?
    ensures AllNulFree(Received(chunks).value)
  {
    hide HandedOn;
    if chunks != [] {
      HandedOnIsNulFree(chunks[0]);
      ReceivedIsNulFree(chunks[1..]);
      AllNulFreeJoin(HandedOn(chunks[0]).value, Received(chunks[1..]).value);
    }
  }

  lemma {:induction false} JoinedIsNulFree(chunks: seq<Text>)
    requires FreeOf(Joined(chunks), {NUL})
    ensures NulFree(chunks)
  {
    if chunks != [] {
      var a, b := chunks[0], Joined(chunks[1..]);
      assert forall k :: 0 <= k < |a| ==> (a + b)[k] == a[k];
      assert forall k :: 0 <= k < |b| ==> (a + b)[|a| + k] == b[k];
      JoinedIsNulFree(chunks[1..]);
    }
  }

  lemma OnlyNulFree(chunks: seq<Text>)
    requires ValidChunks(chunks) && Received(chunks) == Some(EscapeEach(Lines(Joined(chunks))))
    ensures NulFree(chunks)
  {
    hide Lines, Received, EscapeEach, NulFree;
    var s := Joined(chunks);
    ReceivedIsNulFree(chunks);
    LinesOfEscaped(s);
    LinesAreNulFree(Escaped(s));
    EscapedKeepsNul(s);
    JoinedIsNulFree(chunks);
  }

  lemma {:induction false} EscapedKeepsNul(s: Text)
    requires FreeOf(Escaped(s), {NUL})
    ensures FreeOf(s, {NUL})
    decreases |s|
  {
    if s != [] {
      var k := if s[0] == PERCENT && |s| > 1 && s[1] == PERCENT then 2 else 1;
      var e, m := Escaped(s), if s[0] == PERCENT then 2 else 1;
      assert e[m..] == Escaped(s[k..]) && (s[0] != PERCENT ==> e[0] == s[0]);
      EscapedKeepsNul(s[k..]);
      assert forall i :: k <= i < |s| ==> s[i] == s[k..][i - k];
    }
  }

  /**
   * The lines of a stream come through the chunks whole, in order and escaped exactly when
   * every chunk ends in CR or LF and none has a NUL.
   */
  lemma {:induction false} StreamArrivesIff(chunks: seq<Text>)
    requires ValidChunks(chunks)
    ensures Received(chunks) == Some(EscapeEach(Lines(Joined(chunks)))) <==> CutAtLineEnds(chunks) && NulFree(chunks)
  {
    hide Lines, Joined, EscapeEach;
    if Received(chunks) == Some(EscapeEach(Lines(Joined(chunks)))) {
      OnlyNulFree(chunks);
      ReceivedIsSplit(chunks);
      OnlyWhole(chunks);
    } else if CutAtLineEnds(chunks) && NulFree(chunks) {
      ReceivedIsSplit(chunks);
      SplitWhole(chunks);
    }
  }

  /** Relayed messages, in as many chunks as they take, each cut at a line end. */
  lemma {:induction false} StreamRoundTrip(frames: seq<Frame>, chunks: seq<Text>)
    requires ValidFrames(frames) && ValidChunks(chunks) && Joined(chunks) == RelayAll(frames)
    requires CutAtLineEnds(chunks)
    ensures Received(chunks).Some?
    ensures ParseEach(Received(chunks).value) == WireRoundTrip.Messages(EscapeFrames(frames))
  {
    RelayAllIsCStr(frames);
    JoinedIsNulFree(chunks);
    StreamArrivesIff(chunks);
    LinesOfRelayed(frames);
    ParsedLines(frames);
  }
}
