// The receive loop of server.c: a chunk is escaped, then cut into lines at CR and LF.

module Receiver {
  import opened Options
  import opened CString
  import opened Escape

  const CHUNK := 512
  const LINE_ENDS: set<Byte> := {CR, LF}

  function Lines(s: Text): seq<Text> {
    Tokens(s, LINE_ENDS)
  }

  function EscapeEach(lines: seq<Text>): (r: seq<Text>)
    ensures |r| == |lines|
  {
    seq(|lines|, i requires 0 <= i < |lines| => Escaped(lines[i]))
  }

  /**
   * What one recv of `received` hands to the "server_recv" callbacks, line by line; a chunk
   * that starts with NUL is an empty text, which bcirc_escape_buf cannot take.
   */
  method ReceiveChunk(received: Text) returns (lines: Option<seq<Text>>)
    requires 0 < |received| <= CHUNK
    ensures lines == if received[0] == NUL then None else Some(Lines(EscapedBuf(CStr(received))))
  {
    hide EscapedBuf, Escaped;
    var tmpbuf := CStr(received);
    assert tmpbuf == [] <==> received[0] == NUL;
    EscapedLength(tmpbuf);
    var r := EscapeBuf(tmpbuf);
    assert !r.TooLong?;
    if r.Fault? {
      return None;
    }
    var found: seq<Text> := [];
    var next := StrtokR(r.text, LINE_ENDS);
    while next != None
      invariant found + (if next.Some? then [next.value.word] + Lines(next.value.save) else []) == Lines(r.text)
      decreases if next.Some? then 1 + |next.value.save| else 0
    {
      found := found + [next.value.word];
      next := StrtokR(next.value.save, LINE_ENDS);
    }
    assert found + [] == found;
    return Some(found);
  }

  /** A chunk of at most 512 bytes fits the 1024-byte buffers with its terminator, escaped or not. */
  lemma ChunkFits(s: Text)
    requires 0 < |s| <= 512
    ensures |Escaped(s)| < 1024 && |EscapedBuf(s)| < 1024
  {
    EscapedLength(s);
  }

  // ---- Escaping commutes with splitting ----

  lemma EscapeEachOfJoin(a: seq<Text>, b: seq<Text>)
    ensures EscapeEach(a + b) == EscapeEach(a) + EscapeEach(b)
  {
  }

  /** Either no line end at all, or a first one with text on both sides. */
  lemma FirstLineEnd(s: Text) returns (n: nat)
    ensures n <= |s| && FreeOf(s[..n], LINE_ENDS)
    ensures n == |s| || (s[n] in LINE_ENDS && s == s[..n] + [s[n]] + s[n + 1..])
  {
    n := Span(s, LINE_ENDS);
  }

  lemma LinesOfEscapedWord(s: Text)
    requires FreeOf(s, LINE_ENDS)
    ensures Lines(Escaped(s)) == EscapeEach(Lines(s))
  {
    EscapedFree(s, LINE_ENDS);
    TokensOfWord(s, LINE_ENDS);
    TokensOfWord(Escaped(s), LINE_ENDS);
    if s != [] {
      EscapedNotEmpty(s);
    }
  }

  /** Before the truncation: splitting the escaped text escapes each line. */
  lemma {:induction false} LinesOfEscaped(s: Text)
    ensures Lines(Escaped(s)) == EscapeEach(Lines(s))
    decreases |s|
  {
    var n := FirstLineEnd(s);
    if n == |s| {
      assert s[..n] == s;
      LinesOfEscapedWord(s);
    } else {
      var a, d, b := s[..n], s[n], s[n + 1..];
      LinesOfEscapedWord(a);
      LinesOfEscaped(b);
      EscapedSplit(a, d, b);
      TokensSplit(a, d, b, LINE_ENDS);
      TokensSplit(Escaped(a), d, Escaped(b), LINE_ENDS);
      EscapeEachOfJoin(Lines(a), Lines(b));
    }
  }

  // ---- The truncation ----

  lemma {:induction false} EscapedKeepsLast(s: Text)
    requires s != []
    ensures Escaped(s) != [] && Escaped(s)[|Escaped(s)| - 1] == s[|s| - 1]
    decreases |s|
  {
    var k := if s[0] == PERCENT && |s| > 1 && s[1] == PERCENT then 2 else 1;
    if |s| > k {
      EscapedKeepsLast(s[k..]);
    }
  }

  /** The number of bytes that are not line ends. */
  function Printed(s: Text): nat {
    if s == [] then 0 else (if s[0] in LINE_ENDS then 0 else 1) + Printed(s[1..])
  }

  function TotalLength(lines: seq<Text>): nat {
    if lines == [] then 0 else |lines[0]| + TotalLength(lines[1..])
  }

  lemma {:induction false} PrintedOfJoin(a: Text, b: Text)
    ensures Printed(a + b) == Printed(a) + Printed(b)
  {
    if a == [] {
      assert a + b == b;
    } else {
      PrintedOfJoin(a[1..], b);
      assert (a + b)[1..] == a[1..] + b;
    }
  }

  lemma {:induction false} TotalLengthOfJoin(a: seq<Text>, b: seq<Text>)
    ensures TotalLength(a + b) == TotalLength(a) + TotalLength(b)
  {
    if a == [] {
      assert a + b == b;
    } else {
      TotalLengthOfJoin(a[1..], b);
      assert (a + b)[1..] == a[1..] + b;
    }
  }

  lemma {:induction false} PrintedOfWord(s: Text)
    requires FreeOf(s, LINE_ENDS)
    ensures Printed(s) == |s| == TotalLength(Lines(s))
  {
    TokensOfWord(s, LINE_ENDS);
    if s != [] {
      PrintedOfWord(s[1..]);
    }
  }

  /** Splitting loses nothing but the line ends. */
  lemma {:induction false} LinesKeepPrinted(s: Text)
    ensures TotalLength(Lines(s)) == Printed(s)
    decreases |s|
  {
    var n := FirstLineEnd(s);
    if n == |s| {
      assert s[..n] == s;
      PrintedOfWord(s);
    } else {
      var a, d, b := s[..n], s[n], s[n + 1..];
      PrintedOfWord(a);
      LinesKeepPrinted(b);
      PrintedOfJoin(a + [d], b);
      PrintedOfJoin(a, [d]);
      TokensSplit(a, d, b, LINE_ENDS);
      TotalLengthOfJoin(Lines(a), Lines(b));
    }
  }

  lemma LinesDropLineEnd(s: Text)
    requires s != [] && s[|s| - 1] in LINE_ENDS
    ensures Lines(s[..|s| - 1]) == Lines(s)
  {
    var a, d := s[..|s| - 1], s[|s| - 1];
    assert s == a + [d] + [];
    TokensSplit(a, d, [], LINE_ENDS);
  }

  /**
   * A chunk is escaped and split without loss exactly when it ends in a line end:
   * only then is the character the truncation eats a delimiter.
   */
  lemma ReceivedLines(s: Text)
    requires s != []
    ensures Lines(EscapedBuf(s)) == EscapeEach(Lines(s)) <==> s[|s| - 1] in LINE_ENDS
  {
    var e := Escaped(s);
    EscapedKeepsLast(s);
    LinesOfEscaped(s);
    if e[|e| - 1] in LINE_ENDS {
      LinesDropLineEnd(e);
    } else {
      LinesMissByte(e);
    }
  }

  lemma LinesMissByte(s: Text)
    requires s != [] && s[|s| - 1] !in LINE_ENDS
    ensures Lines(s[..|s| - 1]) != Lines(s)
  {
    var cut, last := s[..|s| - 1], s[|s| - 1];
    assert s == cut + [last];
    PrintedOfJoin(cut, [last]);
    LinesKeepPrinted(s);
    LinesKeepPrinted(cut);
  }
}
