// What the title plugin makes of a matched title (title.c, the end of write_callback):
// decoded in place, stripped of control characters, queued as one PRIVMSG.

module Title {
  import opened Options
  import opened CString
  import opened EntityTable
  import opened Entities
  import opened EntityDecoder
  import opened Escape
  import opened Receiver
  import opened Commands
  import opened EventParsers
  import opened WireRoundTrip

  const TITLE_MAX_LEN := 250
  const UNWANTED: set<Byte> := {CR, TAB, LF}

  function Wanted(s: Text): Text {
    if s == [] then [] else (if s[0] in UNWANTED then [] else [s[0]]) + Wanted(s[1..])
  }

  /** The queued title, if the match is not too long. A decoded NUL ends it early. */
  function Announced(table: Table, matched: Text): Option<Text> {
    if |matched| > TITLE_MAX_LEN then None else Some(Wanted(CStr(Decode(table, matched))))
  }

  method Announce(table: Table, matched: Text) returns (title: Option<Text>)
    requires ValidTable(table) && NUL !in matched
    ensures title == Announced(table, matched)
  {
    if |matched| > TITLE_MAX_LEN {
      return None;
    }
    var decoded := DecodeTitle(table, matched);
    var stripped := Strip(decoded);
    return Some(stripped);
  }

  /** The match copied to a buffer of its own and decoded there. */
  method DecodeTitle(table: Table, matched: Text) returns (decoded: Text)
    requires ValidTable(table) && NUL !in matched
    ensures decoded == CStr(Decode(table, matched))
  {
    var buffer := new Byte[|matched| + 2](i => if 0 <= i < |matched| then matched[i] else NUL);
    MatchedIsCStr(buffer[..], matched);
    assert buffer[|matched|] in buffer[..];
    var len := DecodeHtmlEntities(table, buffer, null);
    DecodedIsCStr(buffer[..], Decode(table, matched));
    return CStr(buffer[..]);
  }

  /** The loop that leaves out the unwanted characters. */
  method Strip(title: Text) returns (stripped: Text)
    ensures stripped == Wanted(title)
  {
    var newTitle := new Byte[|title| + 1];
    var newCount := 0;
    var i := 0;
    while i < |title|
      invariant 0 <= newCount <= i <= |title|
      invariant newTitle[..newCount] + Wanted(title[i..]) == Wanted(title)
    {
      WantedStep(title, i, newTitle[..newCount]);
      if title[i] !in UNWANTED {
        newTitle[newCount] := title[i];
        newCount := newCount + 1;
        assert newTitle[..newCount] == newTitle[..newCount - 1] + [title[i]];
      }
      i := i + 1;
    }
    return newTitle[..newCount];
  }

  lemma MatchedIsCStr(memory: Text, text: Text)
    requires NUL !in text && |memory| > |text| && memory[..|text|] == text && memory[|text|] == NUL
    ensures CStr(memory) == text
  {
    assert forall j :: 0 <= j < |text| ==> memory[j] == memory[..|text|][j];
    FindIs(memory, NUL, |text|);
  }

  lemma DecodedIsCStr(memory: Text, decoded: Text)
    requires |memory| > |decoded| && memory[..|decoded|] == decoded && memory[|decoded|] == NUL
    ensures CStr(memory) == CStr(decoded)
  {
    var n := Find(decoded, NUL);
    assert forall j :: 0 <= j < |decoded| ==> memory[j] == memory[..|decoded|][j];
    FindIs(memory, NUL, n);
  }

  lemma WantedStep(s: Text, i: nat, done: Text)
    requires i < |s|
    ensures done + Wanted(s[i..]) == (if s[i] in UNWANTED then done else done + [s[i]]) + Wanted(s[i + 1..])
  {
    assert s[i..][1..] == s[i + 1..];
  }

  lemma {:induction false} WantedIsClean(s: Text)
    requires NUL !in s
    ensures |Wanted(s)| <= |s| && FreeOf(Wanted(s), {CR, TAB, LF, NUL})
  {
    if s != [] {
      WantedIsClean(s[1..]);
    }
  }

  lemma {:induction false} WantedIsUnchanged(s: Text)
    requires FreeOf(s, UNWANTED)
    ensures Wanted(s) == s
  {
    if s != [] {
      WantedIsUnchanged(s[1..]);
      assert s == [s[0]] + s[1..];
    }
  }

  /**
   * Whatever the page says, also in character references, the announced title has at
   * most 250 bytes and no CR, LF, TAB or NUL.
   */
  lemma AnnouncedIsClean(table: Table, matched: Text)
    requires ValidTable(table) && Announced(table, matched).Some?
    ensures |Announced(table, matched).value| <= 250
    ensures FreeOf(Announced(table, matched).value, {CR, TAB, LF, NUL})
  {
    DecodeShrinks(table, matched);
    WantedIsClean(CStr(Decode(table, matched)));
  }

  /** A title of plain characters and references is announced as what they mean. */
  lemma {:induction false} AnnouncedIsMeaning(table: Table, items: seq<Item>)
    requires ValidTable(table) && ValidItems(table, items)
    requires NUL !in WriteAll(table, items) && |WriteAll(table, items)| <= 250
    requires FreeOf(MeaningOfAll(table, items), {CR, TAB, LF, NUL})
    ensures Announced(table, WriteAll(table, items)) == Some(MeaningOfAll(table, items))
  {
    var meaning := MeaningOfAll(table, items);
    DecodeInvertsMarkup(table, items);
    FindIs(meaning, NUL, |meaning|);
    assert CStr(meaning) == meaning;
    WantedIsUnchanged(meaning);
  }

  /** Pieces of text with one unwanted character in front of each but the first. */
  function Mixed(first: Text, others: seq<(Byte, Text)>): Text
    decreases |others|
  {
    if others == [] then first else first + [others[0].0] + Mixed(others[0].1, others[1..])
  }

  function Pieces(first: Text, others: seq<(Byte, Text)>): Text
    decreases |others|
  {
    if others == [] then first else first + Pieces(others[0].1, others[1..])
  }

  lemma WantedHead(s: Text)
    requires s != []
    ensures Wanted(s) == (if s[0] in UNWANTED then [] else [s[0]]) + Wanted(s[1..])
  {
  }

  lemma {:induction false} WantedOfJoin(a: Text, b: Text)
    ensures Wanted(a + b) == Wanted(a) + Wanted(b)
  {
    if a == [] {
      assert a + b == b;
    } else {
      WantedOfJoin(a[1..], b);
      WantedHead(a);
      WantedHead(a + b);
      assert (a + b)[0] == a[0] && (a + b)[1..] == a[1..] + b;
      hide Wanted;
      Regroup([], if a[0] in UNWANTED then [] else [a[0]], Wanted(a[1..]), Wanted(b));
    }
  }

  lemma UnwantedIsDropped(first: Text, b: Byte, rest: Text)
    requires FreeOf(first, UNWANTED) && b in UNWANTED
    ensures Wanted(first + [b] + rest) == first + Wanted(rest)
  {
    WantedIsUnchanged(first);
    WantedOfJoin(first + [b], rest);
    WantedOfJoin(first, [b]);
    WantedHead([b]);
    assert [b][1..] == [];
    hide Wanted;
    assert Wanted([]) + [] == Wanted([]);
    assert first + [] == first;
  }

  lemma {:induction false} WantedIsPieces(first: Text, others: seq<(Byte, Text)>)
    requires FreeOf(first, UNWANTED)
    requires forall k :: 0 <= k < |others| ==> others[k].0 in {CR, LF, TAB} && FreeOf(others[k].1, UNWANTED)
    ensures Wanted(Mixed(first, others)) == Pieces(first, others)
    decreases |others|
  {
    hide Wanted;
    if others == [] {
      WantedIsUnchanged(first);
    } else {
      WantedIsPieces(others[0].1, others[1..]);
      UnwantedIsDropped(first, others[0].0, Mixed(others[0].1, others[1..]));
    }
  }

  /**
   * A title that decodes to pieces of text with CR, LF and TAB in between, written as such
   * or as references, is announced as the pieces, in order.
   */
  lemma {:induction false} AnnouncedIsPieces(table: Table, matched: Text, first: Text, others: seq<(Byte, Text)>)
    requires |matched| <= 250 && CStr(Decode(table, matched)) == Mixed(first, others)
    requires FreeOf(first, UNWANTED)
    requires forall k :: 0 <= k < |others| ==> others[k].0 in {CR, LF, TAB} && FreeOf(others[k].1, UNWANTED)
    ensures Announced(table, matched) == Some(Pieces(first, others))
  {
    WantedIsPieces(first, others);
  }

  /** Every text is such a mixture. */
  lemma {:induction false} EveryTextIsMixed(s: Text) returns (first: Text, others: seq<(Byte, Text)>)
    ensures FreeOf(first, UNWANTED) && s == Mixed(first, others)
    ensures forall k :: 0 <= k < |others| ==> others[k].0 in {CR, LF, TAB} && FreeOf(others[k].1, UNWANTED)
  {
    if s == [] {
      return [], [];
    }
    first, others := EveryTextIsMixed(s[1..]);
    if s[0] in UNWANTED {
      assert s == [] + [s[0]] + Mixed(first, others);
      assert ([(s[0], first)] + others)[1..] == others;
      first, others := [], [(s[0], first)] + others;
    } else {
      MixedGrows(s[0], first, others);
      assert s == [s[0]] + s[1..];
      first := [s[0]] + first;
    }
  }

  lemma MixedGrows(b: Byte, first: Text, others: seq<(Byte, Text)>)
    ensures Mixed([b] + first, others) == [b] + Mixed(first, others)
  {
    if others != [] {
      Regroup([], [b], first, [others[0].0] + Mixed(others[0].1, others[1..]));
      assert [b] + first + [others[0].0] + Mixed(others[0].1, others[1..])
          == [b] + (first + [others[0].0] + Mixed(others[0].1, others[1..]));
    }
  }

  /** The PRIVMSG printed for a title is one line to the bot's own splitter. */
  lemma AnnouncedIsOneLine(table: Table, matched: Text, target: Text)
    requires ValidTable(table) && Announced(table, matched).Some? && FreeOf(target, LINE_ENDS)
    ensures var title := Announced(table, matched).value;
            Lines(Privmsg(title, target)) == [PrivmsgLine(title, target)]
  {
    var title := Announced(table, matched).value;
    var line := PrivmsgLine(title, target);
    AnnouncedIsClean(table, matched);
    assert FreeOf(PRIVMSG, LINE_ENDS);
    assert FreeOf(line, LINE_ENDS);
    LinesAfterCrLf(line, []);
    assert line + [CR] + [LF] + [] == Privmsg(title, target);
  }

  /** Relayed to another bot, a title arrives as one message with its '%' escaped. */
  lemma {:induction false} AnnouncedArrives(table: Table, matched: Text, nick: Text, mask: Text, target: Text)
    requires ValidTable(table) && Announced(table, matched).Some?
    requires ValidFrame(Frame(nick, mask, target, []))
    ensures var title := Announced(table, matched).value;
            ParseEach(Lines(EscapedBuf(Relay(Frame(nick, mask, target, title)))))
              == [Message(Escaped(nick), Escaped(mask), Some(Escaped(target)), Escaped(title))]
  {
    var title := Announced(table, matched).value;
    var f := Frame(nick, mask, target, title);
    AnnouncedIsClean(table, matched);
    RoundTrip([f]);
    assert RelayAll([f]) == Relay(f) + RelayAll([]);
    assert RelayAll([f]) == Relay(f);
  }
}
