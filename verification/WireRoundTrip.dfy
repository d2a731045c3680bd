// What a relay prints, the bot reads back: printing, escaping, splitting and parsing
// composed, and the two prefix parsers compared.

module WireRoundTrip {
  import opened Options
  import opened CString
  import opened Escape
  import opened Receiver
  import opened Commands
  import opened EventParsers

  // ---- One line ----

  datatype Frame = Frame(nick: Text, mask: Text, target: Text, text: Text)

  /** A relayed line without its line end: `:nick!mask PRIVMSG target :text`. */
  function RelayedLine(f: Frame): Text {
    [COLON] + f.nick + [BANG] + (f.mask + [SPACE] + PrivmsgLine(f.text, f.target))
  }

  /** A server relays what privmsg printed with the sender's prefix in front. */
  function Relay(f: Frame): Text {
    [COLON] + f.nick + [BANG] + (f.mask + [SPACE] + Privmsg(f.text, f.target))
  }

  /** No line end or NUL anywhere, one word each for nick, mask and target. */
  ghost predicate ValidFrame(f: Frame) {
    && FreeOf(f.nick, {CR, LF, NUL, SPACE, BANG})
    && FreeOf(f.mask, {CR, LF, NUL, SPACE}) && f.mask != []
    && FreeOf(f.target, {CR, LF, NUL, SPACE}) && f.target != []
    && FreeOf(f.text, {CR, LF, NUL})
  }

  function EscapeFrame(f: Frame): Frame {
    Frame(Escaped(f.nick), Escaped(f.mask), Escaped(f.target), Escaped(f.text))
  }

  /** `:nick!mask COMMAND tail` */
  function EventLine(nick: Text, mask: Text, command: Text, tail: Text): Text {
    [COLON] + nick + [BANG] + (mask + [SPACE] + (command + [SPACE] + tail))
  }

  ghost predicate ValidSender(nick: Text, mask: Text) {
    SPACE !in nick && BANG !in nick && SPACE !in mask && mask != []
  }

  lemma SplitPrefixOfPrefix(nick: Text, mask: Text)
    requires BANG !in nick
    ensures SplitPrefix([COLON] + nick + [BANG] + mask) == Some(Prefix(nick, mask))
  {
    StrtokWord([COLON] + nick, BANG, mask, BANGS);
  }

  lemma ParseArgumentsOfPrivmsg(prefix: Prefix, trail: Text, target: Text)
    requires SPACE !in target && target != []
    ensures ParseArguments(prefix, PRIVMSG + [SPACE] + (target + [SPACE] + trail))
              == Message(prefix.nick, prefix.mask, Some(target), if trail == [] then [] else trail[1..])
  {
    StrtokWord(PRIVMSG, SPACE, target + [SPACE] + trail, SPACES);
    StrtokWord(target, SPACE, trail, SPACES);
  }

  /**
   * A PRIVMSG with any text behind its target, colon or not: the first byte of that text
   * is dropped unread.
   */
  lemma {:induction false} TrailingParses(nick: Text, mask: Text, target: Text, trail: Text)
    requires ValidSender(nick, mask) && SPACE !in target && target != []
    ensures ParsePrivmsg(EventLine(nick, mask, PRIVMSG, target + [SPACE] + trail))
              == Message(nick, mask, Some(target), if trail == [] then [] else trail[1..])
  {
    hide Contains, ParseArguments;
    var tail := PRIVMSG + [SPACE] + (target + [SPACE] + trail);
    var first := [COLON] + nick + [BANG] + mask;
    Regroup([COLON] + nick + [BANG], mask, [SPACE], tail);
    ContainsPrivmsg(first + [SPACE], target + [SPACE] + trail);
    StrtokWord(first, SPACE, tail, SPACES);
    SplitPrefixOfPrefix(nick, mask);
    ParseArgumentsOfPrivmsg(Prefix(nick, mask), trail, target);
  }

  lemma ContainsPrivmsg(before: Text, tail: Text)
    ensures Contains(before + (PRIVMSG + [SPACE] + tail), PRIVMSG)
  {
    ContainsAt(before, PRIVMSG, [SPACE] + tail);
    assert before + PRIVMSG + ([SPACE] + tail) == before + (PRIVMSG + [SPACE] + tail);
  }

  /** get_privmsg reads back the fields of any relayed line. */
  lemma RelayedLineParses(f: Frame)
    requires SPACE !in f.nick && BANG !in f.nick
    requires SPACE !in f.mask && f.mask != [] && SPACE !in f.target && f.target != []
    ensures ParsePrivmsg(RelayedLine(f)) == Message(f.nick, f.mask, Some(f.target), f.text)
  {
    hide ParsePrivmsg;
    TrailingParses(f.nick, f.mask, f.target, [COLON] + f.text);
    assert ([COLON] + f.text)[1..] == f.text;
  }

  // ---- Escaping a line escapes its fields ----

  lemma EscapedTrailing(text: Text)
    ensures Escaped([COLON] + text) == [COLON] + Escaped(text)
  {
    assert [] + [COLON] + text == [COLON] + text;
    EscapedSplit([], COLON, text);
  }

  lemma EscapedPrivmsgLine(text: Text, target: Text)
    ensures Escaped(PrivmsgLine(text, target)) == PrivmsgLine(Escaped(text), Escaped(target))
  {
    hide Escaped;
    EscapedSplit(PRIVMSG, SPACE, target + [SPACE] + ([COLON] + text));
    EscapedLiteral(PRIVMSG);
    EscapedSplit(target, SPACE, [COLON] + text);
    EscapedTrailing(text);
  }

  lemma EscapedRelayedLine(f: Frame)
    ensures Escaped(RelayedLine(f)) == RelayedLine(EscapeFrame(f))
  {
    var rest := f.mask + [SPACE] + PrivmsgLine(f.text, f.target);
    assert [] + [COLON] + f.nick == [COLON] + f.nick;
    EscapedSplit([], COLON, f.nick);
    EscapedSplit([COLON] + f.nick, BANG, rest);
    EscapedSplit(f.mask, SPACE, PrivmsgLine(f.text, f.target));
    EscapedPrivmsgLine(f.text, f.target);
  }

  lemma EscapeFrameIsValid(f: Frame)
    requires ValidFrame(f)
    ensures ValidFrame(EscapeFrame(f))
  {
    EscapedFree(f.nick, {CR, LF, NUL, SPACE, BANG});
    EscapedFree(f.mask, {CR, LF, NUL, SPACE});
    EscapedFree(f.target, {CR, LF, NUL, SPACE});
    EscapedFree(f.text, {CR, LF, NUL});
    EscapedNotEmpty(f.mask);
    EscapedNotEmpty(f.target);
  }

  // ---- A chunk of lines ----

  ghost predicate ValidFrames(frames: seq<Frame>) {
    forall i :: 0 <= i < |frames| ==> ValidFrame(frames[i])
  }

  function RelayAll(frames: seq<Frame>): Text {
    if frames == [] then [] else Relay(frames[0]) + RelayAll(frames[1..])
  }

  function ParseEach(lines: seq<Text>): seq<Outcome> {
    seq(|lines|, i requires 0 <= i < |lines| => ParsePrivmsg(lines[i]))
  }

  function Messages(frames: seq<Frame>): seq<Outcome> {
    seq(|frames|, i requires 0 <= i < |frames| =>
      Message(frames[i].nick, frames[i].mask, Some(frames[i].target), frames[i].text))
  }

  function EscapeFrames(frames: seq<Frame>): seq<Frame> {
    seq(|frames|, i requires 0 <= i < |frames| => EscapeFrame(frames[i]))
  }

  function RelayedLines(frames: seq<Frame>): seq<Text> {
    seq(|frames|, i requires 0 <= i < |frames| => RelayedLine(frames[i]))
  }

  lemma RelayIsLine(f: Frame)
    requires ValidFrame(f)
    ensures Relay(f) == RelayedLine(f) + [CR] + [LF]
    ensures FreeOf(RelayedLine(f), LINE_ENDS) && RelayedLine(f) != []
  {
    assert FreeOf(PRIVMSG, LINE_ENDS);
  }

  lemma LinesAfterCrLf(line: Text, rest: Text)
    requires FreeOf(line, LINE_ENDS) && line != []
    ensures Lines(line + [CR] + [LF] + rest) == [line] + Lines(rest)
  {
    assert line + [CR] + [LF] + rest == line + [CR] + ([LF] + rest);
    TokensSplit(line, CR, [LF] + rest, LINE_ENDS);
    TokensSkip([LF] + rest, LINE_ENDS);
    TokensOfWord(line, LINE_ENDS);
  }

  lemma {:induction false} LinesAfterRelay(f: Frame, rest: Text)
    requires ValidFrame(f)
    ensures Lines(Relay(f) + rest) == [RelayedLine(f)] + Lines(rest)
  {
    RelayIsLine(f);
    LinesAfterCrLf(RelayedLine(f), rest);
  }

  lemma NoLines()
    ensures Lines([]) == []
  {
  }

  lemma {:induction false} LinesOfRelayed(frames: seq<Frame>)
    requires ValidFrames(frames)
    ensures Lines(RelayAll(frames)) == RelayedLines(frames)
  {
    hide Lines, Relay, RelayedLine, ValidFrame;
    if frames == [] {
      NoLines();
    }
    if frames != [] {
      LinesAfterRelay(frames[0], RelayAll(frames[1..]));
      LinesOfRelayed(frames[1..]);
      assert RelayedLines(frames) == [RelayedLine(frames[0])] + RelayedLines(frames[1..]);
    }
  }

  lemma {:induction false} RelayAllEndsInLineEnd(frames: seq<Frame>)
    requires frames != []
    ensures RelayAll(frames) != [] && RelayAll(frames)[|RelayAll(frames)| - 1] == LF
  {
    var first := Relay(frames[0]);
    assert first[|first| - 1] == LF;
    if |frames| > 1 {
      RelayAllEndsInLineEnd(frames[1..]);
    }
  }

  lemma RelayHasNoNul(f: Frame)
    requires ValidFrame(f)
    ensures NUL !in Relay(f)
  {
    assert FreeOf(PRIVMSG, {NUL});
    assert FreeOf(Relay(f), {NUL});
  }

  lemma {:induction false} RelayAllIsCStr(frames: seq<Frame>)
    requires ValidFrames(frames)
    ensures NUL !in RelayAll(frames) && CStr(RelayAll(frames)) == RelayAll(frames)
  {
    if frames != [] {
      RelayHasNoNul(frames[0]);
      RelayAllIsCStr(frames[1..]);
    }
    FindIs(RelayAll(frames), NUL, |RelayAll(frames)|);
  }

  lemma ParsedLines(frames: seq<Frame>)
    requires ValidFrames(frames)
    ensures ParseEach(EscapeEach(RelayedLines(frames))) == Messages(EscapeFrames(frames))
  {
    var lines := EscapeEach(RelayedLines(frames));
    forall i | 0 <= i < |frames|
      ensures ParsePrivmsg(lines[i]) == Messages(EscapeFrames(frames))[i]
    {
      EscapedRelayedLine(frames[i]);
      EscapeFrameIsValid(frames[i]);
      RelayedLineParses(EscapeFrame(frames[i]));
    }
  }

  /**
   * Print, relay, receive, parse: every message of a chunk arrives once, in order, as
   * the fields that were sent, escaped.
   */
  lemma {:induction false} RoundTrip(frames: seq<Frame>)
    requires ValidFrames(frames) && frames != []
    ensures RelayAll(frames) != [] && CStr(RelayAll(frames)) == RelayAll(frames)
    ensures ParseEach(Lines(EscapedBuf(CStr(RelayAll(frames))))) == Messages(EscapeFrames(frames))
  {
    RelayAllIsCStr(frames);
    RelayAllEndsInLineEnd(frames);
    ReceivedLines(RelayAll(frames));
    LinesOfRelayed(frames);
    ParsedLines(frames);
  }

  // ---- The two prefix parsers ----

  /** The prefix get_privmsg would use. */
  function TokenPrefix(line: Text): Option<Prefix> {
    match StrtokR(line, SPACES)
    case None => None
    case Some(first) =>
      match SplitPrefix(first.word)
      case None => None
      case Some(prefix) => if prefix.mask == [] then None else Some(prefix)
  }

  lemma FirstWordIs(line: Text)
    requires line != [] && line[0] != SPACE && SPACE in line
    ensures var space := Find(line, SPACE);
            0 < space < |line| && StrtokR(line, SPACES) == Some(Token(line[..space], line[space + 1..]))
  {
    hide StrtokR;
    var space := Find(line, SPACE);
    CutAt(line, space);
    hide Find;
    StrtokWord(line[..space], SPACE, line[space + 1..], SPACES);
  }

  lemma SplitPrefixAtBang(word: Text, bang: nat)
    requires word != [] && word[0] != BANG && bang == Find(word, BANG) < |word|
    ensures SplitPrefix(word) == Some(Prefix(word[1..bang], word[bang + 1..]))
  {
    hide StrtokR;
    CutAt(word, bang);
    StrtokWord(word[..bang], BANG, word[bang + 1..], BANGS);
    SliceOfTake(word, bang, 1, bang);
    assert word[..bang][1..bang] == word[..bang][1..];
  }

  lemma SplitPrefixWithoutBang(word: Text)
    requires word != [] && FreeOf(word, BANGS)
    ensures SplitPrefix(word) == Some(Prefix(word[1..], []))
  {
    hide StrtokR, FreeOf;
    StrtokLastWord(word, BANGS);
  }

  lemma SplitPrefixIs(word: Text, bang: nat)
    requires word != [] && word[0] != BANG && bang == Find(word, BANG)
    ensures SplitPrefix(word) == Some(Prefix(word[1..bang], if bang < |word| then word[bang + 1..|word|] else []))
  {
    hide SplitPrefix, Find;
    if bang < |word| {
      SplitPrefixAtBang(word, bang);
      assert word[bang + 1..|word|] == word[bang + 1..];
    } else {
      SplitPrefixWithoutBang(word);
      assert word[1..|word|] == word[1..];
    }
  }

  lemma FindInFirstWord(line: Text, space: nat)
    requires space <= |line|
    ensures Find(line[..space], BANG) == if Find(line, BANG) < space then Find(line, BANG) else space
  {
    var bang := Find(line, BANG);
    FindIs(line[..space], BANG, if bang < space then bang else space);
  }

  lemma {:induction false} TokenPrefixIs(line: Text)
    requires line != [] && line[0] != SPACE && line[0] != BANG && SPACE in line
    ensures var bang, space := Find(line, BANG), Find(line, SPACE);
            TokenPrefix(line) == if bang < space - 1 then Some(Prefix(line[1..bang], line[bang + 1..space])) else None
  {
    var bang, space := Find(line, BANG), Find(line, SPACE);
    FirstWordIs(line);
    FindInFirstWord(line, space);
    SplitPrefixIs(line[..space], if bang < space then bang else space);
    if bang < space {
      SliceOfTake(line, space, 1, bang);
      SliceOfTake(line, space, bang + 1, space);
    }
  }

  lemma SliceOfTake(s: Text, n: nat, i: nat, j: nat)
    requires i <= j <= n <= |s|
    ensures s[..n][i..j] == s[i..j]
  {
  }

  /**
   * On any line with a space that starts with neither ' ' nor '!', tokenising and offset
   * arithmetic find the same nick and mask; the tokeniser alone insists on a mask.
   */
  lemma PrefixParsersAgree(line: Text)
    requires line != [] && line[0] != SPACE && line[0] != BANG && SPACE in line
    ensures TokenPrefix(line) == match OffsetPrefix(line)
                                 case Found(prefix) => if prefix.mask == [] then None else Some(prefix)
                                 case _ => None
  {
    hide TokenPrefix;
    TokenPrefixIs(line);
  }

  lemma PrefixPositions(nick: Text, mask: Text, rest: Text)
    requires SPACE !in nick && BANG !in nick && SPACE !in mask && mask != []
    ensures var line := [COLON] + nick + [BANG] + (mask + [SPACE] + rest);
            && Find(line, BANG) == 1 + |nick| && Find(line, SPACE) == 2 + |nick| + |mask| < |line|
            && line[1..1 + |nick|] == nick && line[2 + |nick|..2 + |nick| + |mask|] == mask
  {
    hide Find;
    var line := [COLON] + nick + [BANG] + (mask + [SPACE] + rest);
    FindIs(line, BANG, 1 + |nick|);
    FindIs(line, SPACE, 2 + |nick| + |mask|);
  }

  /** On `:nick!mask COMMAND ...` both find nick and mask. */
  lemma PrefixParsersFind(nick: Text, mask: Text, rest: Text)
    requires SPACE !in nick && BANG !in nick && SPACE !in mask && mask != []
    ensures var line := [COLON] + nick + [BANG] + (mask + [SPACE] + rest);
            && TokenPrefix(line) == Some(Prefix(nick, mask))
            && OffsetPrefix(line) == Found(Prefix(nick, mask))
  {
    hide Find, TokenPrefix;
    var line := [COLON] + nick + [BANG] + (mask + [SPACE] + rest);
    PrefixPositions(nick, mask, rest);
    assert line[0] == COLON;
    TokenPrefixIs(line);
  }

  // ---- PART reasons ----

  function PartLine(nick: Text, mask: Text, channel: Text, reason: Text): Text {
    EventLine(nick, mask, PART, channel + [SPACE] + ([COLON] + reason))
  }

  lemma OneWordReason(reason: Text)
    requires SPACE !in reason
    ensures StrtokR([COLON] + reason, SPACES) == Some(Token([COLON] + reason, []))
    ensures Reason(CHAN_PART, [COLON] + reason, []) == reason
  {
    StrtokLastWord([COLON] + reason, SPACES);
  }

  lemma SeveralWordReason(word: Text, rest: Text)
    requires SPACE !in word
    ensures StrtokR([COLON] + (word + [SPACE] + rest), SPACES) == Some(Token([COLON] + word, rest))
    ensures Reason(CHAN_PART, [COLON] + word, rest) == word + [SPACE] + rest <==> rest != []
  {
    assert [COLON] + (word + [SPACE] + rest) == [COLON] + word + [SPACE] + rest;
    StrtokWord([COLON] + word, SPACE, rest, SPACES);
    SeveralWordReasonIs(word, rest);
  }

  lemma SeveralWordReasonIs(word: Text, rest: Text)
    ensures Reason(CHAN_PART, [COLON] + word, rest) == word + [SPACE] + rest <==> rest != []
  {
    var reason := Reason(CHAN_PART, [COLON] + word, rest);
    assert ([COLON] + word)[1..] == word;
    if rest == [] {
      assert |reason| == |word|;
    } else {
      assert reason == word + ([SPACE] + rest);
    }
  }

  lemma {:induction false} PartReasonIs(reason: Text)
    ensures var t := StrtokR([COLON] + reason, SPACES);
            && t.Some?
            && (Reason(CHAN_PART, t.value.word, t.value.save) == reason <==> Find(reason, SPACE) != |reason| - 1)
  {
    var n := Find(reason, SPACE);
    if n < |reason| {
      CutAt(reason, n);
      SeveralWordReason(reason[..n], reason[n + 1..]);
    } else {
      OneWordReason(reason);
    }
  }

  lemma {:induction false} PartArguments(prefix: Prefix, channel: Text, reason: Text, known: set<Text>)
    requires SPACE !in channel && channel != []
    ensures var r := ParseEventArguments(CHAN_PART, prefix, channel + [SPACE] + ([COLON] + reason), known);
            && r.Event? && r.kind == CHAN_PART && r.chan == Some(channel) && r.created == (channel !in known)
            && r.prefix == Some(prefix)
            && (r.reason == Some(reason) <==> Find(reason, SPACE) != |reason| - 1)
  {
    StrtokWord(channel, SPACE, [COLON] + reason, SPACES);
    PartReasonIs(reason);
  }

  lemma {:induction false} CommandOf(first: Text, command: Text, tail: Text)
    requires SPACE !in first && first != [] && SPACE !in command && command != []
    ensures var line := first + [SPACE] + (command + [SPACE] + tail);
            && StrtokR(line, SPACES) == Some(Token(first, command + [SPACE] + tail))
            && StrtokR(command + [SPACE] + tail, SPACES) == Some(Token(command, tail))
  {
    StrtokWord(first, SPACE, command + [SPACE] + tail, SPACES);
    StrtokWord(command, SPACE, tail, SPACES);
  }

  lemma CommandParses(line: Text, first: Text, command: Text, kind: int, tail: Text, prefix: Prefix, known: set<Text>)
    requires |line| >= 20 && EventKind(command) == Some(kind) && OffsetPrefix(line) == Found(prefix)
    requires StrtokR(line, SPACES) == Some(Token(first, command + [SPACE] + tail))
    requires StrtokR(command + [SPACE] + tail, SPACES) == Some(Token(command, tail))
    ensures ParseChanEvent(line, true, known) == ParseEventArguments(kind, prefix, tail, known)
  {
  }

  lemma CommandLineParses(nick: Text, mask: Text, command: Text, kind: int, tail: Text, known: set<Text>)
    requires ValidSender(nick, mask)
    requires SPACE !in command && command != [] && EventKind(command) == Some(kind)
    requires |EventLine(nick, mask, command, tail)| >= 20
    ensures ParseChanEvent(EventLine(nick, mask, command, tail), true, known)
              == ParseEventArguments(kind, Prefix(nick, mask), tail, known)
  {
    var line := EventLine(nick, mask, command, tail);
    PrefixParsersFind(nick, mask, command + [SPACE] + tail);
    CommandOf([COLON] + nick + [BANG] + mask, command, tail);
    Regroup([COLON] + nick + [BANG], mask, [SPACE], command + [SPACE] + tail);
    CommandParses(line, [COLON] + nick + [BANG] + mask, command, kind, tail, Prefix(nick, mask), known);
  }

  /**
   * get_chan_event reports a PART with its nick, mask and channel, and with its reason
   * unchanged exactly when the reason is not one word and a single trailing space.
   */
  lemma {:induction false} PartRoundTrip(nick: Text, mask: Text, channel: Text, reason: Text, known: set<Text>)
    requires ValidSender(nick, mask)
    requires SPACE !in channel && channel != []
    requires |PartLine(nick, mask, channel, reason)| >= 20
    ensures var r := ParseChanEvent(PartLine(nick, mask, channel, reason), true, known);
            && r.Event? && r.kind == CHAN_PART && r.chan == Some(channel) && r.created == (channel !in known)
            && r.prefix == Some(Prefix(nick, mask))
            && (r.reason == Some(reason) <==> Find(reason, SPACE) != |reason| - 1)
  {
    var tail := channel + [SPACE] + ([COLON] + reason);
    CommandLineParses(nick, mask, PART, CHAN_PART, tail, known);
    PartArguments(Prefix(nick, mask), channel, reason, known);
  }

  // ---- JOIN, KICK, QUIT and INVITE ----

  /** A JOIN is reported with its channel, known or created, and no reason. */
  lemma {:induction false} JoinRoundTrip(nick: Text, mask: Text, channel: Text, known: set<Text>)
    requires ValidSender(nick, mask) && SPACE !in channel && channel != []
    requires |EventLine(nick, mask, JOIN, channel)| >= 20
    ensures ParseChanEvent(EventLine(nick, mask, JOIN, channel), true, known)
              == Event(CHAN_JOIN, Some(channel), channel !in known, Some(Prefix(nick, mask)), None)
  {
    CommandLineParses(nick, mask, JOIN, CHAN_JOIN, channel, known);
    hide ParseChanEvent;
    StrtokLastWord(channel, SPACES);
    assert StrtokR([], SPACES) == None;
  }

  /** Behind a JOIN, KICK or PART, the text from the word behind the channel on, less its first byte. */
  lemma {:induction false} ReasonRoundTrip(nick: Text, mask: Text, command: Text, kind: int, channel: Text, word: Text,
                                           rest: Text, known: set<Text>)
    requires ValidSender(nick, mask) && command in {JOIN, KICK, PART} && EventKind(command) == Some(kind)
    requires SPACE !in channel && channel != [] && SPACE !in word && word != []
    requires |EventLine(nick, mask, command, channel + [SPACE] + (word + [SPACE] + rest))| >= 20
    ensures ParseChanEvent(EventLine(nick, mask, command, channel + [SPACE] + (word + [SPACE] + rest)), true, known)
              == Event(kind, Some(channel), channel !in known, Some(Prefix(nick, mask)),
                       Some(word[1..] + if rest == [] then [] else [SPACE] + rest))
  {
    CommandLineParses(nick, mask, command, kind, channel + [SPACE] + (word + [SPACE] + rest), known);
    KindOfWord(command);
    hide ParseChanEvent, StrtokR, EventKind;
    StrtokWord(channel, SPACE, word + [SPACE] + rest, SPACES);
    StrtokWord(word, SPACE, rest, SPACES);
  }

  /**
   * The reason of a KICK is reported as the victim's nick without its first character and
   * the reason with its colon: the parser takes the victim for the reason's first word.
   */
  lemma {:induction false} KickRoundTrip(nick: Text, mask: Text, channel: Text, victim: Text, reason: Text,
                                         known: set<Text>)
    requires ValidSender(nick, mask)
    requires SPACE !in channel && channel != [] && SPACE !in victim && victim != []
    requires |EventLine(nick, mask, KICK, channel + [SPACE] + (victim + [SPACE] + ([COLON] + reason)))| >= 20
    ensures ParseChanEvent(EventLine(nick, mask, KICK, channel + [SPACE] + (victim + [SPACE] + ([COLON] + reason))),
                           true, known)
              == Event(CHAN_KICK, Some(channel), channel !in known, Some(Prefix(nick, mask)),
                       Some(victim[1..] + ([SPACE] + ([COLON] + reason))))
  {
    KindOfWord(KICK);
    hide ParseChanEvent;
    ReasonRoundTrip(nick, mask, KICK, CHAN_KICK, channel, victim, [COLON] + reason, known);
  }

  /** What is left of a trailing text: all of it unless it is one word and a single space. */
  function Trailing(s: Text): Text {
    if Find(s, SPACE) == |s| - 1 then s[..|s| - 1] else s
  }

  /** The first word behind a QUIT, its colon included. */
  function QuitWord(reason: Text): Text {
    [COLON] + reason[..Find(reason, SPACE)]
  }

  function QuitRest(reason: Text): Text {
    var n := Find(reason, SPACE);
    if n < |reason| then reason[n + 1..] else []
  }

  lemma QuitToken(reason: Text)
    ensures StrtokR([COLON] + reason, SPACES) == Some(Token(QuitWord(reason), QuitRest(reason)))
  {
    hide StrtokR;
    var n := Find(reason, SPACE);
    if n < |reason| {
      CutAt(reason, n);
      assert [COLON] + reason == QuitWord(reason) + [SPACE] + QuitRest(reason);
      assert FreeOf(QuitWord(reason), SPACES);
      hide Find;
      StrtokWord(QuitWord(reason), SPACE, QuitRest(reason), SPACES);
    } else {
      assert QuitWord(reason) == [COLON] + reason;
      assert FreeOf(QuitWord(reason), SPACES);
      hide Find;
      StrtokLastWord([COLON] + reason, SPACES);
    }
  }

  /** With no channel of that name, word and rest are put together again. */
  lemma QuitReason(reason: Text)
    ensures Reason(CHAN_QUIT, QuitWord(reason), QuitRest(reason)) == [COLON] + Trailing(reason)
  {
    var n, word, rest := Find(reason, SPACE), QuitWord(reason), QuitRest(reason);
    hide Find;
    if n == |reason| {
      assert reason[..n] == reason;
    } else {
      CutAt(reason, n);
    }
    WordAndRest(word, rest);
    if rest == [] {
      assert word == [COLON] + Trailing(reason);
    } else {
      Regroup([COLON], reason[..n], [SPACE], rest);
    }
  }

  lemma WordAndRest(word: Text, rest: Text)
    requires word != []
    ensures Reason(CHAN_QUIT, word, rest) == if rest == [] then word else word + [SPACE] + rest
  {
  }

  /** The reason's other words, when its first names a channel. */
  function QuitOthers(reason: Text): Option<Text> {
    match StrtokR(QuitRest(reason), SPACES)
    case None => None
    case Some(t) => Some(Reason(CHAN_QUIT, t.word, t.save))
  }

  lemma {:induction false} QuitArguments(prefix: Prefix, reason: Text, known: set<Text>)
    ensures ParseEventArguments(CHAN_QUIT, prefix, [COLON] + reason, known)
              == if QuitWord(reason) in known
                 then Event(CHAN_QUIT, Some(QuitWord(reason)), false, Some(prefix), QuitOthers(reason))
                 else Event(CHAN_QUIT, None, false, Some(prefix), Some([COLON] + Trailing(reason)))
  {
    hide StrtokR, Find, Trailing, QuitWord, QuitRest;
    QuitToken(reason);
    QuitReason(reason);
  }

  /**
   * A QUIT is reported with no channel and its reason, colon included, exactly when no
   * channel is known by the colon and the reason's first word; with one, that channel is
   * reported and the word is gone from the reason.
   */
  lemma {:induction false} QuitRoundTrip(nick: Text, mask: Text, reason: Text, known: set<Text>)
    requires ValidSender(nick, mask)
    requires |EventLine(nick, mask, QUIT, [COLON] + reason)| >= 20
    ensures var r := ParseChanEvent(EventLine(nick, mask, QUIT, [COLON] + reason), true, known);
            && r.Event? && r.kind == CHAN_QUIT && !r.created && r.prefix == Some(Prefix(nick, mask))
            && (r.chan == None <==> QuitWord(reason) !in known)
            && (r.chan == None ==> r.reason == Some([COLON] + Trailing(reason)))
            && (r.chan != None ==> r.chan == Some(QuitWord(reason)) && r.reason == QuitOthers(reason))
  {
    hide ParseChanEvent, ParseEventArguments, QuitWord, QuitOthers, Trailing;
    CommandLineParses(nick, mask, QUIT, CHAN_QUIT, [COLON] + reason, known);
    QuitArguments(Prefix(nick, mask), reason, known);
  }

  /** An INVITE is reported with everything behind the invited nick as its channel, a colon included. */
  lemma {:induction false} InviteRoundTrip(nick: Text, mask: Text, invited: Text, channel: Text, known: set<Text>)
    requires ValidSender(nick, mask) && SPACE !in invited && invited != []
    requires |EventLine(nick, mask, INVITE, invited + [SPACE] + channel)| >= 20
    ensures ParseChanEvent(EventLine(nick, mask, INVITE, invited + [SPACE] + channel), true, known)
              == Event(CHAN_INVITE, Some(channel), channel !in known, Some(Prefix(nick, mask)), None)
  {
    CommandLineParses(nick, mask, INVITE, CHAN_INVITE, invited + [SPACE] + channel, known);
    hide ParseChanEvent;
    StrtokWord(invited, SPACE, channel, SPACES);
  }

  /**
   * An INVITE with a colon in front of its channel, then a QUIT whose reason is that
   * channel: the QUIT is taken for a departure from it, without a reason.
   */
  lemma {:induction false} InviteThenQuit(nick: Text, mask: Text, invited: Text, channel: Text, known: set<Text>)
    requires ValidSender(nick, mask) && SPACE !in invited && invited != [] && SPACE !in channel && channel != []
    requires |EventLine(nick, mask, INVITE, invited + [SPACE] + ([COLON] + channel))| >= 20
    requires |EventLine(nick, mask, QUIT, [COLON] + channel)| >= 20
    ensures var line := EventLine(nick, mask, INVITE, invited + [SPACE] + ([COLON] + channel));
            var i := ParseChanEvent(line, true, known);
            && i.Event? && i.chan == Some([COLON] + channel)
            && ParseChanEvent(EventLine(nick, mask, QUIT, [COLON] + channel), true, known + {i.chan.value})
                 == Event(CHAN_QUIT, i.chan, false, Some(Prefix(nick, mask)), None)
  {
    hide ParseChanEvent, ParseEventArguments, EventLine;
    InviteRoundTrip(nick, mask, invited, [COLON] + channel, known);
    QuitRoundTrip(nick, mask, channel, known + {[COLON] + channel});
    FindIs(channel, SPACE, |channel|);
    assert QuitWord(channel) == [COLON] + channel;
    assert StrtokR(QuitRest(channel), SPACES) == None;
  }
}
