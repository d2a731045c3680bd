// The two parsers of the events plugin (events.c): get_privmsg tokenises a line word
// by word, get_chan_event finds the same prefix by offset arithmetic.

module EventParsers {
  import opened Options
  import opened CString
  import opened Commands
  import opened PluginAnswers

  const SPACES: set<Byte> := {SPACE}
  const BANGS: set<Byte> := {BANG}

  const CHAN_JOIN := 0
  const CHAN_KICK := 1
  const CHAN_PART := 2
  const CHAN_QUIT := 3
  const CHAN_INVITE := 4

  datatype Prefix = Prefix(nick: Text, mask: Text)

  // ---- get_privmsg ----

  /** What the handler does with a line: nothing, stop quietly, or fire "got_privmsg". */
  datatype Outcome =
    | Ignored
    | Incomplete
    | Message(nick: Text, mask: Text, target: Option<Text>, text: Text)

  /** The first word split at its first '!'; the leading character is dropped unread. */
  function SplitPrefix(word: Text): Option<Prefix> {
    match StrtokR(word, BANGS)
    case None => None
    case Some(t) => Some(Prefix(t.word[1..], t.save))
  }

  function MessageText(save: Text): Text {
    if save == [] then [] else save[1..]
  }

  function ParseArguments(prefix: Prefix, save: Text): Outcome {
    match StrtokR(save, SPACES)
    case None => Message(prefix.nick, prefix.mask, None, [])
    case Some(command) =>
      if command.word != PRIVMSG then Ignored
      else match StrtokR(command.save, SPACES)
        case None => Message(prefix.nick, prefix.mask, None, [])
        case Some(target) => Message(prefix.nick, prefix.mask, Some(target.word), MessageText(target.save))
  }

  function ParsePrivmsg(line: Text): Outcome {
    if !Contains(line, PRIVMSG) then Ignored
    else match StrtokR(line, SPACES)
      case None => Ignored
      case Some(first) =>
        match SplitPrefix(first.word)
        case None => Ignored
        case Some(prefix) => if prefix.mask == [] then Incomplete else ParseArguments(prefix, first.save)
  }

  lemma {:induction false} ContainsIsNotBlank(line: Text)
    requires Contains(line, PRIVMSG)
    ensures StrtokR(line, SPACES).Some?
  {
    if line[0] == SPACE {
      assert !(PRIVMSG <= line);
      ContainsIsNotBlank(line[1..]);
    }
  }

  method GetPrivmsg(line: Text) returns (r: Outcome)
    ensures r == ParsePrivmsg(line)
  {
    if !Contains(line, PRIVMSG) {
      return Ignored;
    }
    ContainsIsNotBlank(line);
    var nick: Text, mask: Text, target: Option<Text> := [], [], None;
    var save := [];
    var str := None;
    var token := StrtokR(line, SPACES);
    if token.Some? {
      str, save := Some(token.value.word), token.value.save;
    }
    var i := 0;
    while str != None
      invariant 0 <= i <= 2 && target == None
      invariant i == 0 ==> str.Some? && StrtokR(line, SPACES) == Some(Token(str.value, save))
      invariant i > 0 ==> mask != []
      invariant i == 1 && str.Some? ==> exists s ::
                    StrtokR(s, SPACES) == Some(Token(str.value, save))
                    && ParsePrivmsg(line) == ParseArguments(Prefix(nick, mask), s)
      invariant i == 2 && str.Some? ==>
                  ParsePrivmsg(line) == Message(nick, mask, Some(str.value), MessageText(save))
      invariant str == None ==> save == [] && ParsePrivmsg(line) == Message(nick, mask, None, [])
      decreases 3 - i, str.Some?
    {
      if i == 0 {
        var parts := StrtokR(str.value, BANGS);
        if parts == None {
          return Ignored;
        }
        nick := parts.value.word[1..];
        mask := parts.value.save;
        if mask == [] {
          return Incomplete;
        }
      }
      if i == 1 {
        if str.value != PRIVMSG {
          return Ignored;
        }
      }
      if i == 2 {
        target := str;
        break;
      }
      token := StrtokR(save, SPACES);
      if token.Some? {
        str, save := Some(token.value.word), token.value.save;
      } else {
        str, save := None, [];
      }
      i := i + 1;
    }
    return Message(nick, mask, target, MessageText(save));
  }

  /**
   * "got_privmsg" fires exactly for lines that mention PRIVMSG, start with a prefix that
   * has a mask, and have PRIVMSG for a second word if they have one; the target is the
   * third word.
   */
  lemma {:induction false} MessageIff(line: Text)
    ensures var words := Tokens(line, SPACES);
            && (ParsePrivmsg(line).Message? <==>
                && Contains(line, PRIVMSG)
                && words != [] && SplitPrefix(words[0]).Some? && SplitPrefix(words[0]).value.mask != []
                && (|words| > 1 ==> words[1] == PRIVMSG))
            && (ParsePrivmsg(line).Message? ==>
                var m := ParsePrivmsg(line);
                && SplitPrefix(words[0]) == Some(Prefix(m.nick, m.mask))
                && m.target == (if |words| > 2 then Some(words[2]) else None)
                && (|words| <= 2 ==> m.text == []))
            && (ParsePrivmsg(line).Incomplete? <==>
                && Contains(line, PRIVMSG)
                && words != [] && SplitPrefix(words[0]).Some? && SplitPrefix(words[0]).value.mask == [])
  {
    var words := Tokens(line, SPACES);
    if StrtokR(line, SPACES).Some? {
      var first := StrtokR(line, SPACES).value;
      assert words == [first.word] + Tokens(first.save, SPACES);
      if StrtokR(first.save, SPACES).Some? {
        var command := StrtokR(first.save, SPACES).value;
        assert Tokens(first.save, SPACES) == [command.word] + Tokens(command.save, SPACES);
      }
    }
  }

  // ---- get_chan_event ----

  /** A prefix found by offsets; `Wrapped` is a size_t length below zero. */
  datatype Offsets = Missing | Wrapped | Found(prefix: Prefix)

  function OffsetPrefix(line: Text): Offsets {
    var bang, space := Find(line, BANG), Find(line, SPACE);
    if bang == |line| then Missing
    else if bang == 0 then Wrapped
    else if space == |line| then Missing
    else if space < bang then Wrapped
    else Found(Prefix(line[1..bang], line[bang + 1..space]))
  }

  datatype ChanOutcome =
    | Skipped(code: int)
    | Fault
    | Event(kind: int, chan: Option<Text>, created: bool, prefix: Option<Prefix>, reason: Option<Text>)

  function EventKind(word: Text): Option<int> {
    if word == JOIN then Some(CHAN_JOIN)
    else if word == KICK then Some(CHAN_KICK)
    else if word == PART then Some(CHAN_PART)
    else if word == QUIT then Some(CHAN_QUIT)
    else if word == INVITE then Some(CHAN_INVITE)
    else None
  }

  function Reason(kind: int, word: Text, save: Text): Text
    requires word != []
  {
    (if kind == CHAN_QUIT then word else word[1..]) + (if save == [] then [] else [SPACE] + save)
  }

  /** The part of a line behind its command, for the channels `known` on this server. */
  function ParseEventArguments(kind: int, prefix: Prefix, save: Text, known: set<Text>): ChanOutcome {
    match StrtokR(save, SPACES)
    case None => Event(kind, None, false, Some(prefix), None)
    case Some(name) =>
      if kind == CHAN_INVITE then Event(kind, Some(name.save), name.save !in known, Some(prefix), None)
      else if kind == CHAN_QUIT && name.word !in known then
        Event(kind, None, false, Some(prefix), Some(Reason(kind, name.word, name.save)))
      else
        var created := name.word !in known;
        match StrtokR(name.save, SPACES)
        case None => Event(kind, Some(name.word), created, Some(prefix), None)
        case Some(first) =>
          Event(kind, Some(name.word), created, Some(prefix), Some(Reason(kind, first.word, first.save)))
  }

  function ParseChanEvent(line: Text, motdSent: bool, known: set<Text>): ChanOutcome {
    if |line| + 1 <= 20 then Skipped(BCIRC_PLUGIN_CONTINUE)
    else if !motdSent then Skipped(BCIRC_PLUGIN_STOP)
    else match StrtokR(line, SPACES)
      case None => Event(CHAN_JOIN, None, false, None, None)
      case Some(first) =>
        match StrtokR(first.save, SPACES)
        case None => Event(CHAN_JOIN, None, false, None, None)
        case Some(command) =>
          match EventKind(command.word)
          case None => Skipped(BCIRC_PLUGIN_OK)
          case Some(kind) =>
            match OffsetPrefix(line)
            case Missing => Skipped(BCIRC_PLUGIN_CONTINUE)
            case Wrapped => Fault
            case Found(prefix) => ParseEventArguments(kind, prefix, command.save, known)
  }

  /**
   * get_chan_event. The two `continue` branches go round with the same token, so it is
   * the counter that makes the loop end.
   */
  method GetChanEvent(line: Text, motdSent: bool, known: set<Text>) returns (r: ChanOutcome)
    ensures r == ParseChanEvent(line, motdSent, known)
  {
    if |line| + 1 <= 20 {
      return Skipped(BCIRC_PLUGIN_CONTINUE);
    }
    if !motdSent {
      return Skipped(BCIRC_PLUGIN_STOP);
    }
    var kind, chan, created := CHAN_JOIN, None, false;
    var prefix: Option<Prefix>, reason: Option<Text> := None, None;
    var token := StrtokR(line, SPACES);
    var i := 0;
    while token != None
      invariant 0 <= i <= 3 && reason == None
      invariant i <= 2 ==> chan == None && !created
      invariant i <= 1 ==> kind == CHAN_JOIN && prefix == None
      invariant i == 0 ==> token == StrtokR(line, SPACES)
      invariant i == 1 ==>
                  var first := StrtokR(line, SPACES);
                  first.Some? && token == StrtokR(first.value.save, SPACES)
      invariant i >= 2 ==> prefix.Some?
      invariant token.Some? ==> token.value.word != []
      invariant i == 2 ==>
                  exists s :: token == StrtokR(s, SPACES)
                    && ParseChanEvent(line, motdSent, known) == ParseEventArguments(kind, prefix.value, s, known)
      invariant i == 3 && token.Some? ==>
                  ParseChanEvent(line, motdSent, known) ==
                  if kind == CHAN_INVITE then
                    Event(kind, Some(token.value.save), token.value.save !in known, prefix, None)
                  else
                    Event(kind, chan, created, prefix, Some(Reason(kind, token.value.word, token.value.save)))
      invariant i == 3 && token == None ==>
                  ParseChanEvent(line, motdSent, known) == Event(kind, chan, created, prefix, None)
      decreases 3 - i
    {
      if i == 1 {
        var k := EventKind(token.value.word);
        if k == None {
          return Skipped(BCIRC_PLUGIN_OK);
        }
        kind := k.value;
        var offsets := OffsetPrefix(line);
        if offsets.Missing? {
          return Skipped(BCIRC_PLUGIN_CONTINUE);
        } else if offsets.Wrapped? {
          return Fault;
        }
        prefix := Some(offsets.prefix);
      }
      if i == 2 {
        if kind == CHAN_INVITE {
          i := i + 1;
          continue;
        }
        if token.value.word !in known {
          if kind == CHAN_QUIT {
            i := i + 1;
            continue;
          }
          created := true;
        }
        chan := Some(token.value.word);
      }
      if i == 3 {
        if kind == CHAN_INVITE {
          chan, created := Some(token.value.save), token.value.save !in known;
          break;
        }
        reason := Some(Reason(kind, token.value.word, token.value.save));
        break;
      }
      token := StrtokR(token.value.save, SPACES);
      i := i + 1;
    }
    return Event(kind, chan, created, prefix, reason);
  }

  // ---- Which lines are channel events ----

  const EVENT_WORDS: set<Text> := {JOIN, KICK, PART, QUIT, INVITE}

  lemma TwoWordsHaveSpace(line: Text)
    requires |Tokens(line, SPACES)| > 1
    ensures SPACE in line
  {
    if SPACE !in line {
      TokensOfWord(line, SPACES);
    }
  }

  lemma FirstWords(line: Text)
    ensures var words := Tokens(line, SPACES);
            match StrtokR(line, SPACES)
            case None => words == []
            case Some(first) => words == [first.word] + Tokens(first.save, SPACES)
  {
  }

  lemma KindOfWord(word: Text)
    ensures EventKind(word).Some? <==> word in EVENT_WORDS
    ensures word in EVENT_WORDS ==>
              var kind := EventKind(word).value;
              && (kind == CHAN_JOIN <==> word == JOIN) && (kind == CHAN_KICK <==> word == KICK)
              && (kind == CHAN_PART <==> word == PART) && (kind == CHAN_QUIT <==> word == QUIT)
              && (kind == CHAN_INVITE <==> word == INVITE)
  {
    assert JOIN[0] != KICK[0] && JOIN[0] != PART[0] && JOIN[0] != QUIT[0] && JOIN[0] != INVITE[0];
    assert KICK[0] != PART[0] && KICK[0] != QUIT[0] && KICK[0] != INVITE[0];
    assert PART[0] != QUIT[0] && PART[0] != INVITE[0] && QUIT[0] != INVITE[0];
  }

  /** What becomes of a line that is long enough and comes behind the MOTD, by its words. */
  ghost predicate IsOutcome(line: Text, r: ChanOutcome) {
    var words := Tokens(line, SPACES);
    var bang, space := Find(line, BANG), Find(line, SPACE);
    if |words| < 2 then r == Event(CHAN_JOIN, None, false, None, None)
    else if words[1] !in EVENT_WORDS then r == Skipped(BCIRC_PLUGIN_OK)
    else if BANG !in line then r == Skipped(BCIRC_PLUGIN_CONTINUE)
    else if bang == 0 || space < bang then r == Fault
    else
      && r.Event? && r.prefix == Some(Prefix(line[1..bang], line[bang + 1..space]))
      && (r.kind == CHAN_JOIN <==> words[1] == JOIN) && (r.kind == CHAN_KICK <==> words[1] == KICK)
      && (r.kind == CHAN_PART <==> words[1] == PART) && (r.kind == CHAN_QUIT <==> words[1] == QUIT)
      && (r.kind == CHAN_INVITE <==> words[1] == INVITE)
  }

  /**
   * A channel event is reported exactly for a long enough line behind the MOTD whose second
   * word is one of the five and which has a prefix, with the kind of that word; or, with no
   * prefix, for a line of at most one word. Any other second word is answered OK.
   */
  lemma {:induction false} ChanEventIff(line: Text, motdSent: bool, known: set<Text>)
    ensures var r := ParseChanEvent(line, motdSent, known);
            && (|line| < 20 ==> r == Skipped(BCIRC_PLUGIN_CONTINUE))
            && (|line| >= 20 && !motdSent ==> r == Skipped(BCIRC_PLUGIN_STOP))
            && (|line| >= 20 && motdSent ==> IsOutcome(line, r))
  {
    var words := Tokens(line, SPACES);
    if |line| >= 20 && motdSent {
      FirstWords(line);
      if words != [] {
        FirstWords(StrtokR(line, SPACES).value.save);
      }
      hide StrtokR, EventKind, Find, Tokens;
      if |words| > 1 {
        KindOfWord(words[1]);
        TwoWordsHaveSpace(line);
      }
    }
  }

  /** What an event reports of the words behind its command. */
  ghost predicate ReportsWords(words: seq<Text>, known: set<Text>, r: ChanOutcome)
    requires r.Event? && |words| > 1
  {
    var named := |words| > 2;
    if r.kind == CHAN_INVITE then (r.chan.Some? <==> named) && r.reason == None
    else if r.kind == CHAN_QUIT then
      && !r.created
      && r.chan == (if named && words[2] in known then Some(words[2]) else None)
      && (r.reason.Some? <==> named && (words[2] in known ==> |words| > 3))
    else
      && r.chan == (if named then Some(words[2]) else None)
      && (r.created <==> named && words[2] !in known)
      && (r.reason.Some? <==> |words| > 3)
  }

  lemma ArgumentsAreWords(kind: int, prefix: Prefix, save: Text, known: set<Text>, first: Text, command: Text)
    ensures var r := ParseEventArguments(kind, prefix, save, known);
            r.Event? && r.kind == kind && ReportsWords([first, command] + Tokens(save, SPACES), known, r)
  {
    hide StrtokR, Tokens, Reason;
    var words := [first, command] + Tokens(save, SPACES);
    FirstWords(save);
    if StrtokR(save, SPACES).Some? {
      var name := StrtokR(save, SPACES).value;
      FirstWords(name.save);
      assert words[2] == name.word && |words| == 3 + |Tokens(name.save, SPACES)|;
      assert |words| > 3 <==> StrtokR(name.save, SPACES).Some?;
    }
  }

  lemma TwoWords(line: Text) returns (first: Token, command: Token)
    requires |Tokens(line, SPACES)| > 1
    ensures StrtokR(line, SPACES) == Some(first) && StrtokR(first.save, SPACES) == Some(command)
    ensures Tokens(line, SPACES) == [first.word, command.word] + Tokens(command.save, SPACES)
  {
    FirstWords(line);
    first := StrtokR(line, SPACES).value;
    FirstWords(first.save);
    command := StrtokR(first.save, SPACES).value;
    hide StrtokR, Tokens;
    Regroup([], [first.word], [command.word], Tokens(command.save, SPACES));
    assert [first.word] + [command.word] == [first.word, command.word];
  }

  lemma EventHasArguments(line: Text, motdSent: bool, known: set<Text>, first: Token, command: Token)
    requires StrtokR(line, SPACES) == Some(first) && StrtokR(first.save, SPACES) == Some(command)
    requires ParseChanEvent(line, motdSent, known).Event?
    ensures EventKind(command.word).Some? && OffsetPrefix(line).Found?
    ensures ParseChanEvent(line, motdSent, known)
              == ParseEventArguments(EventKind(command.word).value, OffsetPrefix(line).prefix, command.save, known)
  {
    hide StrtokR, EventKind, OffsetPrefix, ParseEventArguments;
  }

  /** The channel is the third word, found or created, and there is a reason if there are words for it. */
  lemma {:induction false} EventReportsWords(line: Text, motdSent: bool, known: set<Text>)
    requires ParseChanEvent(line, motdSent, known).Event? && |Tokens(line, SPACES)| > 1
    ensures ReportsWords(Tokens(line, SPACES), known, ParseChanEvent(line, motdSent, known))
  {
    hide ParseChanEvent, StrtokR, Tokens, EventKind, OffsetPrefix, ParseEventArguments, ReportsWords;
    var first, command := TwoWords(line);
    EventHasArguments(line, motdSent, known, first, command);
    ArgumentsAreWords(EventKind(command.word).value, OffsetPrefix(line).prefix, command.save, known,
                      first.word, command.word);
  }
}
