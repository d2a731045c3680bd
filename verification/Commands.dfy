// The commands the bot prints (irc_cmds.c) and the words its parsers look for.

module Commands {
  import opened CString

  const PRIVMSG: Text := [80, 82, 73, 86, 77, 83, 71]
  const JOIN: Text := [74, 79, 73, 78]
  const KICK: Text := [75, 73, 67, 75]
  const PART: Text := [80, 65, 82, 84]
  const QUIT: Text := [81, 85, 73, 84]
  const INVITE: Text := [73, 78, 86, 73, 84, 69]

  function Bytes(s: string): seq<int> {
    seq(|s|, i requires 0 <= i < |s| => s[i] as int)
  }

  lemma WordsAreSpelled()
    ensures PRIVMSG == Bytes("PRIVMSG") && JOIN == Bytes("JOIN") && KICK == Bytes("KICK")
    ensures PART == Bytes("PART") && QUIT == Bytes("QUIT") && INVITE == Bytes("INVITE")
  {
  }

  /** The line `PRIVMSG target :text`, without its line end. */
  function PrivmsgLine(text: Text, target: Text): Text {
    PRIVMSG + [SPACE] + (target + [SPACE] + ([COLON] + text))
  }

  /** What privmsg sends. */
  function Privmsg(text: Text, target: Text): Text {
    PrivmsgLine(text, target) + [CR, LF]
  }
}
