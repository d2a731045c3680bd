// Bytes and the parts of the C string library the bot leans on: NUL-terminated
// text, strchr, and strtok_r with its save pointer.

module CString {
  import opened Options

  type Byte = b: int | 0 <= b < 256
  type Text = seq<Byte>

  const NUL: Byte := 0
  const TAB: Byte := 9
  const LF: Byte := 10
  const CR: Byte := 13
  const SPACE: Byte := 32
  const BANG: Byte := 33
  const HASH: Byte := 35
  const PERCENT: Byte := 37
  const AMP: Byte := 38
  const COLON: Byte := 58
  const SEMICOLON: Byte := 59

  lemma CutAt<T>(s: seq<T>, n: nat)
    requires n < |s|
    ensures s == s[..n] + [s[n]] + s[n + 1..]
  {
  }

  lemma Regroup<T>(a: seq<T>, b: seq<T>, c: seq<T>, d: seq<T>)
    ensures a + b + c + d == a + (b + c + d)
    ensures b + c + d == b + (c + d)
  {
  }

  /** Position of the first `c` in `s`, or `|s|` (strchr, memchr). */
  function Find(s: Text, c: Byte): (i: nat)
    ensures i <= |s|
    ensures forall j :: 0 <= j < i ==> s[j] != c
    ensures i < |s| ==> s[i] == c
  {
    if s == [] || s[0] == c then 0 else 1 + Find(s[1..], c)
  }

  lemma FindIs(s: Text, c: Byte, i: nat)
    requires i <= |s| && (forall j :: 0 <= j < i ==> s[j] != c) && (i < |s| ==> s[i] == c)
    ensures Find(s, c) == i
  {
    if i > 0 {
      FindIs(s[1..], c, i - 1);
    }
  }

  /** The C string held at the start of `memory`. */
  function CStr(memory: Text): (s: Text)
    ensures s <= memory && NUL !in s
  {
    memory[..Find(memory, NUL)]
  }

  /** strstr finds `word` in `s`. */
  predicate Contains(s: Text, word: Text) {
    word <= s || (s != [] && Contains(s[1..], word))
  }

  lemma {:induction false} ContainsAt(before: Text, word: Text, after: Text)
    ensures Contains(before + word + after, word)
  {
    var s := before + word + after;
    if before == [] {
      assert s == word + after;
    } else {
      ContainsAt(before[1..], word, after);
      assert s[1..] == before[1..] + word + after;
    }
  }

  /** strstr finds a word exactly where some rest of the text starts with it. */
  lemma {:induction false} ContainsIff(s: Text, word: Text)
    ensures Contains(s, word) <==> exists i :: 0 <= i <= |s| && word <= s[i..]
  {
    assert s[0..] == s;
    if s != [] {
      ContainsIff(s[1..], word);
      assert forall i :: 1 <= i <= |s| ==> s[i..] == s[1..][i - 1..];
      assert forall i :: 0 <= i <= |s[1..]| ==> s[1..][i..] == s[i + 1..];
    }
  }

  // ---- strcmp order ----

  /** `a` sorts before `b` byte by byte, a proper prefix first. */
  predicate LexLess(a: Text, b: Text) {
    b != [] && (a == [] || a[0] < b[0] || (a[0] == b[0] && LexLess(a[1..], b[1..])))
  }

  /** The first difference decides. */
  lemma {:induction false} LexLessFrom(a: Text, b: Text, i: nat)
    requires i < |a| && i < |b| && a[..i] == b[..i] && a[i] < b[i]
    ensures LexLess(a, b)
  {
    if i > 0 {
      assert a[0] == a[..i][0] && b[0] == b[..i][0];
      assert a[1..][..i - 1] == a[..i][1..] && b[1..][..i - 1] == b[..i][1..];
      LexLessFrom(a[1..], b[1..], i - 1);
    }
  }

  // ---- strtok_r ----

  /** Drops the delimiters at the front of `s`. */
  function SkipDelimiters(s: Text, delims: set<Byte>): (t: Text)
    ensures |t| <= |s|
    ensures t != [] ==> t[0] !in delims
  {
    if s != [] && s[0] in delims then SkipDelimiters(s[1..], delims) else s
  }

  /** Number of bytes before the first delimiter. */
  function Span(s: Text, delims: set<Byte>): (n: nat)
    ensures n <= |s|
    ensures forall j :: 0 <= j < n ==> s[j] !in delims
    ensures n < |s| ==> s[n] in delims
  {
    if s == [] || s[0] in delims then 0 else 1 + Span(s[1..], delims)
  }

  datatype Token = Token(word: Text, save: Text)

  /** One call of strtok_r: the next token and the text behind the save pointer. */
  function StrtokR(s: Text, delims: set<Byte>): (t: Option<Token>)
    ensures t.Some? ==> t.value.word != [] && |t.value.save| < |s|
  {
    var rest := SkipDelimiters(s, delims);
    if rest == [] then None
    else
      var n := Span(rest, delims);
      Some(Token(rest[..n], if n < |rest| then rest[n + 1..] else []))
  }

  /** Every token a strtok_r loop sees, in order. */
  function Tokens(s: Text, delims: set<Byte>): seq<Text>
    decreases |s|
  {
    match StrtokR(s, delims)
    case None => []
    case Some(t) => [t.word] + Tokens(t.save, delims)
  }

  ghost predicate FreeOf(s: Text, delims: set<Byte>) {
    forall i :: 0 <= i < |s| ==> s[i] !in delims
  }

  lemma SpanIs(s: Text, delims: set<Byte>, n: nat)
    requires n <= |s| && (forall j :: 0 <= j < n ==> s[j] !in delims) && (n < |s| ==> s[n] in delims)
    ensures Span(s, delims) == n
  {
    if n > 0 {
      SpanIs(s[1..], delims, n - 1);
    }
  }

  /** A non-empty word followed by a delimiter is the next token. */
  lemma StrtokWord(word: Text, d: Byte, rest: Text, delims: set<Byte>)
    requires word != [] && FreeOf(word, delims) && d in delims
    ensures StrtokR(word + [d] + rest, delims) == Some(Token(word, rest))
  {
    var s := word + [d] + rest;
    assert s[0] == word[0];
    assert s[..|word|] == word;
    SpanIs(s, delims, |word|);
  }

  lemma StrtokLastWord(word: Text, delims: set<Byte>)
    requires word != [] && FreeOf(word, delims)
    ensures StrtokR(word, delims) == Some(Token(word, []))
  {
    assert word[..|word|] == word;
    SpanIs(word, delims, |word|);
  }

  lemma TokensSkip(s: Text, delims: set<Byte>)
    requires s != [] && s[0] in delims
    ensures Tokens(s, delims) == Tokens(s[1..], delims)
  {
    StrtokSkip(s, delims);
    if StrtokR(s, delims).Some? {
      TokensFirst(s, StrtokR(s, delims).value.word, StrtokR(s, delims).value.save, delims);
      TokensFirst(s[1..], StrtokR(s, delims).value.word, StrtokR(s, delims).value.save, delims);
    }
  }

  lemma StrtokSkip(s: Text, delims: set<Byte>)
    requires s != [] && s[0] in delims
    ensures StrtokR(s, delims) == StrtokR(s[1..], delims)
  {
    assert SkipDelimiters(s, delims) == SkipDelimiters(s[1..], delims);
  }

  lemma TokensFirst(s: Text, word: Text, save: Text, delims: set<Byte>)
    requires StrtokR(s, delims) == Some(Token(word, save))
    ensures Tokens(s, delims) == [word] + Tokens(save, delims)
  {
  }

  /** A delimiter cuts the text: what is left of it and right of it tokenise apart. */
  lemma {:induction false} TokensSplit(a: Text, d: Byte, b: Text, delims: set<Byte>)
    requires d in delims
    ensures Tokens(a + [d] + b, delims) == Tokens(a, delims) + Tokens(b, delims)
    decreases |a|
  {
    var s := a + [d] + b;
    if a == [] {
      assert s[1..] == b;
      TokensSkip(s, delims);
    } else if a[0] in delims {
      assert s[1..] == a[1..] + [d] + b;
      TokensSkip(s, delims);
      TokensSkip(a, delims);
      TokensSplit(a[1..], d, b, delims);
    } else {
      TokensSplitWord(a, d, b, delims);
    }
  }

  lemma {:induction false} TokensSplitWord(a: Text, d: Byte, b: Text, delims: set<Byte>)
    requires d in delims && a != [] && a[0] !in delims
    ensures Tokens(a + [d] + b, delims) == Tokens(a, delims) + Tokens(b, delims)
    decreases |a|, 0
  {
    var n := Span(a, delims);
    var word := a[..n];
    if n == |a| {
      assert word == a;
      TokensAfterWord(a, d, b, delims);
      TokensOfWord(a, delims);
    } else {
      var rest, tail := a[n + 1..], a[n + 1..] + [d] + b;
      assert a == word + [a[n]] + rest && a + [d] + b == word + [a[n]] + tail by {
        CutAt(a, n);
        Regroup(word + [a[n]], rest, [d], b);
      }
      calc {
        Tokens(a + [d] + b, delims);
        { TokensAfterWord(word, a[n], tail, delims); }
        [word] + Tokens(tail, delims);
        { TokensSplit(rest, d, b, delims); }
        [word] + (Tokens(rest, delims) + Tokens(b, delims));
        { Regroup([], [word], Tokens(rest, delims), Tokens(b, delims)); }
        ([word] + Tokens(rest, delims)) + Tokens(b, delims);
        { TokensAfterWord(word, a[n], rest, delims); }
        Tokens(a, delims) + Tokens(b, delims);
      }
    }
  }

  lemma {:induction false} TokensAfterWord(word: Text, d: Byte, rest: Text, delims: set<Byte>)
    requires word != [] && FreeOf(word, delims) && d in delims
    ensures Tokens(word + [d] + rest, delims) == [word] + Tokens(rest, delims)
  {
    StrtokWord(word, d, rest, delims);
    TokensFirst(word + [d] + rest, word, rest, delims);
  }

  lemma TokensOfWord(word: Text, delims: set<Byte>)
    requires FreeOf(word, delims)
    ensures Tokens(word, delims) == if word == [] then [] else [word]
  {
    if word != [] {
      StrtokLastWord(word, delims);
      TokensFirst(word, word, [], delims);
    }
  }
}
