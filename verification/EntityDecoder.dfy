// decode_html_entities_utf8 over one buffer: two cursors, overlapping moves, and an
// input that is destroyed as it is read.

module EntityDecoder {
  import opened Options
  import opened CString
  import opened EntityTable
  import opened Numerals
  import opened Entities
  import Utf8

  /** `memory` holds exactly `text`, NUL-terminated, from `at` on. */
  ghost predicate Holds(memory: Text, at: nat, text: Text) {
    && NUL !in text
    && at + |text| < |memory|
    && memory[at..at + |text|] == text
    && memory[at + |text|] == NUL
  }

  lemma HoldsFrom(memory: Text, at: nat, text: Text, k: nat)
    requires Holds(memory, at, text) && k <= |text|
    ensures Holds(memory, at + k, text[k..])
    ensures CStr(memory[at + k..]) == text[k..]
  {
    var rest := text[k..];
    assert memory[at + k..at + |text|] == memory[at..at + |text|][k..];
    assert forall j :: 0 <= j < |rest| ==> memory[at + k..][j] == rest[j];
    FindIs(memory[at + k..], NUL, |rest|);
  }

  /** strchr: the first `c` of `text` at or after `start`, or -1 at the end of the string. */
  method Strchr(buffer: array<Byte>, start: nat, c: Byte, ghost text: Text) returns (at: int)
    requires Holds(buffer[..], start, text) && c != NUL
    ensures at == if Find(text, c) < |text| then start + Find(text, c) else -1
  {
    at := start;
    while buffer[at] != c
      invariant start <= at <= start + |text|
      invariant forall j :: 0 <= j < at - start ==> text[j] != c
      decreases buffer.Length - at
    {
      assert at < start + |text| ==> buffer[..][start..start + |text|][at - start] == text[at - start];
      if buffer[at] == NUL {
        FindIs(text, c, |text|);
        return -1;
      }
      at := at + 1;
    }
    assert buffer[..][start..start + |text|][at - start] == text[at - start];
    FindIs(text, c, at - start);
  }

  method Strlen(buffer: array<Byte>, start: nat, ghost text: Text) returns (n: nat)
    requires Holds(buffer[..], start, text)
    ensures n == |text|
  {
    assert forall j :: 0 <= j < |text| ==> buffer[..][start..start + |text|][j] == text[j];
    n := 0;
    while buffer[start + n] != NUL
      invariant n <= |text|
      decreases |text| - n
    {
      n := n + 1;
    }
  }

  /** Writing `bytes` at `to` turned `before` into `after`. */
  ghost predicate Spliced(before: Text, to: nat, bytes: Text, after: Text) {
    && to + |bytes| <= |before|
    && after == before[..to] + bytes + before[to + |bytes|..]
  }

  /** memmove of `n` bytes; the ranges may overlap. */
  method Memmove(dest: array<Byte>, to: nat, src: array<Byte>, from: nat, n: nat)
    requires to + n <= dest.Length && from + n <= src.Length
    modifies dest
    ensures Spliced(old(dest[..]), to, old(src[from..from + n]), dest[..])
  {
    forall i | 0 <= i < n {
      dest[to + i] := src[from + i];
    }
  }

  method ReadNumeric(src: array<Byte>, current: nat, end: nat, ghost text: Text) returns (cp: Option<nat>)
    requires Holds(src[..], current, text)
    requires Find(text, SEMICOLON) < |text| && text[0] == AMP && text[1] == HASH
    requires end == current + Find(text, SEMICOLON)
    ensures cp == NumericValue(text)
  {
    assert src[current + 2] == text[2];
    var hex := src[current + 2] == 120 || src[current + 2] == 88;
    var digits := if hex then 3 else 2;
    HoldsFrom(src[..], current, text, digits);
    assert src[..][current + digits..] == src[current + digits..];
    var number := Strtoul(CStr(src[current + digits..]), if hex then 16 else 10);
    if number.range || current + digits + number.used != end || number.value > Utf8.UNICODE_MAX {
      return None;
    }
    return Some(number.value);
  }

  method ReadNamed(table: Table, src: array<Byte>, current: nat, ghost text: Text) returns (value: Option<Text>)
    requires ValidTable(table) && Holds(src[..], current, text) && text != []
    ensures value == Lookup(table, text[1..])
  {
    HoldsFrom(src[..], current, text, 1);
    assert src[..][current + 1..] == src[current + 1..];
    value := GetNamedEntity(table, CStr(src[current + 1..]));
  }

  lemma NamedEntity(table: Table, text: Text)
    requires Find(text, SEMICOLON) < |text| && text[0] == AMP && text[1] != HASH
    ensures ParseEntity(table, text) == match Lookup(table, text[1..])
                                        case None => None
                                        case Some(value) => Some(Reference(value, Find(text, SEMICOLON) + 1))
  {
    hide Lookup, Find;
  }

  method ParseNumericAt(table: Table, src: array<Byte>, current: nat, end: nat, dest: array<Byte>, to: nat,
                        ghost text: Text)
    returns (r: Option<Reference>)
    requires ValidTable(table) && Holds(src[..], current, text)
    requires Find(text, SEMICOLON) < |text| && text[0] == AMP && text[1] == HASH
    requires end == current + Find(text, SEMICOLON) && to + |text| <= dest.Length
    modifies dest
    ensures r == Entities.ParseEntity(table, text)
    ensures Spliced(old(dest[..]), to, if r.Some? then r.value.text else [], dest[..])
  {
    hide NumericValue, ParseEntity, Utf8.Encode, Holds;
    NumericParse(table, text);
    var cp := ReadNumeric(src, current, end, text);
    if cp == None {
      return None;
    }
    ReferenceShrinks(table, text);
    var n := Utf8.PutcUtf8(cp.value, dest, to);
    return Some(Reference(Utf8.Encode(cp.value), end + 1 - current));
  }

  method ParseNamedAt(table: Table, src: array<Byte>, current: nat, end: nat, dest: array<Byte>, to: nat,
                      ghost text: Text)
    returns (r: Option<Reference>)
    requires ValidTable(table) && Holds(src[..], current, text)
    requires Find(text, SEMICOLON) < |text| && text[0] == AMP && text[1] != HASH
    requires end == current + Find(text, SEMICOLON) && to + |text| <= dest.Length
    modifies dest
    ensures r == Entities.ParseEntity(table, text)
    ensures Spliced(old(dest[..]), to, if r.Some? then r.value.text else [], dest[..])
  {
    hide Lookup, ParseEntity, Holds, ValidTable;
    NamedEntity(table, text);
    var entity := ReadNamed(table, src, current, text);
    if entity == None {
      return None;
    }
    ReferenceShrinks(table, text);
    var bytes := new Byte[|entity.value|](i requires 0 <= i < |entity.value| => entity.value[i]);
    Memmove(dest, to, bytes, 0, bytes.Length);
    assert bytes[0..bytes.Length] == entity.value;
    return Some(Reference(entity.value, end + 1 - current));
  }

  /**
   * Reads the reference at `src[current]` and writes what it stands for at `dest[to]`.
   * `text` is what is left to read. The buffers may be the same.
   */
  method ParseEntityAt(table: Table, src: array<Byte>, current: nat, dest: array<Byte>, to: nat, ghost text: Text)
    returns (r: Option<Reference>)
    requires ValidTable(table) && Holds(src[..], current, text) && text != [] && text[0] == AMP
    requires to + |text| <= dest.Length
    modifies dest
    ensures r == Entities.ParseEntity(table, text)
    ensures Spliced(old(dest[..]), to, if r.Some? then r.value.text else [], dest[..])
  {
    hide NumericValue, Lookup, ValidTable;
    var end := Strchr(src, current, SEMICOLON, text);
    if end < 0 {
      return None;
    }
    if src[current + 1] == HASH {
      r := ParseNumericAt(table, src, current, end, dest, to, text);
    } else {
      r := ParseNamedAt(table, src, current, end, dest, to, text);
    }
  }

  /**
   * The state between two steps of the decoder. The write cursor has not passed the
   * read cursor, `rest` is still unread and intact, and what is written so far followed
   * by `left`, the decoding of `rest`, is `goal`, the decoding of the whole text.
   */
  ghost predicate Between(goal: Text, left: Text, rest: Text, dest: Text, src: Text, to: nat, from: nat) {
    && to <= from && from + |rest| < |dest|
    && Holds(src, from, rest)
    && dest[..to] + left == goal
  }

  /** Whatever a step writes, it writes no more than it has read. */
  lemma StepKeepsBetween(goal: Text, left: Text, rest: Text, dest: Text, src: Text, to: nat, from: nat,
                         bytes: Text, used: nat, left': Text, dest': Text, src': Text)
    requires Between(goal, left, rest, dest, src, to, from)
    requires |bytes| <= used <= |rest|
    requires left == bytes + left'
    requires Spliced(dest, to, bytes, dest')
    requires src' == src || (src == dest && src' == dest')
    ensures Between(goal, left', rest[used..], dest', src', to + |bytes|, from + used)
    ensures dest'[from + |rest| + 1..] == dest[from + |rest| + 1..]
  {
    SplicedParts(dest, to, bytes, dest', from + used);
    SplicedParts(dest, to, bytes, dest', from + |rest| + 1);
    Regroup([], dest[..to], bytes, left');
    HoldsFrom(src, from, rest, used);
    HoldsInTail(src, src', from + used, rest[used..]);
  }

  lemma SplicedParts(before: Text, to: nat, bytes: Text, after: Text, cut: nat)
    requires Spliced(before, to, bytes, after) && to + |bytes| <= cut <= |before|
    ensures |after| == |before| && after[..to + |bytes|] == before[..to] + bytes
    ensures after[cut..] == before[cut..]
  {
  }

  lemma HoldsInTail(memory: Text, memory': Text, at: nat, text: Text)
    requires Holds(memory, at, text) && |memory'| == |memory| && memory'[at..] == memory[at..]
    ensures Holds(memory', at, text)
  {
    assert memory'[at..at + |text|] == memory'[at..][..|text|];
    assert memory'[at + |text|] == memory'[at..][|text|];
  }

  lemma DecodesReference(table: Table, rest: Text, r: Reference)
    requires ValidTable(table) && rest != [] && rest[0] == AMP
    requires ParseEntity(table, rest) == Some(r)
    ensures |r.text| <= r.used <= |rest|
    ensures Decode(table, rest) == r.text + Decode(table, rest[r.used..])
  {
    ReferenceShrinks(table, rest);
  }

  lemma ReferenceStep(table: Table, goal: Text, rest: Text, dest: Text, src: Text, to: nat, from: nat,
                      r: Reference, dest': Text, src': Text)
    requires ValidTable(table) && rest != [] && rest[0] == AMP
    requires Between(goal, Decode(table, rest), rest, dest, src, to, from)
    requires ParseEntity(table, rest) == Some(r)
    requires Spliced(dest, to, r.text, dest')
    requires src' == src || (src == dest && src' == dest')
    ensures r.used <= |rest|
    ensures Between(goal, Decode(table, rest[r.used..]), rest[r.used..], dest', src', to + |r.text|, from + r.used)
    ensures dest'[from + |rest| + 1..] == dest[from + |rest| + 1..]
  {
    hide Decode, ParseEntity, Between, Spliced;
    DecodesReference(table, rest, r);
    StepKeepsBetween(goal, Decode(table, rest), rest, dest, src, to, from, r.text, r.used,
                     Decode(table, rest[r.used..]), dest', src');
  }

  lemma AmpersandStep(table: Table, goal: Text, rest: Text, dest: Text, src: Text, to: nat, from: nat,
                      dest': Text, src': Text)
    requires rest != [] && rest[0] == AMP
    requires Between(goal, Decode(table, rest), rest, dest, src, to, from)
    requires ParseEntity(table, rest) == None
    requires Spliced(dest, to, [AMP], dest')
    requires src' == src || (src == dest && src' == dest')
    ensures Between(goal, Decode(table, rest[1..]), rest[1..], dest', src', to + 1, from + 1)
    ensures dest'[from + |rest| + 1..] == dest[from + |rest| + 1..]
  {
    StepKeepsBetween(goal, Decode(table, rest), rest, dest, src, to, from, [AMP], 1,
                     Decode(table, rest[1..]), dest', src');
  }

  lemma LiteralStep(table: Table, goal: Text, rest: Text, dest: Text, src: Text, to: nat, from: nat, n: nat,
                    dest': Text, src': Text)
    requires n <= |rest| && AMP !in rest[..n]
    requires Between(goal, Decode(table, rest), rest, dest, src, to, from)
    requires Spliced(dest, to, rest[..n], dest')
    requires src' == src || (src == dest && src' == dest')
    ensures Between(goal, Decode(table, rest[n..]), rest[n..], dest', src', to + n, from + n)
    ensures dest'[from + |rest| + 1..] == dest[from + |rest| + 1..]
  {
    assert rest == rest[..n] + rest[n..];
    DecodeLiteral(table, rest[..n], rest[n..]);
    StepKeepsBetween(goal, Decode(table, rest), rest, dest, src, to, from, rest[..n], n,
                     Decode(table, rest[n..]), dest', src');
  }

  /** `Between` for a decoder at work on its buffers. */
  ghost predicate Decoding(table: Table, goal: Text, rest: Text, dest: array<Byte>, src: array<Byte>,
                           to: nat, from: nat)
    reads dest, src
  {
    Between(goal, Decode(table, rest), rest, dest[..], src[..], to, from)
  }

  /** The move in front of a '&' or at the end: `n` bytes without one. */
  method MoveLiteral(table: Table, dest: array<Byte>, to: nat, src: array<Byte>, from: nat, n: nat,
                     ghost goal: Text, ghost rest: Text)
    requires Decoding(table, goal, rest, dest, src, to, from)
    requires n <= Find(rest, AMP)
    modifies dest
    ensures Decoding(table, goal, rest[n..], dest, src, to + n, from + n)
    ensures dest[from + |rest| + 1..] == old(dest[from + |rest| + 1..])
  {
    Memmove(dest, to, src, from, n);
    assert old(src[from..from + n]) == rest[..n];
    LiteralStep(table, goal, rest, old(dest[..]), old(src[..]), to, from, n, dest[..], src[..]);
  }

  lemma SplicedNothing(before: Text, to: nat, after: Text)
    requires Spliced(before, to, [], after)
    ensures after == before
  {
  }

  lemma SplicedOne(before: Text, to: nat, b: Byte, after: Text)
    requires to < |before| && after == before[to := b]
    ensures Spliced(before, to, [b], after)
  {
  }

  lemma HoldsFirst(memory: Text, at: nat, text: Text)
    requires Holds(memory, at, text) && text != []
    ensures memory[at] == text[0]
  {
    assert memory[at..at + |text|][0] == memory[at];
  }

  /** One turn of the loop at a '&': the reference, or the bare character, replaced. */
  method ReplaceReference(table: Table, dest: array<Byte>, to: nat, src: array<Byte>, from: nat,
                          ghost goal: Text, ghost rest: Text)
    returns (to': nat, from': nat)
    requires ValidTable(table) && rest != [] && rest[0] == AMP
    requires Decoding(table, goal, rest, dest, src, to, from)
    modifies dest
    ensures from < from' <= from + |rest|
    ensures Decoding(table, goal, rest[from' - from..], dest, src, to', from')
    ensures dest[from + |rest| + 1..] == old(dest[from + |rest| + 1..])
  {
    hide Decode, ParseEntity, Spliced, ValidTable;
    var r := ParseEntityAt(table, src, from, dest, to, rest);
    if r.Some? {
      ReferenceStep(table, goal, rest, old(dest[..]), old(src[..]), to, from, r.value, dest[..], src[..]);
      return to + |r.value.text|, from + r.value.used;
    }
    SplicedNothing(old(dest[..]), to, dest[..]);
    HoldsFirst(src[..], from, rest);
    dest[to] := src[from];
    SplicedOne(old(dest[..]), to, AMP, dest[..]);
    AmpersandStep(table, goal, rest, old(dest[..]), old(src[..]), to, from, dest[..], src[..]);
    return to + 1, from + 1;
  }

  /** One turn of the loop: everything up to and including the next '&'. */
  method Turn(table: Table, dest: array<Byte>, to: nat, src: array<Byte>, from: nat, current: nat,
              ghost goal: Text, ghost rest: Text)
    returns (to': nat, from': nat)
    requires ValidTable(table) && Decoding(table, goal, rest, dest, src, to, from)
    requires Find(rest, AMP) < |rest| && current == from + Find(rest, AMP)
    modifies dest
    ensures from < from' <= from + |rest|
    ensures Decoding(table, goal, rest[from' - from..], dest, src, to', from')
    ensures dest[from + |rest| + 1..] == old(dest[from + |rest| + 1..])
  {
    hide Decode, Decoding;
    ghost var n := current - from;
    MoveLiteral(table, dest, to, src, from, current - from, goal, rest);
    to', from' := ReplaceReference(table, dest, to + (current - from), src, current, goal, rest[n..]);
    assert rest[n..][from' - current..] == rest[from' - from..];
  }

  method DecodeFrom(table: Table, dest: array<Byte>, src: array<Byte>, ghost text: Text) returns (len: nat)
    requires ValidTable(table) && Holds(src[..], 0, text) && |text| < dest.Length
    modifies dest
    ensures len <= |text| && dest[..len] == Decode(table, text) && dest[len] == NUL
    ensures dest[|text| + 1..] == old(dest[|text| + 1..])
  {
    ghost var goal, rest := Decode(table, text), text;
    var to: nat, from: nat := 0, 0;

    while true
      invariant from + |rest| == |text|
      invariant Decoding(table, goal, rest, dest, src, to, from)
      invariant dest[|text| + 1..] == old(dest[|text| + 1..])
      decreases |rest|
    {
      var current := Strchr(src, from, AMP, rest);
      if current < 0 {
        break;
      }
      ghost var was := from;
      to, from := Turn(table, dest, to, src, from, current, goal, rest);
      rest := rest[from - was..];
    }

    var remaining := Strlen(src, from, rest);
    MoveLiteral(table, dest, to, src, from, remaining, goal, rest);
    Terminate(dest, to + remaining, goal, |text|);
    len := to + remaining;
  }

  method Terminate(dest: array<Byte>, at: nat, ghost goal: Text, ghost n: nat)
    requires at <= n < dest.Length && dest[..at] == goal
    modifies dest
    ensures dest[..at] == goal && dest[at] == NUL
    ensures dest[n + 1..] == old(dest[n + 1..])
  {
    dest[at] := NUL;
    SplicedParts(old(dest[..]), at, [NUL], dest[..], n + 1);
  }

  /**
   * Decodes `source` into `dest`, or `dest` in place when there is no source. The
   * result is the decoding of the original text, whatever was overwritten on the way.
   */
  method DecodeHtmlEntities(table: Table, dest: array<Byte>, source: array?<Byte>) returns (len: nat)
    requires ValidTable(table)
    requires NUL in (if source == null then dest else source)[..]
    requires source != null ==> |CStr(source[..])| < dest.Length
    modifies dest
    ensures var text := old(CStr((if source == null then dest else source)[..]));
            && len == |Decode(table, text)| <= |text| < dest.Length
            && dest[..len] == Decode(table, text)
            && dest[len] == NUL
            && dest[|text| + 1..] == old(dest[|text| + 1..])
  {
    var src := if source == null then dest else source;
    ghost var text := CStr(src[..]);
    DecodeShrinks(table, text);
    len := DecodeFrom(table, dest, src, text);
  }
}
