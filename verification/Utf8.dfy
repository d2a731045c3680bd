// The UTF-8 encoder of the entity decoder (entities.c, putc_utf8), checked against an
// independent reader of the bit layout in section 3 of RFC 3629. Surrogate code
// points are encoded like any other, as the program does.

module Utf8 {
  import opened Options
  import opened CString

  const UNICODE_MAX := 0x10FFFF

  type CodePoint = cp: nat | cp <= UNICODE_MAX

  /** Bytes written for a code point; nothing beyond the last code point. */
  function Encode(cp: nat): (bytes: Text)
    ensures cp <= UNICODE_MAX ==> 1 <= |bytes| <= 4
  {
    if cp <= 0x7F then [cp]
    else if cp <= 0x7FF then [0xC0 + cp / 64, 0x80 + cp % 64]
    else if cp <= 0xFFFF then [0xE0 + cp / 4096, 0x80 + cp / 64 % 64, 0x80 + cp % 64]
    else if cp <= UNICODE_MAX then
      [0xF0 + cp / 262144, 0x80 + cp / 4096 % 64, 0x80 + cp / 64 % 64, 0x80 + cp % 64]
    else []
  }

  // putc_utf8 by the number of bytes it writes, the last one first.

  method PutTwo(cp: nat, buffer: array<Byte>, at: nat)
    requires 0x7F < cp <= 0x7FF && at + 2 <= buffer.Length
    modifies buffer
    ensures buffer[..] == old(buffer[..at]) + Encode(cp) + old(buffer[at + 2..])
  {
    hide Encode;
    EncodeIs(cp);
    ghost var before := buffer[..];
    var first: Byte, last: Byte := 0xC0 + cp / 64, 0x80 + cp % 64;
    buffer[at + 1] := last;
    buffer[at] := first;
    Overwritten(before, at, [first, last], buffer[..]);
  }

  method PutThree(cp: nat, buffer: array<Byte>, at: nat)
    requires 0x7FF < cp <= 0xFFFF && at + 3 <= buffer.Length
    modifies buffer
    ensures buffer[..] == old(buffer[..at]) + Encode(cp) + old(buffer[at + 3..])
  {
    hide Encode;
    EncodeIs(cp);
    ghost var before := buffer[..];
    var first: Byte, middle: Byte, last: Byte := 0xE0 + cp / 4096, 0x80 + cp / 64 % 64, 0x80 + cp % 64;
    buffer[at + 2] := last;
    buffer[at + 1] := middle;
    buffer[at] := first;
    Overwritten(before, at, [first, middle, last], buffer[..]);
  }

  method PutFour(cp: nat, buffer: array<Byte>, at: nat)
    requires 0xFFFF < cp <= UNICODE_MAX && at + 4 <= buffer.Length
    modifies buffer
    ensures buffer[..] == old(buffer[..at]) + Encode(cp) + old(buffer[at + 4..])
  {
    hide Encode;
    EncodeIs(cp);
    ghost var before := buffer[..];
    var first: Byte, second: Byte := 0xF0 + cp / 262144, 0x80 + cp / 4096 % 64;
    var third: Byte, last: Byte := 0x80 + cp / 64 % 64, 0x80 + cp % 64;
    buffer[at + 3] := last;
    buffer[at + 2] := third;
    buffer[at + 1] := second;
    buffer[at] := first;
    Overwritten(before, at, [first, second, third, last], buffer[..]);
  }

  /** Writes the encoding at `buffer[at..]` and returns how many bytes it took. */
  method PutcUtf8(cp: nat, buffer: array<Byte>, at: nat) returns (n: nat)
    requires at + |Encode(cp)| <= buffer.Length
    modifies buffer
    ensures n == |Encode(cp)|
    ensures buffer[..] == old(buffer[..at]) + Encode(cp) + old(buffer[at + n..])
  {
    EncodedLength(cp);
    hide Encode;
    if cp <= 0x7F {
      EncodeIs(cp);
      buffer[at] := cp;
      return 1;
    }
    if cp <= 0x7FF {
      PutTwo(cp, buffer, at);
      return 2;
    }
    if cp <= 0xFFFF {
      PutThree(cp, buffer, at);
      return 3;
    }
    if cp <= UNICODE_MAX {
      PutFour(cp, buffer, at);
      return 4;
    }
    Overwritten(buffer[..], at, [], buffer[..]);
    return 0;
  }

  lemma EncodedLength(cp: nat)
    ensures |Encode(cp)| == if cp <= 0x7F then 1 else if cp <= 0x7FF then 2 else if cp <= 0xFFFF then 3
                            else if cp <= UNICODE_MAX then 4 else 0
  {
  }

  lemma EncodeIs(cp: nat)
    ensures cp <= 0x7F ==> Encode(cp) == [cp]
    ensures 0x7F < cp <= 0x7FF ==> Encode(cp) == [0xC0 + cp / 64, 0x80 + cp % 64]
    ensures 0x7FF < cp <= 0xFFFF ==> Encode(cp) == [0xE0 + cp / 4096, 0x80 + cp / 64 % 64, 0x80 + cp % 64]
    ensures 0xFFFF < cp <= UNICODE_MAX ==>
              Encode(cp) == [0xF0 + cp / 262144, 0x80 + cp / 4096 % 64, 0x80 + cp / 64 % 64, 0x80 + cp % 64]
    ensures cp > UNICODE_MAX ==> Encode(cp) == []
  {
  }

  lemma Overwritten(before: Text, at: nat, bytes: Text, after: Text)
    requires at + |bytes| <= |before| == |after|
    requires forall k :: 0 <= k < |bytes| ==> after[at + k] == bytes[k]
    requires forall k :: 0 <= k < |before| && !(at <= k < at + |bytes|) ==> after[k] == before[k]
    ensures after == before[..at] + bytes + before[at + |bytes|..]
  {
  }

  // ---- An independent reader ----

  predicate Continuation(b: Byte) {
    0x80 <= b < 0xC0
  }

  /** What a byte carries above the marker bits of its kind. */
  function Above(b: int, marker: int): int {
    b - marker
  }

  datatype Read = Read(cp: nat, used: nat)

  /**
   * Reads one bit pattern of RFC 3629 off the front of `s`: a lead byte announcing
   * one to four bytes, then continuation bytes. Overlong forms are read too.
   */
  function ReadOne(s: Text): (r: Option<Read>)
    ensures r.Some? ==> 1 <= r.value.used <= |s|
  {
    if s == [] then None
    else if s[0] < 0x80 then Some(Read(s[0], 1))
    else if 0xC0 <= s[0] < 0xE0 && |s| >= 2 && Continuation(s[1]) then
      Some(Read(Above(s[0], 0xC0) * 64 + Above(s[1], 0x80), 2))
    else if 0xE0 <= s[0] < 0xF0 && |s| >= 3 && Continuation(s[1]) && Continuation(s[2]) then
      Some(Read(Above(s[0], 0xE0) * 4096 + Above(s[1], 0x80) * 64 + Above(s[2], 0x80), 3))
    else if 0xF0 <= s[0] < 0xF8 && |s| >= 4 && Continuation(s[1]) && Continuation(s[2]) && Continuation(s[3]) then
      Some(Read(Above(s[0], 0xF0) * 262144 + Above(s[1], 0x80) * 4096 + Above(s[2], 0x80) * 64 + Above(s[3], 0x80), 4))
    else None
  }

  lemma SixBitGroups(cp: CodePoint)
    ensures cp == cp / 64 * 64 + cp % 64
    ensures cp / 64 == cp / 4096 * 64 + cp / 64 % 64
    ensures cp / 4096 == cp / 262144 * 64 + cp / 4096 % 64
  {
  }

  /** Reading undoes encoding, whatever follows. */
  lemma {:induction false} ReadUndoesEncode(cp: CodePoint, rest: Text)
    ensures ReadOne(Encode(cp) + rest) == Some(Read(cp, |Encode(cp)|))
  {
    var code := Encode(cp);
    var s := code + rest;
    SixBitGroups(cp);
    assert s[0] == code[0];
    assert |code| > 1 ==> s[1] == code[1];
    assert |code| > 2 ==> s[2] == code[2];
    assert |code| > 3 ==> s[3] == code[3];
  }

  lemma DivideGroups(q: nat, r: nat)
    requires r < 64
    ensures (q * 64 + r) / 64 == q && (q * 64 + r) % 64 == r
  {
  }

  lemma DivideTwice(cp: nat)
    ensures cp / 4096 == cp / 64 / 64 && cp / 262144 == cp / 64 / 64 / 64
  {
  }

  lemma Groups(a: nat, b: nat, c: nat, d: nat, cp: nat)
    requires b < 64 && c < 64 && d < 64
    requires cp == a * 262144 + b * 4096 + c * 64 + d
    ensures cp % 64 == d && cp / 64 % 64 == c && cp / 4096 % 64 == b && cp / 262144 == a
    ensures cp / 64 == a * 4096 + b * 64 + c && cp / 4096 == a * 64 + b
  {
    DivideGroups(a * 4096 + b * 64 + c, d);
    DivideGroups(a * 64 + b, c);
    DivideGroups(a, b);
    DivideTwice(cp);
  }

  /** The encoding is the shortest form of its code point, and the only one of that length. */
  lemma {:induction false} EncodeIsShortest(s: Text)
    requires ReadOne(s).Some? && ReadOne(s).value.cp <= UNICODE_MAX
    ensures var r := ReadOne(s).value;
            && |Encode(r.cp)| <= r.used
            && (|Encode(r.cp)| == r.used ==> Encode(r.cp) == s[..r.used])
  {
    var r := ReadOne(s).value;
    if r.used == 2 {
      Groups(0, 0, Above(s[0], 0xC0), Above(s[1], 0x80), r.cp);
    } else if r.used == 3 {
      Groups(0, Above(s[0], 0xE0), Above(s[1], 0x80), Above(s[2], 0x80), r.cp);
    } else if r.used == 4 {
      Groups(Above(s[0], 0xF0), Above(s[1], 0x80), Above(s[2], 0x80), Above(s[3], 0x80), r.cp);
    }
  }

  lemma KeepsOrderAcrossLengths(a: CodePoint, b: CodePoint)
    requires |Encode(a)| != |Encode(b)| && a < b
    ensures LexLess(Encode(a), Encode(b))
  {
    assert a / 64 < 64 || a > 0x7FF;
    assert a / 4096 < 16 || a > 0xFFFF;
    LexLessFrom(Encode(a), Encode(b), 0);
  }

  lemma KeepsOrderOfTwo(a: CodePoint, b: CodePoint)
    requires 0x7F < a < b <= 0x7FF
    ensures LexLess(Encode(a), Encode(b))
  {
    SixBitGroups(a);
    SixBitGroups(b);
    var s, t := Encode(a), Encode(b);
    var k := if a / 64 < b / 64 then 0 else 1;
    assert k == 1 ==> s[0] == t[0];
    LexLessFrom(s, t, k);
  }

  lemma KeepsOrderOfThree(a: CodePoint, b: CodePoint)
    requires 0x7FF < a < b <= 0xFFFF
    ensures LexLess(Encode(a), Encode(b))
  {
    SixBitGroups(a);
    SixBitGroups(b);
    var s, t := Encode(a), Encode(b);
    if a / 4096 < b / 4096 {
      LexLessFrom(s, t, 0);
    } else {
      assert s[0] == t[0];
      var k := if a / 64 < b / 64 then 1 else 2;
      assert k == 2 ==> s[1] == t[1];
      LexLessFrom(s, t, k);
    }
  }

  lemma KeepsOrderOfFour(a: CodePoint, b: CodePoint)
    requires 0xFFFF < a < b
    ensures LexLess(Encode(a), Encode(b))
  {
    SixBitGroups(a);
    SixBitGroups(b);
    var s, t := Encode(a), Encode(b);
    if a / 262144 < b / 262144 {
      LexLessFrom(s, t, 0);
    } else if a / 4096 < b / 4096 {
      assert s[0] == t[0];
      LexLessFrom(s, t, 1);
    } else {
      assert s[0] == t[0] && s[1] == t[1];
      var k := if a / 64 < b / 64 then 2 else 3;
      assert k == 3 ==> s[2] == t[2];
      LexLessFrom(s, t, k);
    }
  }

  /** Byte order of encodings is code point order. */
  lemma {:induction false} EncodeKeepsOrder(a: CodePoint, b: CodePoint)
    requires a < b
    ensures LexLess(Encode(a), Encode(b))
  {
    if |Encode(a)| != |Encode(b)| {
      KeepsOrderAcrossLengths(a, b);
    } else if b <= 0x7F {
      LexLessFrom(Encode(a), Encode(b), 0);
    } else if b <= 0x7FF {
      KeepsOrderOfTwo(a, b);
    } else if b <= 0xFFFF {
      KeepsOrderOfThree(a, b);
    } else {
      KeepsOrderOfFour(a, b);
    }
  }

  function EncodeAll(cps: seq<CodePoint>): Text {
    if cps == [] then [] else Encode(cps[0]) + EncodeAll(cps[1..])
  }

  function ReadAll(s: Text): Option<seq<nat>>
    decreases |s|
  {
    if s == [] then Some([])
    else match ReadOne(s)
      case None => None
      case Some(r) =>
        match ReadAll(s[r.used..])
        case None => None
        case Some(rest) => Some([r.cp] + rest)
  }

  /** A concatenation of encodings splits back into exactly the code points it was made of. */
  lemma {:induction false} ReadAllUndoesEncodeAll(cps: seq<CodePoint>)
    ensures ReadAll(EncodeAll(cps)) == Some(cps)
  {
    if cps != [] {
      var first, rest := Encode(cps[0]), EncodeAll(cps[1..]);
      ReadUndoesEncode(cps[0], rest);
      ReadAllUndoesEncodeAll(cps[1..]);
      assert EncodeAll(cps) == first + rest && (first + rest)[|first|..] == rest;
      assert [cps[0]] + cps[1..] == cps;
    }
  }

  lemma EncodeAllIsInjective(a: seq<CodePoint>, b: seq<CodePoint>)
    requires EncodeAll(a) == EncodeAll(b)
    ensures a == b
  {
    ReadAllUndoesEncodeAll(a);
    ReadAllUndoesEncodeAll(b);
  }
}
