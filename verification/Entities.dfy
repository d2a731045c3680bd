// What decoding character references means: a pure left-to-right decoder, and the
// markup grammar it inverts (section 5.3 of HTML 4.01, with the liberties of
// strtoul that entities.c takes).

module Entities {
  import opened Options
  import opened CString
  import opened EntityTable
  import opened Numerals
  import opened Utf8

  /** A reference: the bytes it stands for and how much text it takes. */
  datatype Reference = Reference(text: Text, used: nat)

  /** The code point of a numeric reference that ends at its first ';'. */
  function NumericValue(s: Text): (cp: Option<nat>)
    requires Find(s, SEMICOLON) < |s| && s[0] == AMP && s[1] == HASH
    ensures cp.Some? ==> cp.value <= UNICODE_MAX
  {
    var hex := s[2] == 120 || s[2] == 88;
    var digits := if hex then 3 else 2;
    var number := Strtoul(s[digits..], if hex then 16 else 10);
    if number.range || digits + number.used != Find(s, SEMICOLON) || number.value > UNICODE_MAX then None
    else Some(number.value)
  }

  /** The reference at the start of `s`, if the text from its '&' on is one. */
  function ParseEntity(table: Table, s: Text): (r: Option<Reference>)
    requires s != [] && s[0] == AMP
    ensures r.Some? ==> 1 < r.value.used <= |s|
  {
    var end := Find(s, SEMICOLON);
    if end == |s| then None
    else if s[1] == HASH then
      match NumericValue(s)
      case None => None
      case Some(cp) => Some(Reference(Utf8.Encode(cp), end + 1))
    else
      match Lookup(table, s[1..])
      case None => None
      case Some(value) => Some(Reference(value, end + 1))
  }

  /** The decoding of a text, one character or reference at a time. */
  function Decode(table: Table, s: Text): Text
    decreases |s|
  {
    if s == [] then []
    else if s[0] == AMP && ParseEntity(table, s).Some? then
      var r := ParseEntity(table, s).value;
      r.text + Decode(table, s[r.used..])
    else [s[0]] + Decode(table, s[1..])
  }

  /** A reference is never shorter than what it stands for. */
  lemma ReferenceShrinks(table: Table, s: Text)
    requires ValidTable(table) && s != [] && s[0] == AMP && ParseEntity(table, s).Some?
    ensures |ParseEntity(table, s).value.text| <= ParseEntity(table, s).value.used
  {
    if s[1] != HASH {
      var i := LookupIsSound(table, s[1..]);
      assert ValidEntry(table[i]);
      MatchEndsAtSemicolon(table[i].key, s[1..]);
    }
  }

  lemma {:induction false} DecodeShrinks(table: Table, s: Text)
    requires ValidTable(table)
    ensures |Decode(table, s)| <= |s|
    decreases |s|
  {
    if s != [] {
      if s[0] == AMP && ParseEntity(table, s).Some? {
        ReferenceShrinks(table, s);
        DecodeShrinks(table, s[ParseEntity(table, s).value.used..]);
      } else {
        DecodeShrinks(table, s[1..]);
      }
    }
  }

  /** Text without '&' decodes to itself. */
  lemma {:induction false} DecodeLiteral(table: Table, literal: Text, rest: Text)
    requires AMP !in literal
    ensures Decode(table, literal + rest) == literal + Decode(table, rest)
  {
    hide ParseEntity;
    if literal == [] {
      assert literal + rest == rest;
    } else {
      assert (literal + rest)[0] in literal;
      assert (literal + rest)[1..] == literal[1..] + rest;
      DecodeLiteral(table, literal[1..], rest);
    }
  }

  /** Nor does text without ';' change: a '&' that starts no reference stays. */
  lemma {:induction false} DecodeWithoutSemicolon(table: Table, s: Text)
    requires SEMICOLON !in s
    ensures Decode(table, s) == s
  {
    if s != [] {
      assert s[0] == AMP ==> ParseEntity(table, s) == None by {
        FindIs(s, SEMICOLON, |s|);
      }
      DecodeWithoutSemicolon(table, s[1..]);
      assert s == [s[0]] + s[1..];
    }
  }

  // ---- Markup ----

  /** A character of a marked-up text, written as itself or as a reference. */
  datatype Item =
    | Literal(b: Byte)
    | Numeric(lead: Text, base: nat, digits: Text)
    | Named(i: nat)

  ghost predicate ValidItem(table: Table, item: Item) {
    match item
    case Literal(b) => b != AMP
    case Numeric(lead, base, digits) =>
      IsLead(lead, base) && digits != [] && AllDigits(digits, base) && Number(digits, base) <= UNICODE_MAX
    case Named(i) => i < |table|
  }

  ghost function Write(table: Table, item: Item): Text
    requires ValidItem(table, item)
  {
    match item
    case Literal(b) => [b]
    case Numeric(lead, _, digits) => lead + (digits + [SEMICOLON])
    case Named(i) => [AMP] + table[i].key
  }

  ghost function Meaning(table: Table, item: Item): Text
    requires ValidItem(table, item)
  {
    match item
    case Literal(b) => [b]
    case Numeric(_, base, digits) => Utf8.Encode(Number(digits, base))
    case Named(i) => table[i].value
  }

  ghost predicate ValidItems(table: Table, items: seq<Item>) {
    forall k :: 0 <= k < |items| ==> ValidItem(table, items[k])
  }

  ghost function WriteAll(table: Table, items: seq<Item>): Text
    requires ValidItems(table, items)
  {
    if items == [] then [] else Write(table, items[0]) + WriteAll(table, items[1..])
  }

  ghost function MeaningOfAll(table: Table, items: seq<Item>): Text
    requires ValidItems(table, items)
  {
    if items == [] then [] else Meaning(table, items[0]) + MeaningOfAll(table, items[1..])
  }

  /** The first ';' of a reference is the one that closes it. */
  lemma SemicolonCloses(body: Text, rest: Text)
    requires SEMICOLON !in body
    ensures Find(body + ([SEMICOLON] + rest), SEMICOLON) == |body|
  {
    var s := body + ([SEMICOLON] + rest);
    assert s[..|body|] == body;
    FindIs(s, SEMICOLON, |body|);
  }

  /** What a numeric reference in that base can start with. */
  predicate IsLead(lead: Text, base: nat) {
    if base == 10 then lead == [AMP, HASH] else base == 16 && (lead == [AMP, HASH, 120] || lead == [AMP, HASH, 88])
  }

  lemma NumericReferenceShape(s: Text, lead: Text, base: nat, digits: Text, rest: Text)
    requires IsLead(lead, base) && SEMICOLON !in digits
    requires s == lead + (digits + [SEMICOLON]) + rest
    ensures s[..|lead|] == lead && s[|lead|..] == digits + ([SEMICOLON] + rest)
    ensures s[2] == if base == 16 then lead[2] else (digits + [SEMICOLON])[0]
    ensures Find(s, SEMICOLON) == |lead| + |digits|
  {
    hide Find;
    Regroup(lead, digits, [SEMICOLON], rest);
    assert s == lead + (digits + ([SEMICOLON] + rest));
    assert s == (lead + digits) + ([SEMICOLON] + rest);
    SemicolonCloses(lead + digits, rest);
  }

  lemma NumericValueIs(s: Text, base: nat, lead: Text, number: Result)
    requires IsLead(lead, base) && lead <= s && |s| > |lead| && (base == 10 ==> s[2] != 120 && s[2] != 88)
    requires Find(s, SEMICOLON) == |lead| + number.used < |s|
    requires Strtoul(s[|lead|..], base) == number
    ensures NumericValue(s) == if number.range || number.value > UNICODE_MAX then None else Some(number.value)
  {
    hide Strtoul, Find;
    assert s[0] == lead[0] && s[1] == lead[1] && (base == 16 ==> s[2] == lead[2]);
  }

  /** `&#;` and `&#x;` count as references to code point 0: there are no digits to object to. */
  lemma {:induction false} EmptyReferenceIsNul(table: Table, lead: Text, base: nat, rest: Text)
    requires IsLead(lead, base)
    ensures ParseEntity(table, lead + [SEMICOLON] + rest) == Some(Reference([NUL], |lead| + 1))
  {
    hide NumericValue, Strtoul;
    var s := lead + [SEMICOLON] + rest;
    assert s == lead + ([] + [SEMICOLON]) + rest;
    NumericReferenceShape(s, lead, base, [], rest);
    NothingToRead(s[|lead|..], base);
    NumericValueIs(s, base, lead, Result(0, 0, false));
  }

  lemma NothingToRead(s: Text, base: nat)
    requires s != [] && s[0] == SEMICOLON && base <= 36
    ensures Strtoul(s, base) == Result(0, 0, false)
  {
    assert SpaceRun(s) == 0 && s[0..] == s;
  }

  lemma NumericReferenceValue(s: Text, lead: Text, base: nat, digits: Text, rest: Text)
    requires IsLead(lead, base) && digits != [] && AllDigits(digits, base)
    requires s == lead + (digits + [SEMICOLON]) + rest
    ensures s[0] == AMP && s[1] == HASH && Find(s, SEMICOLON) == |lead| + |digits| < |s|
    ensures NumericValue(s) == if Number(digits, base) > UNICODE_MAX then None else Some(Number(digits, base))
  {
    hide NumericValue, Strtoul, Number, Find;
    assert SEMICOLON !in digits by {
      assert DigitValue(SEMICOLON) == 36;
    }
    NumericReferenceShape(s, lead, base, digits, rest);
    StrtoulReadsDigits(digits, base, [SEMICOLON] + rest);
    NumericValueIs(s, base, lead, Strtoul(digits + ([SEMICOLON] + rest), base));
  }

  /**
   * Digits between `&#`, `&#x` or `&#X` and ';' are a reference exactly when their number,
   * leading zeros or not, is a code point.
   */
  lemma {:induction false} NumericReferenceParses(table: Table, lead: Text, base: nat, digits: Text, rest: Text)
    requires IsLead(lead, base) && digits != [] && AllDigits(digits, base)
    ensures var written := lead + (digits + [SEMICOLON]);
            ParseEntity(table, written + rest)
              == if Number(digits, base) > UNICODE_MAX then None
                 else Some(Reference(Utf8.Encode(Number(digits, base)), |written|))
  {
    hide NumericValue, Number, Find, AllDigits;
    var written := lead + (digits + [SEMICOLON]);
    NumericReferenceValue(written + rest, lead, base, digits, rest);
  }

  // ---- Every numeric reference ----

  /**
   * What stands between the lead and the ';' of a numeric reference denotes `v`: nothing
   * at all zero, and otherwise it is read by strtoul to its end without a range error.
   */
  ghost predicate Denotes(inner: Text, base: nat, v: nat) {
    || (inner == [] && v == 0)
    || exists x: Subject :: IsSubject(x, base) && Written(x) == inner
                            && Number(x.digits, base) < 0x1_0000_0000_0000_0000 && v == ValueOf(x, base)
  }

  ghost predicate DenotesCodePoint(inner: Text, base: nat) {
    exists v: nat :: Denotes(inner, base, v) && v <= 0x10FFFF
  }

  lemma NumericValueStops(s: Text, base: nat, lead: Text, number: Result)
    requires IsLead(lead, base) && lead <= s && |s| > |lead| && (base == 10 ==> s[2] != 120 && s[2] != 88)
    requires Find(s, SEMICOLON) < |s| && Find(s, SEMICOLON) != |lead| + number.used
    requires Strtoul(s[|lead|..], base) == number
    ensures NumericValue(s) == None
  {
    hide Strtoul, Find;
    assert s[0] == lead[0] && s[1] == lead[1] && (base == 16 ==> s[2] == lead[2]);
  }

  /** What strtoul makes of it: the value of every text it denotes, and a stop before its end otherwise. */
  lemma ReadsInner(inner: Text, base: nat, rest: Text)
    requires IsBase(base) && inner != []
    ensures var number := Strtoul(inner + ([SEMICOLON] + rest), base);
            && number.used <= |inner|
            && (forall v: nat :: Denotes(inner, base, v) ==> number == Result(v, |inner|, false))
            && (number.used == |inner| && !number.range ==> Denotes(inner, base, number.value))
  {
    hide Strtoul, Number;
    var s := inner + ([SEMICOLON] + rest);
    var number := Strtoul(s, base);
    assert DigitValue(SEMICOLON) == 36;
    forall x: Subject | IsSubject(x, base) && Written(x) == inner
      ensures number == if Number(x.digits, base) > ULONG_MAX then Result(ULONG_MAX, |inner|, true)
                        else Result(ValueOf(x, base), |inner|, false)
    {
      StrtoulReadsSubject(x, base, [SEMICOLON] + rest);
    }
    if number.used > 0 {
      var x := StrtoulReadsOnly(s, base);
      SubjectStops(x, base, inner, s);
      assert number.used == |inner| ==> s[..number.used] == inner;
    }
  }

  /** No text strtoul reads has a ';' in it. */
  lemma SubjectStops(x: Subject, base: nat, inner: Text, s: Text)
    requires IsBase(base) && IsSubject(x, base) && Written(x) <= s && |s| > |inner| && s[|inner|] == SEMICOLON
    ensures |Written(x)| <= |inner|
  {
    if |Written(x)| > |inner| {
      assert Written(x)[|inner|] == SEMICOLON;
      SubjectHasNoSemicolon(x, base, |inner|);
    }
  }

  lemma SubjectHasNoSemicolon(x: Subject, base: nat, i: nat)
    requires IsBase(base) && IsSubject(x, base) && i < |Written(x)|
    ensures Written(x)[i] != SEMICOLON
  {
    var a, b, c := |x.blanks|, |x.sign|, |x.prefix|;
    if i < a {
      assert Written(x)[i] == x.blanks[i];
    } else if i < a + b {
      assert Written(x)[i] == x.sign[i - a];
    } else if i < a + b + c {
      assert Written(x)[i] == x.prefix[i - a - b];
    } else {
      assert Written(x)[i] == x.digits[i - a - b - c];
      assert DigitValue(SEMICOLON) == 36;
    }
  }

  /**
   * The text from `&#` to the next ';' is a reference exactly when what stands between
   * denotes a code point, up to the last byte; and then it is the reference to it.
   */
  lemma {:induction false} NumericReferenceIff(table: Table, lead: Text, base: nat, inner: Text, rest: Text)
    requires IsLead(lead, base) && SEMICOLON !in inner
    requires base == 10 && inner != [] ==> inner[0] != 120 && inner[0] != 88
    ensures var r := ParseEntity(table, lead + (inner + [SEMICOLON]) + rest);
            && (r.Some? <==> DenotesCodePoint(inner, base))
            && (forall v: nat :: Denotes(inner, base, v) && v <= 0x10FFFF ==>
                  r == Some(Reference(Utf8.Encode(v), |lead| + |inner| + 1)))
  {
    hide Denotes, Find, Strtoul, NumericValue;
    var s := lead + (inner + [SEMICOLON]) + rest;
    NumericReferenceShape(s, lead, base, inner, rest);
    var number := Strtoul(inner + ([SEMICOLON] + rest), base);
    if inner == [] {
      EmptyDenotesZero(base);
      assert [] + ([SEMICOLON] + rest) == [SEMICOLON] + rest;
      NothingToRead([SEMICOLON] + rest, base);
    } else {
      ReadsInner(inner, base, rest);
    }
    LeadOf(s, lead);
    if number.used == |inner| {
      NumericValueIs(s, base, lead, number);
      assert !number.range ==> Denotes(inner, base, number.value);
    } else {
      NumericValueStops(s, base, lead, number);
    }
    NumericParse(table, s);
  }

  lemma LeadOf(s: Text, lead: Text)
    requires |lead| >= 2 && lead <= s && lead[0] == AMP && lead[1] == HASH
    ensures s[0] == AMP && s[1] == HASH
  {
  }

  lemma NumericParse(table: Table, s: Text)
    requires Find(s, SEMICOLON) < |s| && s[0] == AMP && s[1] == HASH
    ensures ParseEntity(table, s) == match NumericValue(s)
                                     case None => None
                                     case Some(cp) => Some(Reference(Utf8.Encode(cp), Find(s, SEMICOLON) + 1))
  {
    hide NumericValue, Find, Utf8.Encode;
  }

  lemma EmptyDenotesZero(base: nat)
    ensures forall v: nat :: Denotes([], base, v) <==> v == 0
  {
    forall x: Subject | IsSubject(x, base)
      ensures Written(x) != []
    {
      assert |Written(x)| >= |x.digits|;
    }
  }

  /**
   * In front of anything else the '&' stays as it is; where no other '&' comes before the
   * ';', so does all the text up to it, and decoding goes on behind it.
   */
  lemma {:induction false} NoCodePointStays(table: Table, lead: Text, base: nat, inner: Text, rest: Text)
    requires IsLead(lead, base) && SEMICOLON !in inner
    requires base == 10 && inner != [] ==> inner[0] != 120 && inner[0] != 88
    requires !DenotesCodePoint(inner, base)
    ensures var s := lead + (inner + [SEMICOLON]) + rest; Decode(table, s) == [AMP] + Decode(table, s[1..])
    ensures AMP !in inner ==>
              Decode(table, lead + (inner + [SEMICOLON]) + rest)
                == lead + (inner + [SEMICOLON]) + Decode(table, rest)
  {
    hide DenotesCodePoint, ParseEntity;
    NumericReferenceIff(table, lead, base, inner, rest);
    AmpersandAndRest(lead, inner + [SEMICOLON], rest);
    if AMP !in inner {
      var literal := lead[1..] + (inner + [SEMICOLON]);
      assert forall i :: 0 <= i < |literal| ==> literal[i] != AMP;
      DecodeLiteral(table, literal, rest);
      AmpersandAndRest(lead, inner + [SEMICOLON], Decode(table, rest));
    }
  }

  lemma AmpersandAndRest(lead: Text, body: Text, rest: Text)
    requires lead != [] && lead[0] == AMP
    ensures var s := lead + body + rest;
            s[0] == AMP && s[1..] == lead[1..] + body + rest && s == [AMP] + (lead[1..] + body + rest)
  {
  }

  /** A '&' in front of a name the table does not have stays, and so does the name. */
  lemma UnknownNameStays(table: Table, s: Text)
    requires |s| > 1 && s[0] == AMP && s[1] != HASH
    requires forall i :: 0 <= i < |table| ==> !(table[i].key <= s[1..])
    ensures Decode(table, s) == [AMP] + Decode(table, s[1..])
  {
    hide Lookup, Find;
    LookupMisses(table, s[1..]);
  }

  lemma NamedReferenceShape(body: Text, rest: Text)
    requires SEMICOLON !in body
    ensures Find([AMP] + (body + [SEMICOLON]) + rest, SEMICOLON) == 1 + |body|
  {
    hide Find;
    assert [AMP] + (body + [SEMICOLON]) + rest == ([AMP] + body) + ([SEMICOLON] + rest);
    SemicolonCloses([AMP] + body, rest);
  }

  lemma KeyShape(key: Text) returns (body: Text)
    requires key != [] && Find(key, SEMICOLON) == |key| - 1
    ensures key == body + [SEMICOLON] && SEMICOLON !in body
  {
    body := key[..|key| - 1];
  }

  lemma TailOf(key: Text, rest: Text)
    ensures ([AMP] + key + rest)[1..] == key + rest
  {
  }

  lemma LookupFindsKey(table: Table, i: nat, rest: Text)
    requires ValidTable(table) && i < |table| && NUL !in rest
    ensures Lookup(table, table[i].key + rest) == Some(table[i].value)
  {
    var name := table[i].key + rest;
    if exists j :: 0 <= j < i && table[j].key <= name {
      var j :| 0 <= j < i && table[j].key <= name;
      MatchIsUnique(table, name, i, j);
    }
    LookupFinds(table, name, i);
  }

  lemma NamedReferenceParses(table: Table, i: nat, rest: Text)
    requires ValidTable(table) && i < |table|
    requires NUL !in rest
    ensures ParseEntity(table, [AMP] + table[i].key + rest) == Some(Reference(table[i].value, 1 + |table[i].key|))
  {
    hide Find, Lookup;
    var key := table[i].key;
    assert ValidEntry(table[i]);
    var body := KeyShape(key);
    NamedReferenceShape(body, rest);
    TailOf(key, rest);
    LookupFindsKey(table, i, rest);
    assert ([AMP] + key + rest)[1] == key[0];
  }

  lemma ReferenceDecodes(table: Table, written: Text, text: Text, rest: Text)
    requires written != [] && written[0] == AMP
    requires ParseEntity(table, written + rest) == Some(Reference(text, |written|))
    ensures Decode(table, written + rest) == text + Decode(table, rest)
  {
    assert (written + rest)[|written|..] == rest;
  }

  lemma {:induction false} ItemDecodes(table: Table, item: Item, rest: Text)
    requires ValidTable(table) && ValidItem(table, item) && NUL !in rest
    ensures Decode(table, Write(table, item) + rest) == Meaning(table, item) + Decode(table, rest)
  {
    match item {
      case Literal(b) => DecodeLiteral(table, [b], rest);
      case Numeric(lead, base, digits) =>
        NumericReferenceParses(table, lead, base, digits, rest);
        ReferenceDecodes(table, Write(table, item), Utf8.Encode(Number(digits, base)), rest);
      case Named(i) =>
        NamedReferenceParses(table, i, rest);
        ReferenceDecodes(table, [AMP] + table[i].key, table[i].value, rest);
    }
  }

  /** Decoding inverts markup: any mix of literals and references means what it was written for. */
  lemma {:induction false} DecodeInvertsMarkup(table: Table, items: seq<Item>)
    requires ValidTable(table) && ValidItems(table, items)
    requires NUL !in WriteAll(table, items)
    ensures Decode(table, WriteAll(table, items)) == MeaningOfAll(table, items)
  {
    if items != [] {
      var first, rest := Write(table, items[0]), WriteAll(table, items[1..]);
      assert NUL !in rest by {
        assert forall b :: b in rest ==> b in first + rest;
      }
      ItemDecodes(table, items[0], rest);
      DecodeInvertsMarkup(table, items[1..]);
    }
  }
}
