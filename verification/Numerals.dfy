// strtoul as section 7.22.1.4 of C11 defines it, for bases 10 and 16 and a 64-bit
// unsigned long, with the numerals it inverts.

module Numerals {
  import opened CString

  const ULONG_MAX := 0xFFFF_FFFF_FFFF_FFFF

  predicate IsSpace(b: Byte) {
    b == SPACE || 9 <= b <= 13
  }

  /** The value of a digit or letter, 36 for anything else. */
  function DigitValue(b: Byte): int {
    if 48 <= b <= 57 then b as int - 48
    else if 97 <= b <= 122 then b as int - 87
    else if 65 <= b <= 90 then b as int - 55
    else 36
  }

  function SpaceRun(s: Text): (n: nat)
    ensures n <= |s|
  {
    if s != [] && IsSpace(s[0]) then 1 + SpaceRun(s[1..]) else 0
  }

  function DigitRun(s: Text, base: nat): (n: nat)
    ensures n <= |s|
    ensures n < |s| ==> DigitValue(s[n]) >= base
  {
    if s != [] && DigitValue(s[0]) < base then 1 + DigitRun(s[1..], base) else 0
  }

  /** The number written by a run of digits. */
  function Number(digits: Text, base: nat): nat {
    if digits == [] then 0
    else Number(digits[..|digits| - 1], base) * base + DigitValue(digits[|digits| - 1])
  }

  /** `used` is where the tail pointer is left; `range` is errno == ERANGE. */
  datatype Result = Result(value: nat, used: nat, range: bool)

  /** A sign behind the blanks. */
  predicate Signed(s: Text) {
    SpaceRun(s) < |s| && (s[SpaceRun(s)] == 43 || s[SpaceRun(s)] == 45)
  }

  predicate Negative(s: Text) {
    SpaceRun(s) < |s| && s[SpaceRun(s)] == 45
  }

  function SignEnd(s: Text): (n: nat)
    ensures n <= |s|
  {
    if Signed(s) then SpaceRun(s) + 1 else SpaceRun(s)
  }

  /** A base prefix counts only in front of a digit. */
  predicate Prefixed(t: Text, base: nat) {
    base == 16 && |t| > 2 && t[0] == 48 && (t[1] == 120 || t[1] == 88) && DigitValue(t[2]) < 16
  }

  function DigitsStart(s: Text, base: nat): (n: nat)
    ensures n <= |s|
  {
    SignEnd(s) + if Prefixed(s[SignEnd(s)..], base) then 2 else 0
  }

  function Strtoul(s: Text, base: nat): (r: Result)
    ensures r.used <= |s|
    ensures r.value > 0 ==> r.used > 0
  {
    var start := DigitsStart(s, base);
    var run := DigitRun(s[start..], base);
    if run == 0 then Result(0, 0, false)
    else
      var n := Number(s[start..start + run], base);
      if n > ULONG_MAX then Result(ULONG_MAX, start + run, true)
      else if Negative(s) then Result((ULONG_MAX + 1 - n) % (ULONG_MAX + 1), start + run, false)
      else Result(n, start + run, false)
  }

  // ---- Numerals ----

  predicate IsBase(base: nat) {
    base == 10 || base == 16
  }

  function Digit(d: nat): Byte
    requires d < 16
  {
    if d < 10 then 48 + d else 87 + d
  }

  /** The canonical numeral of `n`: no sign, no leading zero. */
  function Numeral(n: nat, base: nat): (digits: Text)
    requires IsBase(base)
    ensures digits != []
  {
    if n < base then [Digit(n)] else Numeral(n / base, base) + [Digit(n % base)]
  }

  ghost predicate AllDigits(s: Text, base: nat) {
    forall i :: 0 <= i < |s| ==> DigitValue(s[i]) < base
  }

  lemma {:induction false} NumberOfNumeral(n: nat, base: nat)
    requires IsBase(base)
    ensures AllDigits(Numeral(n, base), base)
    ensures Number(Numeral(n, base), base) == n
    ensures Numeral(n, base)[0] == 48 ==> n == 0
  {
    var digits := Numeral(n, base);
    if n < base {
      assert digits[..0] == [];
    } else {
      NumberOfNumeral(n / base, base);
      assert digits[..|digits| - 1] == Numeral(n / base, base);
      if base == 10 {
        assert n == n / 10 * 10 + n % 10;
      } else {
        assert n == n / 16 * 16 + n % 16;
      }
    }
  }

  lemma {:induction false} DigitRunIs(digits: Text, rest: Text, base: nat)
    requires AllDigits(digits, base)
    requires rest == [] || DigitValue(rest[0]) >= base
    ensures DigitRun(digits + rest, base) == |digits|
  {
    if digits == [] {
      assert digits + rest == rest;
    } else {
      DigitRunIs(digits[1..], rest, base);
      assert (digits + rest)[1..] == digits[1..] + rest;
    }
  }

  lemma StrtoulPlain(s: Text, base: nat, run: nat)
    requires s != [] && DigitValue(s[0]) < 16
    requires |s| > 1 && s[0] == 48 ==> DigitValue(s[1]) != 33
    requires run == DigitRun(s, base) > 0
    ensures var n := Number(s[..run], base);
            Strtoul(s, base) == if n > ULONG_MAX then Result(ULONG_MAX, run, true) else Result(n, run, false)
  {
    assert SpaceRun(s) == 0;
    assert s[0..] == s && s[0..run] == s[..run];
  }

  /** Reading a run of digits gives its number, or the range error, and stops right behind it. */
  lemma {:induction false} StrtoulReadsDigits(digits: Text, base: nat, rest: Text)
    requires IsBase(base) && digits != [] && AllDigits(digits, base)
    requires rest != [] && DigitValue(rest[0]) >= 34
    ensures Strtoul(digits + rest, base)
              == if Number(digits, base) > ULONG_MAX then Result(ULONG_MAX, |digits|, true)
                 else Result(Number(digits, base), |digits|, false)
  {
    hide Strtoul, DigitRun, Number;
    DigitRunIs(digits, rest, base);
    assert (digits + rest)[..|digits|] == digits;
    StrtoulPlain(digits + rest, base, |digits|);
  }

  /** Reading the numeral of a number gives the number back. */
  lemma StrtoulReadsNumeral(n: nat, base: nat, rest: Text)
    requires IsBase(base)
    requires rest != [] && DigitValue(rest[0]) >= 34
    ensures Strtoul(Numeral(n, base) + rest, base)
              == if n > ULONG_MAX then Result(ULONG_MAX, |Numeral(n, base)|, true)
                 else Result(n, |Numeral(n, base)|, false)
  {
    NumberOfNumeral(n, base);
    StrtoulReadsDigits(Numeral(n, base), base, rest);
  }

  // ---- All that strtoul reads ----

  /** The digits by their value, in either case. */
  lemma DigitsByValue(b: Byte)
    ensures var lower, upper := [48, 49, 50, 51, 52, 53, 54, 55, 56, 57, 97, 98, 99, 100, 101, 102],
                                [48, 49, 50, 51, 52, 53, 54, 55, 56, 57, 65, 66, 67, 68, 69, 70];
            && (forall d :: 0 <= d < 16 ==> (DigitValue(b) == d <==> b == lower[d] || b == upper[d]))
            && (DigitValue(b) < 16 <==> b in lower + upper)
  {
  }

  const BLANKS: set<Byte> := {TAB, LF, 11, 12, CR, SPACE}

  /** What strtoul accepts: blanks, a sign, a prefix in base 16, then digits. */
  datatype Subject = Subject(blanks: Text, sign: Text, prefix: Text, digits: Text)

  ghost predicate IsSubject(x: Subject, base: nat) {
    && (forall i :: 0 <= i < |x.blanks| ==> x.blanks[i] in BLANKS)
    && (x.sign == [] || x.sign == [43] || x.sign == [45])
    && (x.prefix == [] || (base == 16 && (x.prefix == [48, 120] || x.prefix == [48, 88])))
    && x.digits != [] && AllDigits(x.digits, base)
  }

  function Written(x: Subject): Text {
    x.blanks + (x.sign + (x.prefix + x.digits))
  }

  /** A minus sign counts down from 2^64. */
  function ValueOf(x: Subject, base: nat): nat
    requires Number(x.digits, base) < 0x1_0000_0000_0000_0000
  {
    var n := Number(x.digits, base);
    if x.sign == [45] && n > 0 then 0x1_0000_0000_0000_0000 - n else n
  }

  lemma {:induction false} SpaceRunIs(blanks: Text, rest: Text)
    requires forall i :: 0 <= i < |blanks| ==> blanks[i] in BLANKS
    requires rest != [] && rest[0] !in BLANKS
    ensures SpaceRun(blanks + rest) == |blanks|
  {
    if blanks == [] {
      assert blanks + rest == rest;
    } else {
      SpaceRunIs(blanks[1..], rest);
      assert (blanks + rest)[1..] == blanks[1..] + rest;
    }
  }

  lemma {:induction false} SpaceRunIsBlank(s: Text)
    ensures forall i :: 0 <= i < SpaceRun(s) ==> s[i] in BLANKS
  {
    if s != [] && IsSpace(s[0]) {
      SpaceRunIsBlank(s[1..]);
      assert forall i :: 0 < i < SpaceRun(s) ==> s[i] == s[1..][i - 1];
    }
  }

  lemma {:induction false} DigitRunIsDigits(s: Text, base: nat)
    ensures AllDigits(s[..DigitRun(s, base)], base)
  {
    if s != [] && DigitValue(s[0]) < base {
      DigitRunIsDigits(s[1..], base);
      assert forall i :: 0 < i < DigitRun(s, base) ==>
               s[..DigitRun(s, base)][i] == s[1..][..DigitRun(s[1..], base)][i - 1];
    }
  }

  lemma SignOf(x: Subject, base: nat, rest: Text)
    requires IsBase(base) && IsSubject(x, base)
    ensures var s := Written(x) + rest;
            && SignEnd(s) == |x.blanks| + |x.sign| && (Negative(s) <==> x.sign == [45])
            && s[SignEnd(s)..] == x.prefix + x.digits + rest
  {
    var behind := x.prefix + x.digits + rest;
    var s := Written(x) + rest;
    Regroup(x.blanks, x.sign, x.prefix + x.digits, rest);
    assert s == x.blanks + (x.sign + behind);
    NumeralStarts(x, base, rest);
    SpaceRunIs(x.blanks, x.sign + behind);
    assert s[|x.blanks|] == (x.sign + behind)[0];
    assert s[|x.blanks| + |x.sign|..] == behind;
  }

  /** What comes behind the sign starts with a digit. */
  lemma NumeralStarts(x: Subject, base: nat, rest: Text)
    requires IsBase(base) && IsSubject(x, base)
    ensures var behind := x.prefix + x.digits + rest;
            && behind != [] && DigitValue(behind[0]) < 16
            && (x.sign + behind)[0] !in BLANKS
            && (((x.sign + behind)[0] == 43 || (x.sign + behind)[0] == 45) <==> x.sign != [])
            && ((x.sign + behind)[0] == 45 <==> x.sign == [45])
  {
    var behind := x.prefix + x.digits + rest;
    assert behind[0] == if x.prefix == [] then x.digits[0] else x.prefix[0];
    assert DigitValue(x.digits[0]) < base;
    assert DigitValue(behind[0]) < 16;
    assert (x.sign + behind)[0] == if x.sign == [] then behind[0] else x.sign[0];
  }

  lemma PrefixOf(prefix: Text, digits: Text, rest: Text, base: nat)
    requires IsBase(base) && digits != [] && AllDigits(digits, base)
    requires prefix == [] || (base == 16 && (prefix == [48, 120] || prefix == [48, 88]))
    requires rest != [] && DigitValue(rest[0]) >= 34
    ensures var t := prefix + digits + rest;
            (Prefixed(t, base) <==> prefix != []) && t[|prefix|..] == digits + rest
  {
    var t := prefix + digits + rest;
    if prefix == [] {
      assert t == digits + rest;
      assert t[1] == if |digits| > 1 then digits[1] else rest[0];
    } else {
      assert t[2] == digits[0];
    }
  }

  lemma DigitsOf(x: Subject, base: nat, rest: Text)
    requires IsBase(base) && IsSubject(x, base)
    requires rest != [] && DigitValue(rest[0]) >= 34
    ensures var s := Written(x) + rest;
            var start := DigitsStart(s, base);
            && start + |x.digits| == |Written(x)|
            && s[start..] == x.digits + rest && s[start..start + |x.digits|] == x.digits
            && (Negative(s) <==> x.sign == [45])
  {
    var s := Written(x) + rest;
    assert |Written(x)| == |x.blanks| + |x.sign| + |x.prefix| + |x.digits|;
    SignOf(x, base, rest);
    PrefixOf(x.prefix, x.digits, rest, base);
    hide Signed, Negative, SignEnd, Prefixed, SpaceRun, AllDigits, IsSubject, Written;
    DropTwice(s, SignEnd(s), |x.prefix|);
    TakeFront(s, DigitsStart(s, base), x.digits, rest);
  }

  lemma DropTwice(s: Text, a: nat, b: nat)
    requires a + b <= |s|
    ensures s[a..][b..] == s[a + b..]
  {
  }

  lemma TakeFront(s: Text, a: nat, front: Text, rest: Text)
    requires a <= |s| && s[a..] == front + rest
    ensures a + |front| <= |s| && s[a..a + |front|] == front
  {
    assert s[a..a + |front|] == s[a..][..|front|];
  }

  lemma StrtoulFrom(s: Text, base: nat, digits: Text)
    requires digits != [] && DigitRun(s[DigitsStart(s, base)..], base) == |digits|
    requires s[DigitsStart(s, base)..DigitsStart(s, base) + |digits|] == digits
    ensures var n, used := Number(digits, base), DigitsStart(s, base) + |digits|;
            Strtoul(s, base) ==
            if n > ULONG_MAX then Result(ULONG_MAX, used, true)
            else Result(if Negative(s) && n > 0 then ULONG_MAX + 1 - n else n, used, false)
  {
    hide DigitsStart, Negative, DigitRun, Number;
    if Number(digits, base) <= ULONG_MAX {
      WrapsAround(Number(digits, base));
    }
  }

  /** Such a text is read to its end. */
  lemma {:induction false} StrtoulReadsSubject(x: Subject, base: nat, rest: Text)
    requires IsBase(base) && IsSubject(x, base)
    requires rest != [] && DigitValue(rest[0]) >= 34
    ensures Strtoul(Written(x) + rest, base)
              == if Number(x.digits, base) > ULONG_MAX then Result(ULONG_MAX, |Written(x)|, true)
                 else Result(ValueOf(x, base), |Written(x)|, false)
  {
    DigitsOf(x, base, rest);
    DigitRunIs(x.digits, rest, base);
    hide DigitsStart, Negative, DigitRun, Number, Written, AllDigits, Strtoul;
    StrtoulFrom(Written(x) + rest, base, x.digits);
  }

  lemma WrapsAround(n: nat)
    requires n <= ULONG_MAX
    ensures (ULONG_MAX + 1 - n) % (ULONG_MAX + 1) == if n == 0 then 0 else ULONG_MAX + 1 - n
  {
  }

  lemma SignOnly(s: Text)
    ensures var space, sign := SpaceRun(s), SignEnd(s);
            space <= sign && (s[space..sign] == [] || s[space..sign] == [43] || s[space..sign] == [45])
  {
  }

  lemma PrefixOnly(s: Text, base: nat)
    ensures var prefix := s[SignEnd(s)..DigitsStart(s, base)];
            prefix == [] || (base == 16 && (prefix == [48, 120] || prefix == [48, 88]))
  {
    hide SignEnd;
    var t, sign := s[SignEnd(s)..], SignEnd(s);
    if Prefixed(t, base) {
      assert s[sign] == t[0] && s[sign + 1] == t[1];
    }
  }

  lemma DigitsOnly(s: Text, base: nat)
    requires Strtoul(s, base).used > 0
    ensures var start, used := DigitsStart(s, base), Strtoul(s, base).used;
            start < used && AllDigits(s[start..used], base)
  {
    hide DigitsStart, DigitRun, Number, AllDigits;
    var start := DigitsStart(s, base);
    var run := DigitRun(s[start..], base);
    DigitRunIsDigits(s[start..], base);
    assert s[start..][..run] == s[start..start + run];
  }

  /** And nothing else is read at all. */
  lemma {:induction false} StrtoulReadsOnly(s: Text, base: nat) returns (x: Subject)
    requires IsBase(base) && Strtoul(s, base).used > 0
    ensures IsSubject(x, base) && Written(x) == s[..Strtoul(s, base).used]
  {
    hide SpaceRun, SignEnd, DigitsStart, Strtoul, AllDigits;
    var space, sign, start, used := SpaceRun(s), SignEnd(s), DigitsStart(s, base), Strtoul(s, base).used;
    SpaceRunIsBlank(s);
    SignOnly(s);
    PrefixOnly(s, base);
    DigitsOnly(s, base);
    StartsInOrder(s, base);
    x := Subject(s[..space], s[space..sign], s[sign..start], s[start..used]);
    JoinSlices(s, space, sign, start, used);
  }

  lemma StartsInOrder(s: Text, base: nat)
    ensures SpaceRun(s) <= SignEnd(s) <= DigitsStart(s, base)
  {
  }

  lemma JoinSlices(s: Text, a: nat, b: nat, c: nat, d: nat)
    requires a <= b <= c <= d <= |s|
    ensures s[..a] + (s[a..b] + (s[b..c] + s[c..d])) == s[..d]
  {
  }
}
