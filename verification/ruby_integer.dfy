/** The two Ruby core conversions between integers and text that the version
    model relies on: `String#to_i` in base 10 and `Integer#to_s`. */
module RubyInteger {

  predicate IsDigit(c: char) {
    '0' <= c <= '9'
  }

  predicate AllDigits(s: string) {
    forall i :: 0 <= i < |s| ==> IsDigit(s[i])
  }

  /** The characters `to_i` skips before the number (C's `isspace` set). */
  predicate IsSpace(c: char) {
    c == ' ' || c == '\t' || c == '\n' || c == '\U{000B}' || c == '\U{000C}' || c == '\r'
  }

  predicate AllSpaces(w: string) {
    forall i :: 0 <= i < |w| ==> IsSpace(w[i])
  }

  /** No sign, or the one sign character `to_i` accepts. */
  predicate IsSignPrefix(sign: string) {
    sign == [] || sign == ['+'] || sign == ['-']
  }

  /** A decimal numeral in canonical form: digits only, no leading zero
      unless the numeral is "0" itself. */
  predicate IsNumeral(s: string) {
    |s| > 0 && AllDigits(s) && (s[0] != '0' || |s| == 1)
  }

  function DigitValue(c: char): (n: nat)
    requires IsDigit(c)
    ensures n < 10
  {
    c as int - '0' as int
  }

  function DigitChar(n: nat): (c: char)
    requires n < 10
    ensures IsDigit(c) && DigitValue(c) == n
  {
    ('0' as int + n) as char
  }

  /** The number a run of decimal digits denotes, most significant digit first;
      the empty run denotes 0. */
  function DigitsValue(d: string): nat
    requires AllDigits(d)
  {
    if d == [] then 0 else 10 * DigitsValue(d[..|d| - 1]) + DigitValue(d[|d| - 1])
  }

  /** Decimal text of a natural number. */
  function NatToString(n: nat): (s: string)
    ensures IsNumeral(s)
    ensures DigitsValue(s) == n
  {
    if n < 10 then [DigitChar(n)]
    else
      var s := NatToString(n / 10) + [DigitChar(n % 10)];
      assert s[..|s| - 1] == NatToString(n / 10);
      s
  }

  /** `Integer#to_s`: the magnitude's digits, after a minus sign when negative. */
  function IntToString(i: int): (s: string)
    ensures |s| >= 1 && (s[0] == '-' <==> i < 0)
  {
    if i < 0 then "-" + NatToString(-i) else NatToString(i)
  }

  /** The text of a non-negative integer is its canonical numeral; the text
      of a negative one is a minus sign and the canonical numeral of its
      magnitude. */
  lemma {:induction false} IntToStringDenotes(i: int)
    ensures i >= 0 ==> IsNumeral(IntToString(i)) && DigitsValue(IntToString(i)) == i
    ensures i < 0 ==> |IntToString(i)| >= 2 && IsNumeral(IntToString(i)[1..]) && DigitsValue(IntToString(i)[1..]) == -i
  {
    if i < 0 {
      assert IntToString(i)[1..] == NatToString(-i);
    }
  }

  /** The longest prefix of `s` made only of decimal digits. */
  function LeadingDigits(s: string): (d: string)
    ensures d <= s && AllDigits(d)
    ensures |d| == |s| || !IsDigit(s[|d|])
  {
    if s != [] && IsDigit(s[0]) then [s[0]] + LeadingDigits(s[1..]) else []
  }

  /** How many whitespace characters `to_i` skips at the start of `s`. */
  function SpaceRunLength(s: string): (k: nat)
    ensures k <= |s|
    ensures forall i :: 0 <= i < k ==> IsSpace(s[i])
    ensures k == |s| || !IsSpace(s[k])
  {
    if s != [] && IsSpace(s[0]) then 1 + SpaceRunLength(s[1..]) else 0
  }

  /** `String#to_i` (base 10). It never fails: after leading whitespace and
      an optional sign it reads the longest run of digits, and yields 0 when
      there is none; whatever follows the run is ignored. */
  function RubyToI(s: string): (n: int)
    ensures s == [] ==> n == 0
    ensures s != [] && !IsSpace(s[0]) && !IsDigit(s[0]) && s[0] != '-' && s[0] != '+' ==> n == 0
    ensures s != [] && IsDigit(s[0]) ==> n >= 0
  {
    ReadSigned(s[SpaceRunLength(s)..])
  }

  /** The optional sign and the digit run after it. */
  function ReadSigned(t: string): (n: int)
    ensures t == [] ==> n == 0
    ensures t != [] && !IsDigit(t[0]) && t[0] != '-' && t[0] != '+' ==> n == 0
    ensures t != [] && IsDigit(t[0]) ==> n >= 0
  {
    if t != [] && t[0] == '-' then -(DigitsValue(LeadingDigits(t[1..])) as int)
    else if t != [] && t[0] == '+' then DigitsValue(LeadingDigits(t[1..]))
    else DigitsValue(LeadingDigits(t))
  }

  /** A non-empty digit run that does not start with '0' denotes a positive number. */
  lemma {:induction false} NoLeadingZeroPositive(d: string)
    requires |d| > 0 && AllDigits(d) && d[0] != '0'
    ensures DigitsValue(d) >= 1
    decreases |d|
  {
    if |d| > 1 {
      NoLeadingZeroPositive(d[..|d| - 1]);
    }
  }

  /** Every canonical numeral is the text `Integer#to_s` gives its value. */
  lemma {:induction false} NumeralRoundTrip(s: string)
    requires IsNumeral(s)
    ensures NatToString(DigitsValue(s)) == s
    decreases |s|
  {
    var v := DigitsValue(s);
    var p := s[..|s| - 1];
    var last := s[|s| - 1];
    if |s| == 1 {
      assert p == [];
      assert DigitChar(DigitValue(last)) == last;
    } else {
      assert IsNumeral(p);
      NoLeadingZeroPositive(p);
      NumeralRoundTrip(p);
      assert v / 10 == DigitsValue(p) && v % 10 == DigitValue(last);
      assert DigitChar(DigitValue(last)) == last;
      assert s == p + [last];
    }
  }

  /** The digit run `to_i` reads from `d + t` is exactly `d` when `t` does not
      continue it. */
  lemma {:induction false} LeadingDigitsStopsAt(d: string, t: string)
    requires AllDigits(d)
    requires t == [] || !IsDigit(t[0])
    ensures LeadingDigits(d + t) == d
    decreases |d|
  {
    if d != [] {
      assert (d + t)[1..] == d[1..] + t;
      LeadingDigitsStopsAt(d[1..], t);
    } else {
      assert d + t == t;
    }
  }

  /** Text that starts with a digit has no whitespace or sign for `to_i` to
      skip, so its value is that of the leading digit run. */
  lemma {:induction false} ToIOfUnsigned(s: string)
    requires s != [] && IsDigit(s[0])
    ensures RubyToI(s) == DigitsValue(LeadingDigits(s))
  {
    assert SpaceRunLength(s) == 0 && s[0..] == s;
  }

  /** `to_i` reads an unsigned digit run and ignores what follows it. */
  lemma {:induction false} ToIOfDigitRun(d: string, t: string)
    requires |d| > 0 && AllDigits(d)
    requires t == [] || !IsDigit(t[0])
    ensures RubyToI(d + t) == DigitsValue(d)
  {
    assert (d + t)[0] == d[0];
    ToIOfUnsigned(d + t);
    LeadingDigitsStopsAt(d, t);
  }

  /** Text that starts with a minus sign is the negated value of the digit
      run right after the sign. */
  lemma {:induction false} ToIOfMinus(s: string)
    requires s != [] && s[0] == '-'
    ensures RubyToI(s) == -(DigitsValue(LeadingDigits(s[1..])) as int)
  {
    assert SpaceRunLength(s) == 0 && s[0..] == s;
  }

  /** `to_i` reads a minus sign and the digit run after it. */
  lemma {:induction false} ToIOfNegativeRun(d: string, t: string)
    requires |d| > 0 && AllDigits(d)
    requires t == [] || !IsDigit(t[0])
    ensures RubyToI("-" + d + t) == -(DigitsValue(d) as int)
  {
    var s := "-" + (d + t);
    assert s == "-" + d + t;
    assert s[0] == '-' && s[1..] == d + t;
    ToIOfMinus(s);
    LeadingDigitsStopsAt(d, t);
  }

  /** A whitespace prefix is skipped exactly, up to the first character
      that is not whitespace. */
  lemma {:induction false} SpaceRunOver(w: string, u: string)
    requires AllSpaces(w)
    requires u == [] || !IsSpace(u[0])
    ensures SpaceRunLength(w + u) == |w|
    decreases |w|
  {
    if w != [] {
      assert (w + u)[0] == w[0];
      assert (w + u)[1..] == w[1..] + u;
      SpaceRunOver(w[1..], u);
    } else {
      assert w + u == u;
    }
  }

  /** `to_i` reads the sign and digits right after leading whitespace. */
  lemma {:induction false} ToISkipsSpace(w: string, u: string)
    requires AllSpaces(w)
    requires u == [] || !IsSpace(u[0])
    ensures RubyToI(w + u) == ReadSigned(u)
  {
    SpaceRunOver(w, u);
    assert (w + u)[|w|..] == u;
  }

  /** A sign character followed by text: `to_i` signs the digit run after it. */
  lemma {:induction false} ReadAfterSign(c: char, u: string)
    requires c == '+' || c == '-'
    ensures ReadSigned([c] + u) == if c == '-' then -(DigitsValue(LeadingDigits(u)) as int) else DigitsValue(LeadingDigits(u))
  {
    assert ([c] + u)[0] == c && ([c] + u)[1..] == u;
  }

  /** An unsigned digit run and text that does not continue it. */
  lemma {:induction false} ReadUnsignedRun(d: string, t: string)
    requires |d| > 0 && AllDigits(d)
    requires t == [] || !IsDigit(t[0])
    ensures ReadSigned(d + t) == DigitsValue(d)
  {
    LeadingDigitsStopsAt(d, t);
    assert (d + t)[0] == d[0];
  }

  /** A sign character, a digit run and text that does not continue it. */
  lemma {:induction false} ReadSignCharRun(c: char, d: string, t: string)
    requires c == '+' || c == '-'
    requires |d| > 0 && AllDigits(d)
    requires t == [] || !IsDigit(t[0])
    ensures ReadSigned([c] + (d + t)) == if c == '-' then -(DigitsValue(d) as int) else DigitsValue(d)
  {
    LeadingDigitsStopsAt(d, t);
    ReadAfterSign(c, d + t);
  }

  /** An optional sign, a digit run and text that does not continue it. */
  lemma {:induction false} ReadSignedRun(sign: string, d: string, t: string)
    requires IsSignPrefix(sign)
    requires |d| > 0 && AllDigits(d)
    requires t == [] || !IsDigit(t[0])
    ensures ReadSigned(sign + d + t) == if sign == ['-'] then -(DigitsValue(d) as int) else DigitsValue(d)
  {
    if sign == [] {
      assert sign + d + t == d + t;
      ReadUnsignedRun(d, t);
    } else if sign == ['+'] {
      assert sign + d + t == ['+'] + (d + t);
      ReadSignCharRun('+', d, t);
    } else {
      assert sign + d + t == ['-'] + (d + t);
      ReadSignCharRun('-', d, t);
    }
  }

  lemma {:induction false} ConcatRegroup(a: string, b: string, c: string, e: string)
    ensures a + b + c + e == a + (b + c + e)
  {
  }

  /** `to_i` in general: leading whitespace is skipped, an optional sign
      decides the sign, the digit run after it gives the magnitude, and
      whatever follows the run is ignored. */
  lemma {:induction false} ToIOfSignedRun(w: string, sign: string, d: string, t: string)
    requires AllSpaces(w)
    requires IsSignPrefix(sign)
    requires |d| > 0 && AllDigits(d)
    requires t == [] || !IsDigit(t[0])
    ensures RubyToI(w + sign + d + t) == if sign == ['-'] then -(DigitsValue(d) as int) else DigitsValue(d)
  {
    var u := sign + d + t;
    ConcatRegroup(w, sign, d, t);
    if sign == [] {
      assert u[0] == d[0];
    } else {
      assert u[0] == sign[0];
    }
    ToISkipsSpace(w, u);
    ReadSignedRun(sign, d, t);
  }

  /** When no digit follows the whitespace and the optional sign, `to_i` is 0. */
  lemma {:induction false} ToIWithoutDigits(w: string, sign: string, t: string)
    requires AllSpaces(w)
    requires IsSignPrefix(sign)
    requires t == [] || !IsDigit(t[0])
    requires sign == [] && t != [] ==> !IsSpace(t[0]) && t[0] != '+' && t[0] != '-'
    ensures RubyToI(w + sign + t) == 0
  {
    var u := sign + t;
    assert w + sign + t == w + u;
    assert u != [] ==> u[0] == if sign == [] then t[0] else sign[0];
    ToISkipsSpace(w, u);
    assert LeadingDigits(t) == [];
    if sign == [] {
      assert u == t;
    } else {
      assert u[0] == sign[0] && u[1..] == t;
    }
  }

  /** `to_i` reads back what `to_s` wrote, whatever non-digit text follows. */
  lemma {:induction false} ToIReadsRendered(i: int, t: string)
    requires t == [] || !IsDigit(t[0])
    ensures RubyToI(IntToString(i) + t) == i
  {
    if i < 0 {
      ToIOfNegativeRun(NatToString(-i), t);
    } else {
      ToIOfDigitRun(NatToString(i), t);
    }
  }

  /** `to_i` of a one-digit text is that digit's value. */
  lemma {:induction false} ToIOfDigitText(c: char)
    requires IsDigit(c)
    ensures RubyToI([c]) == DigitValue(c)
  {
    assert [c] + [] == [c];
    ToIOfDigitRun([c], []);
    assert [c][..0] == [];
  }
}
