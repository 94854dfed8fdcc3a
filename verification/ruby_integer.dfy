/** Ruby's `String#to_i` (base 10) and, as its partner, `Integer#to_s`.

    `to_i` never fails: it skips leading ASCII white space, reads an optional sign and an
    optional `0d` radix prefix, then the longest run of decimal digits in which single
    underscores may separate digits; anything else ends the number, and a string with
    no digits there reads as 0. */
module RubyInteger {

  /** The white space `to_i` skips before the number (C's `isspace`). */
  predicate IsAsciiSpace(c: char) {
    c == ' ' || c == '\t' || c == '\n' || c == '\U{B}' || c == '\U{C}' || c == '\r'
  }

  predicate IsDigit(c: char) {
    '0' <= c <= '9'
  }

  predicate AllDigits(s: string) {
    forall k :: 0 <= k < |s| ==> IsDigit(s[k])
  }

  function DigitValue(c: char): nat
    requires IsDigit(c)
  {
    c as int - '0' as int
  }

  function DigitChar(d: nat): (c: char)
    requires d < 10
    ensures IsDigit(c) && DigitValue(c) == d
  {
    ('0' as int + d) as char
  }

  /** `s` with its leading ASCII white space removed. */
  function SkipSpace(s: string): (t: string)
    ensures |t| <= |s| && t == s[|s| - |t|..]
    ensures |t| == 0 || !IsAsciiSpace(t[0])
    ensures forall k :: 0 <= k < |s| - |t| ==> IsAsciiSpace(s[k])
  {
    if |s| > 0 && IsAsciiSpace(s[0]) then SkipSpace(s[1..]) else s
  }

  /** The digits of the numeric run at the start of `t`, underscores dropped. An
      underscore continues the run only when a digit follows it, so `1__2` reads as `1`. */
  function DigitRun(t: string): (ds: string)
    ensures AllDigits(ds)
    ensures |ds| == 0 <==> |t| == 0 || !IsDigit(t[0])
  {
    if |t| == 0 || !IsDigit(t[0]) then []
    else [t[0]] + DigitRun(if |t| >= 2 && t[1] == '_' then t[2..] else t[1..])
  }

  /** The number a string of decimal digits denotes (0 for the empty string). */
  function DigitsValue(ds: string): nat
    requires AllDigits(ds)
  {
    if |ds| == 0 then 0 else DigitsValue(ds[..|ds| - 1]) * 10 + DigitValue(ds[|ds| - 1])
  }

  /** The unsigned part: an optional `0d`/`0D` prefix, then the digit run. */
  function Magnitude(t: string): nat {
    var u := if |t| >= 2 && t[0] == '0' && (t[1] == 'd' || t[1] == 'D') then t[2..] else t;
    DigitsValue(DigitRun(u))
  }

  /** Ruby's `String#to_i`. */
  function ToI(s: string): int {
    SignedValue(SkipSpace(s))
  }

  /** A string in which `to_i` finds no number: after the white space comes neither a
      digit nor a sign followed by a digit (`"abc5"`, `"v2"`, `"#10"`, `"- 5"`). */
  predicate NoLeadingNumber(s: string) {
    var t := SkipSpace(s);
    |t| == 0 || (!IsDigit(t[0]) && ((t[0] == '-' || t[0] == '+') ==> |t| == 1 || !IsDigit(t[1])))
  }

  /** The value of a string that starts where the number may start: an optional sign,
      then the magnitude. */
  function SignedValue(t: string): int {
    if |t| > 0 && t[0] == '-' then -(Magnitude(t[1..]) as int)
    else if |t| > 0 && t[0] == '+' then Magnitude(t[1..])
    else Magnitude(t)
  }

  /** Ruby's `Integer#to_s` for a natural number. */
  function NatToS(n: nat): (s: string)
    ensures |s| > 0 && AllDigits(s)
    ensures n > 0 ==> s[0] != '0'
  {
    if n < 10 then [DigitChar(n)] else NatToS(n / 10) + [DigitChar(n % 10)]
  }

  /** Ruby's `Integer#to_s`. */
  function ToS(n: int): (s: string)
    ensures |s| > 0
  {
    if n < 0 then "-" + NatToS(-n) else NatToS(n)
  }

  /** A run of plain digits is read back as itself. */
  lemma {:induction false} DigitRunOfDigits(ds: string)
    requires AllDigits(ds)
    ensures DigitRun(ds) == ds
  {
    if |ds| > 0 {
      assert !(|ds| >= 2 && ds[1] == '_');
      DigitRunOfDigits(ds[1..]);
      assert ds == [ds[0]] + ds[1..];
    }
  }

  /** The digits `NatToS` writes denote the number they were written from. */
  lemma {:induction false} ValueOfNatToS(n: nat)
    ensures DigitsValue(NatToS(n)) == n
  {
    if n >= 10 {
      var s := NatToS(n);
      assert s[..|s| - 1] == NatToS(n / 10);
      ValueOfNatToS(n / 10);
    }
  }

  /** A string of plain digits has no `0d` prefix, so its magnitude is its value. */
  lemma MagnitudeOfDigits(ds: string)
    requires AllDigits(ds)
    ensures Magnitude(ds) == DigitsValue(ds)
  {
    DigitRunOfDigits(ds);
    assert !(|ds| >= 2 && (ds[1] == 'd' || ds[1] == 'D'));
  }

  /** Nothing is skipped before a character that is not white space. */
  lemma SkipSpaceStops(t: string)
    requires |t| > 0 && !IsAsciiSpace(t[0])
    ensures SkipSpace(t) == t
  {
  }

  /** An unsigned string of digits reads as its value. */
  lemma ToIOfDigits(ds: string)
    requires |ds| > 0 && AllDigits(ds)
    ensures ToI(ds) == DigitsValue(ds)
  {
    UnsignedReadsMagnitude(ds);
    MagnitudeOfDigits(ds);
  }

  /** A string that starts with a minus sign reads as the negated magnitude of the rest. */
  lemma NegativeReadsMagnitude(t: string)
    requires |t| > 0 && t[0] == '-'
    ensures ToI(t) == -(Magnitude(t[1..]) as int)
  {
    SkipSpaceStops(t);
  }

  /** A minus sign before a string of digits negates its value. */
  lemma ToIOfNegatedDigits(ds: string)
    requires |ds| > 0 && AllDigits(ds)
    ensures ToI("-" + ds) == -(DigitsValue(ds) as int)
  {
    var s := "-" + ds;
    assert s[1..] == ds;
    NegativeReadsMagnitude(s);
    MagnitudeOfDigits(ds);
  }

  /** Round trip: `n.to_s.to_i == n` for every integer. */
  lemma ToIOfToS(n: int)
    ensures ToI(ToS(n)) == n
  {
    if n < 0 {
      ValueOfNatToS(-n);
      ToIOfNegatedDigits(NatToS(-n));
    } else {
      ValueOfNatToS(n);
      ToIOfDigits(NatToS(n));
    }
  }

  /** The run of digits stops at the first character that is neither a digit nor an
      underscore: `"99 red balloons".to_i == 99`. */
  lemma {:induction false} DigitRunStops(ds: string, rest: string)
    requires AllDigits(ds)
    requires |rest| == 0 || (!IsDigit(rest[0]) && rest[0] != '_')
    ensures DigitRun(ds + rest) == ds
  {
    if |ds| == 0 {
      assert ds + rest == rest;
    } else {
      var t := ds + rest;
      assert t[1..] == ds[1..] + rest;
      assert !(|t| >= 2 && t[1] == '_');
      DigitRunStops(ds[1..], rest);
      assert ds == [ds[0]] + ds[1..];
    }
  }

  /** A string that starts with a digit carries no sign and no leading white space. */
  lemma UnsignedReadsMagnitude(t: string)
    requires |t| > 0 && IsDigit(t[0])
    ensures ToI(t) == Magnitude(t)
  {
    SkipSpaceStops(t);
  }

  /** Without a `0d` prefix the magnitude is the value of the digit run. */
  lemma MagnitudeWithoutPrefix(t: string)
    requires |t| >= 2 ==> t[0] != '0' || (t[1] != 'd' && t[1] != 'D')
    ensures Magnitude(t) == DigitsValue(DigitRun(t))
  {
    assert !(|t| >= 2 && t[0] == '0' && (t[1] == 'd' || t[1] == 'D'));
  }

  /** Leading digits followed by anything but a digit or `_` start with a `0d` prefix
      only when they are a lone `0` followed by `d` or `D`. */
  lemma NoRadixPrefix(ds: string, rest: string)
    requires |ds| > 0 && AllDigits(ds)
    requires ds == "0" && |rest| > 0 ==> rest[0] != 'd' && rest[0] != 'D'
    ensures var t := ds + rest;
      |t| >= 2 ==> t[0] != '0' || (t[1] != 'd' && t[1] != 'D')
  {
    var t := ds + rest;
    if |ds| >= 2 {
      assert t[1] == ds[1];
    } else if |t| >= 2 {
      assert t[0] == ds[0] && t[1] == rest[0];
      if ds[0] == '0' {
        assert ds == "0";
      }
    }
  }

  /** A string that starts with digits reads as the value of those digits, unless those
      digits are a lone `0` followed by the `d` of a radix prefix (`"7d".to_i == 7`, but
      `"0d12".to_i == 12`). */
  lemma LeadingDigits(ds: string, rest: string)
    requires |ds| > 0 && AllDigits(ds)
    requires |rest| == 0 || (!IsDigit(rest[0]) && rest[0] != '_')
    requires ds == "0" && |rest| > 0 ==> rest[0] != 'd' && rest[0] != 'D'
    ensures ToI(ds + rest) == DigitsValue(ds)
  {
    var t := ds + rest;
    NoRadixPrefix(ds, rest);
    UnsignedReadsMagnitude(t);
    MagnitudeWithoutPrefix(t);
    DigitRunStops(ds, rest);
  }

  /** Skipping white space looks through any white space put in front. */
  lemma {:induction false} SkipSpaceOfSpaces(sp: string, s: string)
    requires forall k :: 0 <= k < |sp| ==> IsAsciiSpace(sp[k])
    ensures SkipSpace(sp + s) == SkipSpace(s)
  {
    if |sp| > 0 {
      assert (sp + s)[0] == sp[0];
      assert (sp + s)[1..] == sp[1..] + s;
      SkipSpaceOfSpaces(sp[1..], s);
    } else {
      assert sp + s == s;
    }
  }

  /** Leading white space does not change the value. */
  lemma LeadingSpaceIgnored(sp: string, s: string)
    requires forall k :: 0 <= k < |sp| ==> IsAsciiSpace(sp[k])
    ensures ToI(sp + s) == ToI(s)
  {
    SkipSpaceOfSpaces(sp, s);
  }

  /** A string in which no number starts reads as 0: `"abc5".to_i == 0`. */
  lemma NonNumericReadsZero(s: string)
    requires NoLeadingNumber(s)
    ensures ToI(s) == 0
  {
    var t := SkipSpace(s);
    if |t| > 0 && (t[0] == '-' || t[0] == '+') {
      NoDigitNoMagnitude(t[1..]);
    } else {
      NoDigitNoMagnitude(t);
    }
  }

  /** Without a leading digit there is no magnitude to read. */
  lemma NoDigitNoMagnitude(u: string)
    requires |u| == 0 || !IsDigit(u[0])
    ensures Magnitude(u) == 0
  {
    assert DigitRun(u) == [];
  }

  /** A string with no decimal digit at all reads as 0: `"abc".to_i == 0`. */
  lemma NoDigitsReadsZero(s: string)
    requires forall k :: 0 <= k < |s| ==> !IsDigit(s[k])
    ensures NoLeadingNumber(s)
    ensures ToI(s) == 0
  {
    var t := SkipSpace(s);
    assert forall k :: 0 <= k < |t| ==> !IsDigit(t[k]) by {
      forall k | 0 <= k < |t| ensures !IsDigit(t[k]) {
        assert t[k] == s[|s| - |t| + k];
      }
    }
  }
}
