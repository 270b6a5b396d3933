/** The C library character and string routines netnuke.c relies on, in the
    "C" locale: `isdigit`, `isspace`, `atoi` and `strstr`. Integers are
    unbounded here; `atoi`'s behaviour on overflow is undefined in C and is
    not modelled. */
module CText {

  /** `isdigit` in the "C" locale. */
  predicate IsDigit(c: char) {
    '0' <= c <= '9'
  }

  /** `isspace` in the "C" locale: blank, tab, newline, vertical tab,
      form feed and carriage return. */
  predicate IsSpace(c: char) {
    c == ' ' || '\t' <= c <= '\r'
  }

  predicate AllDigits(s: string) {
    forall k | 0 <= k < |s| :: IsDigit(s[k])
  }

  function DigitValue(c: char): (d: nat)
    requires IsDigit(c)
    ensures d < 10
  {
    c as int - '0' as int
  }

  function DigitChar(d: nat): (c: char)
    requires d < 10
    ensures IsDigit(c) && DigitValue(c) == d
  {
    ('0' as int + d) as char
  }

  /** The number a string of decimal digits denotes, most significant digit
      first. */
  function DigitsValue(s: string): nat
    requires AllDigits(s)
  {
    if |s| == 0 then 0 else DigitsValue(s[..|s| - 1]) * 10 + DigitValue(s[|s| - 1])
  }

  /** The digits `atoi` consumes: the longest prefix made of decimal digits. */
  function DigitRun(s: string): (r: string)
    ensures AllDigits(r) && r <= s
    ensures |r| < |s| ==> !IsDigit(s[|r|])
  {
    if |s| > 0 && IsDigit(s[0]) then [s[0]] + DigitRun(s[1..]) else []
  }

  /** What is left once `atoi` has skipped the leading white space. */
  function SkipSpaces(s: string): (r: string)
    ensures |r| <= |s| && r == s[|s| - |r|..]
    ensures |r| > 0 ==> !IsSpace(r[0])
    ensures forall k | 0 <= k < |s| - |r| :: IsSpace(s[k])
  {
    if |s| > 0 && IsSpace(s[0]) then SkipSpaces(s[1..]) else s
  }

  /** `atoi`: leading white space, an optional sign, then as many decimal
      digits as follow; the rest of the string is ignored, and a string
      with no digits there denotes 0. On a string of digits it is exactly
      the decimal value, so in particular not negative. */
  function Atoi(s: string): (r: int)
    ensures AllDigits(s) ==> r == DigitsValue(s)
  {
    DigitsAreWhole(s);
    SignedValue(SkipSpaces(s))
  }

  /** What `atoi` reads once the white space is skipped: an optional sign
      and the digits that follow it. */
  function SignedValue(t: string): int {
    if |t| > 0 && t[0] == '-' then -(DigitsValue(DigitRun(t[1..])) as int)
    else if |t| > 0 && t[0] == '+' then DigitsValue(DigitRun(t[1..]))
    else DigitsValue(DigitRun(t))
  }

  /** A string of digits has no white space or sign to skip and is consumed
      whole. */
  lemma DigitsAreWhole(s: string)
    ensures AllDigits(s) ==> SkipSpaces(s) == s && DigitRun(s) == s
  {
    if AllDigits(s) {
      assert SkipSpaces(s) == s by {
        if |s| > 0 {
          assert IsDigit(s[0]);
        }
      }
      assert DigitRun(s) == s;
    }
  }

  /** `printf("%d")` of a natural number: the partner of `Atoi`. */
  function Decimal(n: nat): (r: string)
    ensures 0 < |r| && AllDigits(r)
  {
    if n < 10 then [DigitChar(n)] else Decimal(n / 10) + [DigitChar(n % 10)]
  }

  lemma {:induction false} DigitsValueOfDecimal(n: nat)
    ensures DigitsValue(Decimal(n)) == n
  {
    var r := Decimal(n);
    if n >= 10 {
      var c := DigitChar(n % 10);
      assert r == Decimal(n / 10) + [c];
      assert r[..|r| - 1] == Decimal(n / 10);
      DigitsValueOfDecimal(n / 10);
    }
  }

  /** Reading back what `%d` printed gives the number again. */
  lemma AtoiDecimalRoundTrip(n: nat)
    ensures Atoi(Decimal(n)) == n
  {
    DigitsValueOfDecimal(n);
  }

  /** Leading white space in front of a string that does not start with
      white space is exactly what `atoi` skips. */
  lemma {:induction false} SkipSpacesPrefix(sp: string, x: string)
    requires forall k | 0 <= k < |sp| :: IsSpace(sp[k])
    requires |x| > 0 ==> !IsSpace(x[0])
    ensures SkipSpaces(sp + x) == x
    decreases |sp|
  {
    if |sp| > 0 {
      assert (sp + x)[1..] == sp[1..] + x;
      SkipSpacesPrefix(sp[1..], x);
    }
  }

  /** A run of digits followed by a non-digit is exactly what `atoi`
      consumes. */
  lemma {:induction false} DigitRunPrefix(d: string, rest: string)
    requires AllDigits(d)
    requires |rest| > 0 ==> !IsDigit(rest[0])
    ensures DigitRun(d + rest) == d
    decreases |d|
  {
    if |d| > 0 {
      assert (d + rest)[1..] == d[1..] + rest;
      assert d == [d[0]] + d[1..];
      DigitRunPrefix(d[1..], rest);
    }
  }

  /** `atoi` of white space, an optional sign, the `%d` text of `n` and
      anything that does not continue the number: `n`, negated after a
      minus sign. */
  lemma AtoiSigned(sp: string, n: nat, rest: string)
    requires forall k | 0 <= k < |sp| :: IsSpace(sp[k])
    requires |rest| > 0 ==> !IsDigit(rest[0])
    ensures Atoi(sp + ['-'] + Decimal(n) + rest) == -(n as int)
    ensures Atoi(sp + ['+'] + Decimal(n) + rest) == n
    ensures Atoi(sp + Decimal(n) + rest) == n
  {
    var d := Decimal(n);
    DigitsValueOfDecimal(n);
    DigitRunPrefix(d, rest);
    AtoiSign(sp, '-', d, rest);
    AtoiSign(sp, '+', d, rest);
    AtoiUnsigned(sp, d, rest);
  }

  lemma AtoiUnsigned(sp: string, d: string, rest: string)
    requires forall k | 0 <= k < |sp| :: IsSpace(sp[k])
    requires AllDigits(d) && |d| > 0
    ensures Atoi(sp + d + rest) == DigitsValue(DigitRun(d + rest))
  {
    assert IsDigit(d[0]);
    assert sp + d + rest == sp + (d + rest);
    SkipSpacesPrefix(sp, d + rest);
  }

  lemma AtoiSign(sp: string, sign: char, d: string, rest: string)
    requires forall k | 0 <= k < |sp| :: IsSpace(sp[k])
    requires sign == '-' || sign == '+'
    requires AllDigits(d)
    ensures var v: int := DigitsValue(DigitRun(d + rest));
      Atoi(sp + [sign] + d + rest) == if sign == '-' then -v else v
  {
    var t := [sign] + (d + rest);
    SignedNumber(sp, sign, d, rest);
    assert t[1..] == d + rest;
  }

  lemma SignedNumber(sp: string, sign: char, d: string, rest: string)
    requires forall k | 0 <= k < |sp| :: IsSpace(sp[k])
    requires sign == '-' || sign == '+'
    ensures SkipSpaces(sp + [sign] + d + rest) == [sign] + (d + rest)
  {
    assert sp + [sign] + d + rest == sp + ([sign] + (d + rest));
    SkipSpacesPrefix(sp, [sign] + (d + rest));
  }

  /** `needle` occurs in `s` at index `k`. */
  predicate OccursAt(s: string, needle: string, k: nat) {
    k + |needle| <= |s| && s[k..k + |needle|] == needle
  }

  /** `strstr(s, needle) != NULL`. */
  predicate Contains(s: string, needle: string) {
    exists k | 0 <= k <= |s| :: OccursAt(s, needle, k)
  }

  /** A string in which the letter `c` appears at most as the last character
      contains no two-character needle that starts with `c`. */
  lemma NoPairStartingWith(s: string, c: char, needle: string)
    requires |needle| == 2 && needle[0] == c
    requires forall j | 0 <= j < |s| - 1 :: s[j] != c
    ensures !Contains(s, needle)
  {
    forall k | 0 <= k <= |s|
      ensures !OccursAt(s, needle, k)
    {
      if k + 2 <= |s| {
        assert s[k..k + 2][0] == s[k] != c;
      }
    }
  }
}
