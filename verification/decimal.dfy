/**
 * Decimal numbers in text: `atoi` as the header scanner uses it and
 * `sprintf("%lu")` as the fallback page uses it for its Content-Length.
 */
module Decimal {
  predicate IsDigit(c: char)
  {
    '0' <= c <= '9'
  }

  /** isspace in the C locale: ' ', '\t', '\n', '\v', '\f', '\r'. */
  predicate IsSpace(c: char)
  {
    c == ' ' || '\t' <= c <= '\r'
  }

  predicate AllDigits(s: string)
  {
    forall i :: 0 <= i < |s| ==> IsDigit(s[i])
  }

  function DigitValue(c: char): nat
    requires IsDigit(c)
  {
    c as int - '0' as int
  }

  function Digit(d: nat): (c: char)
    requires d < 10
    ensures IsDigit(c) && DigitValue(c) == d
  {
    ('0' as int + d) as char
  }

  /** The number a string of decimal digits denotes, most significant digit first. */
  function Value(ds: string): nat
    requires AllDigits(ds)
  {
    if ds == [] then 0 else 10 * Value(ds[..|ds| - 1]) + DigitValue(ds[|ds| - 1])
  }

  /** sprintf("%lu", n): the shortest decimal numeral of `n`. */
  function Format(n: nat): (r: string)
    ensures r != [] && AllDigits(r)
    ensures |r| > 1 ==> r[0] != '0'
  {
    if n < 10 then [Digit(n)] else Format(n / 10) + [Digit(n % 10)]
  }

  /** The longest prefix of `s` made of digits. */
  function LeadingDigits(s: string): (r: string)
    ensures AllDigits(r)
  {
    if s != [] && IsDigit(s[0]) then [s[0]] + LeadingDigits(s[1..]) else []
  }

  /** `s` without its leading white space. */
  function SkipSpaces(s: string): string
  {
    if s != [] && IsSpace(s[0]) then SkipSpaces(s[1..]) else s
  }

  /**
   * atoi: skip white space, take an optional sign, then the longest run of
   * digits; anything after the digits is ignored and no digits give 0.
   */
  function Atoi(s: string): int
  {
    var t := SkipSpaces(s);
    if t != [] && t[0] == '-' then -(Value(LeadingDigits(t[1..])) as int)
    else if t != [] && t[0] == '+' then Value(LeadingDigits(t[1..]))
    else Value(LeadingDigits(t))
  }

  /** Reading a formatted number back gives the number. */
  lemma {:induction false} ValueOfFormat(n: nat)
    ensures Value(Format(n)) == n
  {
    if n >= 10 {
      ValueOfFormat(n / 10);
      var f := Format(n / 10) + [Digit(n % 10)];
      assert f[..|f| - 1] == Format(n / 10);
    }
  }

  /** A run of digits followed by a non-digit is read up to the non-digit. */
  lemma {:induction false} LeadingDigitsOf(ds: string, rest: string)
    requires AllDigits(ds)
    requires rest != [] ==> !IsDigit(rest[0])
    ensures LeadingDigits(ds + rest) == ds
  {
    if ds != [] {
      assert (ds + rest)[1..] == ds[1..] + rest;
      LeadingDigitsOf(ds[1..], rest);
    }
  }

  /** Leading white space is skipped up to the first character that is not white space. */
  lemma {:induction false} SkipSpacesOf(spaces: string, s: string)
    requires forall i :: 0 <= i < |spaces| ==> IsSpace(spaces[i])
    requires s != [] ==> !IsSpace(s[0])
    ensures SkipSpaces(spaces + s) == s
  {
    if spaces != [] {
      assert (spaces + s)[1..] == spaces[1..] + s;
      SkipSpacesOf(spaces[1..], s);
    }
  }

  /**
   * atoi undoes sprintf("%lu"): white space before the numeral and any
   * non-digit after it do not change the value read.
   */
  lemma AtoiOfFormat(spaces: string, n: nat, rest: string)
    requires forall i :: 0 <= i < |spaces| ==> IsSpace(spaces[i])
    requires rest != [] ==> !IsDigit(rest[0])
    ensures Atoi(spaces + Format(n) + rest) == n
  {
    AtoiOfDigits(spaces, Format(n), rest);
    ValueOfFormat(n);
  }

  /** atoi reads a run of digits after white space up to the first non-digit. */
  lemma AtoiOfDigits(spaces: string, ds: string, rest: string)
    requires forall i :: 0 <= i < |spaces| ==> IsSpace(spaces[i])
    requires ds != [] && AllDigits(ds)
    requires rest != [] ==> !IsDigit(rest[0])
    ensures Atoi(spaces + ds + rest) == Value(ds)
  {
    var t := ds + rest;
    assert spaces + ds + rest == spaces + t;
    assert IsDigit(t[0]) by {
      assert t[0] == ds[0];
    }
    SkipSpacesOf(spaces, t);
    AtoiUnsigned(spaces + t, t);
    LeadingDigitsOf(ds, rest);
  }

  /** A '-' after the white space negates the run of digits that follows it. */
  lemma AtoiNegative(spaces: string, ds: string, rest: string)
    requires forall i :: 0 <= i < |spaces| ==> IsSpace(spaces[i])
    requires AllDigits(ds)
    requires rest != [] ==> !IsDigit(rest[0])
    ensures Atoi(spaces + "-" + ds + rest) == -(Value(ds) as int)
  {
    var t := "-" + ds + rest;
    assert spaces + "-" + ds + rest == spaces + t;
    SkipSpacesOf(spaces, t);
    assert t[1..] == ds + rest;
    LeadingDigitsOf(ds, rest);
  }

  /** A '+' after the white space is skipped, and the run of digits after it is read as it is. */
  lemma AtoiPlus(spaces: string, ds: string, rest: string)
    requires forall i :: 0 <= i < |spaces| ==> IsSpace(spaces[i])
    requires AllDigits(ds)
    requires rest != [] ==> !IsDigit(rest[0])
    ensures Atoi(spaces + "+" + ds + rest) == Value(ds)
  {
    var t := "+" + ds + rest;
    assert spaces + "+" + ds + rest == spaces + t;
    SkipSpacesOf(spaces, t);
    assert t[1..] == ds + rest;
    LeadingDigitsOf(ds, rest);
  }

  /** Text that starts with neither a digit nor a sign after the white space reads as 0. */
  lemma AtoiNoDigits(spaces: string, rest: string)
    requires forall i :: 0 <= i < |spaces| ==> IsSpace(spaces[i])
    requires rest != [] ==> !IsDigit(rest[0]) && !IsSpace(rest[0]) && rest[0] != '-' && rest[0] != '+'
    ensures Atoi(spaces + rest) == 0
  {
    SkipSpacesOf(spaces, rest);
  }

  /** Without a sign, all that counts is the run of digits where the white space ends. */
  lemma AtoiUnsigned(s: string, t: string)
    requires SkipSpaces(s) == t && t != [] && IsDigit(t[0])
    ensures Atoi(s) == Value(LeadingDigits(t))
  {
  }

  /** A non-digit after the digits does not join the run. */
  lemma {:induction false} LeadingDigitsStop(s: string, c: char)
    requires !IsDigit(c)
    ensures LeadingDigits(s + [c]) == LeadingDigits(s)
  {
    if s != [] && IsDigit(s[0]) {
      assert (s + [c])[1..] == s[1..] + [c];
      LeadingDigitsStop(s[1..], c);
    }
  }

  /** A trailing line end is white space: it is skipped with the rest or stays at the end. */
  lemma {:induction false} SkipSpacesTrailingLineEnd(s: string)
    ensures SkipSpaces(s + ['\n']) == if SkipSpaces(s) == [] then [] else SkipSpaces(s) + ['\n']
  {
    if s != [] {
      assert (s + ['\n'])[1..] == s[1..] + ['\n'];
      SkipSpacesTrailingLineEnd(s[1..]);
    } else {
      assert SkipSpaces(['\n']) == SkipSpaces([]);
    }
  }

  /** atoi ignores the line end that follows a value. */
  lemma AtoiIgnoresLineEnd(s: string)
    ensures Atoi(s + ['\n']) == Atoi(s)
  {
    SkipSpacesTrailingLineEnd(s);
    var t := SkipSpaces(s);
    if t != [] {
      var t' := t + ['\n'];
      assert SkipSpaces(s + ['\n']) == t';
      if t[0] == '-' || t[0] == '+' {
        assert t'[1..] == t[1..] + ['\n'];
        LeadingDigitsStop(t[1..], '\n');
      } else {
        LeadingDigitsStop(t, '\n');
      }
    }
  }
}
