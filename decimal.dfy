/**
 * Decimal digits: reading them (Python's `int(text)` and the octet reader of the
 * `ipaddress` module) and writing them (Python's `str(n)`).
 */
module Decimal {
  import opened Wrappers
  import opened Text

  /** `c.isascii() and c.isdigit()`. */
  predicate IsDigit(c: char) {
    '0' <= c <= '9'
  }

  predicate AllDigits(s: string) {
    forall k :: 0 <= k < |s| ==> IsDigit(s[k])
  }

  function DigitValue(c: char): (d: nat)
    requires IsDigit(c)
    ensures d < 10
  {
    c as int - '0' as int
  }

  function DigitChar(d: nat): (c: char)
    requires d < 10
    ensures IsDigit(c) && DigitValue(c) == d
  {
    ('0' as int + d) as char
  }

  /** The number a string of decimal digits denotes, most significant digit first. */
  function DigitsValue(s: string): nat
    requires AllDigits(s)
  {
    if s == [] then 0 else DigitsValue(s[..|s| - 1]) * 10 + DigitValue(s[|s| - 1])
  }

  /** `str(n)` for a natural number: its shortest decimal spelling. */
  function FormatNat(n: nat): (r: string)
    ensures 1 <= |r| && AllDigits(r)
    ensures r[0] == '0' ==> n == 0 && |r| == 1
  {
    if n < 10 then [DigitChar(n)] else FormatNat(n / 10) + [DigitChar(n % 10)]
  }

  /** A decimal spelling without superfluous leading zeros, as `FormatNat` writes it. */
  predicate IsCanonical(s: string) {
    1 <= |s| && AllDigits(s) && (s[0] == '0' ==> |s| == 1)
  }

  /** Reading back what `FormatNat` wrote gives the number. */
  lemma {:induction false} DigitsValueOfFormat(n: nat)
    ensures DigitsValue(FormatNat(n)) == n
  {
    var r := FormatNat(n);
    if n >= 10 {
      DigitsValueOfFormat(n / 10);
      assert r[..|r| - 1] == FormatNat(n / 10);
    }
  }

  lemma {:induction false} LeadingDigitValue(s: string)
    requires AllDigits(s) && 1 <= |s| && s[0] != '0'
    ensures DigitsValue(s) >= 1
    decreases |s|
  {
    if |s| > 1 {
      var t := s[..|s| - 1];
      assert t[0] == s[0];
      LeadingDigitValue(t);
    }
  }

  /** Every canonical spelling is the one `FormatNat` writes for its value. */
  lemma {:induction false} FormatOfDigitsValue(s: string)
    requires IsCanonical(s)
    ensures FormatNat(DigitsValue(s)) == s
    decreases |s|
  {
    if |s| > 1 {
      var t := s[..|s| - 1];
      assert t[0] == s[0];
      LeadingDigitValue(t);
      FormatOfDigitsValue(t);
      var v := DigitsValue(s);
      assert v / 10 == DigitsValue(t) && v % 10 == DigitValue(s[|s| - 1]);
      assert s == t + [s[|s| - 1]];
    }
  }

  /** Values below 256 take at most three digits. */
  lemma FormatNatShort(n: nat)
    requires n < 1000
    ensures |FormatNat(n)| <= 3
  {
    if n >= 10 {
      assert |FormatNat(n / 10)| <= 2 by {
        if n / 10 >= 10 {
          assert |FormatNat(n / 100)| == 1;
        }
      }
    }
  }

  /**
   * The body of an integer literal as Python's `int()` accepts it: digits, where a
   * single underscore may separate two digits.
   */
  predicate IsDigitGroups(s: string) {
    1 <= |s| && IsDigit(s[0]) && IsDigit(s[|s| - 1])
    && (forall k :: 0 <= k < |s| ==> IsDigit(s[k]) || s[k] == '_')
    && NoDoubleUnderscore(s)
  }

  /** No two underscores in a row. */
  predicate NoDoubleUnderscore(s: string) {
    |s| < 2 || (!(s[0] == '_' && s[1] == '_') && NoDoubleUnderscore(s[1..]))
  }

  /** The digits of `s` with the underscores taken out. */
  function WithoutUnderscores(s: string): (r: string)
    requires forall k :: 0 <= k < |s| ==> IsDigit(s[k]) || s[k] == '_'
    ensures AllDigits(r) && |r| <= |s|
    ensures AllDigits(s) ==> r == s
  {
    if s == [] then []
    else
      var rest := WithoutUnderscores(s[1..]);
      if s[0] == '_' then rest else [s[0]] + rest
  }

  /**
   * The whitespace `int()` skips around its literal: what `str.isspace` calls
   * whitespace, except the four ASCII separators U+001C to U+001F, which `int()`
   * leaves in place (and then refuses).
   */
  predicate IsIntSpace(c: char) {
    IsSpace(c) && !('\U{1C}' <= c <= '\U{1F}')
  }

  predicate AllIntSpace(s: string) {
    forall k :: 0 <= k < |s| ==> IsIntSpace(s[k])
  }

  /** `s` without the whitespace `int()` skips at its front. */
  function TrimStart(s: string): (r: string)
    ensures |r| <= |s|
  {
    if s != [] && IsIntSpace(s[0]) then TrimStart(s[1..]) else s
  }

  /** `s` without the whitespace `int()` skips at its back. */
  function TrimEnd(s: string): (r: string)
    ensures |r| <= |s|
  {
    if s != [] && IsIntSpace(s[|s| - 1]) then TrimEnd(s[..|s| - 1]) else s
  }

  /** `s` without the whitespace `int()` skips around it. */
  function Trim(s: string): string {
    TrimEnd(TrimStart(s))
  }

  /**
   * Python's `int(text)` in base 10: surrounding whitespace is ignored, then an
   * optional sign and digit groups; anything else is a `ValueError`, here `None`.
   */
  function ParseInt(text: string): Option<int>
  {
    ParseSignedDigits(Trim(text))
  }

  /** An optional sign followed by digit groups, with nothing around them. */
  function ParseSignedDigits(t: string): Option<int>
  {
    if t == [] then None
    else
      var body := if t[0] == '-' || t[0] == '+' then t[1..] else t;
      if !IsDigitGroups(body) then None
      else
        var v: int := DigitsValue(WithoutUnderscores(body));
        Some(if t[0] == '-' then -v else v)
  }

  /** `str(n)` for any integer. */
  function FormatInt(n: int): string {
    if n < 0 then "-" + FormatNat(-n) else FormatNat(n)
  }

  /** `int(str(n)) == n`. */
  lemma ParseFormatInt(n: int)
    ensures ParseInt(FormatInt(n)) == Some(n)
  {
    if n < 0 {
      ParseFormatNegative(n);
    } else {
      ParseFormatNat(n);
    }
  }

  lemma ParseFormatNat(n: int)
    requires 0 <= n
    ensures ParseInt(FormatInt(n)) == Some(n)
  {
    var digits := FormatNat(n);
    assert FormatInt(n) == digits;
    DigitsValueOfFormat(n);
    TrimDigits(digits);
    ParseIntStripped(digits);
    ParsePlainDigits(digits);
  }

  lemma ParseFormatNegative(n: int)
    requires n < 0
    ensures ParseInt(FormatInt(n)) == Some(n)
  {
    TrimFormatNegative(n);
    ParseSignedFormatNegative(n);
  }

  lemma TrimFormatNegative(n: int)
    requires n < 0
    ensures Trim(FormatInt(n)) == FormatInt(n)
  {
    var t := FormatInt(n);
    assert t[0] == '-' && t[1..] == FormatNat(-n);
    TrimNegativeDigits(t);
  }

  lemma ParseSignedFormatNegative(n: int)
    requires n < 0
    ensures ParseSignedDigits(FormatInt(n)) == Some(n)
  {
    DigitsValueOfFormat(-n);
    ParseSignedMinus(FormatNat(-n), n);
  }

  lemma ParseSignedMinus(digits: string, n: int)
    requires 1 <= |digits| && AllDigits(digits) && DigitsValue(digits) == -n
    ensures ParseSignedDigits("-" + digits) == Some(n)
  {
    var t := "-" + digits;
    assert t[0] == '-' && t[1..] == digits;
    ParseNegativeDigits(t, digits, n);
  }

  lemma ParseIntStripped(s: string)
    requires Trim(s) == s
    ensures ParseInt(s) == ParseSignedDigits(s)
  {
  }

  lemma TrimDigits(digits: string)
    requires 1 <= |digits| && AllDigits(digits)
    ensures Trim(digits) == digits
  {
    assert !IsIntSpace(digits[0]) && !IsIntSpace(digits[|digits| - 1]);
    TrimUnpadded(digits);
  }

  lemma TrimNegativeDigits(t: string)
    requires 2 <= |t| && t[0] == '-' && AllDigits(t[1..])
    ensures Trim(t) == t
  {
    assert IsDigit(t[1..][|t| - 2]);
    assert !IsIntSpace(t[0]) && !IsIntSpace(t[|t| - 1]);
    TrimUnpadded(t);
  }

  /** Text that neither starts nor ends with whitespace `int()` skips is left as it is. */
  lemma TrimUnpadded(s: string)
    requires s != [] && !IsIntSpace(s[0]) && !IsIntSpace(s[|s| - 1])
    ensures Trim(s) == s
  {
  }

  lemma ParsePlainDigits(digits: string)
    requires 1 <= |digits| && AllDigits(digits)
    ensures ParseSignedDigits(digits) == Some(DigitsValue(digits) as int)
  {
    DigitGroupsOfDigits(digits);
    assert digits[0] != '-' && digits[0] != '+';
  }

  lemma ParseNegativeDigits(t: string, digits: string, n: int)
    requires 1 <= |digits| && AllDigits(digits) && DigitsValue(digits) == -n
    requires 2 <= |t| && t[0] == '-' && t[1..] == digits
    ensures ParseSignedDigits(t) == Some(n)
  {
    DigitGroupsOfDigits(digits);
  }

  lemma DigitGroupsOfDigits(digits: string)
    requires 1 <= |digits| && AllDigits(digits)
    ensures IsDigitGroups(digits) && WithoutUnderscores(digits) == digits
  {
    NoUnderscoreInDigits(digits);
  }

  lemma {:induction false} NoUnderscoreInDigits(digits: string)
    requires AllDigits(digits)
    ensures NoDoubleUnderscore(digits)
    decreases |digits|
  {
    if |digits| >= 2 {
      NoUnderscoreInDigits(digits[1..]);
    }
  }

  /** Whitespace that `int()` skips may surround the number: `int(pre + str(n) + post) == n`. */
  lemma ParsePaddedInt(pre: string, n: int, post: string)
    requires AllIntSpace(pre) && AllIntSpace(post)
    ensures ParseInt(pre + FormatInt(n) + post) == Some(n)
  {
    var t := FormatInt(n);
    FormatIntEnds(n);
    TrimPadded(pre, t, post);
    TrimUnpadded(t);
    ParseFormatInt(n);
  }

  /** Trimming removes exactly the padding around a text that starts and ends with no skipped character. */
  lemma TrimPadded(pre: string, t: string, post: string)
    requires AllIntSpace(pre) && AllIntSpace(post)
    requires t != [] && !IsIntSpace(t[0]) && IsDigit(t[|t| - 1])
    ensures Trim(pre + t + post) == t
  {
    assert pre + t + post == pre + (t + post);
    assert (t + post)[0] == t[0];
    TrimStartDropsPadding(pre, t + post);
    TrimEndDropsPadding(t, post);
  }

  /** The text of an integer starts with '-' or a digit and ends with a digit. */
  lemma FormatIntEnds(n: int)
    ensures var t := FormatInt(n); t != [] && !IsIntSpace(t[0]) && IsDigit(t[|t| - 1])
  {
    if n < 0 {
      var d := FormatNat(-n);
      assert FormatInt(n) == "-" + d;
      assert FormatInt(n)[|FormatInt(n)| - 1] == d[|d| - 1];
    }
  }

  lemma {:induction false} TrimStartDropsPadding(pre: string, t: string)
    requires AllIntSpace(pre) && t != [] && !IsIntSpace(t[0])
    ensures TrimStart(pre + t) == t
    decreases |pre|
  {
    if pre == [] {
      assert pre + t == t;
    } else {
      assert (pre + t)[1..] == pre[1..] + t;
      TrimStartDropsPadding(pre[1..], t);
    }
  }

  lemma {:induction false} TrimEndDropsPadding(t: string, post: string)
    requires AllIntSpace(post) && t != [] && IsDigit(t[|t| - 1])
    ensures TrimEnd(t + post) == t
    decreases |post|
  {
    if post == [] {
      assert t + post == t;
    } else {
      var shorter := post[..|post| - 1];
      assert (t + post)[..|t + post| - 1] == t + shorter;
      TrimEndDropsPadding(t, shorter);
    }
  }

  /**
   * An ASCII separator U+001C to U+001F in front is not skipped, so the text is
   * refused: `int("\x1c8080")` raises `ValueError`.
   */
  lemma SeparatorRefused(c: char, t: string)
    requires '\U{1C}' <= c <= '\U{1F}'
    ensures ParseInt([c] + t) == None
  {
    var s := [c] + t;
    assert TrimStart(s) == s;
    TrimEndKeepsFront(s);
  }

  /** Trimming the back of a text whose first character is not skipped keeps that character first. */
  lemma {:induction false} TrimEndKeepsFront(s: string)
    requires s != [] && !IsIntSpace(s[0])
    ensures TrimEnd(s) != [] && TrimEnd(s)[0] == s[0]
    decreases |s|
  {
    if IsIntSpace(s[|s| - 1]) {
      var shorter := s[..|s| - 1];
      assert shorter[0] == s[0];
      TrimEndKeepsFront(shorter);
    }
  }
}
