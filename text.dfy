/** Character classes and string operations the field parser is built from: Python's `str.strip`,
    `str.lower`, `str.isdigit`, decimal digit values and the character filters of `re.sub`. */
module Text {

  /** The ASCII characters for which Python's `str.isspace` holds. */
  predicate IsSpace(c: char) {
    c == ' ' || c == '\t' || c == '\n' || c == '\r' || c == '\U{000B}' || c == '\U{000C}'
    || ('\U{001C}' <= c <= '\U{001F}')
  }

  predicate IsDigit(c: char) {
    '0' <= c <= '9'
  }

  predicate AllSpace(s: string) {
    forall i :: 0 <= i < |s| ==> IsSpace(s[i])
  }

  predicate AllDigits(s: string) {
    forall i :: 0 <= i < |s| ==> IsDigit(s[i])
  }

  /** Python's `s.isdigit()` on ASCII text: non-empty and made of digits only. */
  predicate IsDigits(s: string) {
    |s| > 0 && AllDigits(s)
  }

  /** Neither end of `s` is whitespace. */
  predicate Unpadded(s: string) {
    |s| == 0 || (!IsSpace(s[0]) && !IsSpace(s[|s| - 1]))
  }

  /** The number of whitespace characters at the start of `s`. */
  function LeadingSpace(s: string): (n: nat)
    ensures n <= |s| && AllSpace(s[..n])
    ensures n < |s| ==> !IsSpace(s[n])
  {
    if |s| == 0 || !IsSpace(s[0]) then 0
    else
      var k := LeadingSpace(s[1..]);
      assert s[1..][..k] == s[1..k + 1];
      k + 1
  }

  /** The number of whitespace characters at the end of `s`. */
  function TrailingSpace(s: string): (n: nat)
    ensures n <= |s| && AllSpace(s[|s| - n..])
    ensures n < |s| ==> !IsSpace(s[|s| - n - 1])
  {
    if |s| == 0 || !IsSpace(s[|s| - 1]) then 0
    else
      var k := TrailingSpace(s[..|s| - 1]);
      assert s[..|s| - 1][|s| - 1 - k..] == s[|s| - 1 - k..|s| - 1];
      k + 1
  }

  /** Python's `s.strip()`: `s` without its leading and trailing whitespace. */
  function Strip(s: string): (r: string)
    ensures Unpadded(r)
    ensures |r| <= |s|
  {
    var i := LeadingSpace(s);
    if i == |s| then "" else
      var j := TrailingSpace(s);
      s[i..|s| - j]
  }

  /** Removing whitespace padding recovers the unpadded middle, whatever padding was added. */
  lemma StripPadded(a: string, m: string, b: string)
    requires AllSpace(a) && AllSpace(b) && Unpadded(m)
    ensures Strip(a + m + b) == m
  {
    var s := a + m + b;
    if |m| == 0 {
      assert AllSpace(s) by {
        forall k | 0 <= k < |s| ensures IsSpace(s[k]) {
          if k < |a| { assert s[k] == a[k]; } else { assert s[k] == b[k - |a|]; }
        }
      }
    } else {
      assert s[|a|] == m[0];
      assert s[|a| + |m| - 1] == m[|m| - 1];
      var i := LeadingSpace(s);
      assert i == |a|;
      var j := TrailingSpace(s);
      assert j == |b|;
      assert s[i..|s| - j] == m;
    }
  }

  /** Every string is its strip padded with whitespace on both sides. */
  lemma StripSplits(s: string)
    ensures exists a, b :: AllSpace(a) && AllSpace(b) && s == a + Strip(s) + b
  {
    var i := LeadingSpace(s);
    if i == |s| {
      assert s == s + Strip(s) + "";
      assert AllSpace(s) && AllSpace("");
    } else {
      var j := TrailingSpace(s);
      var r := Strip(s);
      assert r == s[i..|s| - j];
      assert s == s[..i] + r + s[|s| - j..];
    }
  }

  /** Stripping twice is stripping once. */
  lemma StripIdempotent(s: string)
    ensures Strip(Strip(s)) == Strip(s)
  {
    StripPadded("", Strip(s), "");
    assert "" + Strip(s) + "" == Strip(s);
  }

  /** Python's `c.lower()` on ASCII and on the basic Cyrillic block. */
  function LowerChar(c: char): char {
    if 'A' <= c <= 'Z' then (c as int + 32) as char
    else if '\U{0410}' <= c <= '\U{042F}' then (c as int + 32) as char
    else if '\U{0400}' <= c <= '\U{040F}' then (c as int + 80) as char
    else c
  }

  /** Python's `s.lower()`. */
  function Lower(s: string): (r: string)
    ensures |r| == |s|
    ensures forall i :: 0 <= i < |s| ==> r[i] == LowerChar(s[i])
  {
    seq(|s|, i requires 0 <= i < |s| => LowerChar(s[i]))
  }

  /** Whether two strings are equal once case is ignored. */
  predicate EqualIgnoringCase(a: string, b: string) {
    |a| == |b| && forall i :: 0 <= i < |a| ==> LowerChar(a[i]) == LowerChar(b[i])
  }

  function DigitOf(c: char): nat
    requires IsDigit(c)
  {
    c as int - '0' as int
  }

  function DigitChar(d: nat): (c: char)
    requires d < 10
    ensures IsDigit(c) && DigitOf(c) == d
  {
    ('0' as int + d) as char
  }

  /** The number a string of decimal digits denotes (Python's `int` on it). */
  function DigitsValue(s: string): nat
    requires AllDigits(s)
  {
    if |s| == 0 then 0 else DigitsValue(s[..|s| - 1]) * 10 + DigitOf(s[|s| - 1])
  }

  /** The decimal digits of `n`, without leading zeros (Python's `str` on a non-negative int). */
  function NatToDigits(n: nat): (s: string)
    ensures IsDigits(s)
  {
    if n < 10 then [DigitChar(n)] else NatToDigits(n / 10) + [DigitChar(n % 10)]
  }

  lemma {:induction false} DigitsRoundTrip(n: nat)
    ensures DigitsValue(NatToDigits(n)) == n
  {
    if n >= 10 {
      var s := NatToDigits(n);
      assert s[..|s| - 1] == NatToDigits(n / 10);
      DigitsRoundTrip(n / 10);
    }
  }

  /** Leading zeros do not change the value of a digit string. */
  lemma {:induction false} LeadingZeros(z: string, s: string)
    requires forall i :: 0 <= i < |z| ==> z[i] == '0'
    requires AllDigits(s)
    ensures AllDigits(z + s) && DigitsValue(z + s) == DigitsValue(s)
  {
    if |s| == 0 {
      assert z + s == z;
      ZerosValue(z);
    } else {
      assert (z + s)[..|z + s| - 1] == z + s[..|s| - 1];
      LeadingZeros(z, s[..|s| - 1]);
    }
  }

  lemma {:induction false} ZerosValue(z: string)
    requires forall i :: 0 <= i < |z| ==> z[i] == '0'
    ensures AllDigits(z) && DigitsValue(z) == 0
  {
    if |z| > 0 {
      ZerosValue(z[..|z| - 1]);
    }
  }

  /** `re.sub(r"[^\d]", "", s)`: the digits of `s`, in order. */
  function KeepDigits(s: string): (r: string)
    ensures AllDigits(r) && |r| <= |s|
  {
    if |s| == 0 then ""
    else if IsDigit(s[0]) then [s[0]] + KeepDigits(s[1..])
    else KeepDigits(s[1..])
  }

  /** `re.sub(r"[^\d\-]", "", s)`: the digits and minus signs of `s`, in order. */
  function KeepDigitsAndMinus(s: string): (r: string)
    ensures |r| <= |s|
    ensures forall i :: 0 <= i < |r| ==> IsDigit(r[i]) || r[i] == '-'
  {
    if |s| == 0 then ""
    else if IsDigit(s[0]) || s[0] == '-' then [s[0]] + KeepDigitsAndMinus(s[1..])
    else KeepDigitsAndMinus(s[1..])
  }

  /** A single character survives the filter exactly when it is a digit. */
  lemma KeepDigitsOfChar(c: char)
    ensures KeepDigits([c]) == (if IsDigit(c) then [c] else "")
  {
    assert [c][1..] == "";
  }

  /** The filter leaves nothing exactly when `s` has no digit. */
  lemma {:induction false} KeepDigitsEmpty(s: string)
    ensures KeepDigits(s) == "" <==> forall i :: 0 <= i < |s| ==> !IsDigit(s[i])
  {
    if |s| > 0 {
      KeepDigitsEmpty(s[1..]);
      assert forall i :: 1 <= i < |s| ==> s[i] == s[1..][i - 1];
    }
  }

  /** A single character survives the filter exactly when it is a digit or a minus sign. */
  lemma KeepDigitsAndMinusOfChar(c: char)
    ensures KeepDigitsAndMinus([c]) == (if IsDigit(c) || c == '-' then [c] else "")
  {
    assert [c][1..] == "";
  }

  /** The filter leaves nothing exactly when `s` has neither a digit nor a minus sign. */
  lemma {:induction false} KeepDigitsAndMinusEmpty(s: string)
    ensures KeepDigitsAndMinus(s) == "" <==> forall i :: 0 <= i < |s| ==> !IsDigit(s[i]) && s[i] != '-'
  {
    if |s| > 0 {
      KeepDigitsAndMinusEmpty(s[1..]);
      assert forall i :: 1 <= i < |s| ==> s[i] == s[1..][i - 1];
    }
  }

  lemma {:induction false} KeepDigitsAndMinusConcat(a: string, b: string)
    ensures KeepDigitsAndMinus(a + b) == KeepDigitsAndMinus(a) + KeepDigitsAndMinus(b)
  {
    if |a| > 0 {
      assert (a + b)[1..] == a[1..] + b;
      KeepDigitsAndMinusConcat(a[1..], b);
    } else {
      assert a + b == b;
    }
  }

  /** Filtering an already filtered string changes nothing. */
  lemma {:induction false} KeepDigitsAndMinusIdempotent(s: string)
    ensures KeepDigitsAndMinus(KeepDigitsAndMinus(s)) == KeepDigitsAndMinus(s)
  {
    if |s| > 0 {
      KeepDigitsAndMinusIdempotent(s[1..]);
      if IsDigit(s[0]) || s[0] == '-' {
        var r := KeepDigitsAndMinus(s);
        assert r[1..] == KeepDigitsAndMinus(s[1..]);
      }
    }
  }

  /** `s.replace(a, b)` for single characters. */
  function ReplaceChar(s: string, a: char, b: char): (r: string)
    ensures |r| == |s|
    ensures forall i :: 0 <= i < |s| ==> r[i] == (if s[i] == a then b else s[i])
  {
    seq(|s|, i requires 0 <= i < |s| => if s[i] == a then b else s[i])
  }

  /** `s.replace(c, "")`. */
  function RemoveChar(s: string, c: char): (r: string)
    ensures |r| <= |s|
    ensures forall i :: 0 <= i < |r| ==> r[i] != c
  {
    if |s| == 0 then ""
    else if s[0] == c then RemoveChar(s[1..], c)
    else [s[0]] + RemoveChar(s[1..], c)
  }

  lemma {:induction false} RemoveCharConcat(a: string, b: string, c: char)
    ensures RemoveChar(a + b, c) == RemoveChar(a, c) + RemoveChar(b, c)
  {
    if |a| > 0 {
      assert (a + b)[1..] == a[1..] + b;
      RemoveCharConcat(a[1..], b, c);
    } else {
      assert a + b == b;
    }
  }

  lemma {:induction false} RemoveCharAbsent(s: string, c: char)
    requires forall i :: 0 <= i < |s| ==> s[i] != c
    ensures RemoveChar(s, c) == s
  {
    if |s| > 0 {
      RemoveCharAbsent(s[1..], c);
    }
  }

  /** Whether `c` occurs in `s` (Python's `c in s`). */
  predicate Contains(s: string, c: char) {
    exists i :: 0 <= i < |s| && s[i] == c
  }
}
