/**
 * The string primitives the routes and the form rely on: the character classes of the
 * regular expressions they test, `String.prototype.trim`, ASCII `toUpperCase`, JavaScript's
 * `parseInt(s, 10)` and the decimal rendering of an integer.
 */
module Strings {
  import opened Wrappers

  /** `\d` and `[0-9]` (no `u` flag, so ASCII digits only). */
  predicate IsDigit(c: char) { '0' <= c <= '9' }

  predicate IsAsciiLetter(c: char) { 'a' <= c <= 'z' || 'A' <= c <= 'Z' }

  /** `[a-zA-Z0-9]`. */
  predicate IsAsciiLetterOrDigit(c: char) { IsAsciiLetter(c) || IsDigit(c) }

  /** ECMAScript WhiteSpace and LineTerminator code points: what `trim` and `parseInt` skip. */
  predicate IsWhiteSpace(c: char) {
    c == '\t' || c == '\n' || c == '\U{000B}' || c == '\U{000C}' || c == '\r' || c == ' '
    || c == '\U{00A0}' || c == '\U{1680}' || ('\U{2000}' <= c <= '\U{200A}')
    || c == '\U{2028}' || c == '\U{2029}' || c == '\U{202F}' || c == '\U{205F}'
    || c == '\U{3000}' || c == '\U{FEFF}'
  }

  /** `/^[a-zA-Z0-9]{5}$/.test(s)`. */
  predicate IsAlphanumericCode(s: string) {
    |s| == 5 && forall i :: 0 <= i < |s| ==> IsAsciiLetterOrDigit(s[i])
  }

  /** `/^\d{5}$/.test(s)`. */
  predicate IsDigitCode(s: string) {
    |s| == 5 && forall i :: 0 <= i < |s| ==> IsDigit(s[i])
  }

  /** Whether `s` has at least one ASCII letter. */
  predicate HasLetter(s: string) {
    exists i :: 0 <= i < |s| && IsAsciiLetter(s[i])
  }

  /** A digit code is an alphanumeric code, and one with a letter is never a digit code. */
  lemma DigitCodeIsAlphanumeric(s: string)
    ensures IsDigitCode(s) ==> IsAlphanumericCode(s)
    ensures HasLetter(s) ==> !IsDigitCode(s)
  {
  }

  function TrimStart(s: string): (r: string)
    ensures |r| <= |s| && r == s[|s| - |r|..]
    ensures r == [] || !IsWhiteSpace(r[0])
    ensures forall i :: 0 <= i < |s| - |r| ==> IsWhiteSpace(s[i])
  {
    if |s| > 0 && IsWhiteSpace(s[0]) then TrimStart(s[1..]) else s
  }

  function TrimEnd(s: string): (r: string)
    ensures |r| <= |s| && r == s[..|r|]
    ensures r == [] || !IsWhiteSpace(r[|r| - 1])
    ensures forall i :: |r| <= i < |s| ==> IsWhiteSpace(s[i])
  {
    if |s| > 0 && IsWhiteSpace(s[|s| - 1]) then TrimEnd(s[..|s| - 1]) else s
  }

  /** `s.trim()`: `s` without leading and trailing white space. */
  function Trim(s: string): (r: string)
  {
    TrimEnd(TrimStart(s))
  }

  /** `Trim` returns a slice of its input. */
  lemma TrimIsSlice(s: string)
    ensures exists i, j :: 0 <= i <= j <= |s| && Trim(s) == s[i..j]
  {
    var t := TrimStart(s);
    var i := |s| - |t|;
    var r := TrimEnd(t);
    SliceOfSuffix(s, i, |r|);
    assert r == s[i..i + |r|];
  }

  lemma SliceOfSuffix(s: string, i: nat, n: nat)
    requires i + n <= |s|
    ensures s[i..][..n] == s[i..i + n]
  {
  }

  /** What `Trim` returns has no white space at either end. */
  lemma TrimEnds(s: string)
    ensures Trim(s) == [] || (!IsWhiteSpace(Trim(s)[0]) && !IsWhiteSpace(Trim(s)[|Trim(s)| - 1]))
  {
    var t := TrimStart(s);
    var r := TrimEnd(t);
    if r != [] {
      assert r[0] == t[0];
    }
  }

  /** `!s.trim()` holds exactly when every character of `s` is white space. */
  lemma TrimEmptyIffBlank(s: string)
    ensures Trim(s) == "" <==> forall i :: 0 <= i < |s| ==> IsWhiteSpace(s[i])
  {
    var t := TrimStart(s);
    if Trim(s) == "" {
      assert t == "";
    } else {
      var r := Trim(s);
      assert !IsWhiteSpace(t[0]);
      assert t[0] == s[|s| - |t|];
    }
  }

  function UpperChar(c: char): (u: char)
  {
    if 'a' <= c <= 'z' then (c as int - 32) as char else c
  }

  /** `s.toUpperCase()` for ASCII input, which is all the routes ever pass it. */
  function ToUpper(s: string): (r: string)
    ensures |r| == |s|
    ensures forall i :: 0 <= i < |s| ==> r[i] == UpperChar(s[i])
  {
    seq(|s|, i requires 0 <= i < |s| => UpperChar(s[i]))
  }

  /** Upper-casing keeps a code alphanumeric, keeps its letters letters, leaves no lower-case letter and
      is idempotent. */
  lemma ToUpperProperties(s: string)
    ensures IsAlphanumericCode(s) ==> IsAlphanumericCode(ToUpper(s))
    ensures HasLetter(s) ==> HasLetter(ToUpper(s))
    ensures forall i :: 0 <= i < |s| ==> !('a' <= ToUpper(s)[i] <= 'z')
    ensures ToUpper(ToUpper(s)) == ToUpper(s)
    ensures IsDigitCode(s) ==> ToUpper(s) == s
  {
    if HasLetter(s) {
      var i :| 0 <= i < |s| && IsAsciiLetter(s[i]);
      assert IsAsciiLetter(ToUpper(s)[i]);
    }
  }

  function DigitValue(c: char): (d: nat)
    requires IsDigit(c)
    ensures d < 10
  {
    c as int - '0' as int
  }

  function DigitChar(d: nat): (c: char)
    requires d < 10
    ensures IsDigit(c) && DigitValue(c) == d
  {
    ('0' as int + d) as char
  }

  /** Length of the longest prefix of `s` made of decimal digits. */
  function DigitPrefixLength(s: string): (n: nat)
    ensures n <= |s|
    ensures forall i :: 0 <= i < n ==> IsDigit(s[i])
    ensures n < |s| ==> !IsDigit(s[n])
  {
    if |s| > 0 && IsDigit(s[0]) then 1 + DigitPrefixLength(s[1..]) else 0
  }

  /** The number an all-digit string denotes. */
  function DigitsValue(s: string): nat
    requires forall i :: 0 <= i < |s| ==> IsDigit(s[i])
  {
    if s == [] then 0 else 10 * DigitsValue(s[..|s| - 1]) + DigitValue(s[|s| - 1])
  }

  /**
   * `parseInt(s, 10)`: skip leading white space, take an optional sign, then the longest run of
   * decimal digits; with no digit the result is `NaN`, here `None`. Trailing characters are ignored.
   */
  function ParseInt(s: string): (r: Option<int>)
    ensures r.None? <==> DigitPrefixLength(SignStripped(TrimStart(s)).1) == 0
  {
    var (negative, body) := SignStripped(TrimStart(s));
    var n := DigitPrefixLength(body);
    if n == 0 then None
    else
      var v: int := DigitsValue(body[..n]);
      Some(if negative then -v else v)
  }

  /** Leading white space in front of a non-white character is what `parseInt` skips. */
  lemma {:induction false} TrimStartPrefix(ws: string, t: string)
    requires forall i :: 0 <= i < |ws| ==> IsWhiteSpace(ws[i])
    requires t == [] || !IsWhiteSpace(t[0])
    ensures TrimStart(ws + t) == t
  {
    if ws != [] {
      assert (ws + t)[1..] == ws[1..] + t;
      TrimStartPrefix(ws[1..], t);
    }
  }

  /** The digit run of `digits + rest` is `digits` when `rest` does not start with a digit. */
  lemma DigitPrefixOf(digits: string, rest: string)
    requires forall i :: 0 <= i < |digits| ==> IsDigit(digits[i])
    requires rest == [] || !IsDigit(rest[0])
    ensures DigitPrefixLength(digits + rest) == |digits|
  {
    var body := digits + rest;
    assert forall i :: 0 <= i < |digits| ==> body[i] == digits[i];
    assert |rest| > 0 ==> body[|digits|] == rest[0];
  }

  /**
   * What `parseInt(s, 10)` reads: white space, an optional sign, then a run of digits that the
   * next character (if any) ends. The result is that run's value, negated after a `-`.
   */
  lemma ParseIntOf(ws: string, sign: string, digits: string, rest: string)
    requires forall i :: 0 <= i < |ws| ==> IsWhiteSpace(ws[i])
    requires sign == "" || sign == "-" || sign == "+"
    requires |digits| > 0 && forall i :: 0 <= i < |digits| ==> IsDigit(digits[i])
    requires rest == [] || !IsDigit(rest[0])
    ensures var v: int := DigitsValue(digits); ParseInt(ws + sign + digits + rest) == Some(if sign == "-" then -v else v)
  {
    var body := digits + rest;
    var s := ws + sign + digits + rest;
    StrippedOf(ws, sign, digits, rest);
    DigitPrefixOf(digits, rest);
    assert body[..|digits|] == digits;
    ParseIntParts(s, sign == "-", body, digits);
  }

  /** `parseInt` in terms of the stripped sign and the digit run. */
  lemma ParseIntParts(s: string, negative: bool, body: string, digits: string)
    requires SignStripped(TrimStart(s)) == (negative, body)
    requires 0 < |digits| == DigitPrefixLength(body) && body[..|digits|] == digits
    ensures var v: int := DigitsValue(digits); ParseInt(s) == Some(if negative then -v else v)
  {
  }

  /** Skipping the white space and splitting off the sign leaves the digits and what follows. */
  lemma StrippedOf(ws: string, sign: string, digits: string, rest: string)
    requires forall i :: 0 <= i < |ws| ==> IsWhiteSpace(ws[i])
    requires sign == "" || sign == "-" || sign == "+"
    requires digits != [] && IsDigit(digits[0])
    ensures SignStripped(TrimStart(ws + sign + digits + rest)) == (sign == "-", digits + rest)
  {
    var body := digits + rest;
    var t := sign + body;
    assert ws + sign + digits + rest == ws + t;
    assert t[0] == (if sign == "" then body[0] else sign[0]);
    TrimStartPrefix(ws, t);
    SignStrippedOf(sign, body);
  }

  /** A sign in front of a digit is split off. */
  lemma SignStrippedOf(sign: string, body: string)
    requires sign == "" || sign == "-" || sign == "+"
    requires body != [] && IsDigit(body[0])
    ensures SignStripped(sign + body) == (sign == "-", body)
  {
    if sign == "" {
      assert sign + body == body;
    } else {
      assert (sign + body)[0] == sign[0];
      assert (sign + body)[1..] == body;
    }
  }

  /** Splits an optional leading `-` or `+` off `s`. */
  function SignStripped(s: string): (r: (bool, string))
    ensures |r.1| <= |s|
  {
    if |s| > 0 && s[0] == '-' then (true, s[1..])
    else if |s| > 0 && s[0] == '+' then (false, s[1..])
    else (false, s)
  }

  /** The decimal digits of `n`, most significant first, no leading zero. */
  function NatToString(n: nat): (s: string)
    ensures |s| > 0
    ensures forall i :: 0 <= i < |s| ==> IsDigit(s[i])
  {
    if n < 10 then [DigitChar(n)] else NatToString(n / 10) + [DigitChar(n % 10)]
  }

  /** How an integer-valued JavaScript number renders as a string (`String(n)`). */
  function IntToString(n: int): (s: string)
    ensures |s| > 0 && (s[0] == '-' || IsDigit(s[0]))
  {
    if n < 0 then "-" + NatToString(-n) else NatToString(n)
  }

  lemma {:induction false} NatToStringValue(n: nat)
    ensures DigitsValue(NatToString(n)) == n
  {
    if n >= 10 {
      var s := NatToString(n);
      NatToStringValue(n / 10);
      assert s[..|s| - 1] == NatToString(n / 10);
    }
  }

  /** Parsing what an integer renders as gives that integer back. */
  lemma IntToStringRoundTrip(n: int)
    ensures ParseInt(IntToString(n)) == Some(n)
  {
    var s := IntToString(n);
    assert !IsWhiteSpace(s[0]);
    assert TrimStart(s) == s;
    var m: nat := if n < 0 then -n else n;
    var digits := NatToString(m);
    assert SignStripped(s).1 == digits;
    assert DigitPrefixLength(digits) == |digits|;
    assert digits[..|digits|] == digits;
    NatToStringValue(m);
  }
}
