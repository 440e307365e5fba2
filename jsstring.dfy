/** The pieces of JavaScript's string semantics that the page scripts rely on:
    the white-space set of `trim` and `\s`, `toLowerCase`/`toUpperCase` on
    ASCII letters, `includes`, `length` in UTF-16 code units, the decimal
    rendering of integers in template literals, and decimal `parseInt`. */
module JsString {

  import opened Wrappers

  /** WhiteSpace and LineTerminator of ECMAScript: exactly what `\s` matches
      and what `String.prototype.trim` strips. */
  predicate IsSpace(c: char) {
    || c == '\t' || c == '\n' || c == '\U{000B}' || c == '\U{000C}' || c == '\r'
    || c == ' ' || c == '\U{00A0}' || c == '\U{1680}'
    || ('\U{2000}' <= c <= '\U{200A}')
    || c == '\U{2028}' || c == '\U{2029}' || c == '\U{202F}' || c == '\U{205F}'
    || c == '\U{3000}' || c == '\U{FEFF}'
  }

  /** `s` is white space only. */
  predicate AllSpace(s: string) {
    forall i :: 0 <= i < |s| ==> IsSpace(s[i])
  }

  /** `trimStart`: drops the leading white space and nothing else. */
  function TrimStart(s: string): (r: string)
    ensures |r| <= |s| && r == s[|s| - |r|..]
    ensures r == [] || !IsSpace(r[0])
    ensures forall i :: 0 <= i < |s| - |r| ==> IsSpace(s[i])
  {
    if s != [] && IsSpace(s[0]) then TrimStart(s[1..]) else s
  }

  /** `trimEnd`: drops the trailing white space and nothing else. */
  function TrimEnd(s: string): (r: string)
    ensures |r| <= |s| && r == s[..|r|]
    ensures r == [] || !IsSpace(r[|r| - 1])
    ensures forall i :: |r| <= i < |s| ==> IsSpace(s[i])
  {
    if s != [] && IsSpace(s[|s| - 1]) then TrimEnd(s[..|s| - 1]) else s
  }

  /** `String.prototype.trim`. */
  function Trim(s: string): (r: string)
    ensures |r| <= |s|
    ensures r == [] || (!IsSpace(r[0]) && !IsSpace(r[|r| - 1]))
  {
    TrimEnd(TrimStart(s))
  }

  /** What `value.trim()` is falsy for: a value is empty after `trim()`
      exactly when it is made of white space only. */
  lemma TrimBlankIffAllSpace(s: string)
    ensures Trim(s) == [] <==> AllSpace(s)
  {
  }


  function LowerChar(c: char): char {
    if 'A' <= c <= 'Z' then (c as int + 32) as char else c
  }

  function UpperChar(c: char): char {
    if 'a' <= c <= 'z' then (c as int - 32) as char else c
  }

  /** `toLowerCase`, on the ASCII letters. */
  function ToLower(s: string): (r: string)
    ensures |r| == |s|
    ensures forall i :: 0 <= i < |s| ==> r[i] == LowerChar(s[i])
    ensures forall i :: 0 <= i < |r| ==> !('A' <= r[i] <= 'Z')
    ensures forall i :: 0 <= i < |s| && !('A' <= s[i] <= 'Z') ==> r[i] == s[i]
  {
    seq(|s|, i requires 0 <= i < |s| => LowerChar(s[i]))
  }

  /** Lower-casing twice is lower-casing once. */
  lemma ToLowerIdempotent(s: string)
    ensures ToLower(ToLower(s)) == ToLower(s)
  {
  }

  /** `term` occurs in `text` starting at index `i`. */
  predicate OccursAt(text: string, term: string, i: int) {
    0 <= i && i + |term| <= |text| && text[i..i + |term|] == term
  }

  /** `String.prototype.includes`. */
  predicate Contains(text: string, term: string)
    ensures Contains(text, term) ==> |term| <= |text|
    ensures term == [] || term == text ==> Contains(text, term)
    ensures |term| == |text| ==> (Contains(text, term) <==> term == text)
  {
    assert term == text ==> OccursAt(text, term, 0);
    assert term == [] ==> OccursAt(text, term, 0);
    exists i :: 0 <= i <= |text| && OccursAt(text, term, i)
  }

  /** `length` of a JavaScript string: UTF-16 code units, so a code point
      beyond the Basic Multilingual Plane counts twice. */
  function Utf16Length(s: string): (n: nat)
    ensures |s| <= n <= 2 * |s|
  {
    if s == [] then 0
    else Utf16Length(s[..|s| - 1]) + (if s[|s| - 1] as int > 0xFFFF then 2 else 1)
  }

  predicate IsDigit(c: char) {
    '0' <= c <= '9'
  }

  function DigitChar(d: nat): (c: char)
    requires d < 10
    ensures IsDigit(c)
  {
    ('0' as int + d) as char
  }

  /** The value of a decimal digit; only ever applied to digits. */
  function DigitValue(c: char): (d: nat)
    ensures IsDigit(c) ==> d < 10 && DigitChar(d) == c
  {
    if IsDigit(c) then c as int - '0' as int else 0
  }

  /** The value of a string of decimal digits, most significant first. */
  function DigitsValue(s: string): nat
  {
    if s == [] then 0 else DigitsValue(s[..|s| - 1]) * 10 + DigitValue(s[|s| - 1])
  }

  /** How a natural number prints in a template literal: its shortest decimal digits. */
  function NatToString(n: nat): (s: string)
    ensures |s| >= 1
    ensures forall i :: 0 <= i < |s| ==> IsDigit(s[i])
    ensures s[0] == '0' ==> n == 0
  {
    if n < 10 then [DigitChar(n)] else NatToString(n / 10) + [DigitChar(n % 10)]
  }

  /** How an integer prints in a template literal. */
  function IntToString(n: int): (s: string)
    ensures |s| >= 1 && (IsDigit(s[0]) || s[0] == '-')
  {
    if n < 0 then "-" + NatToString(-n) else NatToString(n)
  }

  /** The decimal rendering reads back as the number it renders. */
  lemma {:induction false} NatToStringValue(n: nat)
    ensures DigitsValue(NatToString(n)) == n
  {
    var s := NatToString(n);
    if n >= 10 {
      NatToStringValue(n / 10);
      assert s[..|s| - 1] == NatToString(n / 10);
    }
  }

  /** Distinct numbers print differently. */
  lemma NatToStringInjective(a: nat, b: nat)
    requires NatToString(a) == NatToString(b)
    ensures a == b
  {
    NatToStringValue(a);
    NatToStringValue(b);
  }

  /** Length of the longest prefix of `s` made of decimal digits. */
  function DigitPrefixLength(s: string): (k: nat)
    ensures k <= |s|
    ensures forall i :: 0 <= i < k ==> IsDigit(s[i])
    ensures k < |s| ==> !IsDigit(s[k])
  {
    if s != [] && IsDigit(s[0]) then 1 + DigitPrefixLength(s[1..]) else 0
  }

  /** `parseInt(s)` for decimal text: leading white space is skipped, one
      sign is accepted, then the longest run of digits is read; `None`
      stands for `NaN`, the result when no digit follows. */
  function ParseInt(s: string): (r: Option<int>)
    ensures r.None? <==> DigitPrefixLength(UnsignedPart(TrimStart(s))) == 0
  {
    ReadSigned(TrimStart(s))
  }

  /** `parseInt` after the leading white space: an optional sign, then the
      digit run, negated after a minus sign. */
  function ReadSigned(t: string): (r: Option<int>)
    ensures r.None? <==> DigitPrefixLength(UnsignedPart(t)) == 0
  {
    match ReadDigits(UnsignedPart(t))
    case None => None
    case Some(magnitude) => if t != [] && t[0] == '-' then Some(-(magnitude as int)) else Some(magnitude as int)
  }

  /** The value of the longest run of digits at the front of `d`; `None`
      when `d` does not start with a digit. */
  function ReadDigits(d: string): (r: Option<nat>)
    ensures r.None? <==> DigitPrefixLength(d) == 0
  {
    var k := DigitPrefixLength(d);
    if k == 0 then None else Some(DigitsValue(d[..k]))
  }

  /** What follows an optional leading sign. */
  function UnsignedPart(t: string): (u: string)
    ensures u == t || (t != [] && (t[0] == '-' || t[0] == '+') && u == t[1..])
  {
    if t != [] && (t[0] == '-' || t[0] == '+') then t[1..] else t
  }

  /** `parseInt` reads back every integer as it is printed. */
  lemma IntToStringParses(n: int)
    ensures ParseInt(IntToString(n)) == Some(n)
  {
    ParseIntPrefix(n, []);
    assert IntToString(n) + [] == IntToString(n);
  }

  /** A range "a-b" reads back: `parseInt` takes `a` off its front, and `b`
      from just after the dash. */
  lemma RangeReadsBack(a: int, b: int)
    ensures ParseInt(IntToString(a) + "-" + IntToString(b)) == Some(a)
    ensures var range, cut := IntToString(a) + "-" + IntToString(b), |IntToString(a)| + 1;
      cut <= |range| && range[cut - 1] == '-' && ParseInt(range[cut..]) == Some(b)
  {
    var first, last := IntToString(a), IntToString(b);
    assert first + "-" + last == first + ("-" + last);
    ParseIntPrefix(a, "-" + last);
    assert (first + "-" + last)[|first| + 1..] == last;
    IntToStringParses(b);
  }

  /** `parseInt` reads a printed integer back off the front of a text when
      no digit follows it: what comes after is ignored. */
  lemma ParseIntPrefix(n: int, rest: string)
    requires rest == [] || !IsDigit(rest[0])
    ensures ParseInt(IntToString(n) + rest) == Some(n)
  {
    if n < 0 {
      ParseSigned(n, rest);
    } else {
      ParseUnsigned(n, rest);
    }
  }

  /** The digits of a non-negative `n`, then no digit, parse back to `n`. */
  lemma ParseUnsigned(n: int, rest: string)
    requires n >= 0
    requires rest == [] || !IsDigit(rest[0])
    ensures ParseInt(IntToString(n) + rest) == Some(n)
  {
    var digits := NatToString(n);
    assert IntToString(n) == digits;
    NatToStringValue(n);
    ParseRun(digits, rest, n);
  }

  /** A minus sign and the digits of `-n`, then no digit, parse back to a
      negative `n`. */
  lemma ParseSigned(n: int, rest: string)
    requires n < 0
    requires rest == [] || !IsDigit(rest[0])
    ensures ParseInt(IntToString(n) + rest) == Some(n)
  {
    var m: nat := -n;
    var digits := NatToString(m);
    assert IntToString(n) + rest == "-" + (digits + rest);
    NatToStringValue(m);
    ParseNegatedRun(digits, rest, m);
  }

  /** A run of digits and then no digit: `parseInt` reads the run. */
  lemma ParseRun(digits: string, rest: string, v: nat)
    requires digits != [] && forall i :: 0 <= i < |digits| ==> IsDigit(digits[i])
    requires rest == [] || !IsDigit(rest[0])
    requires v == DigitsValue(digits)
    ensures ParseInt(digits + rest) == Some(v as int)
  {
    ReadRun(digits, rest);
    assert (digits + rest)[0] == digits[0];
    UnsignedParse(digits + rest, v);
  }

  /** A minus sign, a run of digits and then no digit: `parseInt` reads the
      run, negated. */
  lemma ParseNegatedRun(digits: string, rest: string, v: nat)
    requires digits != [] && forall i :: 0 <= i < |digits| ==> IsDigit(digits[i])
    requires rest == [] || !IsDigit(rest[0])
    requires v == DigitsValue(digits)
    ensures ParseInt("-" + (digits + rest)) == Some(-(v as int))
  {
    ReadRun(digits, rest);
    NegatedParse(digits + rest, v);
  }

  /** A text that starts with a digit is read by its digit run alone. */
  lemma UnsignedParse(u: string, v: nat)
    requires u != [] && IsDigit(u[0])
    requires ReadDigits(u) == Some(v)
    ensures ParseInt(u) == Some(v as int)
  {
    assert !IsSpace(u[0]);
    NothingToTrim(u);
    assert UnsignedPart(u) == u;
  }

  /** A text that does not start with white space is read as it is. */
  lemma NothingToTrim(s: string)
    requires s != [] && !IsSpace(s[0])
    ensures ParseInt(s) == ReadSigned(s)
  {
    assert TrimStart(s) == s;
  }

  /** A minus sign before a digit run negates what the run reads. */
  lemma NegatedParse(u: string, v: nat)
    requires ReadDigits(u) == Some(v)
    ensures ParseInt("-" + u) == Some(-(v as int))
  {
    assert ("-" + u)[1..] == u;
    assert TrimStart("-" + u) == "-" + u;
  }

  /** The digit run at the front of `digits + rest` is `digits` itself. */
  lemma ReadRun(digits: string, rest: string)
    requires digits != [] && forall i :: 0 <= i < |digits| ==> IsDigit(digits[i])
    requires rest == [] || !IsDigit(rest[0])
    ensures ReadDigits(digits + rest) == Some(DigitsValue(digits))
  {
    DigitRunPrefix(digits, rest);
  }

  /** A run of digits followed by a non-digit (or nothing) is read up to the
      end of the run. */
  lemma {:induction false} DigitRunPrefix(digits: string, rest: string)
    requires forall i :: 0 <= i < |digits| ==> IsDigit(digits[i])
    requires rest == [] || !IsDigit(rest[0])
    ensures DigitPrefixLength(digits + rest) == |digits|
    ensures (digits + rest)[..|digits|] == digits
  {
    if digits != [] {
      assert (digits + rest)[1..] == digits[1..] + rest;
      DigitRunPrefix(digits[1..], rest);
    } else {
      assert digits + rest == rest;
    }
  }
}
