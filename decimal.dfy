/** The text rules the Python side relies on: `str.strip()`, `int()` on a
    decimal string, and the decimal rendering of a number that both Python's
    f-strings and Rust's `format!("{}", n)` produce. */
module Decimal {
  import opened Wrappers

  /** Python's `str.isspace` for one character: the characters `strip()`
      removes and `int()` ignores around its digits. */
  predicate IsSpace(c: char)
  {
    ('\U{0009}' <= c <= '\U{000D}') || ('\U{001C}' <= c <= '\U{0020}') ||
    c == '\U{0085}' || c == '\U{00A0}' || c == '\U{1680}' ||
    ('\U{2000}' <= c <= '\U{200A}') || c == '\U{2028}' || c == '\U{2029}' ||
    c == '\U{202F}' || c == '\U{205F}' || c == '\U{3000}'
  }

  predicate IsDigit(c: char) {
    '0' <= c <= '9'
  }

  /** No character `strip()` removes is part of what `int()` reads: not a
      digit, a sign or an underscore. */
  lemma SpaceIsNoNumeral(c: char)
    ensures IsSpace(c) ==> !IsDigit(c) && c != '+' && c != '-' && c != '_'
  {
  }

  function TrimStart(s: string): (r: string)
    ensures |r| <= |s| && r == s[|s| - |r|..]
    ensures r != [] ==> !IsSpace(r[0])
    ensures forall k :: 0 <= k < |s| - |r| ==> IsSpace(s[k])
  {
    if s != [] && IsSpace(s[0]) then TrimStart(s[1..]) else s
  }

  function TrimEnd(s: string): (r: string)
    ensures |r| <= |s| && r == s[..|r|]
    ensures r != [] ==> !IsSpace(r[|r| - 1])
    ensures forall k :: |r| <= k < |s| ==> IsSpace(s[k])
  {
    if s != [] && IsSpace(s[|s| - 1]) then TrimEnd(s[..|s| - 1]) else s
  }

  /** Python's `s.strip()`: what it keeps neither starts nor ends with
      white space. */
  function Strip(s: string): (r: string)
    ensures r != [] ==> !IsSpace(r[0]) && !IsSpace(r[|r| - 1])
  {
    var t := TrimStart(s);
    var u := TrimEnd(t);
    assert u != [] ==> u[0] == t[0];
    u
  }

  /** Where `strip()` cuts: the kept text is s[i..j], with only white space
      before i and after j. */
  lemma StripBounds(s: string) returns (i: nat, j: nat)
    ensures i <= j <= |s| && Strip(s) == s[i..j]
    ensures forall k :: 0 <= k < i ==> IsSpace(s[k])
    ensures forall k :: j <= k < |s| ==> IsSpace(s[k])
  {
    var t := TrimStart(s);
    var u := TrimEnd(t);
    i := |s| - |t|;
    j := i + |u|;
    assert t == s[i..] && u == t[..|u|];
    forall k | j <= k < |s| ensures IsSpace(s[k]) {
      assert s[k] == t[k - i];
    }
  }

  /** What `strip()` keeps is the middle of the text and what it drops is
      white space. */
  lemma StripKeepsMiddle(s: string)
    ensures exists i, j :: (0 <= i <= j <= |s| && Strip(s) == s[i..j] &&
      (forall k :: 0 <= k < i ==> IsSpace(s[k])) &&
      (forall k :: j <= k < |s| ==> IsSpace(s[k])))
  {
    var i, j := StripBounds(s);
  }

  /** Text that holds no white space at either end is its own strip. */
  lemma StripNoSpace(s: string)
    requires s != [] ==> !IsSpace(s[0]) && !IsSpace(s[|s| - 1])
    ensures Strip(s) == s
  {
  }

  /** Stripping twice is stripping once. */
  lemma StripTwice(s: string)
    ensures Strip(Strip(s)) == Strip(s)
  {
    StripNoSpace(Strip(s));
  }

  /** Stripping the text before `int()` reads it changes nothing, as
      `int()` strips it anyway. */
  lemma ParseIntOfStripped(s: string)
    ensures ParseInt(Strip(s)) == ParseInt(s)
  {
    StripTwice(s);
  }

  /** The text `int()` accepts, once stripped, holds no white space at all:
      stripping removes nothing that is part of the number. */
  lemma ParsedHasNoSpace(s: string)
    requires ParseInt(s).Some?
    ensures forall k :: 0 <= k < |Strip(s)| ==> !IsSpace(Strip(s)[k])
  {
    var t := Strip(s);
    forall k | 0 <= k < |t|
      ensures !IsSpace(t[k])
    {
      SpaceIsNoNumeral(t[k]);
      if |t| > 0 && (t[0] == '+' || t[0] == '-') && k > 0 {
        assert t[k] == t[1..][k - 1];
      }
    }
  }

  /** The digits of a decimal literal as `int()` accepts them: at least one
      digit, and single underscores only between two digits. */
  predicate WellFormedDigits(t: string) {
    |t| > 0 && IsDigit(t[0]) && IsDigit(t[|t| - 1]) &&
    (forall k :: 0 <= k < |t| ==> IsDigit(t[k]) || t[k] == '_') &&
    (forall k :: 0 <= k < |t| - 1 && t[k] == '_' ==> t[k + 1] != '_')
  }

  /** The value of a run of digits, underscores skipped. */
  function DigitsValue(t: string): nat
  {
    if t == [] then 0
    else if t[|t| - 1] == '_' then DigitsValue(t[..|t| - 1])
    else if IsDigit(t[|t| - 1]) then 10 * DigitsValue(t[..|t| - 1]) + (t[|t| - 1] - '0') as int
    else DigitsValue(t[..|t| - 1])
  }

  /** Python's `int(s)` for base 10: surrounding white space ignored, an
      optional sign, then the digits; None where Python raises ValueError. */
  function ParseInt(s: string): (r: Option<int>)
    ensures Strip(s) == [] ==> r == None
  {
    ParseNumeral(Strip(s))
  }

  /** What `int()` makes of the text once white space is stripped: an
      optional sign, then the digits. */
  function ParseNumeral(t: string): Option<int>
  {
    if |t| > 0 && (t[0] == '+' || t[0] == '-') then
      if WellFormedDigits(t[1..]) then
        var n: int := DigitsValue(t[1..]);
        Some(if t[0] == '-' then -n else n)
      else None
    else if WellFormedDigits(t) then Some(DigitsValue(t))
    else None
  }

  function DigitChar(d: nat): (c: char)
    requires d < 10
    ensures IsDigit(c) && (c - '0') as int == d
  {
    '0' + d as char
  }

  /** The decimal rendering of a natural number, without leading zeros. */
  function ShowNat(n: nat): (s: string)
    ensures |s| > 0 && forall k :: 0 <= k < |s| ==> IsDigit(s[k])
    ensures |s| > 1 ==> s[0] != '0'
  {
    if n < 10 then [DigitChar(n)] else ShowNat(n / 10) + [DigitChar(n % 10)]
  }

  /** `int()` reads back the number a decimal rendering shows. */
  lemma {:induction false} ParseShowNat(n: nat)
    ensures ParseInt(ShowNat(n)) == Some(n)
  {
    var s := ShowNat(n);
    StripNoSpace(s);
    assert !IsSpace(s[0]) && !IsSpace(s[|s| - 1]);
    assert WellFormedDigits(s);
    DigitsValueOfShowNat(n);
  }

  lemma {:induction false} DigitsValueOfShowNat(n: nat)
    ensures DigitsValue(ShowNat(n)) == n
  {
    if n >= 10 {
      DigitsValueOfShowNat(n / 10);
      var s := ShowNat(n);
      assert s[..|s| - 1] == ShowNat(n / 10);
    }
  }
}
