/** The pieces of the Java library that the delay-field responders lean on:
    `String.strip` and `String.stripLeading` (trimming by
    `Character.isWhitespace`), `Integer.parseInt` on base-10 text, and
    `String.valueOf` on a non-negative `int`, which produces the text a delay
    field is filled with when its row is built. */
module JavaText {
  import opened Results

  const INT_MIN: int := -0x8000_0000
  const INT_MAX: int := 0x7FFF_FFFF

  /** `Character.isWhitespace`: the ASCII controls 9-13 and 28-31, the space,
      and the Unicode space, line and paragraph separators except the three
      non-breaking ones (U+00A0, U+2007, U+202F). */
  function IsWhitespace(c: char): (ws: bool)
    ensures c == ' ' || c == '\t' || c == '\n' ==> ws
    ensures c == '\U{A0}' || c == '\U{2007}' || c == '\U{202F}' ==> !ws
    ensures '0' <= c <= '9' || c == '+' || c == '-' ==> !ws
  {
    || ('\U{9}' <= c <= '\U{D}')
    || ('\U{1C}' <= c <= '\U{20}')
    || c == '\U{1680}'
    || ('\U{2000}' <= c <= '\U{2006}')
    || ('\U{2008}' <= c <= '\U{200A}')
    || c == '\U{2028}' || c == '\U{2029}' || c == '\U{205F}' || c == '\U{3000}'
  }

  predicate AllWhitespace(s: string) {
    forall i :: 0 <= i < |s| ==> IsWhitespace(s[i])
  }

  /** `String.stripLeading`: the text from its first non-whitespace
      character on. */
  function StripLeading(s: string): (r: string)
    ensures |r| <= |s|
    ensures r == [] || !IsWhitespace(r[0])
  {
    if s == [] || !IsWhitespace(s[0]) then s else StripLeading(s[1..])
  }

  /** `stripLeading` only cuts whitespace, and only from the front: what it
      returns is a suffix of its input, and everything before that suffix
      is whitespace. */
  lemma {:induction false} StripLeadingCutsWhitespacePrefix(s: string)
    ensures var r := StripLeading(s);
            && r == s[|s| - |r|..]
            && AllWhitespace(s[..|s| - |r|])
  {
    if s != [] && IsWhitespace(s[0]) {
      StripLeadingCutsWhitespacePrefix(s[1..]);
      var r := StripLeading(s);
      assert s[..|s| - |r|] == [s[0]] + s[1..][..|s| - 1 - |r|];
    }
  }

  /** `String.stripTrailing`, the other half of `String.strip`. */
  function StripTrailing(s: string): (r: string)
    ensures |r| <= |s|
    ensures r == [] || !IsWhitespace(r[|r| - 1])
  {
    if s == [] || !IsWhitespace(s[|s| - 1]) then s else StripTrailing(s[..|s| - 1])
  }

  /** `stripTrailing` only cuts whitespace, and only from the back. */
  lemma {:induction false} StripTrailingCutsWhitespaceSuffix(s: string)
    ensures var r := StripTrailing(s);
            && r == s[..|r|]
            && AllWhitespace(s[|r|..])
  {
    if s != [] && IsWhitespace(s[|s| - 1]) {
      StripTrailingCutsWhitespaceSuffix(s[..|s| - 1]);
      var r := StripTrailing(s);
      assert s[|r|..] == s[..|s| - 1][|r|..] + [s[|s| - 1]];
    }
  }

  /** `String.strip`: whitespace removed from both ends. */
  function Strip(s: string): (r: string)
    ensures |r| <= |s|
    ensures r == [] || (!IsWhitespace(r[0]) && !IsWhitespace(r[|r| - 1]))
  {
    StripTrailingCutsWhitespaceSuffix(StripLeading(s));
    StripTrailing(StripLeading(s))
  }

  lemma {:induction false} StripLeadingSkips(ws: string, u: string)
    requires AllWhitespace(ws)
    requires u == [] || !IsWhitespace(u[0])
    ensures StripLeading(ws + u) == u
  {
    if ws == [] {
      assert ws + u == u;
    } else {
      assert (ws + u)[1..] == ws[1..] + u;
      StripLeadingSkips(ws[1..], u);
    }
  }

  lemma {:induction false} StripTrailingSkips(u: string, ws: string)
    requires AllWhitespace(ws)
    requires u == [] || !IsWhitespace(u[|u| - 1])
    ensures StripTrailing(u + ws) == u
  {
    if ws == [] {
      assert u + ws == u;
    } else {
      var n := |u + ws|;
      assert (u + ws)[..n - 1] == u + ws[..|ws| - 1];
      StripTrailingSkips(u, ws[..|ws| - 1]);
    }
  }

  /** `strip` removes exactly the surrounding whitespace: padding a text that
      neither starts nor ends with whitespace and stripping gives the text
      back. */
  lemma StripPadded(ws1: string, t: string, ws2: string)
    requires AllWhitespace(ws1) && AllWhitespace(ws2)
    requires t == [] || (!IsWhitespace(t[0]) && !IsWhitespace(t[|t| - 1]))
    ensures Strip(ws1 + t + ws2) == t
  {
    if t == [] {
      assert ws1 + t + ws2 == (ws1 + ws2) + [];
      StripLeadingSkips(ws1 + ws2, []);
    } else {
      assert ws1 + t + ws2 == ws1 + (t + ws2);
      StripLeadingSkips(ws1, t + ws2);
      StripTrailingSkips(t, ws2);
    }
  }

  predicate IsDigit(c: char) {
    '0' <= c <= '9'
  }

  predicate AllDigits(s: string) {
    forall i :: 0 <= i < |s| ==> IsDigit(s[i])
  }

  /** The base-10 value of a string of ASCII digits, most significant first. */
  function DigitsValue(d: string): nat
    requires AllDigits(d)
  {
    if d == [] then 0
    else 10 * DigitsValue(d[..|d| - 1]) + (d[|d| - 1] as int - '0' as int)
  }

  /** The text after an optional leading sign. */
  function Unsigned(t: string): string {
    if |t| > 0 && (t[0] == '+' || t[0] == '-') then t[1..] else t
  }

  /** What `Integer.parseInt` accepts before its range check: an optional
      `+` or `-`, then one or more digits, nothing else. */
  predicate WellFormedInt(t: string) {
    |Unsigned(t)| > 0 && AllDigits(Unsigned(t))
  }

  function SignedValue(t: string): int
    requires WellFormedInt(t)
  {
    if t[0] == '-' then -(DigitsValue(Unsigned(t)) as int) else DigitsValue(Unsigned(t))
  }

  /** `Integer.parseInt(t)`: `None` stands for the `NumberFormatException` it
      throws on malformed text and on values outside the 32-bit range. */
  function ParseInt(t: string): (r: Option<int>)
    ensures r.Some? ==> WellFormedInt(t) && r.value == SignedValue(t) && INT_MIN <= r.value <= INT_MAX
    ensures WellFormedInt(t) && INT_MIN <= SignedValue(t) <= INT_MAX ==> r.Some?
    ensures |t| == 0 || t == "+" || t == "-" ==> r.None?
  {
    if WellFormedInt(t) && INT_MIN <= SignedValue(t) <= INT_MAX
    then Some(SignedValue(t))
    else None
  }

  function Pow10(k: nat): (p: nat)
    ensures p >= 1
  {
    if k == 0 then 1 else 10 * Pow10(k - 1)
  }

  lemma {:induction false} DigitsValueBound(d: string)
    requires AllDigits(d)
    ensures DigitsValue(d) < Pow10(|d|)
  {
    if d != [] {
      DigitsValueBound(d[..|d| - 1]);
    }
  }

  /** An edit box limited to 8 characters cannot hold a number that
      overflows: on such text `parseInt` fails only when the text is
      malformed. */
  lemma ShortTextNeverOverflows(t: string)
    requires |t| <= 8
    ensures ParseInt(t).Some? <==> WellFormedInt(t)
    ensures WellFormedInt(t) ==> ParseInt(t) == Some(SignedValue(t))
  {
    if WellFormedInt(t) {
      DigitsValueBound(Unsigned(t));
      assert Pow10(8) == 100_000_000;
      assert Pow10(|Unsigned(t)|) <= Pow10(8) by { Pow10Monotone(|Unsigned(t)|, 8); }
    }
  }

  lemma {:induction false} Pow10Monotone(a: nat, b: nat)
    requires a <= b
    ensures Pow10(a) <= Pow10(b)
  {
    if a < b {
      Pow10Monotone(a, b - 1);
    }
  }

  function DigitChar(d: nat): (c: char)
    requires d < 10
    ensures IsDigit(c)
  {
    ('0' as int + d) as char
  }

  /** `String.valueOf` on a non-negative int: its decimal digits, without
      sign or leading zeros. */
  function DecimalString(n: nat): (s: string)
    ensures |s| > 0 && AllDigits(s)
    ensures |s| > 1 ==> s[0] != '0'
  {
    if n < 10 then [DigitChar(n)] else DecimalString(n / 10) + [DigitChar(n % 10)]
  }

  lemma {:induction false} DecimalStringValue(n: nat)
    ensures DigitsValue(DecimalString(n)) == n
  {
    if n >= 10 {
      var s := DecimalString(n);
      assert s[..|s| - 1] == DecimalString(n / 10);
      DecimalStringValue(n / 10);
    }
  }

  lemma {:induction false} DecimalStringLength(n: nat, k: nat)
    requires 1 <= k && n < Pow10(k)
    ensures |DecimalString(n)| <= k
  {
    if n >= 10 {
      DecimalStringLength(n / 10, k - 1);
    }
  }

  /** `Integer.parseInt(String.valueOf(n)) == n` for every non-negative int. */
  lemma ParseDecimalRoundTrip(n: nat)
    requires n <= INT_MAX
    ensures ParseInt(DecimalString(n)) == Some(n)
  {
    var s := DecimalString(n);
    assert Unsigned(s) == s by { assert IsDigit(s[0]); }
    DecimalStringValue(n);
  }

  /** Strip and parse never see whitespace in a decimal rendering. */
  lemma DecimalStringIsStripped(n: nat)
    ensures Strip(DecimalString(n)) == DecimalString(n)
  {
    var s := DecimalString(n);
    assert !IsWhitespace(s[0]) && !IsWhitespace(s[|s| - 1]) by {
      assert IsDigit(s[0]) && IsDigit(s[|s| - 1]);
    }
    assert [] + s + [] == s;
    StripPadded([], s, []);
  }
}
