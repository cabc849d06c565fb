/** Decimal digit strings: their value, their printing, and the first run of
    digits in a string (what `re.findall(r'\d+', s)[0]` returns). */
module Numerals {

  predicate IsDigit(c: char) {
    '0' <= c <= '9'
  }

  predicate AllDigits(s: string) {
    forall k :: 0 <= k < |s| ==> IsDigit(s[k])
  }

  predicate NoDigits(s: string) {
    forall k :: 0 <= k < |s| ==> !IsDigit(s[k])
  }

  function DigitValue(c: char): nat
    requires IsDigit(c)
  {
    c as int - '0' as int
  }

  function DigitChar(d: nat): (c: char)
    requires d < 10
    ensures IsDigit(c) && DigitValue(c) == d
  {
    ('0' as int + d) as char
  }

  /** The value of a decimal numeral, as Python's `int()` reads it. */
  function DigitsValue(s: string): nat
    requires AllDigits(s)
  {
    if |s| == 0 then 0 else 10 * DigitsValue(s[..|s| - 1]) + DigitValue(s[|s| - 1])
  }

  function Pow10(n: nat): (r: nat)
    ensures r >= 1
  {
    if n == 0 then 1 else 10 * Pow10(n - 1)
  }

  /** The decimal numeral of `n`, as Python's `str()` prints it. */
  function Show(n: nat): (s: string)
    ensures |s| > 0 && AllDigits(s)
  {
    if n < 10 then [DigitChar(n)] else Show(n / 10) + [DigitChar(n % 10)]
  }

  /** Printing and reading a numeral are inverse. */
  lemma {:induction false} ShowRoundTrip(n: nat)
    ensures DigitsValue(Show(n)) == n
  {
    if n >= 10 {
      var s := Show(n);
      assert s[..|s| - 1] == Show(n / 10);
      ShowRoundTrip(n / 10);
    }
  }

  /** The number of digits `s` starts with. */
  function DigitRunLength(s: string): (n: nat)
    ensures n <= |s| && AllDigits(s[..n])
    ensures n == |s| || !IsDigit(s[n])
  {
    if |s| == 0 || !IsDigit(s[0]) then 0
    else
      var m := DigitRunLength(s[1..]);
      assert forall k :: 0 < k < m + 1 ==> s[k] == s[1..][k - 1];
      m + 1
  }

  /** The longest prefix of `s` made of digits. */
  function LeadingDigits(s: string): (r: string)
    ensures |r| <= |s| && r == s[..|r|] && AllDigits(r)
    ensures |r| == |s| || !IsDigit(s[|r|])
  {
    s[..DigitRunLength(s)]
  }

  /** The position of the first digit of `s`; `|s|` when there is none. */
  function DigitStart(s: string): (p: nat)
    ensures p <= |s| && NoDigits(s[..p])
    ensures p == |s| || IsDigit(s[p])
  {
    if |s| == 0 || IsDigit(s[0]) then 0
    else
      var m := DigitStart(s[1..]);
      assert forall k :: 0 < k < m + 1 ==> s[k] == s[1..][k - 1];
      m + 1
  }

  /** The first maximal run of digits in `s`, empty when `s` has no digit. */
  function FirstDigitRun(s: string): string {
    LeadingDigits(s[DigitStart(s)..])
  }

  /** The first digit run is the digits between a digit-free prefix and a
      position that is not a digit; it is empty exactly when `s` has no digit. */
  lemma FirstDigitRunSpec(s: string)
    ensures |FirstDigitRun(s)| == 0 <==> NoDigits(s)
    ensures var p := DigitStart(s); var q := p + |FirstDigitRun(s)|;
      && q <= |s| && NoDigits(s[..p]) && FirstDigitRun(s) == s[p..q]
      && (q == |s| || !IsDigit(s[q]))
  {
    var p := DigitStart(s);
    var n := DigitRunLength(s[p..]);
    assert p == |s| ==> s[..p] == s;
    assert p < |s| ==> s[p..][0] == s[p];
    assert s[p..][..n] == s[p..p + n];
    assert p + n < |s| ==> s[p + n] == s[p..][n];
  }

  /** A numeral followed by text that does not start with a digit: its first
      digit run is that numeral. */
  lemma FirstDigitRunOfNumeral(d: string, u: string)
    requires |d| > 0 && AllDigits(d) && (|u| == 0 || !IsDigit(u[0]))
    ensures FirstDigitRun(d + u) == d
  {
    assert IsDigit((d + u)[0]);
    assert (d + u)[0..] == d + u;
    LeadingDigitsOfNumeral(d, u);
  }

  lemma LeadingDigitsOfNumeral(d: string, u: string)
    requires AllDigits(d) && (|u| == 0 || !IsDigit(u[0]))
    ensures LeadingDigits(d + u) == d
  {
    DigitRunOfNumeral(d, u);
    assert (d + u)[..|d|] == d;
  }

  lemma {:induction false} DigitRunOfNumeral(d: string, u: string)
    requires AllDigits(d) && (|u| == 0 || !IsDigit(u[0]))
    ensures DigitRunLength(d + u) == |d|
  {
    if |d| > 0 {
      assert (d + u)[1..] == d[1..] + u;
      DigitRunOfNumeral(d[1..], u);
    }
  }

  /** Leading text without digits is skipped entirely. */
  lemma {:induction false} DigitStartAfter(a: string, b: string)
    requires NoDigits(a) && (|b| == 0 || IsDigit(b[0]))
    ensures DigitStart(a + b) == |a|
  {
    if |a| > 0 {
      assert (a + b)[1..] == a[1..] + b;
      DigitStartAfter(a[1..], b);
    }
  }

  /** `s[p..q]` is the first maximal run of digits in `s`. */
  predicate FirstRunAt(s: string, p: nat, q: nat) {
    && p < q <= |s|
    && NoDigits(s[..p]) && AllDigits(s[p..q])
    && (q == |s| || !IsDigit(s[q]))
  }

  /** A string with a digit has its first run where FirstDigitRun finds it. */
  lemma FirstDigitRunAt(s: string)
    requires !NoDigits(s)
    ensures var p := DigitStart(s);
      FirstRunAt(s, p, p + |FirstDigitRun(s)|) && FirstDigitRun(s) == s[p..p + |FirstDigitRun(s)|]
  {
    FirstDigitRunSpec(s);
  }
}
