/** Decoding of the condition strings that label the `time` and `dosage`
    columns (parse_time_string and parse_measurement_string of
    UIFunctions.py), into numbers that can be compared. */
module Parsing {
  import opened Exceptions
  import opened Numerals

  /* ----- time: "24hr", "30min" ----- */

  /** "hr" starts at position `i` of `s`. */
  predicate HrAt(s: string, i: nat) {
    i + 1 < |s| && s[i] == 'h' && s[i + 1] == 'r'
  }

  /** "hr" occurs somewhere in `s`. */
  predicate ContainsHr(s: string) {
    exists i: nat :: i < |s| && HrAt(s, i)
  }

  /** Left-to-right search for "hr", as Python's `in` on strings does it. */
  function HasHr(s: string): (b: bool)
    ensures b <==> ContainsHr(s)
  {
    if |s| < 2 then false
    else if s[0] == 'h' && s[1] == 'r' then assert HrAt(s, 0); true
    else
      var b := HasHr(s[1..]);
      assert ContainsHr(s[1..]) ==> ContainsHr(s) by {
        if ContainsHr(s[1..]) {
          var i: nat :| i < |s[1..]| && HrAt(s[1..], i);
          assert HrAt(s, i + 1);
        }
      }
      assert ContainsHr(s) ==> ContainsHr(s[1..]) by {
        if ContainsHr(s) {
          var i: nat :| i < |s| && HrAt(s, i);
          assert i > 0 && HrAt(s[1..], i - 1);
        }
      }
      b
  }

  /** parse_time_string: the first run of digits, read as an integer, in
      minutes; times 60 when the string mentions hours. A string without any
      digit fails: index 0 of an empty match list is an IndexError. */
  function ParseTime(s: string): (r: Result<int>)
    ensures r.Ok? <==> !NoDigits(s)
    ensures r.Err? ==> r.error == IndexError
    ensures r.Ok? ==> r.value >= 0
    ensures r.Ok? ==> exists p: nat, q: nat :: FirstRunAt(s, p, q)
                        && r.value == (if ContainsHr(s) then 60 * DigitsValue(s[p..q]) else DigitsValue(s[p..q]))
  {
    var run := FirstDigitRun(s);
    FirstDigitRunSpec(s);
    if |run| == 0 then Err(IndexError)
    else
      FirstDigitRunAt(s);
      var value := DigitsValue(run);
      Ok(if HasHr(s) then 60 * value else value)
  }

  /** Printing a number of hours or minutes and parsing it back gives the
      number of minutes. */
  lemma TimeRoundTrip(n: nat)
    ensures ParseTime(Show(n) + "hr") == Ok(60 * n)
    ensures ParseTime(Show(n) + "min") == Ok(n)
  {
    var hr := Show(n) + "hr";
    FirstDigitRunOfNumeral(Show(n), "hr");
    assert HrAt(hr, |Show(n)|);
    var mins := Show(n) + "min";
    FirstDigitRunOfNumeral(Show(n), "min");
    assert !ContainsHr(mins);
    ShowRoundTrip(n);
  }

  /** "24hr" is a day in minutes. */
  lemma DayInMinutes()
    ensures ParseTime("24hr") == Ok(1440)
  {
    assert Show(24) + "hr" == "24hr";
    TimeRoundTrip(24);
  }

  /** "30min" is thirty minutes. */
  lemma HalfHourInMinutes()
    ensures ParseTime("30min") == Ok(30)
  {
    assert Show(30) + "min" == "30min";
    TimeRoundTrip(30);
  }

  /* ----- concentration: "40nM", "1.5uM", "-0-" ----- */

  /** The sentinel the loader writes for a missing dosage. */
  const NoDosage := "-0-"

  /** The conversion table: the magnitude of one unit. */
  const Units: map<string, real> :=
    map["nM" := 0.000000001, "uM" := 0.000001, "mM" := 0.001, "ug/ml" := 1.0]

  /** `units.get(unit, 0)`: an unknown unit scales everything to 0. */
  function Multiplier(unit: string): real {
    if unit in Units then Units[unit] else 0.0
  }

  /** The character class `[\d.-]` of the value group. */
  predicate InNumeralClass(c: char) {
    IsDigit(c) || c == '.' || c == '-'
  }

  predicate NoNumeralChar(s: string) {
    forall k :: 0 <= k < |s| ==> !InNumeralClass(s[k])
  }

  /** The position of the first character of `s` in `[\d.-]`; `|s|` when
      there is none. */
  function NumeralStart(s: string): (p: nat)
    ensures p <= |s| && NoNumeralChar(s[..p])
    ensures p == |s| || InNumeralClass(s[p])
  {
    if |s| == 0 || InNumeralClass(s[0]) then 0
    else
      var m := NumeralStart(s[1..]);
      assert forall k :: 0 < k < m + 1 ==> s[k] == s[1..][k - 1];
      m + 1
  }

  /** The length of the longest prefix of `s` inside `[\d.-]`. */
  function NumeralLength(s: string): (n: nat)
    ensures n <= |s| && forall k :: 0 <= k < n ==> InNumeralClass(s[k])
    ensures n == |s| || !InNumeralClass(s[n])
  {
    if |s| == 0 || !InNumeralClass(s[0]) then 0
    else
      var m := NumeralLength(s[1..]);
      assert forall k :: 0 < k < m + 1 ==> s[k] == s[1..][k - 1];
      m + 1
  }

  /** The length of the longest prefix of `s` without digits: the `\D*`
      group. */
  function UnitLength(s: string): (n: nat)
    ensures n <= |s| && NoDigits(s[..n])
    ensures n == |s| || IsDigit(s[n])
  {
    if |s| == 0 || IsDigit(s[0]) then 0
    else
      var m := UnitLength(s[1..]);
      assert forall k :: 0 < k < m + 1 ==> s[k] == s[1..][k - 1];
      m + 1
  }

  /** The characters Python's `str.isspace` accepts. */
  const Spaces: set<char> :=
    {' ', '\t', '\n', '\U{b}', '\U{c}', '\r', '\U{1c}', '\U{1d}', '\U{1e}', '\U{1f}',
     '\U{85}', '\U{a0}', '\U{1680}',
     '\U{2000}', '\U{2001}', '\U{2002}', '\U{2003}', '\U{2004}', '\U{2005}',
     '\U{2006}', '\U{2007}', '\U{2008}', '\U{2009}', '\U{200a}',
     '\U{2028}', '\U{2029}', '\U{202f}', '\U{205f}', '\U{3000}'}

  predicate IsSpace(c: char) {
    c in Spaces
  }

  predicate AllSpace(s: string) {
    forall k :: 0 <= k < |s| ==> IsSpace(s[k])
  }

  /** The number of white-space characters `s` starts with. */
  function LeadingSpaces(s: string): (n: nat)
    ensures n <= |s| && AllSpace(s[..n])
    ensures n == |s| || !IsSpace(s[n])
  {
    if |s| == 0 || !IsSpace(s[0]) then 0
    else
      var m := LeadingSpaces(s[1..]);
      assert forall k :: 0 < k < m + 1 ==> s[k] == s[1..][k - 1];
      m + 1
  }

  /** The number of white-space characters `s` ends with. */
  function TrailingSpaces(s: string): (n: nat)
    ensures n <= |s| && AllSpace(s[|s| - n..])
    ensures n == |s| || !IsSpace(s[|s| - n - 1])
  {
    if |s| == 0 || !IsSpace(s[|s| - 1]) then 0
    else
      var m := TrailingSpaces(s[..|s| - 1]);
      assert forall k :: |s| - m - 1 <= k < |s| - 1 ==> s[k] == s[..|s| - 1][k];
      m + 1
  }

  /** `r` is `s[a..b]`, and only white space lies outside it. */
  predicate SpaceAround(s: string, r: string, a: nat, b: nat) {
    a <= b <= |s| && r == s[a..b] && AllSpace(s[..a]) && AllSpace(s[b..])
  }

  /** `str.strip()`: the text between the leading and the trailing white
      space, which is removed. */
  function Strip(s: string): (r: string)
    ensures exists a: nat, b: nat :: SpaceAround(s, r, a, b)
    ensures |r| == 0 || (!IsSpace(r[0]) && !IsSpace(r[|r| - 1]))
  {
    var a := LeadingSpaces(s);
    var b := |s| - TrailingSpaces(s[a..]);
    assert s[b..] == s[a..][b - a..];
    assert SpaceAround(s, s[a..b], a, b);
    s[a..b]
  }

  /** Text that neither starts nor ends with white space is its own strip. */
  lemma StripUnpadded(s: string)
    requires |s| > 0 && !IsSpace(s[0]) && !IsSpace(s[|s| - 1])
    ensures Strip(s) == s
  {
  }

  /** The numerals Python's `float()` accepts among strings over `[\d.-]`:
      an optional minus, then digits with at most one point and at least
      one digit. */
  predicate IsFloatNumeral(s: string) {
    exists k: nat :: k <= |s| && NumeralShapeAt(Unsigned(s), k)
  }

  /** `s` without its leading minus sign, if any. */
  function Unsigned(s: string): string {
    if |s| > 0 && s[0] == '-' then s[1..] else s
  }

  /** `b` is `k` digits, then either nothing or a point and more digits,
      with at least one digit in all. */
  predicate NumeralShapeAt(b: string, k: nat) {
    && k <= |b| && AllDigits(b[..k])
    && ((k == |b| && k > 0) || (k < |b| && b[k] == '.' && AllDigits(b[k + 1..]) && |b| > 1))
  }

  function Fraction(ds: string): real
    requires AllDigits(ds)
  {
    DigitsValue(ds) as real / Pow10(|ds|) as real
  }

  /** The digits of a numeral are exactly its longest digit prefix. */
  lemma LeadingDigitsAt(b: string, k: nat)
    requires k <= |b| && AllDigits(b[..k]) && (k == |b| || !IsDigit(b[k]))
    ensures |LeadingDigits(b)| == k
  {
  }

  /** float() of a numeral over `[\d.-]`; anything else is a ValueError. */
  function ToFloat(s: string): (r: Result<real>)
    ensures r.Ok? <==> IsFloatNumeral(s)
    ensures r.Err? ==> r.error == ValueError
  {
    var b := Unsigned(s);
    var whole := LeadingDigits(b);
    var rest := b[|whole|..];
    var sign := if |s| > 0 && s[0] == '-' then -1.0 else 1.0;
    assert IsFloatNumeral(s) ==> NumeralShapeAt(b, |whole|) by {
      if IsFloatNumeral(s) {
        var k: nat :| k <= |s| && NumeralShapeAt(b, k);
        LeadingDigitsAt(b, k);
      }
    }
    if |rest| == 0 && |whole| > 0 then
      assert NumeralShapeAt(b, |whole|);
      Ok(sign * DigitsValue(whole) as real)
    else if |rest| > 0 && rest[0] == '.' && AllDigits(rest[1..]) && |b| > 1 then
      assert b[|whole|] == rest[0] && b[|whole| + 1..] == rest[1..];
      assert NumeralShapeAt(b, |whole|);
      Ok(sign * (DigitsValue(whole) as real + Fraction(rest[1..])))
    else Err(ValueError)
  }

  /** float() reads back a printed whole number. */
  lemma FloatOfWhole(n: nat)
    ensures ToFloat(Show(n)) == Ok(n as real)
  {
    ShowRoundTrip(n);
    LeadingDigitsOfNumeral(Show(n), "");
    assert Show(n) + "" == Show(n);
    assert NumeralShapeAt(Show(n), |Show(n)|);
  }

  /** float() reads back a printed negated whole number. */
  lemma FloatOfNegated(n: nat)
    ensures ToFloat("-" + Show(n)) == Ok(-(n as real))
  {
    var s := "-" + Show(n);
    assert Unsigned(s) == Show(n);
    ShowRoundTrip(n);
    LeadingDigitsOfNumeral(Show(n), "");
    assert Show(n) + "" == Show(n);
    assert NumeralShapeAt(Show(n), |Show(n)|);
  }

  /** float() reads back a printed decimal fraction. */
  lemma FloatOfDecimal(n: nat, ds: string)
    requires AllDigits(ds)
    ensures ToFloat(Show(n) + "." + ds) == Ok(n as real + Fraction(ds))
  {
    var s := Show(n) + ("." + ds);
    assert Show(n) + "." + ds == s;
    assert Unsigned(s) == s;
    ShowRoundTrip(n);
    LeadingDigitsOfNumeral(Show(n), "." + ds);
    assert s[|Show(n)|..] == "." + ds;
    assert ("." + ds)[1..] == ds;
  }

  /** `s[p..q]` is the first match of `[\d.-]+` in `s` and `s[q..w]` the
      `\D*` that follows it: the groups `re.findall(r'([\d.-]+)(\D*)', s)[0]`
      returns. */
  predicate MeasurementTokens(s: string, p: nat, q: nat, w: nat) {
    && p <= |s| && NoNumeralChar(s[..p])
    && NumeralGroupAt(s, p, q)
    && UnitGroupAt(s, q, w)
  }

  /** `s[p..q]` is a maximal nonempty run inside `[\d.-]`. */
  predicate NumeralGroupAt(s: string, p: nat, q: nat) {
    && p < q <= |s|
    && (forall k :: p <= k < q ==> InNumeralClass(s[k]))
    && (q == |s| || !InNumeralClass(s[q]))
  }

  /** `s[q..w]` is a maximal run without digits. */
  predicate UnitGroupAt(s: string, q: nat, w: nat) {
    q <= w <= |s| && NoDigits(s[q..w]) && (w == |s| || IsDigit(s[w]))
  }

  /** A parsed value times a magnitude; a parse error passes through. */
  function Scale(v: Result<real>, m: real): Result<real> {
    if v.Ok? then Ok(v.value * m) else v
  }

  /** Where the `[\d.-]+` group starts. */
  function ValueStart(s: string): nat {
    NumeralStart(s)
  }

  /** Where the `[\d.-]+` group ends and the `\D*` group starts. */
  function ValueEnd(s: string): nat {
    ValueStart(s) + NumeralLength(s[ValueStart(s)..])
  }

  /** Where the `\D*` group ends. */
  function UnitEnd(s: string): nat {
    ValueEnd(s) + UnitLength(s[ValueEnd(s)..])
  }

  /** The three positions delimit the groups `re.findall` returns first. */
  lemma GroupBoundsAreTokens(s: string)
    requires !NoNumeralChar(s)
    ensures MeasurementTokens(s, ValueStart(s), ValueEnd(s), UnitEnd(s))
  {
    StartBound(s);
    NumeralGroup(s, ValueStart(s));
    UnitGroup(s, ValueEnd(s));
  }

  /** A string with a character in `[\d.-]` has its first one before the
      end. */
  lemma StartBound(s: string)
    requires !NoNumeralChar(s)
    ensures NumeralStart(s) < |s|
  {
    assert s[..|s|] == s;
  }

  /** The `[\d.-]+` group starting at `p`. */
  lemma NumeralGroup(s: string, p: nat)
    requires p < |s| && InNumeralClass(s[p])
    ensures NumeralGroupAt(s, p, p + NumeralLength(s[p..]))
  {
    var q := p + NumeralLength(s[p..]);
    assert s[p..][0] == s[p];
    assert forall k :: p <= k < q ==> s[k] == s[p..][k - p];
    assert q < |s| ==> s[q] == s[p..][q - p];
  }

  /** The `\D*` group starting at `q`. */
  lemma UnitGroup(s: string, q: nat)
    requires q <= |s|
    ensures UnitGroupAt(s, q, q + UnitLength(s[q..]))
  {
    var w := q + UnitLength(s[q..]);
    assert s[q..w] == s[q..][..w - q];
    assert w < |s| ==> s[w] == s[q..][w - q];
  }

  /** parse_measurement_string: the sentinel is 0; otherwise the value group
      read by float(), times the magnitude of the stripped unit group. No
      match at all is an IndexError; a malformed value a ValueError. */
  function ParseMeasurement(s: string): (r: Result<real>)
    ensures s == NoDosage ==> r == Ok(0.0)
    ensures s != NoDosage && NoNumeralChar(s) ==> r == Err(IndexError)
    ensures s != NoDosage && !NoNumeralChar(s) ==>
              exists p: nat, q: nat, w: nat :: MeasurementTokens(s, p, q, w)
                && r == Scale(ToFloat(s[p..q]), Multiplier(Strip(s[q..w])))
  {
    if s == NoDosage then Ok(0.0)
    else if NoNumeralChar(s) then Err(IndexError)
    else
      GroupBoundsAreTokens(s);
      Scale(ToFloat(s[ValueStart(s)..ValueEnd(s)]), Multiplier(Strip(s[ValueEnd(s)..UnitEnd(s)])))
  }

  lemma {:induction false} NumeralRunOfNumber(d: string, u: string)
    requires AllDigits(d) && (|u| == 0 || !InNumeralClass(u[0]))
    ensures NumeralLength(d + u) == |d|
  {
    if |d| > 0 {
      assert (d + u)[1..] == d[1..] + u;
      NumeralRunOfNumber(d[1..], u);
    }
  }

  lemma {:induction false} UnitRunOfUnit(u: string)
    requires NoDigits(u)
    ensures UnitLength(u) == |u|
  {
    if |u| > 0 {
      UnitRunOfUnit(u[1..]);
    }
  }

  /** The groups of a numeral followed by a digit-free unit are the
      numeral and the unit. */
  lemma GroupBoundsOfNumber(d: string, u: string)
    requires |d| > 0 && AllDigits(d)
    requires NoDigits(u) && (|u| == 0 || !InNumeralClass(u[0]))
    ensures !NoNumeralChar(d + u)
    ensures ValueStart(d + u) == 0 && ValueEnd(d + u) == |d| && UnitEnd(d + u) == |d + u|
  {
    var s := d + u;
    assert InNumeralClass(s[0]);
    assert NumeralStart(s) == 0;
    assert s[0..] == s;
    NumeralRunOfNumber(d, u);
    assert s[|d|..] == u;
    UnitRunOfUnit(u);
  }

  /** Once the groups are known, the value is read from them. */
  lemma ParseMeasurementOfTokens(s: string, d: string, u: string)
    requires s == d + u && s != NoDosage && !NoNumeralChar(s)
    requires ValueStart(s) == 0 && ValueEnd(s) == |d| && UnitEnd(s) == |s|
    ensures ParseMeasurement(s) == Scale(ToFloat(d), Multiplier(Strip(u)))
  {
    assert s[0..|d|] == d && s[|d|..|s|] == u;
  }

  /** float() reads back a string of digits as its decimal value. */
  lemma FloatOfDigits(d: string)
    requires |d| > 0 && AllDigits(d)
    ensures ToFloat(d) == Ok(DigitsValue(d) as real)
  {
    LeadingDigitsOfNumeral(d, "");
    assert d + "" == d;
    assert NumeralShapeAt(d, |d|);
  }

  /** A whole number followed by a digit-free unit: the number scaled by
      the magnitude of the stripped unit. */
  lemma MeasurementOfDigits(d: string, u: string)
    requires |d| > 0 && AllDigits(d)
    requires NoDigits(u) && (|u| == 0 || !InNumeralClass(u[0]))
    ensures ParseMeasurement(d + u) == Scale(Ok(DigitsValue(d) as real), Multiplier(Strip(u)))
  {
    assert IsDigit((d + u)[0]);
    GroupBoundsOfNumber(d, u);
    ParseMeasurementOfTokens(d + u, d, u);
    FloatOfDigits(d);
  }

  /** Each unit of the table, padded or not, scales the number by its
      magnitude. */
  lemma KnownUnit(d: string, u: string)
    requires |d| > 0 && AllDigits(d)
    requires NoDigits(u) && (|u| == 0 || !InNumeralClass(u[0])) && Strip(u) in Units
    ensures ParseMeasurement(d + u) == Scale(Ok(DigitsValue(d) as real), Units[Strip(u)])
  {
    MeasurementOfDigits(d, u);
  }

  /** A unit outside the table gives 0 rather than an error. */
  lemma UnknownUnitIsZero(d: string, u: string)
    requires |d| > 0 && AllDigits(d)
    requires NoDigits(u) && (|u| == 0 || !InNumeralClass(u[0])) && Strip(u) !in Units
    ensures ParseMeasurement(d + u) == Ok(0.0)
  {
    MeasurementOfDigits(d, u);
  }

  /** "nm" is a digit-free unit outside the table. */
  lemma LowercaseNanomolarShape()
    ensures NoDigits("nm") && !InNumeralClass("nm"[0]) && "nm" !in Units
  {
  }

  lemma LowercaseNanomolarUnpadded()
    ensures Strip("nm") == "nm"
  {
    StripUnpadded("nm");
  }

  /** Unit names are case sensitive: "nm" is not "nM", so the value is 0. */
  lemma LowercaseUnitIsZero(d: string)
    requires |d| > 0 && AllDigits(d)
    ensures ParseMeasurement(d + "nm") == Ok(0.0)
  {
    LowercaseNanomolarShape();
    LowercaseNanomolarUnpadded();
    UnknownUnitIsZero(d, "nm");
  }
}
