/**
 * The integer parsing the proposal form relies on: Go's `strconv.Atoi` on a
 * 64-bit platform. An optional '+' or '-', then one or more ASCII digits,
 * and a value that fits a signed 64-bit integer; anything else is an error.
 * `FormatInt` is the decimal rendering that parsing inverts.
 */
module Decimal {
  import opened Wrappers

  const MinInt64: int := -0x8000_0000_0000_0000
  const MaxInt64: int := 0x7FFF_FFFF_FFFF_FFFF

  predicate IsDigit(ch: char) { '0' <= ch <= '9' }

  predicate AllDigits(s: string) { forall k :: 0 <= k < |s| ==> IsDigit(s[k]) }

  function DigitValue(ch: char): (d: nat)
    requires IsDigit(ch)
    ensures d < 10
  {
    ch as int - '0' as int
  }

  function DigitChar(d: nat): (ch: char)
    requires d < 10
    ensures IsDigit(ch) && DigitValue(ch) == d
  {
    ('0' as int + d) as char
  }

  /** The value of a run of decimal digits, most significant first. */
  function DigitsValue(s: string): nat
    requires AllDigits(s)
  {
    if s == [] then 0 else DigitsValue(s[..|s| - 1]) * 10 + DigitValue(s[|s| - 1])
  }

  /** `strconv.Atoi`: `None` stands for both its syntax error and its range error. */
  function ParseInt(s: string): (r: Option<int>)
    ensures r.Some? ==> MinInt64 <= r.value <= MaxInt64
    ensures r.Some? ==> |s| > 0
  {
    if |s| == 0 then None
    else
      var digits := if s[0] == '+' || s[0] == '-' then s[1..] else s;
      if |digits| == 0 || !AllDigits(digits) then None
      else
        var v: int := if s[0] == '-' then -(DigitsValue(digits) as int) else DigitsValue(digits);
        if MinInt64 <= v <= MaxInt64 then Some(v) else None
  }

  /** Decimal digits of a natural number, without leading zeros. */
  function FormatNat(n: nat): (s: string)
    ensures |s| > 0 && AllDigits(s)
    ensures DigitsValue(s) == n
    ensures |s| > 1 ==> s[0] != '0'
  {
    if n < 10 then [DigitChar(n)]
    else
      var prefix := FormatNat(n / 10);
      var s := prefix + [DigitChar(n % 10)];
      assert s[..|s| - 1] == prefix;
      s
  }

  /** The decimal form that `ParseInt` inverts: a '-' for negative numbers, then the digits. */
  function FormatInt(n: int): (s: string)
    ensures |s| > 0
    ensures n >= 0 <==> IsDigit(s[0])
  {
    if n < 0 then "-" + FormatNat(-n) else FormatNat(n)
  }

  /** Every 64-bit integer survives a round trip through its decimal form. */
  lemma ParseFormatRoundTrip(n: int)
    requires MinInt64 <= n <= MaxInt64
    ensures ParseInt(FormatInt(n)) == Some(n)
  {
  }

  /** Any unit that is not a digit after the optional sign is rejected. */
  lemma ParseIntRejects(s: string, k: nat)
    requires k < |s|
    requires !IsDigit(s[k]) && (k == 0 ==> s[0] != '+' && s[0] != '-')
    ensures ParseInt(s) == None
  {
  }

  /** A sign alone, with no digits after it, is rejected. */
  lemma ParseIntSignOnly(s: string)
    requires s == "+" || s == "-"
    ensures ParseInt(s) == None
  {
  }

  /** A single digit parses to its own value: the category field "0" to "9". */
  lemma ParseSingleDigit(d: nat)
    requires d < 10
    ensures ParseInt([DigitChar(d)]) == Some(d)
  {
    var s := [DigitChar(d)];
    assert s[0] != '+' && s[0] != '-';
    assert s[..0] == [];
    assert DigitsValue(s) == d;
  }

  /** Leading zeros are accepted and do not change the value. */
  lemma {:induction false} LeadingZeroIgnored(s: string)
    requires |s| > 0 && AllDigits(s)
    ensures AllDigits("0" + s) && DigitsValue("0" + s) == DigitsValue(s)
  {
    var t := "0" + s;
    assert t[..|t| - 1] == "0" + s[..|s| - 1];
    if |s| > 1 {
      LeadingZeroIgnored(s[..|s| - 1]);
    } else {
      assert t[..|t| - 1] == "0";
      assert "0"[..0] == [];
    }
  }

  /** `strconv.Atoi` accepts leading zeros: "02" parses as "2" does. */
  lemma ParseIntLeadingZero(s: string)
    requires |s| > 0 && AllDigits(s)
    ensures ParseInt("0" + s) == ParseInt(s)
  {
    LeadingZeroIgnored(s);
  }

  /** `strconv.Atoi` accepts an explicit '+': "+2" parses as "2" does. */
  lemma ParseIntPlusSign(s: string)
    requires |s| > 0 && AllDigits(s)
    ensures ParseInt("+" + s) == ParseInt(s)
  {
    assert ("+" + s)[1..] == s;
  }

  /** A minus sign negates a digit run, leading zeros and all, down to the int64 minimum; "-0" is zero. */
  lemma ParseIntMinusSign(s: string)
    requires |s| > 0 && AllDigits(s)
    ensures ParseInt("-" + s) == if DigitsValue(s) <= -MinInt64 then Some(-(DigitsValue(s) as int)) else None
  {
    var t := "-" + s;
    assert t[0] == '-' && t[1..] == s;
    var v: int := -(DigitsValue(s) as int);
    assert v <= MaxInt64;
    assert MinInt64 <= v <==> DigitsValue(s) <= -MinInt64;
  }

  /** A digit run whose value does not fit a signed 64-bit integer is a range error. */
  lemma ParseIntOutOfRange(s: string)
    requires |s| > 0 && AllDigits(s) && DigitsValue(s) > MaxInt64
    ensures ParseInt(s) == None
  {
  }
}
