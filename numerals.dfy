/**
 * Decimal numerals as the modelled code reads and writes them: Python's `int(text)` on an
 * optional sign followed by ASCII digits, and `str(n)` for an integer.
 */
module Numerals {
  import opened Wrappers

  predicate IsDigit(c: char) {
    '0' <= c <= '9'
  }

  predicate AllDigits(s: string) {
    forall i :: 0 <= i < |s| ==> IsDigit(s[i])
  }

  /** The value of a digit string, most significant digit first. */
  function DigitsValue(s: string): nat
    requires AllDigits(s)
  {
    if s == [] then 0 else DigitsValue(s[..|s| - 1]) * 10 + (s[|s| - 1] as int - '0' as int)
  }

  /** `"0" * n`. */
  function Zeros(n: nat): (r: string)
    ensures |r| == n && AllDigits(r)
    ensures n > 0 ==> r[0] == '0'
  {
    if n == 0 then [] else Zeros(n - 1) + "0"
  }

  /** A sign character as `int` accepts it in front of the digits. */
  predicate IsSign(c: char) {
    c == '+' || c == '-'
  }

  /** `int(s)` for a string without surrounding blanks: None where Python raises ValueError. */
  function ParseInt(s: string): (r: Option<int>)
    ensures r.Some? <==> (|s| > 0 && (if IsSign(s[0]) then |s| > 1 && AllDigits(s[1..]) else AllDigits(s)))
    ensures r.Some? && IsSign(s[0]) ==> r.value == (if s[0] == '-' then -(DigitsValue(s[1..]) as int) else DigitsValue(s[1..]) as int)
    ensures r.Some? && !IsSign(s[0]) ==> r.value == DigitsValue(s)
  {
    if s == [] then None
    else if IsSign(s[0]) then
      if |s| > 1 && AllDigits(s[1..]) then
        Some(if s[0] == '-' then -(DigitsValue(s[1..]) as int) else DigitsValue(s[1..]) as int)
      else None
    else if AllDigits(s) then Some(DigitsValue(s))
    else None
  }

  /** `int` of a sign followed by digits. */
  lemma ParseSigned(sign: char, digits: string)
    requires IsSign(sign) && digits != [] && AllDigits(digits)
    ensures ParseInt([sign] + digits) == Some(if sign == '-' then -(DigitsValue(digits) as int) else DigitsValue(digits) as int)
  {
    var s := [sign] + digits;
    assert s[0] == sign && s[1..] == digits;
  }

  function DigitChar(d: nat): (c: char)
    requires d < 10
    ensures IsDigit(c) && c as int - '0' as int == d
  {
    ('0' as int + d) as char
  }

  /** `str(n)` for `n >= 0`: the shortest decimal numeral. */
  function NatToString(n: nat): (r: string)
    ensures |r| >= 1 && AllDigits(r)
    ensures |r| > 1 ==> r[0] != '0'
  {
    if n < 10 then [DigitChar(n)] else NatToString(n / 10) + [DigitChar(n % 10)]
  }

  /**
   * `str(n)`: a minus sign exactly for a negative number, then the digits of its magnitude,
   * with no leading zero.
   */
  function IntToString(n: int): (r: string)
    ensures |r| >= 1 && (r[0] == '-' <==> n < 0)
    ensures var d := if n < 0 then r[1..] else r;
      d != [] && AllDigits(d) && (|d| > 1 ==> d[0] != '0') && DigitsValue(d) == if n < 0 then -n else n
  {
    var m: nat := if n < 0 then -n else n;
    NatToStringValue(m);
    if n < 0 then
      var r := "-" + NatToString(m);
      assert r[1..] == NatToString(m);
      r
    else NatToString(m)
  }

  lemma {:induction false} NatToStringValue(n: nat)
    ensures DigitsValue(NatToString(n)) == n
  {
    if n >= 10 {
      var s := NatToString(n);
      NatToStringValue(n / 10);
      assert s[..|s| - 1] == NatToString(n / 10);
    }
  }

  /** Reading back what `str` wrote gives the integer: `int(str(n)) == n`. */
  lemma ParseShow(n: int)
    ensures ParseInt(IntToString(n)) == Some(n)
  {
    if n < 0 {
      NatToStringValue(-n);
      assert IntToString(n)[1..] == NatToString(-n);
    } else {
      NatToStringValue(n);
    }
  }

  /** Leading zeros do not change the value of a digit string. */
  lemma {:induction false} LeadingZeros(k: nat, s: string)
    requires AllDigits(s)
    ensures AllDigits(Zeros(k) + s)
    ensures DigitsValue(Zeros(k) + s) == DigitsValue(s)
    decreases |s|, k
  {
    var z := Zeros(k) + s;
    if s == [] {
      assert z == Zeros(k);
      if k > 0 {
        assert z[..|z| - 1] == Zeros(k - 1) + s;
        LeadingZeros(k - 1, s);
      }
    } else {
      assert z[..|z| - 1] == Zeros(k) + s[..|s| - 1];
      LeadingZeros(k, s[..|s| - 1]);
    }
  }
}
