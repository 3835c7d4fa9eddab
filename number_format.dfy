/**
 * Decimal rendering of integers, as JavaScript's `Number.prototype.toString()`
 * and template literals print an integral number, and its inverse.
 */
module NumberFormat {

  predicate IsDigit(c: char) {
    '0' <= c <= '9'
  }

  predicate AllDigits(s: string) {
    forall i :: 0 <= i < |s| ==> IsDigit(s[i])
  }

  function DigitChar(d: nat): (c: char)
    requires d < 10
    ensures IsDigit(c) && (c as int) - ('0' as int) == d
  {
    ('0' as int + d) as char
  }

  /** Decimal digits of `n`, most significant first, without leading zeros. */
  function NatToString(n: nat): (s: string)
    ensures |s| >= 1 && AllDigits(s)
    ensures s[0] == '0' ==> n == 0 && s == "0"
    decreases n
  {
    if n < 10 then [DigitChar(n)] else NatToString(n / 10) + [DigitChar(n % 10)]
  }

  /**
   * `s` is the canonical decimal numeral of `i`: digits without a leading
   * zero (except "0" itself), after a '-' exactly when `i` is negative.
   */
  predicate Denotes(s: string, i: int) {
    if i < 0 then |s| >= 2 && s[0] == '-' && s[1] != '0' && AllDigits(s[1..]) && ParseNat(s[1..]) == -i
    else |s| >= 1 && AllDigits(s) && (s[0] == '0' ==> s == "0") && ParseNat(s) == i
  }

  /** `String(i)` for an integral number: a minus sign before the magnitude when negative. */
  function IntToString(i: int): (s: string)
    ensures Denotes(s, i)
  {
    var magnitude := if i < 0 then -i else i;
    ParseNatToString(magnitude);
    if i < 0 then
      var s := "-" + NatToString(magnitude);
      assert s[1..] == NatToString(magnitude);
      s
    else NatToString(magnitude)
  }

  /** The value of a string of decimal digits. */
  function ParseNat(s: string): nat
    requires AllDigits(s)
  {
    if s == [] then 0
    else ParseNat(s[..|s| - 1]) * 10 + ((s[|s| - 1] as int) - ('0' as int))
  }

  /** Reading back a rendered natural number gives the number. */
  lemma {:induction false} ParseNatToString(n: nat)
    ensures ParseNat(NatToString(n)) == n
    decreases n
  {
    if n >= 10 {
      var s := NatToString(n);
      assert s[..|s| - 1] == NatToString(n / 10);
      ParseNatToString(n / 10);
    }
  }

  /** Different integers are printed differently. */
  lemma IntToStringInjective(a: int, b: int)
    ensures IntToString(a) == IntToString(b) <==> a == b
  {
    if IntToString(a) == IntToString(b) {
      var s := IntToString(a);
      if a < 0 {
        assert s[0] == '-';
        assert b < 0;
        assert NatToString(-a) == s[1..] == NatToString(-b);
        ParseNatToString(-a);
        ParseNatToString(-b);
      } else {
        assert !IsDigit('-');
        assert b >= 0;
        ParseNatToString(a);
        ParseNatToString(b);
      }
    }
  }

  /** A rendered integer contains no space character. */
  lemma IntToStringHasNoSpace(i: int)
    ensures forall k :: 0 <= k < |IntToString(i)| ==> IntToString(i)[k] != ' '
  {
    var s := IntToString(i);
    if i < 0 {
      assert forall k :: 1 <= k < |s| ==> s[k] == NatToString(-i)[k - 1];
    }
  }
}
