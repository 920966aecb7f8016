/** Whole numbers as JavaScript writes and reads them: decimal digits without leading zeros. */
module Decimal {
  function DigitChar(d: nat): char
    requires d < 10
  {
    ('0' as int + d) as char
  }

  predicate IsDigit(c: char) {
    '0' <= c <= '9'
  }

  predicate AllDigits(s: string) {
    forall i | 0 <= i < |s| :: IsDigit(s[i])
  }

  /** `String(n)`. */
  function DigitsOf(n: nat): string {
    if n < 10 then [DigitChar(n)] else DigitsOf(n / 10) + [DigitChar(n % 10)]
  }

  /** `Number(s)` of a string of digits. */
  function ValueOf(s: string): nat
    requires AllDigits(s)
  {
    if s == [] then 0 else ValueOf(s[..|s| - 1]) * 10 + (s[|s| - 1] as int - '0' as int)
  }

  /** A whole number as written: the pattern `^(0|[1-9][0-9]*)$`. */
  predicate IsWhole(s: string) {
    s == "0" || (s != "" && AllDigits(s) && s[0] != '0')
  }

  lemma {:induction false} DigitsAreWhole(n: nat)
    ensures IsWhole(DigitsOf(n)) && AllDigits(DigitsOf(n)) && ValueOf(DigitsOf(n)) == n
    ensures n > 0 ==> DigitsOf(n)[0] != '0'
  {
    if n >= 10 {
      DigitsAreWhole(n / 10);
      var s := DigitsOf(n);
      assert s[..|s| - 1] == DigitsOf(n / 10);
    }
  }

  lemma DigitsTell(m: nat, n: nat)
    requires DigitsOf(m) == DigitsOf(n)
    ensures m == n
  {
    DigitsAreWhole(m);
    DigitsAreWhole(n);
  }

  lemma OneMoreDigit(n: nat, d: nat)
    requires n > 0 && d < 10
    ensures DigitsOf(n * 10 + d) == DigitsOf(n) + [DigitChar(d)]
  {
    assert (n * 10 + d) / 10 == n && (n * 10 + d) % 10 == d;
  }

  lemma {:induction false} WholeIsDigits(s: string)
    requires IsWhole(s)
    ensures AllDigits(s) && DigitsOf(ValueOf(s)) == s
    ensures s[0] != '0' ==> ValueOf(s) > 0
  {
    var last := |s| - 1;
    var rest := s[..last];
    assert AllDigits(s) && AllDigits(rest);
    var d := s[last] as int - '0' as int;
    assert s == rest + [DigitChar(d)];
    if |s| == 1 {
      assert ValueOf(rest) == 0 && ValueOf(s) == d;
    } else {
      WholeIsDigits(rest);
      OneMoreDigit(ValueOf(rest), d);
    }
  }
}
