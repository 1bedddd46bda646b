/** Decimal numerals, as AQL's TO_STRING and Python's str write non-negative integers. */
module Decimals {

  predicate IsDigit(c: char) {
    '0' <= c <= '9'
  }

  predicate AllDigits(s: string) {
    forall k :: 0 <= k < |s| ==> IsDigit(s[k])
  }

  function DigitChar(d: nat): (c: char)
    requires d < 10
    ensures IsDigit(c)
  {
    '0' + d as char
  }

  function DigitValue(c: char): (d: nat)
    requires IsDigit(c)
    ensures d < 10
  {
    c as nat - '0' as nat
  }

  function Dec(n: nat): (s: string)
    ensures |s| >= 1 && AllDigits(s)
  {
    if n < 10 then [DigitChar(n)] else Dec(n / 10) + [DigitChar(n % 10)]
  }

  function Undec(s: string): nat
    requires AllDigits(s)
  {
    if s == "" then 0 else 10 * Undec(s[..|s| - 1]) + DigitValue(s[|s| - 1])
  }

  lemma {:induction false} DecReadsBack(n: nat)
    ensures Undec(Dec(n)) == n
    ensures Dec(n)[0] == '0' <==> n == 0
  {
    if n >= 10 {
      DecReadsBack(n / 10);
      assert Dec(n)[..|Dec(n)| - 1] == Dec(n / 10);
    }
  }

  lemma DecStep(n: nat, c: char)
    requires n > 0 && IsDigit(c)
    ensures Dec(10 * n + DigitValue(c)) == Dec(n) + [c]
  {
    assert (10 * n + DigitValue(c)) / 10 == n && (10 * n + DigitValue(c)) % 10 == DigitValue(c);
    assert DigitChar(DigitValue(c)) == c;
  }

  lemma DecOfLonger(init: string, n: nat, last: char)
    requires init != "" && init[0] != '0' && Dec(n) == init && IsDigit(last)
    ensures Dec(10 * n + DigitValue(last)) == init + [last]
  {
    DecReadsBack(n);
    DecStep(n, last);
  }

  lemma DecOfDigit(c: char)
    requires IsDigit(c)
    ensures Undec([c]) == DigitValue(c) && Dec(DigitValue(c)) == [c]
  {
    assert [c][..0] == "";
  }

  /** Every digit string without a leading zero is the numeral of its value. */
  lemma {:induction false} DecOfUndec(s: string)
    requires s != "" && AllDigits(s) && (s[0] != '0' || |s| == 1)
    ensures Dec(Undec(s)) == s
    decreases |s|
  {
    if |s| == 1 {
      DecOfDigit(s[0]);
      assert s == [s[0]];
    } else {
      var init, last := s[..|s| - 1], s[|s| - 1];
      var n := Undec(init);
      DecOfUndec(init);
      DecOfLonger(init, n, last);
      calc {
        Dec(Undec(s));
        Dec(10 * n + DigitValue(last));
        init + [last];
        s;
      }
    }
  }

  lemma DecInjective(a: nat, b: nat)
    requires Dec(a) == Dec(b)
    ensures a == b
  {
    DecReadsBack(a);
    DecReadsBack(b);
  }

  /** The length of the run of digits `s` starts with. */
  function DigitRun(s: string): (n: nat)
    ensures n <= |s| && AllDigits(s[..n]) && (n < |s| ==> !IsDigit(s[n]))
  {
    if s == "" || !IsDigit(s[0]) then 0
    else
      var n := 1 + DigitRun(s[1..]);
      assert forall k :: 0 <= k < n ==> s[k] == if k == 0 then s[0] else s[1..][k - 1];
      n
  }

  lemma {:induction false} DigitRunOf(ds: string, rest: string)
    requires AllDigits(ds) && (rest == "" || !IsDigit(rest[0]))
    ensures DigitRun(ds + rest) == |ds|
    decreases |ds|
  {
    if ds == "" {
      assert ds + rest == rest;
    } else {
      assert (ds + rest)[1..] == ds[1..] + rest;
      DigitRunOf(ds[1..], rest);
    }
  }
}
