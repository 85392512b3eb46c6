/**
 Decimal formatting and parsing of integers as Go's strconv and fmt do it.
 */
module Decimal {
  import opened Strings

  predicate IsDigit(c: char) {
    '0' <= c <= '9'
  }

  function DigitChar(d: nat): (c: char)
    requires d < 10
    ensures IsDigit(c)
  {
    "0123456789"[d]
  }

  function DigitValue(c: char): (d: nat)
    requires IsDigit(c)
    ensures d < 10
  {
    c as int - '0' as int
  }

  predicate AllDigits(s: string) {
    forall i | 0 <= i < |s| :: IsDigit(s[i])
  }

  function NatString(n: nat): (s: string)
    ensures |s| > 0 && AllDigits(s)
  {
    if n < 10 then [DigitChar(n)] else NatString(n / 10) + [DigitChar(n % 10)]
  }

  function NatValue(s: string): nat
    requires AllDigits(s)
  {
    if s == [] then 0 else NatValue(s[..|s| - 1]) * 10 + DigitValue(s[|s| - 1])
  }

  function IntString(i: int): (s: string)
    ensures |s| > 0
  {
    if i < 0 then "-" + NatString(-i) else NatString(i)
  }

  lemma DigitRoundTrip(d: nat)
    requires d < 10
    ensures DigitValue(DigitChar(d)) == d
  {
  }

  lemma {:induction false} NatRoundTrip(n: nat)
    ensures NatValue(NatString(n)) == n
  {
    DigitRoundTrip(n % 10);
    if n < 10 {
      assert NatString(n)[..0] == [];
    } else {
      NatRoundTrip(n / 10);
      var s := NatString(n);
      assert s[..|s| - 1] == NatString(n / 10);
    }
  }

  /** Distinct integers have distinct decimal strings. */
  lemma IntStringInjective(i: int, j: int)
    requires IntString(i) == IntString(j)
    ensures i == j
  {
    NatRoundTrip(if i < 0 then -i else i);
    NatRoundTrip(if j < 0 then -j else j);
    assert IsDigit(NatString(if i < 0 then -i else i)[0]);
    assert IsDigit(NatString(if j < 0 then -j else j)[0]);
    if i < 0 {
      assert IntString(i)[1..] == NatString(-i) && IntString(j)[0] == '-';
      assert IntString(j)[1..] == NatString(-j);
    } else {
      assert IntString(j)[0] != '-';
    }
  }

  lemma IntStringLacks(i: int, c: char)
    requires !IsDigit(c) && c != '-'
    ensures Lacks(IntString(i), c)
  {
    var digits := NatString(if i < 0 then -i else i);
    assert AllDigits(digits);
  }

  /** Digits as they are written: at least one, and no zero in front of others. */
  predicate IsPlainNumber(s: string) {
    s != "" && AllDigits(s) && (|s| == 1 || s[0] != '0')
  }

  lemma {:induction false} NatStringIsPlain(n: nat)
    ensures IsPlainNumber(NatString(n))
    ensures n > 0 ==> NatString(n)[0] != '0'
  {
    if n >= 10 {
      NatStringIsPlain(n / 10);
    }
  }

  lemma {:induction false} PlainIsPositive(s: string)
    requires AllDigits(s) && s != "" && s[0] != '0'
    ensures NatValue(s) > 0
  {
    if |s| > 1 {
      PlainIsPositive(s[..|s| - 1]);
    }
  }

  lemma OneMoreDigit(m: nat, d: nat)
    requires m > 0 && d < 10
    ensures NatString(m * 10 + d) == NatString(m) + [DigitChar(d)]
  {
    assert (m * 10 + d) / 10 == m && (m * 10 + d) % 10 == d;
  }

  lemma DigitOf(c: char)
    requires IsDigit(c)
    ensures DigitChar(DigitValue(c)) == c
  {
  }

  lemma OneDigit(c: char)
    requires IsDigit(c)
    ensures NatString(NatValue([c])) == [c]
  {
    DigitOf(c);
    assert [c][..0] == [];
    assert NatValue([c]) == DigitValue(c);
  }

  lemma {:induction false} PlainRoundTrip(s: string)
    requires IsPlainNumber(s)
    ensures NatString(NatValue(s)) == s
  {
    var k := |s| - 1;
    if k == 0 {
      assert s == [s[0]];
      hide NatString, NatValue, DigitChar, DigitValue;
      OneDigit(s[0]);
    } else {
      var before := s[..k];
      DigitOf(s[k]);
      assert before[0] == s[0] && s == before + [s[k]] && AllDigits(before);
      assert NatValue(s) == NatValue(before) * 10 + DigitValue(s[k]);
      hide NatString, NatValue, DigitChar, DigitValue;
      PlainIsPositive(before);
      PlainRoundTrip(before);
      OneMoreDigit(NatValue(before), DigitValue(s[k]));
    }
  }

  /** Digits are written back as they were read exactly when they are plain. */
  lemma PlainExactly(s: string)
    requires AllDigits(s)
    ensures NatString(NatValue(s)) == s <==> IsPlainNumber(s)
  {
    NatStringIsPlain(NatValue(s));
    if IsPlainNumber(s) {
      PlainRoundTrip(s);
    }
  }
}
