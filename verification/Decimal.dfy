/** Digit strings and powers of ten. */
module Decimal {
  import opened JsonNumber

  function Pow10(n: nat): (p: nat)
    ensures p >= 1
  {
    if n == 0 then 1 else 10 * Pow10(n - 1)
  }

  lemma {:induction false} Pow10Add(a: nat, b: nat)
    ensures Pow10(a + b) == Pow10(a) * Pow10(b)
  {
    if a > 0 {
      Pow10Add(a - 1, b);
    }
  }

  lemma {:induction false} Pow10Monotone(a: nat, b: nat)
    requires a <= b
    ensures Pow10(a) <= Pow10(b)
  {
    if a < b {
      Pow10Monotone(a, b - 1);
    }
  }

  function DigitValue(c: char): nat
    requires IsDigit(c)
  {
    c as int - '0' as int
  }

  function DigitsValue(s: string): nat
    requires AllDigits(s)
  {
    if s == "" then 0 else DigitsValue(s[..|s| - 1]) * 10 + DigitValue(s[|s| - 1])
  }

  lemma ValueOfLast(s: string, c: char)
    requires AllDigits(s) && IsDigit(c)
    ensures AllDigits(s + [c]) && DigitsValue(s + [c]) == DigitsValue(s) * 10 + DigitValue(c)
  {
    assert (s + [c])[..|s|] == s;
  }

  lemma Regroup(m: nat, p: nat)
    ensures m * (10 * p) == m * p * 10
  {}

  lemma {:induction false} ValueOfConcat(a: string, b: string)
    requires AllDigits(a) && AllDigits(b)
    ensures AllDigits(a + b) && DigitsValue(a + b) == DigitsValue(a) * Pow10(|b|) + DigitsValue(b)
  {
    if b == "" {
      assert a + b == a;
    } else {
      var init, last := b[..|b| - 1], b[|b| - 1];
      ValueOfConcat(a, init);
      assert a + b == (a + init) + [last];
      ValueOfLast(a + init, last);
      ValueOfLast(init, last);
      assert b == init + [last];
      Regroup(DigitsValue(a), Pow10(|init|));
    }
  }

  lemma {:induction false} ValueBound(s: string)
    requires AllDigits(s)
    ensures DigitsValue(s) < Pow10(|s|)
  {
    if s != "" {
      ValueBound(s[..|s| - 1]);
    }
  }

  predicate AllZeros(s: string) { forall i :: 0 <= i < |s| ==> s[i] == '0' }

  lemma {:induction false} ZerosHaveNoValue(s: string)
    requires AllDigits(s)
    ensures AllZeros(s) <==> DigitsValue(s) == 0
  {
    if s != "" {
      ZerosHaveNoValue(s[..|s| - 1]);
      assert AllZeros(s) <==> AllZeros(s[..|s| - 1]) && s[|s| - 1] == '0';
    }
  }

  /** Without the leading zeros. */
  function TrimLeft(s: string): (t: string)
    ensures |t| <= |s| && (t != "" ==> t[0] != '0')
  {
    if s != "" && s[0] == '0' then TrimLeft(s[1..]) else s
  }

  function Zeros(n: nat): (s: string)
    ensures |s| == n && AllZeros(s)
  {
    seq(n, _ => '0')
  }

  lemma {:induction false} TrimmedValue(s: string)
    requires AllDigits(s)
    ensures AllDigits(TrimLeft(s)) && DigitsValue(TrimLeft(s)) == DigitsValue(s)
    ensures TrimLeft(s) == "" <==> DigitsValue(s) == 0
    ensures TrimLeft(s) != "" ==> DigitsValue(s) >= Pow10(|TrimLeft(s)| - 1)
  {
    if s != "" {
      if s[0] == '0' {
        TrimmedValue(s[1..]);
        ValueOfConcat(s[..1], s[1..]);
        assert s == s[..1] + s[1..];
        assert DigitsValue(s[..1]) == 0;
      } else {
        LeadingDigit(s);
      }
    }
  }

  lemma LeadingDigit(t: string)
    requires AllDigits(t) && t != "" && t[0] != '0'
    ensures DigitsValue(t) >= Pow10(|t| - 1)
  {
    assert t == t[..1] + t[1..];
    ValueOfConcat(t[..1], t[1..]);
    assert DigitsValue(t[..1]) == DigitValue(t[0]);
    Scale(DigitsValue(t[..1]), Pow10(|t| - 1));
  }

  lemma Scale(m: nat, p: nat)
    requires m >= 1
    ensures m * p >= p
  {}
}
