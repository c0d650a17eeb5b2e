/** The canonical spelling of JSON numbers: one text for each rational value. */
module CanonicalNumbers {
  import opened Wire
  import opened JsonNumber
  import opened Decimal
  import opened SafeInteger
  import StrictJsonGrammar

  // ---------------------------------------------------------------- values

  /** m * 10^e == k * 10^f as rationals, the smaller exponent cancelled. */
  predicate SameScaled(m: nat, e: int, k: nat, f: int) {
    if e <= f then m == k * Pow10(f - e) else m * Pow10(e - f) == k
  }

  function Exponent10(n: Number): int
    requires ValidNumber(n)
  {
    ExponentValue(n) - FractionDigits(n)
  }

  predicate SameSigned(negative: bool, m: nat, e: int, negative': bool, k: nat, f: int) {
    SameScaled(m, e, k, f) && (m > 0 ==> negative == negative')
  }

  /** The two lexemes have the same rational value; zero has no sign. */
  predicate SameValue(n: Number, n': Number)
    requires ValidNumber(n) && ValidNumber(n')
  {
    SameSigned(n.negative, Magnitude(n), Exponent10(n), n'.negative, Magnitude(n'), Exponent10(n'))
  }

  /** The same value with no factor of ten left in its digits. */
  function Reduced(m: nat, e: int): (nat, int)
    requires m > 0
    decreases m
  {
    if m % 10 == 0 then Reduced(m / 10, e + 1) else (m, e)
  }

  lemma {:induction false} ReducedPadded(m: nat, e: int, places: nat)
    requires m > 0
    ensures m * Pow10(places) > 0 && Reduced(m * Pow10(places), e) == Reduced(m, e + places)
    decreases places
  {
    if places > 0 {
      TenTimes(m, Pow10(places - 1));
      ReducedPadded(m, e + 1, places - 1);
    }
  }

  lemma TenTimes(m: nat, p: nat)
    ensures m * (10 * p) % 10 == 0 && m * (10 * p) / 10 == m * p
  {
    Regroup(m, p);
  }

  lemma {:induction false} ReducedIsPart(m: nat, e: int)
    requires m > 0
    ensures var r := Reduced(m, e);
            r.0 > 0 && r.0 % 10 != 0 && r.1 >= e && m == r.0 * Pow10(r.1 - e)
    decreases m
  {
    if m % 10 == 0 {
      ReducedIsPart(m / 10, e + 1);
      var r := Reduced(m, e);
      Regroup(r.0, Pow10(r.1 - e - 1));
    }
  }

  /** Equal values are those with one reduced form, so equality of values is an equivalence. */
  lemma SameScaledIffReduced(m: nat, e: int, k: nat, f: int)
    requires m > 0 && k > 0
    ensures SameScaled(m, e, k, f) <==> Reduced(m, e) == Reduced(k, f)
  {
    if e <= f {
      ScaledIffReduced(m, e, k, f);
    } else {
      ScaledIffReduced(k, f, m, e);
    }
  }

  lemma ScaledIffReduced(m: nat, e: int, k: nat, f: int)
    requires m > 0 && k > 0 && e <= f
    ensures m == k * Pow10(f - e) <==> Reduced(m, e) == Reduced(k, f)
  {
    ReducedPadded(k, e, f - e);
    if Reduced(m, e) == Reduced(k, f) {
      ReducedIsPart(m, e);
      ReducedIsPart(k, f);
      var r := Reduced(k, f);
      Pow10Add(r.1 - f, f - e);
      Associate(r.0, Pow10(r.1 - f), Pow10(f - e));
    }
  }

  lemma SameSignedZero(m: nat, e: int, k: nat, f: int)
    requires SameScaled(m, e, k, f)
    ensures m == 0 <==> k == 0
  {
    if e <= f && k > 0 {
      Scale(k, Pow10(f - e));
    } else if e > f && m > 0 {
      Scale(m, Pow10(e - f));
    }
  }

  // ---------------------------------------------------------------- normal forms

  datatype Canonical = Zero | Scientific(negative: bool, digits: string, exponent: int)

  predicate Normal(c: Canonical) {
    c.Scientific? ==> SomeDigits(c.digits) && c.digits[0] != '0' && c.digits[|c.digits| - 1] != '0'
  }

  function TrimRight(s: string): (t: string)
    ensures |t| <= |s| && t == s[..|t|] && (t != "" ==> t[|t| - 1] != '0')
    ensures s[|t|..] == Zeros(|s| - |t|)
  {
    if s != "" && s[|s| - 1] == '0' then
      var t := TrimRight(s[..|s| - 1]);
      assert s[|t|..] == s[..|s| - 1][|t|..] + "0";
      t
    else s
  }

  function Canonicalize(n: Number): Canonical
    requires ValidNumber(n)
  {
    var digits := TrimLeft(Significand(n));
    if digits == "" then Zero
    else
      var kept := TrimRight(digits);
      Scientific(n.negative, kept, ExponentValue(n) - FractionDigits(n) + (|digits| - |kept|) + |kept| - 1)
  }

  lemma TrimmingReduces(s: string, e: int)
    requires AllDigits(s) && TrimLeft(s) != ""
    ensures var kept := TrimRight(TrimLeft(s));
            && SomeDigits(kept) && kept[0] != '0' && kept[|kept| - 1] != '0'
            && DigitsValue(s) > 0
            && Reduced(DigitsValue(s), e) == (DigitsValue(kept), e + (|TrimLeft(s)| - |kept|))
  {
    TrimmedValue(s);
    var digits := TrimLeft(s);
    var kept := TrimRight(digits);
    TrimmedOnBothSides(digits);
    LastDigit(kept);
    ReducedParts(DigitsValue(kept), |digits| - |kept|, DigitsValue(s), e);
  }

  lemma ReducedParts(part: nat, zeros: nat, m: nat, e: int)
    requires m > 0 && part > 0 && part % 10 != 0 && m == part * Pow10(zeros)
    ensures Reduced(m, e) == (part, e + zeros)
  {
    ReducedPadded(part, e, zeros);
  }

  /** The canonical form is normal, and spells the reduced value. */
  lemma CanonicalizeReduces(n: Number)
    requires ValidNumber(n)
    ensures Normal(Canonicalize(n)) && (Canonicalize(n).Zero? <==> Magnitude(n) == 0)
    ensures Magnitude(n) > 0 ==>
              && Canonicalize(n).negative == n.negative
              && Reduced(Magnitude(n), Exponent10(n))
                 == (DigitsValue(Canonicalize(n).digits), Canonicalize(n).exponent - (|Canonicalize(n).digits| - 1))
  {
    SignificandIsDigits(n);
    var s := Significand(n);
    if TrimLeft(s) == "" {
      TrimmedValue(s);
    } else {
      TrimmingReduces(s, Exponent10(n));
    }
  }

  lemma TrimmedOnBothSides(digits: string)
    requires SomeDigits(digits) && digits[0] != '0'
    ensures var kept := TrimRight(digits);
            && SomeDigits(kept) && kept[0] != '0' && kept[|kept| - 1] != '0' && DigitsValue(kept) > 0
            && DigitsValue(digits) == DigitsValue(kept) * Pow10(|digits| - |kept|)
  {
    var kept := TrimRight(digits);
    var dropped := |digits| - |kept|;
    assert digits == kept + Zeros(dropped);
    Padded(kept, dropped);
    LeadingDigit(digits);
    assert DigitsValue(kept) > 0;
  }

  lemma LastDigit(s: string)
    requires SomeDigits(s) && s[|s| - 1] != '0'
    ensures DigitsValue(s) % 10 != 0
  {}

  lemma {:induction false} DigitsAreUnique(s: string, t: string)
    requires AllDigits(s) && AllDigits(t) && DigitsValue(s) == DigitsValue(t)
    requires (s != "" ==> s[0] != '0') && (t != "" ==> t[0] != '0')
    ensures s == t
  {
    if s == "" || t == "" {
      if s != "" {
        LeadingDigit(s);
      }
      if t != "" {
        LeadingDigit(t);
      }
    } else {
      DigitsAreUnique(s[..|s| - 1], t[..|t| - 1]);
      assert s == s[..|s| - 1] + [s[|s| - 1]] && t == t[..|t| - 1] + [t[|t| - 1]];
    }
  }

  /** Two lexemes have the same canonical form exactly when they have the same value. */
  lemma SameCanonicalIffSameValue(n: Number, n': Number)
    requires ValidNumber(n) && ValidNumber(n')
    ensures Canonicalize(n) == Canonicalize(n') <==> SameValue(n, n')
  {
    if Magnitude(n) > 0 && Magnitude(n') > 0 {
      SameCanonicalIfNotZero(n, n');
    } else {
      CanonicalizeReduces(n);
      CanonicalizeReduces(n');
      if SameValue(n, n') {
        SameSignedZero(Magnitude(n), Exponent10(n), Magnitude(n'), Exponent10(n'));
      }
    }
  }

  lemma SameCanonicalIfNotZero(n: Number, n': Number)
    requires ValidNumber(n) && ValidNumber(n') && Magnitude(n) > 0 && Magnitude(n') > 0
    ensures Canonicalize(n) == Canonicalize(n') <==> SameValue(n, n')
  {
    CanonicalizeReduces(n);
    CanonicalizeReduces(n');
    SameScaledIffReduced(Magnitude(n), Exponent10(n), Magnitude(n'), Exponent10(n'));
    SameNormalIffSameParts(Canonicalize(n), Canonicalize(n'));
  }

  lemma SameNormalIffSameParts(c: Canonical, c': Canonical)
    requires Normal(c) && Normal(c') && c.Scientific? && c'.Scientific?
    ensures c == c' <==>
            && c.negative == c'.negative && DigitsValue(c.digits) == DigitsValue(c'.digits)
            && c.exponent - (|c.digits| - 1) == c'.exponent - (|c'.digits| - 1)
  {
    if DigitsValue(c.digits) == DigitsValue(c'.digits) {
      DigitsAreUnique(c.digits, c'.digits);
    }
  }

  // ---------------------------------------------------------------- canonical texts

  /** The decimal text of a natural number. */
  function NatText(n: nat): (s: string)
    ensures SomeDigits(s) && DigitsValue(s) == n && (s[0] == '0' ==> |s| == 1)
  {
    var last := (n % 10 + '0' as int) as char;
    if n < 10 then
      ValueOfLast("", last);
      assert "" + [last] == [last];
      [last]
    else
      ValueOfLast(NatText(n / 10), last);
      NatText(n / 10) + [last]
  }

  /** The canonical form as a number of the grammar. */
  function AsNumber(c: Canonical): (n: Number)
    requires Normal(c)
    ensures ValidNumber(n)
  {
    match c
    case Zero => Number(false, "0", None, None)
    case Scientific(negative, digits, exponent) =>
      Number(negative, digits[..1], if |digits| > 1 then Some(digits[1..]) else None,
             Some(ExponentOf(exponent)))
  }

  function ExponentOf(exponent: int): Exponent {
    Exponent('e', if exponent < 0 then "-" else "", NatText(if exponent < 0 then -exponent else exponent))
  }

  lemma AsNumberKeepsForm(c: Canonical)
    requires Normal(c)
    ensures Canonicalize(AsNumber(c)) == c
  {
    if c.Scientific? {
      var n := AsNumber(c);
      assert Significand(n) == c.digits;
      NothingToTrim(c.digits);
    } else {
      assert Significand(AsNumber(c)) == "0";
    }
  }

  lemma NothingToTrim(s: string)
    requires s != "" && s[0] != '0' && s[|s| - 1] != '0'
    ensures TrimLeft(s) == s && TrimRight(s) == s
  {}

  lemma TextIsUnique(n: Number, n': Number)
    requires ValidNumber(n) && ValidNumber(n') && NumberText(n) == NumberText(n')
    ensures n == n'
  {
    StrictJsonGrammar.NumberOf(n, "");
    StrictJsonGrammar.NumberOf(n', "");
  }

  function CanonicalText(n: Number): string
    requires ValidNumber(n)
  {
    CanonicalizeReduces(n);
    NumberText(AsNumber(Canonicalize(n)))
  }

  /** The number whose text is canonical for n. */
  function CanonicalOf(n: Number): (c: Number)
    requires ValidNumber(n)
    ensures ValidNumber(c)
  {
    CanonicalizeReduces(n);
    AsNumber(Canonicalize(n))
  }

  lemma CanonicalKeepsForm(n: Number)
    requires ValidNumber(n)
    ensures Canonicalize(CanonicalOf(n)) == Canonicalize(n)
  {
    CanonicalizeReduces(n);
    AsNumberKeepsForm(Canonicalize(n));
  }

  /** Canonical texts are equal exactly for equal values. */
  lemma SameTextIffSameValue(n: Number, n': Number)
    requires ValidNumber(n) && ValidNumber(n')
    ensures CanonicalText(n) == CanonicalText(n') <==> SameValue(n, n')
  {
    SameCanonicalIffSameValue(n, n');
    if CanonicalText(n) == CanonicalText(n') {
      TextIsUnique(CanonicalOf(n), CanonicalOf(n'));
      CanonicalKeepsForm(n);
      CanonicalKeepsForm(n');
    }
  }

  /** A canonical text spells the value it stands for. */
  lemma CanonicalKeepsValue(n: Number)
    requires ValidNumber(n)
    ensures NumberText(CanonicalOf(n)) == CanonicalText(n) && SameValue(CanonicalOf(n), n)
  {
    CanonicalKeepsForm(n);
    SameCanonicalIffSameValue(CanonicalOf(n), n);
  }

  /** Canonical spelling is idempotent: a canonical text, read again as a number, is its own. */
  lemma CanonicalIsIdempotent(n: Number, c: Number)
    requires ValidNumber(n) && ValidNumber(c) && NumberText(c) == CanonicalText(n)
    ensures CanonicalText(c) == CanonicalText(n)
  {
    TextIsUnique(c, CanonicalOf(n));
    CanonicalKeepsForm(n);
  }

  /** Having one value is an equivalence. */
  lemma SameValueIsEquivalence(a: Number, b: Number, c: Number)
    requires ValidNumber(a) && ValidNumber(b) && ValidNumber(c)
    ensures SameValue(a, a)
    ensures SameValue(a, b) <==> SameValue(b, a)
    ensures SameValue(a, b) && SameValue(b, c) ==> SameValue(a, c)
  {
    SameCanonicalIffSameValue(a, a);
    SameCanonicalIffSameValue(a, b);
    SameCanonicalIffSameValue(b, a);
    SameCanonicalIffSameValue(b, c);
    SameCanonicalIffSameValue(a, c);
  }

  // ---------------------------------------------------------------- as the program computes it

  /** The canonical text of any lexeme that passes the range gate of floating-point conversion, which is
      left as a parameter. */
  method CanonicalNumber(lexeme: string, gate: string -> bool, ghost n: Number) returns (text: Option<string>)
    requires ValidNumber(n) && lexeme == NumberText(n)
    ensures text == if gate(lexeme) then Some(CanonicalText(n)) else None
  {
    if !gate(lexeme) {
      return None;
    }
    SignPart(n);
    if lexeme[0] == '-' {
      var t := CanonicalUnsigned(lexeme[1..], true, n);
      return Some(t);
    }
    var t := CanonicalUnsigned(lexeme, false, n);
    return Some(t);
  }

  method CanonicalUnsigned(lexeme: string, negative: bool, ghost n: Number) returns (text: string)
    requires ValidNumber(n) && lexeme == Unsigned(n) && negative == n.negative
    ensures text == CanonicalText(n)
  {
    ExponentPart(n);
    var exponent := 0;
    var index := IndexAny(lexeme, 'e', 'E');
    if index < |lexeme| {
      exponent := IntValue(lexeme[index + 1..], n.exponent.value);
    }
    text := CanonicalMantissa(lexeme[..IndexAny(lexeme, 'e', 'E')], exponent, negative, n);
  }

  method CanonicalMantissa(mantissa: string, exponent: int, negative: bool, ghost n: Number) returns (text: string)
    requires ValidNumber(n) && mantissa == Mantissa(n) && exponent == ExponentValue(n) && negative == n.negative
    ensures text == CanonicalText(n)
  {
    FractionPart(n);
    var rest, fractionDigits := mantissa, 0;
    var index := IndexAny(rest, '.', '.');
    if index < |rest| {
      fractionDigits := |rest| - index - 1;
      rest := rest[..index] + rest[index + 1..];
    }
    text := CanonicalDigits(rest, fractionDigits, exponent, negative, n);
  }

  method CanonicalDigits(significand: string, fractionDigits: int, exponent: int, negative: bool, ghost n: Number)
    returns (text: string)
    requires ValidNumber(n) && significand == Significand(n) && fractionDigits == FractionDigits(n)
    requires exponent == ExponentValue(n) && negative == n.negative
    ensures text == CanonicalText(n)
  {
    CanonicalizeReduces(n);
    var digits := TrimLeft(significand);
    if digits == "" {
      return "0";
    }
    var kept := TrimRight(digits);
    var trailingZeros := |digits| - |kept|;
    var effectiveExponent := exponent + (-fractionDigits + trailingZeros + |kept| - 1);
    assert Canonicalize(n) == Scientific(negative, kept, effectiveExponent);
    AsNumberText(Canonicalize(n));
    return ScientificText(negative, kept, effectiveExponent);
  }

  /** The integer an exponent spells, sign included; the big-integer parser. */
  method IntValue(lexeme: string, ghost e: Exponent) returns (value: int)
    requires ValidExponent(e) && lexeme == e.sign + e.digits
    ensures value == Signed(e.sign, DigitsValue(e.digits))
  {
    assert lexeme[0] == if e.sign == "" then e.digits[0] else e.sign[0];
    if lexeme[0] == '-' || lexeme[0] == '+' {
      assert lexeme[1..] == e.digits;
      value := DigitsValue(lexeme[1..]);
      if lexeme[0] == '-' {
        value := -value;
      }
    } else {
      assert lexeme == e.digits;
      value := DigitsValue(lexeme);
    }
  }

  function IntText(i: int): string { if i < 0 then "-" + NatText(-i) else NatText(i) }

  function ScientificText(negative: bool, digits: string, exponent: int): string
    requires digits != ""
  {
    var mantissa := digits[..1] + if |digits| > 1 then "." + digits[1..] else "";
    (if negative then "-" + mantissa else mantissa) + ("e" + IntText(exponent))
  }

  lemma AsNumberText(c: Canonical)
    requires Normal(c) && c.Scientific?
    ensures NumberText(AsNumber(c)) == ScientificText(c.negative, c.digits, c.exponent)
  {
    var n := AsNumber(c);
    var fraction := if |c.digits| > 1 then "." + c.digits[1..] else "";
    var tail := "e" + IntText(c.exponent);
    ExponentIsTail(c.exponent);
    FractionInFront(n.fraction, fraction, tail);
    Joined(c.digits[..1], fraction, tail);
    SignInFront(c.negative, c.digits[..1] + fraction, tail);
  }

  lemma ExponentIsTail(exponent: int)
    ensures ExponentThen(Some(ExponentOf(exponent)), "") == "e" + IntText(exponent)
  {
    var e := ExponentOf(exponent);
    assert e.digits + "" == e.digits;
    assert e.sign + e.digits == IntText(exponent);
  }

  lemma FractionInFront(fraction: Option<string>, text: string, tail: string)
    requires text == match fraction case None => "" case Some(digits) => "." + digits
    ensures FractionThen(fraction, tail) == text + tail
  {
    match fraction
    case None => assert "" + tail == tail;
    case Some(digits) => assert ['.'] + (digits + tail) == "." + digits + tail;
  }

  lemma Joined(a: string, b: string, c: string)
    ensures a + (b + c) == a + b + c
  {}

  lemma SignInFront(negative: bool, mantissa: string, tail: string)
    ensures (if negative then "-" else "") + (mantissa + tail) == (if negative then "-" + mantissa else mantissa) + tail
  {
    if negative {
      Joined("-", mantissa, tail);
    } else {
      assert "" + (mantissa + tail) == mantissa + tail;
    }
  }
}
