/** Structural integers: reading a JSON number of any spelling as an integer between 0 and 2^53 - 1. */
module SafeInteger {
  import opened Wire
  import opened JsonNumber
  import opened Decimal
  import opened JsonText
  import StrictJsonValidator

  // ---------------------------------------------------------------- the value of a lexeme

  function Significand(n: Number): string { n.integer + if n.fraction.Some? then n.fraction.value else "" }

  function FractionDigits(n: Number): nat { if n.fraction.Some? then |n.fraction.value| else 0 }

  lemma SignificandIsDigits(n: Number)
    requires ValidNumber(n)
    ensures SomeDigits(Significand(n)) && FractionDigits(n) < |Significand(n)|
  {}

  function Signed(sign: string, magnitude: int): int { if sign == "-" then -magnitude else magnitude }

  /** The exponent as written. */
  function ExponentValue(n: Number): int
    requires ValidNumber(n)
  {
    match n.exponent
    case None => 0
    case Some(e) => Signed(e.sign, DigitsValue(e.digits))
  }

  function Magnitude(n: Number): nat
    requires ValidNumber(n)
  {
    SignificandIsDigits(n);
    DigitsValue(Significand(n))
  }

  /** m * 10^shift == k, without fractions. */
  predicate Scaled(m: nat, shift: int, k: nat) {
    if shift >= 0 then m * Pow10(shift) == k else m == k * Pow10(-shift)
  }

  /** The rational value of the lexeme is the integer k. */
  predicate Denotes(n: Number, k: nat)
    requires ValidNumber(n)
  {
    Scaled(Magnitude(n), ExponentValue(n) - FractionDigits(n), k) && (n.negative ==> k == 0)
  }

  // ---------------------------------------------------------------- the reader, on digits

  const CLIPPED_FROM: nat := 10010
  const CLIPPED_TO: nat := 1001

  function Clip(magnitude: nat): nat { if magnitude >= CLIPPED_FROM then CLIPPED_TO else magnitude }

  function ClippedExponent(n: Number): int
    requires ValidNumber(n)
  {
    match n.exponent
    case None => 0
    case Some(e) => Signed(e.sign, Clip(DigitsValue(e.digits)))
  }

  predicate Clipped(n: Number)
    requires ValidNumber(n)
  {
    n.exponent.Some? && DigitsValue(n.exponent.value.digits) >= CLIPPED_FROM
  }

  /** The exponent loop: at most four digits past the first thousand are taken in. */
  method ParseBoundedExponent(lexeme: string, ghost e: Exponent) returns (value: int)
    requires ValidExponent(e) && lexeme == e.sign + e.digits
    ensures value == Signed(e.sign, Clip(DigitsValue(e.digits)))
  {
    var sign, digits := 1, lexeme;
    if lexeme[0] == '+' {
      digits := lexeme[1..];
    } else if lexeme[0] == '-' {
      sign, digits := -1, lexeme[1..];
    }
    assert digits == e.digits && sign == Signed(e.sign, 1) by {
      assert lexeme[0] == if e.sign == "" then e.digits[0] else e.sign[0];
    }
    value := 0;
    for i := 0 to |digits|
      invariant value == DigitsValue(digits[..i]) < CLIPPED_FROM
    {
      NextDigit(digits, i);
      if value > 1000 {
        return sign * 1001;
      }
      value := value * 10 + DigitValue(digits[i]);
    }
    assert digits[..|digits|] == digits;
    return sign * value;
  }

  lemma NextDigit(digits: string, i: nat)
    requires AllDigits(digits) && i < |digits|
    ensures DigitsValue(digits[..i + 1]) == DigitsValue(digits[..i]) * 10 + DigitValue(digits[i]) <= DigitsValue(digits)
  {
    ValueOfLast(digits[..i], digits[i]);
    assert digits[..i + 1] == digits[..i] + [digits[i]];
    PrefixValue(digits, i + 1);
  }

  lemma {:induction false} PrefixValue(s: string, i: nat)
    requires AllDigits(s) && i <= |s|
    ensures DigitsValue(s[..i]) <= DigitsValue(s)
    decreases |s|
  {
    if i < |s| {
      PrefixValue(s[..|s| - 1], i);
      assert s[..|s| - 1][..i] == s[..i];
    } else {
      assert s[..i] == s;
    }
  }

  /** The reader once sign, exponent and point are gone: digits to be moved by `shift` places. */
  method ReadShifted(significand: string, shift: int) returns (value: Option<nat>)
    requires AllDigits(significand) && DigitsValue(significand) > 0
    ensures value == Shifted(DigitsValue(significand), shift)
  {
    var lexeme := significand;
    if shift < 0 {
      var trim := -shift;
      if trim > |lexeme| {
        TooManyPlaces(significand, trim);
        return None;
      }
      var kept, dropped := lexeme[..|lexeme| - trim], lexeme[|lexeme| - trim..];
      Cut(significand, trim);
      if TrimLeft(dropped) != "" {
        TrimmedValue(dropped);
        return None;
      }
      TrimmedValue(dropped);
      lexeme := kept;
    } else if shift > 0 {
      TrimmedValue(significand);
      if shift > 16 || |TrimLeft(lexeme)| + shift > 16 {
        TooLong(DigitsValue(significand), |TrimLeft(significand)|, shift);
        return None;
      }
      Padded(significand, shift);
      lexeme := lexeme + Zeros(shift);
    }
    assert DigitsValue(lexeme) > 0 && Scaled(DigitsValue(significand), shift, DigitsValue(lexeme));
    ScaledIsUnique(DigitsValue(significand), shift, DigitsValue(lexeme));
    TrimmedValue(lexeme);
    ghost var k := DigitsValue(lexeme);
    lexeme := TrimLeft(lexeme);
    if |lexeme| > 16 {
      SixteenDigits();
      Pow10Monotone(16, |lexeme| - 1);
      return None;
    }
    var parsed := DigitsValue(lexeme);
    if parsed > MAX_SAFE_INTEGER {
      return None;
    }
    return Some(parsed);
  }

  lemma SixteenDigits()
    ensures Pow10(16) > MAX_SAFE_INTEGER
  {
    assert Pow10(8) == 100000000;
    Pow10Add(8, 8);
  }

  /** The value lands in the safe range: a check on the digits' value and the shift. */
  predicate IsSafe(m: nat, shift: int) {
    if shift >= 0 then m * Pow10(shift) <= MAX_SAFE_INTEGER
    else m % Pow10(-shift) == 0 && m / Pow10(-shift) <= MAX_SAFE_INTEGER
  }

  function Shifted(m: nat, shift: int): (value: Option<nat>)
    ensures value.Some? <==> IsSafe(m, shift)
  {
    if !IsSafe(m, shift) then None
    else if shift >= 0 then Some(m * Pow10(shift))
    else Some(m / Pow10(-shift))
  }

  lemma ShiftedIsScaled(m: nat, shift: int, k: nat)
    ensures Shifted(m, shift) == Some(k) <==> Scaled(m, shift, k) && k <= MAX_SAFE_INTEGER
  {
    if shift < 0 {
      var p := Pow10(-shift);
      Divides(m, p);
      if m == k * p {
        Quotient(k, 0, p);
      }
    }
  }

  lemma Divides(m: nat, p: nat)
    requires p >= 1
    ensures m == m / p * p + m % p
  {}

  lemma Quotient(q: nat, r: nat, p: nat)
    requires r < p
    ensures (q * p + r) / p == q && (q * p + r) % p == r
  {
    var m := q * p + r;
    var q', r' := m / p, m % p;
    assert m == q' * p + r';
    Apart(q, r, q', r', p);
  }

  lemma Apart(q: nat, r: nat, q': nat, r': nat, p: nat)
    requires r < p && r' < p && q * p + r == q' * p + r'
    ensures q == q' && r == r'
  {
    if q < q' {
      Less(q, q', p);
    } else if q' < q {
      Less(q', q, p);
    }
  }

  lemma Less(q: nat, q': nat, p: nat)
    requires q < q'
    ensures q * p + p <= q' * p
  {
    assert q' * p == q * p + (q' - q) * p;
    Scale(q' - q, p);
  }

  lemma ScaledIsUnique(m: nat, shift: int, k: nat)
    requires Scaled(m, shift, k)
    ensures Shifted(m, shift) == if k <= MAX_SAFE_INTEGER then Some(k) else None
  {
    if shift < 0 {
      Quotient(k, 0, Pow10(-shift));
    }
  }

  lemma TooManyPlaces(s: string, trim: int)
    requires AllDigits(s) && DigitsValue(s) > 0 && trim > |s|
    ensures !IsSafe(DigitsValue(s), -trim)
  {
    ValueBound(s);
    Pow10Monotone(|s|, trim);
    Quotient(0, DigitsValue(s), Pow10(trim));
  }

  lemma Cut(s: string, trim: int)
    requires AllDigits(s) && 0 < trim <= |s|
    ensures var kept, dropped := DigitsValue(s[..|s| - trim]), DigitsValue(s[|s| - trim..]);
            && (dropped == 0 ==> Scaled(DigitsValue(s), -trim, kept) && (DigitsValue(s) > 0 ==> kept > 0))
            && (dropped != 0 ==> !IsSafe(DigitsValue(s), -trim))
  {
    var kept, dropped := s[..|s| - trim], s[|s| - trim..];
    assert s == kept + dropped;
    ValueOfConcat(kept, dropped);
    ValueBound(dropped);
    CutValue(DigitsValue(s), DigitsValue(kept), DigitsValue(dropped), trim);
  }

  lemma CutValue(m: nat, kept: nat, dropped: nat, trim: int)
    requires trim > 0 && m == kept * Pow10(trim) + dropped && dropped < Pow10(trim)
    ensures dropped == 0 ==> Scaled(m, -trim, kept) && (m > 0 ==> kept > 0)
    ensures dropped != 0 ==> !IsSafe(m, -trim)
  {
    Quotient(kept, dropped, Pow10(trim));
  }

  lemma TooLong(m: nat, length: nat, shift: nat)
    requires length >= 1 && m >= Pow10(length - 1) && length + shift > 16
    ensures !IsSafe(m, shift)
  {
    SixteenDigits();
    Pow10Add(length - 1, shift);
    Pow10Monotone(16, length - 1 + shift);
    Grow(Pow10(length - 1), m, Pow10(shift));
  }

  lemma Grow(a: nat, b: nat, p: nat)
    requires a <= b
    ensures a * p <= b * p
  {}

  lemma Padded(s: string, shift: nat)
    requires AllDigits(s)
    ensures AllDigits(s + Zeros(shift)) && DigitsValue(s + Zeros(shift)) == DigitsValue(s) * Pow10(shift)
    ensures DigitsValue(s) > 0 ==> DigitsValue(s + Zeros(shift)) > 0
  {
    ZerosHaveNoValue(Zeros(shift));
    ValueOfConcat(s, Zeros(shift));
    if DigitsValue(s) > 0 {
      Scale(DigitsValue(s), Pow10(shift));
    }
  }

  // ---------------------------------------------------------------- the reader, on lexemes

  /** The position of the first a or b, or the length. */
  function IndexAny(s: string, a: char, b: char): (i: nat)
    ensures i <= |s| && (forall j :: 0 <= j < i ==> s[j] != a && s[j] != b)
    ensures i < |s| ==> s[i] == a || s[i] == b
  {
    if s == "" || s[0] == a || s[0] == b then 0
    else
      var i := IndexAny(s[1..], a, b);
      assert forall j :: 0 < j < i + 1 ==> s[j] == s[1..][j - 1];
      i + 1
  }

  lemma {:induction false} IndexBehind(before: string, after: string, a: char, b: char)
    requires forall j :: 0 <= j < |before| ==> before[j] != a && before[j] != b
    requires after == "" || after[0] == a || after[0] == b
    ensures IndexAny(before + after, a, b) == |before|
  {
    if before == "" {
      assert before + after == after;
    } else {
      assert (before + after)[1..] == before[1..] + after;
      IndexBehind(before[1..], after, a, b);
    }
  }

  /** What the reader makes of a number: the value under the clipped exponent. */
  function Reading(n: Number): Option<nat>
    requires ValidNumber(n)
  {
    if Magnitude(n) == 0 then Some(0)
    else if n.negative then None
    else Shifted(Magnitude(n), ClippedExponent(n) - FractionDigits(n))
  }

  function Mantissa(n: Number): string { n.integer + FractionThen(n.fraction, "") }

  function Unsigned(n: Number): string { Mantissa(n) + ExponentThen(n.exponent, "") }

  lemma SignPart(n: Number)
    requires ValidNumber(n)
    ensures var lexeme := NumberText(n);
            if lexeme[0] == '-' then n.negative && lexeme[1..] == Unsigned(n) else !n.negative && lexeme == Unsigned(n)
  {
    var exponent := ExponentThen(n.exponent, "");
    assert FractionThen(n.fraction, exponent) == FractionThen(n.fraction, "") + exponent;
    assert n.integer + (FractionThen(n.fraction, "") + exponent) == Mantissa(n) + exponent;
    assert Unsigned(n)[0] == n.integer[0];
  }

  lemma ExponentPart(n: Number)
    requires ValidNumber(n)
    ensures var s := Unsigned(n);
            var i := IndexAny(s, 'e', 'E');
            && s[..i] == Mantissa(n)
            && if i < |s| then n.exponent.Some? && s[i + 1..] == n.exponent.value.sign + n.exponent.value.digits
               else n.exponent.None?
  {
    IndexBehind(Mantissa(n), ExponentThen(n.exponent, ""), 'e', 'E');
  }

  lemma FractionPart(n: Number)
    requires ValidNumber(n)
    ensures var s := Mantissa(n);
            var i := IndexAny(s, '.', '.');
            if i < |s| then |s| - i - 1 == FractionDigits(n) && s[..i] + s[i + 1..] == Significand(n)
            else FractionDigits(n) == 0 && s == Significand(n)
  {
    IndexBehind(n.integer, FractionThen(n.fraction, ""), '.', '.');
  }

  /** The test of number syntax: the lexeme as the value of an object's only member. */
  predicate PassesSyntaxTest(lexeme: string) {
    StrictJsonValidator.Validate(['{'] + (VALUE_KEY + (lexeme + "}")), V1_JSON_DEPTH, true).None?
  }

  const VALUE_KEY: string := "\"value\":"

  lemma MemberText(n: Number)
    ensures StringThen(Plain("value"), [':'] + NumberThen(n, "}")) == VALUE_KEY + (NumberText(n) + "}")
  {
    TextBefore(n, "}");
    PlainText("value", ['"'] + ([':'] + NumberThen(n, "}")));
    assert ['"'] + ("value" + (['"'] + ([':'] + (NumberText(n) + "}")))) == VALUE_KEY + (NumberText(n) + "}");
  }

  function TestItem(n: Number): Item { Item(Key(Plain("value"), "", ""), Numeral(n), "") }

  lemma TestText(n: Number)
    ensures TextThen(Filled(Curly, "", Last(TestItem(n))), "") == ['{'] + (VALUE_KEY + (NumberText(n) + "}"))
  {
    ObjectText(TestItem(n));
    MemberText(n);
    assert "" + "}" == "}" && "" + ([':'] + ("" + NumberThen(n, "}"))) == [':'] + NumberThen(n, "}");
  }

  lemma TestIsUtf8(n: Number)
    requires ValidNumber(n)
    ensures StrictJsonValidator.Utf8Valid(['{'] + (VALUE_KEY + (NumberText(n) + "}")))
  {
    NumberIsAscii(n);
    AsciiIsUtf8(['{'] + (VALUE_KEY + (NumberText(n) + "}")));
  }

  /** Number lexemes pass the test. */
  lemma NumbersPassTheTest(n: Number)
    requires ValidNumber(n)
    ensures PassesSyntaxTest(NumberText(n))
  {
    var t := Filled(Curly, "", Last(TestItem(n)));
    var data := TextThen(t, "");
    TestText(n);
    ObjectIsValid(TestItem(n));
    assert data == "" + data;
    assert IsDocument(data, V1_JSON_DEPTH, true, "", t, "");
    TestIsUtf8(n);
    StrictJsonValidator.AcceptsTheGrammar(data, V1_JSON_DEPTH, true);
  }

  /** A string of plain characters. */
  function Plain(s: string): (chars: seq<Char>)
    ensures |chars| == |s| && forall i :: 0 <= i < |s| ==> chars[i] == Raw(s[i])
  {
    seq(|s|, i requires 0 <= i < |s| => Raw(s[i]))
  }

  lemma {:induction false} PlainText(s: string, rest: string)
    ensures CharsThen(Plain(s), rest) == s + rest
  {
    if s != "" {
      PlainText(s[1..], rest);
      assert Plain(s)[1..] == Plain(s[1..]);
      assert [s[0]] + (s[1..] + rest) == s + rest;
    }
  }

  lemma ObjectText(item: Item)
    requires item.key.Key?
    ensures var afterKey := item.key.afterColon + TextThen(item.value, item.after + "}");
            TextThen(Filled(Curly, "", Last(item)), "")
            == ['{'] + (StringThen(item.key.chars, item.key.beforeColon + ([':'] + afterKey)))
  {
    assert [Close(Curly)] + "" == "}";
    assert "" + ItemsThen(Last(item), "}") == ItemThen(item, "}");
  }

  lemma ObjectIsValid(item: Item)
    requires ValidItem(item, Curly) && item.value.Numeral?
    ensures Valid(Filled(Curly, "", Last(item))) && NestsWithin(Filled(Curly, "", Last(item)), V1_JSON_DEPTH)
  {
    assert ValidItems(Last(item), Curly);
    assert |Keys(Last(item))| <= 1;
    assert Depth(item.value) == 0;
    assert ItemsDepth(Last(item)) == 0;
  }

  lemma TextBefore(n: Number, rest: string)
    ensures NumberThen(n, rest) == NumberText(n) + rest
  {
    assert ExponentThen(n.exponent, rest) == ExponentThen(n.exponent, "") + rest;
    assert FractionThen(n.fraction, ExponentThen(n.exponent, rest))
        == FractionThen(n.fraction, ExponentThen(n.exponent, "")) + rest;
  }

  predicate Ascii(s: string) { forall i :: 0 <= i < |s| ==> s[i] < 0x80 as char }

  lemma NumberIsAscii(n: Number)
    requires ValidNumber(n)
    ensures Ascii(NumberText(n))
  {
    assert Ascii(ExponentThen(n.exponent, ""));
    assert Ascii(FractionThen(n.fraction, ExponentThen(n.exponent, "")));
  }

  lemma {:induction false} AsciiIsUtf8(s: string)
    requires Ascii(s)
    ensures StrictJsonValidator.Utf8Valid(s)
    decreases |s|
  {
    if s != "" {
      AsciiIsUtf8(s[1..]);
    }
  }

  /** A value of an integer field: an integer is read from numbers only, by their lexeme. */
  method UnmarshalSafeInteger(value: Tree) returns (result: Option<nat>)
    requires Valid(value)
    ensures result == if value.Numeral? then Reading(value.number) else None
  {
    if !value.Numeral? {
      return None;
    }
    result := ParseSafeIntegerLexeme(NumberText(value.number), value.number);
  }

  /** Any valid lexeme is read as the reading of the number it spells. */
  method ParseSafeIntegerLexeme(lexeme: string, ghost n: Number) returns (value: Option<nat>)
    requires ValidNumber(n) && lexeme == NumberText(n)
    ensures value == Reading(n)
  {
    NumbersPassTheTest(n);
    if !PassesSyntaxTest(lexeme) {
      return None;
    }
    SignPart(n);
    if lexeme[0] == '-' {
      value := ReadUnsigned(lexeme[1..], true, n);
    } else {
      value := ReadUnsigned(lexeme, false, n);
    }
  }

  method ReadUnsigned(lexeme: string, negative: bool, ghost n: Number) returns (value: Option<nat>)
    requires ValidNumber(n) && lexeme == Unsigned(n) && negative == n.negative
    ensures value == Reading(n)
  {
    ExponentPart(n);
    var exponent := 0;
    var index := IndexAny(lexeme, 'e', 'E');
    var rest := lexeme[..index];
    if index < |lexeme| {
      exponent := ParseBoundedExponent(lexeme[index + 1..], n.exponent.value);
    }
    value := ReadMantissa(rest, exponent, negative, n);
  }

  method ReadMantissa(mantissa: string, exponent: int, negative: bool, ghost n: Number) returns (value: Option<nat>)
    requires ValidNumber(n) && mantissa == Mantissa(n) && exponent == ClippedExponent(n) && negative == n.negative
    ensures value == Reading(n)
  {
    FractionPart(n);
    var rest, fractionDigits := mantissa, 0;
    var index := IndexAny(rest, '.', '.');
    if index < |rest| {
      fractionDigits := |rest| - index - 1;
      rest := rest[..index] + rest[index + 1..];
    }
    value := ReadSignificand(rest, fractionDigits, exponent, negative, n);
  }

  method ReadSignificand(significand: string, fractionDigits: int, exponent: int, negative: bool, ghost n: Number)
    returns (value: Option<nat>)
    requires ValidNumber(n) && significand == Significand(n) && fractionDigits == FractionDigits(n)
    requires exponent == ClippedExponent(n) && negative == n.negative
    ensures value == Reading(n)
  {
    SignificandIsDigits(n);
    TrimmedValue(significand);
    if TrimLeft(significand) == "" {
      return Some(0);
    }
    if negative {
      return None;
    }
    value := ReadShifted(significand, exponent - fractionDigits);
  }

  // ---------------------------------------------------------------- when the reading is the value

  /** The promise: an integer is returned exactly when it is the value and safe. */
  ghost predicate ReadsExactly(n: Number)
    requires ValidNumber(n)
  {
    forall k: nat :: Reading(n) == Some(k) <==> Denotes(n, k) && k <= MAX_SAFE_INTEGER
  }

  lemma ZeroReadsExactly(n: Number)
    requires ValidNumber(n) && (Magnitude(n) == 0 || n.negative)
    ensures ReadsExactly(n)
  {
    var shift := ExponentValue(n) - FractionDigits(n);
    forall k: nat
      ensures Scaled(Magnitude(n), shift, k) && Magnitude(n) == 0 ==> k == 0
      ensures Scaled(Magnitude(n), shift, 0) ==> Magnitude(n) == 0
    {
      if shift < 0 && k > 0 {
        Scale(k, Pow10(-shift));
      } else if shift >= 0 && Magnitude(n) > 0 {
        Scale(Magnitude(n), Pow10(shift));
      }
    }
  }

  /** A positive value under two shifts is two values. */
  lemma ShiftsDiffer(m: nat, less: int, more: int, k: nat)
    requires m > 0 && less < more && Scaled(m, less, k)
    ensures !Scaled(m, more, k)
  {
    if less >= 0 {
      MorePlaces(m, less, more - less);
    } else if more < 0 {
      MorePlaces(k, -more, more - less);
    } else {
      assert Pow10(-less) >= 10;
      AcrossThePoint(m, k, Pow10(-less), Pow10(more));
    }
  }

  lemma AcrossThePoint(m: nat, k: nat, p: nat, q: nat)
    requires m > 0 && m == k * p && p >= 10 && q >= 1
    ensures m * q != k
  {
    Grow(10, p, k);
    Scale(q, m);
    assert m * q == q * m;
  }

  lemma MorePlaces(m: nat, places: nat, extra: nat)
    requires extra > 0
    ensures m > 0 ==> m * Pow10(places + extra) > m * Pow10(places) > 0
    ensures m == 0 ==> m * Pow10(places + extra) == m * Pow10(places) == 0
  {
    Pow10Add(places, extra);
    Associate(m, Pow10(places), Pow10(extra));
    Tenfold(m * Pow10(places), Pow10(extra), extra);
    if m > 0 {
      Scale(m, Pow10(places));
    }
  }

  lemma Associate(a: nat, b: nat, c: nat)
    ensures a * (b * c) == a * b * c
  {}

  lemma Tenfold(a: nat, p: nat, n: nat)
    requires n > 0 && p == Pow10(n)
    ensures a > 0 ==> a * p > a
    ensures a == 0 ==> a * p == 0
  {
    if a > 0 {
      assert p >= 10;
      assert a * p >= a * 10 by { Grow(10, p, a); }
    }
  }

  /** Exactly when the promise is kept: the exponent is not clipped, or the number is zero or negative,
      or neither the exponent as written nor the clipped one brings the digits into the safe range. */
  lemma ReadsExactlyIff(n: Number)
    requires ValidNumber(n)
    ensures ReadsExactly(n) <==>
            || !Clipped(n) || Magnitude(n) == 0 || n.negative
            || (&& !IsSafe(Magnitude(n), ClippedExponent(n) - FractionDigits(n))
                && !IsSafe(Magnitude(n), ExponentValue(n) - FractionDigits(n)))
  {
    if Magnitude(n) == 0 || n.negative {
      ZeroReadsExactly(n);
    } else {
      var m, used := Magnitude(n), ClippedExponent(n) - FractionDigits(n);
      var written := ExponentValue(n) - FractionDigits(n);
      forall k: nat
        ensures Shifted(m, written) == Some(k) <==> Denotes(n, k) && k <= MAX_SAFE_INTEGER
      {
        ShiftedIsScaled(m, written, k);
      }
      SameShifted(m, used, written);
      assert ReadsExactly(n) <==> Shifted(m, used) == Shifted(m, written) by {
        if ReadsExactly(n) && IsSafe(m, used) {
          assert Reading(n) == Some(Shifted(m, used).value);
        }
        if ReadsExactly(n) && IsSafe(m, written) {
          assert Denotes(n, Shifted(m, written).value);
        }
      }
      assert Clipped(n) <==> used != written;
    }
  }

  lemma SameShifted(m: nat, used: int, written: int)
    requires m > 0
    ensures Shifted(m, used) == Shifted(m, written) <==>
              used == written || (!IsSafe(m, used) && !IsSafe(m, written))
  {
    if used != written && IsSafe(m, used) && Shifted(m, used) == Shifted(m, written) {
      var k := Shifted(m, used).value;
      ShiftedIsScaled(m, used, k);
      ShiftedIsScaled(m, written, k);
      if used < written {
        ShiftsDiffer(m, used, written, k);
      } else {
        ShiftsDiffer(m, written, used, k);
      }
    }
  }

  /** Up to 986 digits the promise is kept whatever the exponent. */
  lemma FewDigitsReadExactly(n: Number)
    requires ValidNumber(n) && |Significand(n)| <= 986
    ensures ReadsExactly(n)
  {
    ReadsExactlyIff(n);
    SignificandIsDigits(n);
    if Clipped(n) && Magnitude(n) > 0 {
      OutOfReach(Significand(n), ClippedExponent(n) - FractionDigits(n));
      OutOfReach(Significand(n), ExponentValue(n) - FractionDigits(n));
    }
  }

  lemma OutOfReach(s: string, shift: int)
    requires AllDigits(s) && DigitsValue(s) > 0 && |s| <= 986 && (shift >= 16 || shift < -986)
    ensures !IsSafe(DigitsValue(s), shift)
  {
    if shift >= 16 {
      TrimmedValue(s);
      TooLong(DigitsValue(s), |TrimLeft(s)|, shift);
    } else {
      TooManyPlaces(s, -shift);
    }
  }

  /** The clipping shows: a 1, 1001 zeros and the exponent -10010 is read as 1, though its value is no integer. */
  lemma ClippedNegativeExponentIsMisread()
    ensures var n := Number(false, "1" + Zeros(1001), None, Some(Exponent('e', "-", "10010")));
            ValidNumber(n) && Reading(n) == Some(1) && forall k: nat :: !Denotes(n, k)
  {
    var n := Number(false, "1" + Zeros(1001), None, Some(Exponent('e', "-", "10010")));
    TenThousandAndTen();
    OneAndZeros(1001);
    assert Significand(n) == "1" + Zeros(1001);
    OneThousandPlaces(Pow10(1001));
  }

  lemma OneAndZeros(zeros: nat)
    ensures AllDigits("1" + Zeros(zeros)) && DigitsValue("1" + Zeros(zeros)) == Pow10(zeros)
  {
    Padded("1", zeros);
    assert DigitsValue("1") == 1;
  }

  lemma OneThousandPlaces(m: nat)
    requires m == Pow10(1001)
    ensures Shifted(m, -1001) == Some(1) && forall k: nat :: !Scaled(m, -10010, k)
  {
    ScaledIsUnique(m, -1001, 1);
    forall k: nat
      ensures !Scaled(m, -10010, k)
    {
      MorePlaces(1, 1001, 9009);
      if k > 0 {
        Scale(k, Pow10(10010));
      }
    }
  }

  /** 986 digits is the best bound: a fraction of 985 zeros and a 1 with the exponent 10010 is read as 10^15. */
  lemma BoundIsSharp()
    ensures var n := Number(false, "0", Some(Zeros(985) + "1"), Some(Exponent('e', "", "10010")));
            ValidNumber(n) && |Significand(n)| == 987 && Reading(n) == Some(Pow10(15)) && !Denotes(n, Pow10(15))
  {
    var n := Number(false, "0", Some(Zeros(985) + "1"), Some(Exponent('e', "", "10010")));
    TenThousandAndTen();
    assert Significand(n) == Zeros(986) + "1";
    ZerosHaveNoValue(Zeros(986));
    ValueOfConcat(Zeros(986), "1");
    assert DigitsValue("1") == 1;
    assert Magnitude(n) == 1;
    assert Pow10(15) <= MAX_SAFE_INTEGER by {
      assert Pow10(7) == 10000000;
      Pow10Add(7, 8);
      assert Pow10(8) == 100000000;
    }
    assert Scaled(1, 15, Pow10(15));
    ScaledIsUnique(1, 15, Pow10(15));
    ShiftsDiffer(1, 15, 9024, Pow10(15));
  }

  lemma TenThousandAndTen()
    ensures AllDigits("10010") && DigitsValue("10010") == 10010
  {
    ValueOfLast("", '1');
    ValueOfLast("1", '0');
    ValueOfLast("10", '0');
    ValueOfLast("100", '1');
    ValueOfLast("1001", '0');
    assert "" + ['1'] == "1" && "1" + ['0'] == "10" && "10" + ['0'] == "100";
    assert "100" + ['1'] == "1001" && "1001" + ['0'] == "10010";
  }
}
