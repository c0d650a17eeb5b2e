/** Numbers as record identities: plain decimal where it is short, canonical scientific otherwise. */
module IdentityNumbers {
  import opened Wire
  import opened JsonNumber
  import opened Decimal
  import opened SafeInteger
  import opened CanonicalNumbers

  const MAX_EXPANDED: int := 8192

  /** Digits spread over a whole and a fractional part, no exponent. */
  function Plain(digits: string, exponent: int): (plain: Option<Number>)
    requires SomeDigits(digits)
    ensures plain.Some? ==> !plain.value.negative
  {
    var scale := exponent - (|digits| - 1);
    if exponent < -MAX_EXPANDED || exponent > MAX_EXPANDED || |digits| > MAX_EXPANDED then None
    else if scale >= 0 then
      if |digits| + scale > MAX_EXPANDED then None else Some(Number(false, digits + Zeros(scale), None, None))
    else if |digits| + scale > 0 then
      Some(Number(false, digits[..|digits| + scale], Some(digits[|digits| + scale..]), None))
    else if 2 - (|digits| + scale) + |digits| > MAX_EXPANDED then None
    else Some(Number(false, "0", Some(Zeros(-(|digits| + scale)) + digits), None))
  }

  /** The number whose text identifies a record with this canonical key. */
  function IdentityOf(c: Canonical): Number
    requires Normal(c)
  {
    match c
    case Zero => AsNumber(c)
    case Scientific(negative, digits, exponent) =>
      match Plain(digits, exponent)
      case None => AsNumber(c)
      case Some(plain) =>
        if negative && |NumberText(plain)| + 1 > MAX_EXPANDED then AsNumber(c) else plain.(negative := negative)
  }

  predicate Trimmed(digits: string) { SomeDigits(digits) && digits[0] != '0' && digits[|digits| - 1] != '0' }

  lemma WholeForm(negative: bool, digits: string, scale: nat)
    requires Trimmed(digits)
    ensures var n := Number(negative, digits + Zeros(scale), None, None);
            ValidNumber(n) && Canonicalize(n) == Scientific(negative, digits, scale + |digits| - 1)
  {
    var n := Number(negative, digits + Zeros(scale), None, None);
    assert Significand(n) == digits + Zeros(scale);
    TrailingZeros(digits, scale);
  }

  lemma PointForm(negative: bool, digits: string, point: nat)
    requires Trimmed(digits) && 0 < point < |digits|
    ensures var n := Number(negative, digits[..point], Some(digits[point..]), None);
            ValidNumber(n) && Canonicalize(n) == Scientific(negative, digits, point - 1)
  {
    var n := Number(negative, digits[..point], Some(digits[point..]), None);
    assert Significand(n) == digits;
    NothingToTrim(digits);
  }

  lemma SmallForm(negative: bool, digits: string, zeros: int)
    requires Trimmed(digits) && zeros >= 0
    ensures var n := Number(negative, "0", Some(Zeros(zeros) + digits), None);
            ValidNumber(n) && Canonicalize(n) == Scientific(negative, digits, -zeros - 1)
  {
    var n := Number(negative, "0", Some(Zeros(zeros) + digits), None);
    assert Significand(n) == Zeros(zeros + 1) + digits;
    LeadingZeros(zeros + 1, digits);
    NothingToTrim(digits);
  }

  lemma PlainKeepsForm(negative: bool, digits: string, exponent: int)
    requires Trimmed(digits) && Plain(digits, exponent).Some?
    ensures ValidNumber(Plain(digits, exponent).value)
    ensures var n := Plain(digits, exponent).value.(negative := negative);
            ValidNumber(n) && Canonicalize(n) == Scientific(negative, digits, exponent)
  {
    var scale := exponent - (|digits| - 1);
    if scale >= 0 {
      WholeForm(negative, digits, scale);
    } else if |digits| + scale > 0 {
      PointForm(negative, digits, |digits| + scale);
    } else {
      SmallForm(negative, digits, -(|digits| + scale));
    }
  }

  lemma {:induction false} TrailingZeros(digits: string, places: nat)
    requires digits != "" && digits[0] != '0' && digits[|digits| - 1] != '0'
    ensures TrimLeft(digits + Zeros(places)) == digits + Zeros(places)
    ensures TrimRight(digits + Zeros(places)) == digits
  {
    var s := digits + Zeros(places);
    if places > 0 {
      TrailingZeros(digits, places - 1);
      assert s[..|s| - 1] == digits + Zeros(places - 1);
    } else {
      assert s == digits;
    }
  }

  lemma {:induction false} LeadingZeros(places: nat, digits: string)
    requires digits != "" && digits[0] != '0'
    ensures TrimLeft(Zeros(places) + digits) == digits
  {
    if places == 0 {
      assert Zeros(0) + digits == digits;
    } else {
      assert (Zeros(places) + digits)[1..] == Zeros(places - 1) + digits;
      LeadingZeros(places - 1, digits);
    }
  }

  function IdentityText(n: Number): string
    requires ValidNumber(n)
  {
    CanonicalizeReduces(n);
    NumberText(IdentityOf(Canonicalize(n)))
  }

  lemma IdentityKeepsForm(n: Number)
    requires ValidNumber(n)
    ensures Normal(Canonicalize(n)) && ValidNumber(IdentityOf(Canonicalize(n)))
    ensures Canonicalize(IdentityOf(Canonicalize(n))) == Canonicalize(n)
  {
    CanonicalizeReduces(n);
    var c := Canonicalize(n);
    AsNumberKeepsForm(c);
    if c.Scientific? && Plain(c.digits, c.exponent).Some? {
      PlainKeepsForm(c.negative, c.digits, c.exponent);
    }
  }

  /** An identity spells the value of the key, and two keys have one identity exactly when they have
      one value, across the plain and the scientific spelling. */
  lemma IdentityIsTheValue(n: Number, n': Number)
    requires ValidNumber(n) && ValidNumber(n')
    ensures exists i: Number :: ValidNumber(i) && NumberText(i) == IdentityText(n) && SameValue(i, n)
    ensures IdentityText(n) == IdentityText(n') <==> SameValue(n, n')
  {
    IdentityKeepsForm(n);
    IdentityKeepsForm(n');
    var i, i' := IdentityOf(Canonicalize(n)), IdentityOf(Canonicalize(n'));
    SameCanonicalIffSameValue(i, n);
    SameCanonicalIffSameValue(n, n');
    assert NumberText(i) == IdentityText(n);
    if IdentityText(n) == IdentityText(n') {
      TextIsUnique(i, i');
    }
  }

  // ---------------------------------------------------------------- which spelling it is

  /** A decimal spelling without exponent and without zeros to trim; zero is `0`. */
  predicate PlainSpelling(p: Number) {
    && ValidNumber(p) && p.exponent.None?
    && (p.fraction.Some? ==> p.fraction.value[|p.fraction.value| - 1] != '0')
    && (p.integer == "0" && p.fraction.None? ==> !p.negative)
  }

  /** At most 8192 characters; a point after other digits than a zero is not counted, unless there is a sign. */
  predicate ShortEnough(p: Number) {
    || |NumberText(p)| <= 8192
    || (|NumberText(p)| == 8193 && !p.negative && p.fraction.Some? && p.integer != "0")
  }

  /** A plain spelling identifies itself exactly while it is short enough; a longer one is identified by the
      scientific spelling. */
  lemma PlainIdentities(p: Number)
    requires PlainSpelling(p)
    ensures IdentityText(p) == if ShortEnough(p) then NumberText(p) else CanonicalText(p)
  {
    PlainLength(p);
    if p.fraction.Some? {
      if p.integer == "0" {
        SmallIdentity(p);
      } else {
        PointIdentity(p);
      }
    } else if p.integer != "0" {
      WholeIdentity(p);
    } else {
      assert Significand(p) == "0" && TrimLeft("0") == "";
      assert NumberText(p) == "0";
    }
  }

  lemma PlainLength(p: Number)
    requires PlainSpelling(p)
    ensures |NumberText(p)| == (if p.negative then 1 else 0) + |p.integer|
                               + if p.fraction.Some? then 1 + |p.fraction.value| else 0
    ensures |NumberText(p.(negative := false))| == |NumberText(p)| - if p.negative then 1 else 0
  {}

  lemma WholeIdentity(p: Number)
    requires PlainSpelling(p) && p.fraction.None? && p.integer != "0"
    ensures IdentityText(p) == if ShortEnough(p) then NumberText(p) else CanonicalText(p)
  {
    var digits := TrimRight(p.integer);
    WholeDigits(p.integer);
    var scale := |p.integer| - |digits|;
    assert p.integer == digits + Zeros(scale);
    WholeForm(p.negative, digits, scale);
    WholePlain(digits, scale);
    PlainLength(p);
  }

  lemma WholePlain(digits: string, scale: nat)
    requires Trimmed(digits)
    ensures Plain(digits, scale + |digits| - 1)
         == if |digits| + scale > 8192 then None else Some(Number(false, digits + Zeros(scale), None, None))
  {}

  lemma SmallPlain(digits: string, zeros: int)
    requires Trimmed(digits) && zeros >= 0
    ensures Plain(digits, -zeros - 1)
         == if 2 + zeros + |digits| > 8192 then None else Some(Number(false, "0", Some(Zeros(zeros) + digits), None))
  {}

  lemma {:induction false} WholeDigits(s: string)
    requires SomeDigits(s) && s[0] != '0'
    ensures Trimmed(TrimRight(s)) && s == TrimRight(s) + Zeros(|s| - |TrimRight(s)|)
  {
    assert s == s[..|TrimRight(s)|] + s[|TrimRight(s)|..];
  }

  lemma PointIdentity(p: Number)
    requires PlainSpelling(p) && p.fraction.Some? && p.integer != "0"
    ensures IdentityText(p) == if ShortEnough(p) then NumberText(p) else CanonicalText(p)
  {
    var digits, point := p.integer + p.fraction.value, |p.integer|;
    assert digits[..point] == p.integer && digits[point..] == p.fraction.value;
    PointForm(p.negative, digits, point);
    PlainLength(p);
    assert Plain(digits, point - 1).Some? ==> Plain(digits, point - 1).value == p.(negative := false);
  }

  lemma SmallIdentity(p: Number)
    requires PlainSpelling(p) && p.fraction.Some? && p.integer == "0"
    ensures IdentityText(p) == if ShortEnough(p) then NumberText(p) else CanonicalText(p)
  {
    var fraction := p.fraction.value;
    var digits := TrimLeft(fraction);
    SmallDigits(fraction);
    var zeros := |fraction| - |digits|;
    SmallForm(p.negative, digits, zeros);
    SmallPlain(digits, zeros);
    PlainLength(p);
  }

  lemma {:induction false} SmallDigits(s: string)
    requires SomeDigits(s) && s[|s| - 1] != '0'
    ensures Trimmed(TrimLeft(s)) && s == Zeros(|s| - |TrimLeft(s)|) + TrimLeft(s)
  {
    if s[0] == '0' {
      SmallDigits(s[1..]);
      assert s == "0" + s[1..];
    }
  }

  // ---------------------------------------------------------------- as the program computes it

  /** The identity is worked out of the canonical text, which is taken apart again. */
  method CanonicalIdentityNumber(lexeme: string, gate: string -> bool, ghost n: Number) returns (text: Option<string>)
    requires ValidNumber(n) && lexeme == NumberText(n)
    ensures text == if gate(lexeme) then Some(IdentityText(n)) else None
  {
    var canonical := CanonicalNumber(lexeme, gate, n);
    if canonical.None? {
      return None;
    }
    CanonicalizeReduces(n);
    ghost var c := Canonicalize(n);
    ZeroText(c);
    if canonical.value == "0" {
      return Some("0");
    }
    SignPart(AsNumber(c));
    IdentityOfPlain(c);
    if canonical.value[0] == '-' {
      var plain := PlainScientific(canonical.value[1..], c);
      if plain.None? || |plain.value| + 1 > MAX_EXPANDED {
        return canonical;
      }
      return Some("-" + plain.value);
    }
    var plain := PlainScientific(canonical.value, c);
    return if plain.None? then canonical else plain;
  }

  /** The plain text of an unsigned scientific one. */
  method PlainScientific(value: string, ghost c: Canonical) returns (plain: Option<string>)
    requires Normal(c) && c.Scientific? && value == Unsigned(AsNumber(c))
    ensures match Plain(c.digits, c.exponent)
            case None => plain == None
            case Some(n) => plain == Some(NumberText(n))
  {
    var digits, exponent := SplitScientific(value, c);
    plain := PlainText(digits, exponent);
  }

  lemma NegatedText(n: Number)
    requires !n.negative
    ensures NumberText(n.(negative := true)) == "-" + NumberText(n)
  {
    var rest := n.integer + FractionThen(n.fraction, ExponentThen(n.exponent, ""));
    assert "" + rest == rest;
  }

  lemma IdentityOfPlain(c: Canonical)
    requires Normal(c) && c.Scientific?
    ensures match Plain(c.digits, c.exponent)
            case None => IdentityOf(c) == AsNumber(c)
            case Some(n) =>
              NumberText(IdentityOf(c))
              == if !c.negative then NumberText(n)
                 else if |NumberText(n)| + 1 > MAX_EXPANDED then NumberText(AsNumber(c))
                 else "-" + NumberText(n)
  {
    var plain := Plain(c.digits, c.exponent);
    if plain.Some? && c.negative {
      NegatedText(plain.value);
    }
  }

  lemma ZeroText(c: Canonical)
    requires Normal(c)
    ensures NumberText(AsNumber(c)) == "0" <==> c.Zero?
  {
    if c.Scientific? {
      AsNumberText(c);
    }
  }

  /** The digits and the exponent of an unsigned scientific text. */
  method SplitScientific(value: string, ghost c: Canonical) returns (digits: string, exponent: int)
    requires Normal(c) && c.Scientific? && value == Unsigned(AsNumber(c))
    ensures digits == c.digits && exponent == c.exponent
  {
    ghost var n := AsNumber(c);
    ExponentPart(n);
    FractionPart(n);
    var index := IndexAny(value, 'e', 'E');
    exponent := IntValue(value[index + 1..], n.exponent.value);
    digits := value[..index];
    var point := IndexAny(digits, '.', '.');
    if point < |digits| {
      digits := digits[..point] + digits[point + 1..];
    }
    assert Significand(n) == c.digits;
  }

  /** The plain text of digits at an exponent, unless it would be too long. */
  method PlainText(digits: string, exponent: int) returns (plain: Option<string>)
    requires SomeDigits(digits)
    ensures match Plain(digits, exponent)
            case None => plain == None
            case Some(n) => plain == Some(NumberText(n))
  {
    if exponent < -MAX_EXPANDED || exponent > MAX_EXPANDED {
      return None;
    }
    if |digits| > MAX_EXPANDED {
      return None;
    }
    var scale := exponent - (|digits| - 1);
    if scale >= 0 {
      if |digits| + scale > MAX_EXPANDED {
        return None;
      }
      WholeText(digits + Zeros(scale));
      return Some(digits + Zeros(scale));
    }
    if |digits| + scale > 0 {
      var point := |digits| + scale;
      PointText(digits[..point], digits[point..]);
      return Some(digits[..point] + "." + digits[point..]);
    }
    var leadingZeros := -(|digits| + scale);
    if 2 + leadingZeros + |digits| > MAX_EXPANDED {
      return None;
    }
    PointText("0", Zeros(leadingZeros) + digits);
    return Some("0" + "." + (Zeros(leadingZeros) + digits));
  }

  lemma WholeText(whole: string)
    ensures NumberText(Number(false, whole, None, None)) == whole
  {
    assert "" + (whole + "") == whole;
  }

  lemma PointText(whole: string, fraction: string)
    ensures NumberText(Number(false, whole, Some(fraction), None)) == whole + "." + fraction
  {
    assert "" + (whole + (['.'] + (fraction + ""))) == whole + "." + fraction;
  }
}
