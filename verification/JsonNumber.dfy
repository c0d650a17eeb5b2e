/** JSON number lexemes, section 6 of RFC 8259. */
module JsonNumber {
  import opened Wire

  datatype Exponent = Exponent(marker: char, sign: string, digits: string)

  datatype Number = Number(negative: bool, integer: string, fraction: Option<string>, exponent: Option<Exponent>)

  predicate IsDigit(c: char) { '0' <= c <= '9' }

  predicate AllDigits(s: string) { forall i :: 0 <= i < |s| ==> IsDigit(s[i]) }

  predicate SomeDigits(s: string) { s != "" && AllDigits(s) }

  predicate ValidExponent(e: Exponent) {
    (e.marker == 'e' || e.marker == 'E') && (e.sign == "" || e.sign == "+" || e.sign == "-") && SomeDigits(e.digits)
  }

  predicate ValidNumber(n: Number) {
    && SomeDigits(n.integer) && (n.integer[0] == '0' ==> |n.integer| == 1)
    && (n.fraction.Some? ==> SomeDigits(n.fraction.value))
    && (n.exponent.Some? ==> ValidExponent(n.exponent.value))
  }

  // The lexeme followed by more text: writing each part in front of what comes after it.

  function NumberThen(n: Number, rest: string): string {
    (if n.negative then "-" else "") + (n.integer + FractionThen(n.fraction, ExponentThen(n.exponent, rest)))
  }

  function FractionThen(fraction: Option<string>, rest: string): string {
    match fraction
    case None => rest
    case Some(digits) => ['.'] + (digits + rest)
  }

  function ExponentThen(exponent: Option<Exponent>, rest: string): string {
    match exponent
    case None => rest
    case Some(e) => [e.marker] + (e.sign + (e.digits + rest))
  }

  function NumberText(n: Number): string { NumberThen(n, "") }
}
