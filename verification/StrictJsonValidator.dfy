/** The validator's entry point, and the theorem that it decides the grammar. */
module StrictJsonValidator {
  import opened Wire
  import opened JsonText
  import opened StrictJson
  import opened StrictJsonGrammar

  // ---------------------------------------------------------------- UTF-8

  predicate Continues(s: Bytes, i: nat, low: int, high: int) { i < |s| && low <= s[i] as int <= high }

  /** The width of the UTF-8 encoding s starts with, 0 if it starts with none (section 4 of RFC 3629). */
  function RuneWidth(s: Bytes): (width: nat)
    requires s != ""
    ensures width <= 4 && width <= |s|
  {
    var b := s[0] as int;
    if b < 0x80 then 1
    else if 0xC2 <= b <= 0xDF then if Continues(s, 1, 0x80, 0xBF) then 2 else 0
    else if 0xE0 <= b <= 0xEF then
      var low, high := if b == 0xE0 then 0xA0 else 0x80, if b == 0xED then 0x9F else 0xBF;
      if Continues(s, 1, low, high) && Continues(s, 2, 0x80, 0xBF) then 3 else 0
    else if 0xF0 <= b <= 0xF4 then
      var low, high := if b == 0xF0 then 0x90 else 0x80, if b == 0xF4 then 0x8F else 0xBF;
      if Continues(s, 1, low, high) && Continues(s, 2, 0x80, 0xBF) && Continues(s, 3, 0x80, 0xBF) then 4 else 0
    else 0
  }

  predicate Utf8Valid(s: Bytes)
    decreases |s|
  {
    s == "" || (RuneWidth(s) > 0 && Utf8Valid(s[RuneWidth(s)..]))
  }

  /** How far decoding one rune moves: over an encoding, or over one byte where there is none. */
  function RuneSize(s: Bytes): (size: nat)
    requires s != ""
    ensures 1 <= size <= |s|
  {
    if RuneWidth(s) == 0 then 1 else RuneWidth(s)
  }

  // ---------------------------------------------------------------- validation

  function Validate(data: Bytes, limit: int, requireObject: bool): Option<JsonError> {
    var s := AfterBlanks(data);
    if !Utf8Valid(data) then Some(InvalidUtf8)
    else if s == "" then Some(InvalidJson)
    else if requireObject && s[0] != '{' then Some(InvalidJson)
    else
      match ParseValue(s, 1, limit)
      case Failed(error) => Some(error)
      case Parsed(_, rest) => if AfterBlanks(rest) != "" then Some(InvalidJson) else None
  }

  /** What is accepted is exactly what is valid UTF-8 and derives from the grammar within the limits. */
  lemma AcceptsTheGrammar(data: Bytes, limit: int, requireObject: bool)
    ensures Validate(data, limit, requireObject).None? <==> Utf8Valid(data) && Derives(data, limit, requireObject)
  {
    if Validate(data, limit, requireObject).None? {
      AcceptedDerives(data, limit, requireObject);
    } else if Derives(data, limit, requireObject) {
      var before, t, after :| IsDocument(data, limit, requireObject, before, t, after);
      DerivedIsAccepted(data, limit, requireObject, before, t, after);
    }
  }

  lemma AcceptedDerives(data: Bytes, limit: int, requireObject: bool)
    requires Validate(data, limit, requireObject).None?
    ensures Derives(data, limit, requireObject)
  {
    var s := AfterBlanks(data);
    var p := ParseValue(s, 1, limit);
    BlanksSound(data);
    ValueSound(s, 1, limit);
    BlanksSound(p.rest);
    assert Blanks(p.rest) == p.rest;
    assert IsDocument(data, limit, requireObject, Blanks(data), p.value, p.rest);
  }

  lemma DerivedIsAccepted(data: Bytes, limit: int, requireObject: bool, before: Bytes, t: Tree, after: Bytes)
    requires IsDocument(data, limit, requireObject, before, t, after)
    ensures Utf8Valid(data) ==> Validate(data, limit, requireObject).None?
  {
    ValueStarts(t, after);
    BlanksOf(before, TextThen(t, after));
    assert after + "" == after;
    BlanksOf(after, "");
    ValueOf(t, after, 1, limit);
  }

  /** A derivation is unique: no text has two trees. */
  lemma DerivationsAreUnique(data: Bytes, limit: int, before: Bytes, t: Tree, after: Bytes, before': Bytes, t': Tree,
                             after': Bytes)
    requires IsDocument(data, limit, false, before, t, after) && IsDocument(data, limit, false, before', t', after')
    ensures before == before' && t == t' && after == after'
  {
    ValueStarts(t, after);
    ValueStarts(t', after');
    BlanksOf(before, TextThen(t, after));
    BlanksOf(before', TextThen(t', after'));
    ValueOf(t, after, 1, limit);
    ValueOf(t', after', 1, limit);
  }

  /** Nothing that is accepted holds a line break, which is what makes lines frames. */
  lemma AcceptedIsOneLine(data: Bytes, limit: int, requireObject: bool)
    requires Validate(data, limit, requireObject).None?
    ensures data != "" && OneLine(data)
  {
    AcceptedDerives(data, limit, requireObject);
    var before, t, after :| IsDocument(data, limit, requireObject, before, t, after);
    ValueStarts(t, after);
    TextOneLine(t, after);
  }

  // ---------------------------------------------------------------- decoding a literal

  /** What a library decoder makes of a string literal, from inside it up to its closing quote. */
  function Unquote(s: Bytes): Bytes
    decreases |s|, 0
  {
    if s == "" || s[0] == '"' then ""
    else if s[0] != '\\' then [s[0]] + Unquote(s[1..])
    else if |s| == 1 then ""
    else if s[1] != 'u' then [EscapeValue(s[1])] + Unquote(s[1..][1..])
    else
      match ParseHex(s[1..][1..])
      case Failed(_) => ""
      case Parsed(digits, rest) => UnquoteUnit(CodeUnit(digits), rest)
  }

  function UnquoteUnit(code: nat, s: Bytes): Bytes
    requires code < 0x10000
    decreases |s|, 1
  {
    if HighSurrogate(code) && Starts(s, '\\') && Starts(s[1..], 'u') && ParseHex(s[1..][1..]).Parsed?
       && LowSurrogate(CodeUnit(ParseHex(s[1..][1..]).value))
    then
      var low := ParseHex(s[1..][1..]);
      Utf8(PairValue(code, CodeUnit(low.value))) + Unquote(low.rest)
    else Utf8(code) + Unquote(s)
  }

  lemma {:induction false} UnquoteIsDecode(chars: seq<Char>, rest: Bytes)
    requires ValidChars(chars)
    ensures Unquote(CharsThen(chars, ['"'] + rest)) == Decode(chars)
  {
    if chars != [] {
      var tail := CharsThen(chars[1..], ['"'] + rest);
      UnquoteIsDecode(chars[1..], rest);
      UnquoteChar(chars[0], tail);
    }
  }

  lemma UnquoteChar(c: Char, tail: Bytes)
    requires ValidChar(c)
    ensures Unquote(CharThen(c, tail)) == DecodeChar(c) + Unquote(tail)
  {
    match c
    case Raw(_) =>
    case Simple(_) =>
    case Unit(digits) => HexOf(digits, tail);
    case Pair(high, low) =>
      HexOf(low, tail);
      HexOf(high, ['\\'] + (['u'] + (low + tail)));
  }
}
