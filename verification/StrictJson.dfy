/**
  The validator as recursive functions on the text that is left.  They follow the parser's decisions
  one for one and keep the syntax tree of what they read, so every acceptance names the derivation it
  found; a failure keeps only its kind.
*/
module StrictJson {
  import opened Wire
  import opened JsonNumber
  import opened JsonText

  datatype JsonError = InvalidUtf8 | InvalidJson | DepthExceeded | DuplicateKey

  datatype Parse<+T> = Parsed(value: T, rest: Bytes) | Failed(error: JsonError)

  predicate Starts(s: Bytes, c: char) { s != "" && s[0] == c }

  // ---------------------------------------------------------------- tokens

  /** The blanks s starts with, and what comes after them. */
  function Blanks(s: Bytes): Bytes { if s != "" && IsSpace(s[0]) then [s[0]] + Blanks(s[1..]) else "" }

  function AfterBlanks(s: Bytes): (rest: Bytes)
    ensures |rest| <= |s| && (rest != "" ==> !IsSpace(rest[0]))
  {
    if s != "" && IsSpace(s[0]) then AfterBlanks(s[1..]) else s
  }

  predicate StartsDigit(s: Bytes) { s != "" && IsDigit(s[0]) }

  function Digits(s: Bytes): Bytes { if StartsDigit(s) then [s[0]] + Digits(s[1..]) else "" }

  function AfterDigits(s: Bytes): (rest: Bytes)
    ensures |rest| <= |s| && !StartsDigit(rest) && (StartsDigit(s) ==> |rest| < |s|)
  {
    if StartsDigit(s) then AfterDigits(s[1..]) else s
  }

  function ParseInteger(s: Bytes): (p: Parse<string>)
    ensures p.Parsed? ==> |p.rest| < |s|
  {
    if Starts(s, '0') then
      if StartsDigit(s[1..]) then Failed(InvalidJson) else Parsed("0", s[1..])
    else if !StartsDigit(s) then Failed(InvalidJson)
    else Parsed(Digits(s), AfterDigits(s))
  }

  function ParseFraction(s: Bytes): (p: Parse<Option<string>>)
    ensures p.Parsed? ==> |p.rest| <= |s|
  {
    if !Starts(s, '.') then Parsed(None, s)
    else if !StartsDigit(s[1..]) then Failed(InvalidJson)
    else Parsed(Some(Digits(s[1..])), AfterDigits(s[1..]))
  }

  function ParseExponent(s: Bytes): (p: Parse<Option<Exponent>>)
    ensures p.Parsed? ==> |p.rest| <= |s|
  {
    if !Starts(s, 'e') && !Starts(s, 'E') then Parsed(None, s)
    else
      var signed := Starts(s[1..], '+') || Starts(s[1..], '-');
      var tail := if signed then s[2..] else s[1..];
      if !StartsDigit(tail) then Failed(InvalidJson)
      else Parsed(Some(Exponent(s[0], if signed then [s[1]] else "", Digits(tail))), AfterDigits(tail))
  }

  function ParseNumber(s: Bytes): (p: Parse<Tree>)
    ensures p.Parsed? ==> |p.rest| < |s|
  {
    var negative := Starts(s, '-');
    match ParseInteger(if negative then s[1..] else s)
    case Failed(e) => Failed(e)
    case Parsed(integer, afterInteger) =>
      match ParseFraction(afterInteger)
      case Failed(e) => Failed(e)
      case Parsed(fraction, afterFraction) =>
        match ParseExponent(afterFraction)
        case Failed(e) => Failed(e)
        case Parsed(exponent, rest) => Parsed(Numeral(Number(negative, integer, fraction, exponent)), rest)
  }

  function ParseLiteral(s: Bytes, word: Bytes): (p: Parse<Tree>)
    requires word != ""
    ensures p.Parsed? ==> |p.rest| < |s|
  {
    if word <= s then Parsed(Literal(word), s[|word|..]) else Failed(InvalidJson)
  }

  /** Four hexadecimal digits. */
  function ParseHex(s: Bytes): (p: Parse<Bytes>)
    ensures p.Parsed? ==> |p.rest| < |s| && FourHex(p.value)
  {
    if |s| < 4 || !FourHex(s[..4]) then Failed(InvalidJson) else Parsed(s[..4], s[4..])
  }

  /** An escape, from its backslash on. */
  function ParseEscape(s: Bytes): (p: Parse<Char>)
    requires Starts(s, '\\')
    ensures p.Parsed? ==> |p.rest| < |s| && ValidChar(p.value)
  {
    if |s| == 1 then Failed(InvalidJson)
    else if SimpleEscape(s[1]) then Parsed(Simple(s[1]), s[1..][1..])
    else if s[1] != 'u' then Failed(InvalidJson)
    else
      match ParseHex(s[1..][1..])
      case Failed(e) => Failed(e)
      case Parsed(digits, rest) =>
        if HighSurrogate(CodeUnit(digits)) then ParseLow(digits, rest)
        else if LowSurrogate(CodeUnit(digits)) then Failed(InvalidJson)
        else Parsed(Unit(digits), rest)
  }

  /** The escaped low surrogate a high one needs. */
  function ParseLow(high: Bytes, s: Bytes): (p: Parse<Char>)
    requires FourHex(high) && HighSurrogate(CodeUnit(high))
    ensures p.Parsed? ==> |p.rest| < |s| && ValidChar(p.value)
  {
    if !Starts(s, '\\') || !Starts(s[1..], 'u') then Failed(InvalidJson)
    else
      match ParseHex(s[1..][1..])
      case Failed(e) => Failed(e)
      case Parsed(low, rest) =>
        if LowSurrogate(CodeUnit(low)) then Parsed(Pair(high, low), rest) else Failed(InvalidJson)
  }

  /** The rest of a string literal, from inside it up to and including the closing quote. */
  function ParseChars(s: Bytes): (p: Parse<seq<Char>>)
    ensures p.Parsed? ==> |p.rest| < |s| && ValidChars(p.value)
    decreases |s|
  {
    if s == "" then Failed(InvalidJson)
    else if s[0] == '"' then Parsed([], s[1..])
    else if s[0] == '\\' then
      match ParseEscape(s)
      case Failed(e) => Failed(e)
      case Parsed(c, rest) => Prepend(c, ParseChars(rest))
    else if s[0] < ' ' then Failed(InvalidJson)
    else Prepend(Raw(s[0]), ParseChars(s[1..]))
  }

  function Prepend(c: Char, rest: Parse<seq<Char>>): Parse<seq<Char>> {
    match rest
    case Failed(e) => Failed(e)
    case Parsed(chars, rest) => Parsed([c] + chars, rest)
  }

  /** A string literal, from its opening quote on. */
  function ParseString(s: Bytes): (p: Parse<seq<Char>>)
    requires Starts(s, '"')
    ensures p.Parsed? ==> |p.rest| < |s| && ValidChars(p.value)
  {
    ParseChars(s[1..])
  }

  // ---------------------------------------------------------------- values

  function ParseValue(s: Bytes, depth: int, limit: int): (p: Parse<Tree>)
    ensures p.Parsed? ==> |p.rest| < |s|
    decreases |s|, 1
  {
    if s == "" then Failed(InvalidJson)
    else if s[0] == '{' then ParseContainer(s, Curly, depth, limit)
    else if s[0] == '[' then ParseContainer(s, Square, depth, limit)
    else if s[0] == '"' then
      match ParseString(s)
      case Failed(e) => Failed(e)
      case Parsed(chars, rest) => Parsed(String(chars), rest)
    else if s[0] == 't' then ParseLiteral(s, "true")
    else if s[0] == 'f' then ParseLiteral(s, "false")
    else if s[0] == 'n' then ParseLiteral(s, "null")
    else ParseNumber(s)
  }

  function ParseContainer(s: Bytes, bracket: Bracket, depth: int, limit: int): (p: Parse<Tree>)
    requires Starts(s, Open(bracket))
    ensures p.Parsed? ==> |p.rest| < |s|
    decreases |s|, 0
  {
    if depth > limit then Failed(DepthExceeded)
    else
      var inside := AfterBlanks(s[1..]);
      if Starts(inside, Close(bracket)) then Parsed(Empty(bracket, Blanks(s[1..])), inside[1..])
      else
        match ParseItems(inside, bracket, depth, limit, {})
        case Failed(e) => Failed(e)
        case Parsed(items, rest) => Parsed(Filled(bracket, Blanks(s[1..]), items), rest)
  }

  predicate ReadableKey(key: Key) { key.Key? ==> ValidChars(key.chars) }

  predicate IsNew(key: Key, seen: set<Bytes>)
    requires ReadableKey(key)
  {
    key.Key? ==> Decode(key.chars) !in seen
  }

  function With(seen: set<Bytes>, key: Key): set<Bytes>
    requires ReadableKey(key)
  {
    if key.Key? then seen + {Decode(key.chars)} else seen
  }

  /** In an object, a key that was not seen before and its colon, up to the value. */
  function ParseKey(s: Bytes, bracket: Bracket, seen: set<Bytes>): (p: Parse<Key>)
    ensures p.Parsed? ==> |p.rest| <= |s| && ReadableKey(p.value)
  {
    if bracket.Square? then Parsed(NoKey, s)
    else if !Starts(s, '"') then Failed(InvalidJson)
    else
      match ParseString(s)
      case Failed(e) => Failed(e)
      case Parsed(chars, tail) =>
        if Decode(chars) in seen then Failed(DuplicateKey)
        else if !Starts(AfterBlanks(tail), ':') then Failed(InvalidJson)
        else
          var afterColon := AfterBlanks(tail)[1..];
          Parsed(Key(chars, Blanks(tail), Blanks(afterColon)), AfterBlanks(afterColon))
  }

  /** One element or member and the blanks after it. */
  function ParseItem(s: Bytes, bracket: Bracket, depth: int, limit: int, seen: set<Bytes>): (p: Parse<Item>)
    ensures p.Parsed? ==> |p.rest| < |s| && ReadableKey(p.value.key)
    decreases |s|, 2
  {
    match ParseKey(s, bracket, seen)
    case Failed(e) => Failed(e)
    case Parsed(key, tail) =>
      match ParseValue(tail, depth + 1, limit)
      case Failed(e) => Failed(e)
      case Parsed(value, rest) => Parsed(Item(key, value, Blanks(rest)), AfterBlanks(rest))
  }

  /** The elements or members, up to and including the closing bracket. */
  function ParseItems(s: Bytes, bracket: Bracket, depth: int, limit: int, seen: set<Bytes>): (p: Parse<Items>)
    ensures p.Parsed? ==> |p.rest| < |s|
    decreases |s|, 3
  {
    match ParseItem(s, bracket, depth, limit, seen)
    case Failed(e) => Failed(e)
    case Parsed(item, tail) =>
      if Starts(tail, Close(bracket)) then Parsed(Last(item), tail[1..])
      else if !Starts(tail, ',') then Failed(InvalidJson)
      else
        match ParseItems(AfterBlanks(tail[1..]), bracket, depth, limit, With(seen, item.key))
        case Failed(e) => Failed(e)
        case Parsed(more, rest) => Parsed(Then(item, Blanks(tail[1..]), more), rest)
  }
}
