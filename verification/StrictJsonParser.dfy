/** The parser object: a position that only moves forward, method for method the functions of StrictJson. */
module StrictJsonParser {
  import opened Wire
  import opened JsonText
  import opened StrictJson
  import opened StrictJsonGrammar
  import opened StrictJsonValidator

  /** Two readings of a text end alike, whatever they read. */
  predicate EndAlike<T, U>(p: Parse<T>, q: Parse<U>) {
    match p
    case Parsed(_, rest) => q.Parsed? && q.rest == rest
    case Failed(error) => q.Failed? && q.error == error
  }

  lemma {:induction false} HighBytes(s: Bytes, n: nat)
    requires n <= |s| && forall k :: 0 <= k < n ==> s[k] as int >= 0x80
    ensures EndAlike(ParseChars(s), ParseChars(s[n..]))
  {
    if n > 0 {
      HighBytes(s[1..], n - 1);
      assert s[1..][n - 1..] == s[n..];
    }
  }

  /** Moving over a rune skips nothing a string treats specially. */
  lemma RuneIsRaw(s: Bytes)
    requires s != "" && s[0] as int >= 0x80
    ensures EndAlike(ParseChars(s), ParseChars(s[RuneSize(s)..]))
  {
    HighBytes(s, RuneSize(s));
  }

  // One round of the loops over a container.

  lemma ContainerOpens(s: Bytes, bracket: Bracket, depth: int, limit: int)
    requires Starts(s, Open(bracket)) && depth <= limit
    ensures var p := ParseContainer(s, bracket, depth, limit);
            var inside := AfterBlanks(s[1..]);
            if Starts(inside, Close(bracket)) then p.Parsed? && p.rest == inside[1..]
            else EndAlike(p, ParseItems(inside, bracket, depth, limit, {}))
  {}

  /** What is left of a container once an item was read. */
  predicate AfterItem(p: Parse<Items>, tail: Bytes, bracket: Bracket, depth: int, limit: int, seen: set<Bytes>) {
    if Starts(tail, Close(bracket)) then p.Parsed? && p.rest == tail[1..]
    else if !Starts(tail, ',') then p == Failed(InvalidJson)
    else EndAlike(p, ParseItems(AfterBlanks(tail[1..]), bracket, depth, limit, seen))
  }

  lemma ArrayRound(s: Bytes, depth: int, limit: int)
    ensures var p := ParseItems(s, Square, depth, limit, {});
            match ParseValue(s, depth + 1, limit)
            case Failed(e) => p == Failed(e)
            case Parsed(_, rest) => AfterItem(p, AfterBlanks(rest), Square, depth, limit, {})
  {
    assert ParseKey(s, Square, {}) == Parsed(NoKey, s);
    ItemRound(s, Square, depth, limit, {});
  }

  lemma KeyFails(s: Bytes, depth: int, limit: int, seen: set<Bytes>)
    requires ParseKey(s, Curly, seen).Failed?
    ensures ParseItems(s, Curly, depth, limit, seen) == Failed(ParseKey(s, Curly, seen).error)
  {
    assert ParseItem(s, Curly, depth, limit, seen) == Failed(ParseKey(s, Curly, seen).error);
  }

  lemma ItemRound(s: Bytes, bracket: Bracket, depth: int, limit: int, seen: set<Bytes>)
    requires ParseKey(s, bracket, seen).Parsed?
    ensures var p := ParseItems(s, bracket, depth, limit, seen);
            var key := ParseKey(s, bracket, seen);
            match ParseValue(key.rest, depth + 1, limit)
            case Failed(e) => p == Failed(e)
            case Parsed(_, rest) => AfterItem(p, AfterBlanks(rest), bracket, depth, limit, With(seen, key.value))
  {
    var key := ParseKey(s, bracket, seen);
    var value := ParseValue(key.rest, depth + 1, limit);
    if value.Parsed? {
      assert ParseItem(s, bracket, depth, limit, seen)
          == Parsed(Item(key.value, value.value, Blanks(value.rest)), AfterBlanks(value.rest));
    }
  }

  class Parser {
    const data: Bytes
    const maximumDepth: int
    var position: nat

    constructor (data: Bytes, maximumDepth: int)
      ensures this.data == data && this.maximumDepth == maximumDepth && position == 0
    {
      this.data, this.maximumDepth, position := data, maximumDepth, 0;
    }

    ghost predicate Valid()
      reads this
    {
      position <= |data|
    }

    /** The text that is left. */
    function Left(): Bytes
      requires Valid()
      reads this
    {
      data[position..]
    }

    /** The outcome of a method and the position it left are those of a reading. */
    ghost predicate Follows<T>(p: Parse<T>, error: Option<JsonError>)
      reads this
    {
      && Valid()
      && match p
         case Parsed(_, rest) => error.None? && Left() == rest
         case Failed(e) => error == Some(e)
    }

    method Step()
      requires Valid() && position < |data|
      modifies this
      ensures Valid() && position == old(position) + 1 && Left() == old(Left())[1..]
    {
      position := position + 1;
    }

    method SkipWhitespace()
      requires Valid()
      modifies this
      ensures Valid() && Left() == AfterBlanks(old(Left())) && position >= old(position)
    {
      while position < |data| && (data[position] == ' ' || data[position] == '\t')
        invariant old(position) <= position <= |data|
        invariant AfterBlanks(Left()) == AfterBlanks(old(Left()))
      {
        Step();
      }
    }

    method Consume(value: char) returns (ok: bool)
      requires Valid()
      modifies this
      ensures Valid() && ok == Starts(old(Left()), value)
      ensures if ok then Left() == old(Left())[1..] && position == old(position) + 1
              else position == old(position)
    {
      if position < |data| && data[position] == value {
        Step();
        return true;
      }
      return false;
    }

    method ParseWord(word: Bytes) returns (error: Option<JsonError>)
      requires Valid() && word != ""
      modifies this
      ensures Follows(ParseLiteral(old(Left()), word), error) && position >= old(position)
    {
      ghost var s := Left();
      assert |word| <= |s| ==> s[..|word|] == data[position..position + |word|];
      if |data| - position < |word| || data[position..position + |word|] != word {
        return Some(InvalidJson);
      }
      position := position + |word|;
      assert Left() == s[|word|..];
      return None;
    }

    method SkipDigits()
      requires Valid()
      modifies this
      ensures Valid() && Left() == AfterDigits(old(Left())) && position >= old(position)
    {
      while position < |data| && '0' <= data[position] <= '9'
        invariant old(position) <= position <= |data|
        invariant AfterDigits(Left()) == AfterDigits(old(Left()))
      {
        Step();
      }
    }

    /** The parts of a number after its sign. */
    method ParseIntegerPart() returns (error: Option<JsonError>)
      requires Valid()
      modifies this
      ensures Follows(ParseInteger(old(Left())), error) && position >= old(position)
    {
      var zero := Consume('0');
      if zero {
        if position < |data| && '0' <= data[position] <= '9' {
          return Some(InvalidJson);
        }
        return None;
      }
      if position >= |data| || data[position] < '1' || data[position] > '9' {
        return Some(InvalidJson);
      }
      SkipDigits();
      return None;
    }

    method ParseFractionPart() returns (error: Option<JsonError>)
      requires Valid()
      modifies this
      ensures Follows(ParseFraction(old(Left())), error) && position >= old(position)
    {
      var point := Consume('.');
      if point {
        if position >= |data| || data[position] < '0' || data[position] > '9' {
          return Some(InvalidJson);
        }
        SkipDigits();
      }
      return None;
    }

    method ParseExponentPart() returns (error: Option<JsonError>)
      requires Valid()
      modifies this
      ensures Follows(ParseExponent(old(Left())), error) && position >= old(position)
    {
      if position < |data| && (data[position] == 'e' || data[position] == 'E') {
        ghost var s := Left();
        Step();
        if position < |data| && (data[position] == '+' || data[position] == '-') {
          Step();
          assert Left() == s[2..];
        }
        if position >= |data| || data[position] < '0' || data[position] > '9' {
          return Some(InvalidJson);
        }
        SkipDigits();
      }
      return None;
    }

    method ParseNumeral() returns (error: Option<JsonError>)
      requires Valid()
      modifies this
      ensures Follows(ParseNumber(old(Left())), error) && position >= old(position)
    {
      var minus := Consume('-');
      if minus && position >= |data| {
        return Some(InvalidJson);
      }
      error := ParseIntegerPart();
      if error.Some? {
        return;
      }
      error := ParseFractionPart();
      if error.Some? {
        return;
      }
      error := ParseExponentPart();
    }

    method ParseHexCodeUnit() returns (code: nat, error: Option<JsonError>)
      requires Valid()
      modifies this
      ensures Follows(ParseHex(old(Left())), error) && position >= old(position)
      ensures error.None? ==> code == CodeUnit(ParseHex(old(Left())).value)
    {
      ghost var s := Left();
      code := 0;
      if position + 4 > |data| {
        return 0, Some(InvalidJson);
      }
      var i := 0;
      while i < 4
        invariant 0 <= i <= 4 && position == old(position) + i && old(position) + 4 <= |data|
        invariant forall k :: 0 <= k < i ==> IsHex(s[k])
        invariant i == 0 ==> code == 0
        invariant i == 1 ==> code == HexDigit(s[0])
        invariant i == 2 ==> code == HexDigit(s[0]) * 16 + HexDigit(s[1])
        invariant i == 3 ==> code == HexDigit(s[0]) * 256 + HexDigit(s[1]) * 16 + HexDigit(s[2])
        invariant i == 4 ==> code == CodeUnit(s[..4])
      {
        var b := data[position];
        assert b == s[i];
        position := position + 1;
        if !IsHex(b) {
          assert s[..4][i] == b;
          return 0, Some(InvalidJson);
        }
        code := code * 16 + HexDigit(b);
        i := i + 1;
      }
      assert Left() == s[4..];
      return code, None;
    }

    /** An escape whose backslash is at the position. */
    method ParseEscapeSequence() returns (error: Option<JsonError>)
      requires Valid() && Starts(Left(), '\\')
      modifies this
      ensures Follows(ParseEscape(old(Left())), error) && position > old(position)
    {
      Step();
      if position >= |data| {
        return Some(InvalidJson);
      }
      var escape := data[position];
      Step();
      if escape in ['"', '\\', '/', 'b', 'f', 'n', 'r', 't'] {
        return None;
      }
      if escape != 'u' {
        return Some(InvalidJson);
      }
      var code;
      code, error := ParseHexCodeUnit();
      if error.Some? {
        return;
      }
      if 0xd800 <= code <= 0xdbff {
        error := ParseLowSurrogate(ParseHex(old(Left())[1..][1..]).value);
      } else if 0xdc00 <= code <= 0xdfff {
        error := Some(InvalidJson);
      }
    }

    method ParseLowSurrogate(ghost high: Bytes) returns (error: Option<JsonError>)
      requires Valid() && FourHex(high) && HighSurrogate(CodeUnit(high))
      modifies this
      ensures Follows(ParseLow(high, old(Left())), error) && position >= old(position)
    {
      if position + 2 > |data| || data[position] != '\\' || data[position + 1] != 'u' {
        return Some(InvalidJson);
      }
      ghost var s := Left();
      position := position + 2;
      assert Left() == s[1..][1..];
      var low;
      low, error := ParseHexCodeUnit();
      if error.Some? {
        return;
      }
      if low < 0xdc00 || low > 0xdfff {
        return Some(InvalidJson);
      }
    }

    /** A string literal whose opening quote is at the position, and what it decodes to. */
    method ParseStringLiteral() returns (decoded: Bytes, error: Option<JsonError>)
      requires Valid() && Starts(Left(), '"')
      modifies this
      ensures Follows(ParseString(old(Left())), error) && position > old(position)
      ensures error.None? ==> decoded == Decode(ParseString(old(Left())).value)
    {
      var start := position;
      ghost var literal := Left();
      decoded := "";
      Step();
      while position < |data|
        invariant start < position <= |data|
        invariant EndAlike(ParseString(literal), ParseChars(Left()))
      {
        var value := data[position];
        if value == '"' {
          Step();
          decoded := Unquote(data[start + 1..]);
          StringSound(literal);
          UnquoteIsDecode(ParseString(literal).value, ParseString(literal).rest);
          return decoded, None;
        } else if value == '\\' {
          error := ParseEscapeSequence();
          if error.Some? {
            return;
          }
        } else if value < ' ' {
          return "", Some(InvalidJson);
        } else if value as int < 0x80 {
          Step();
        } else {
          ghost var s := Left();
          RuneIsRaw(s);
          position := position + RuneSize(data[position..]);
          assert Left() == s[RuneSize(s)..];
        }
      }
      return "", Some(InvalidJson);
    }

    method ParseJsonValue(depth: int) returns (error: Option<JsonError>)
      requires Valid()
      modifies this
      ensures Follows(ParseValue(old(Left()), depth, maximumDepth), error) && position >= old(position)
      ensures error.None? ==> position > old(position)
      decreases |data| - position, 1
    {
      if position >= |data| {
        return Some(InvalidJson);
      }
      match data[position]
      case '{' => error := ParseObject(depth);
      case '[' => error := ParseArray(depth);
      case '"' =>
        var decoded;
        decoded, error := ParseStringLiteral();
      case 't' => error := ParseWord("true");
      case 'f' => error := ParseWord("false");
      case 'n' => error := ParseWord("null");
      case _ => error := ParseNumeral();
    }

    method ParseArray(depth: int) returns (error: Option<JsonError>)
      requires Valid() && Starts(Left(), '[')
      modifies this
      ensures Follows(ParseContainer(old(Left()), Square, depth, maximumDepth), error) && position >= old(position)
      decreases |data| - position, 0
    {
      if depth > maximumDepth {
        return Some(DepthExceeded);
      }
      ghost var whole := ParseContainer(Left(), Square, depth, maximumDepth);
      ContainerOpens(Left(), Square, depth, maximumDepth);
      Step();
      SkipWhitespace();
      var closed := Consume(']');
      if closed {
        return None;
      }
      while true
        invariant old(position) < position <= |data|
        invariant EndAlike(whole, ParseItems(Left(), Square, depth, maximumDepth, {}))
        decreases |data| - position
      {
        ArrayRound(Left(), depth, maximumDepth);
        error := ParseJsonValue(depth + 1);
        if error.Some? {
          return;
        }
        SkipWhitespace();
        closed := Consume(']');
        if closed {
          return None;
        }
        var comma := Consume(',');
        if !comma {
          return Some(InvalidJson);
        }
        SkipWhitespace();
      }
    }

    /** A member's key, not among those seen, and the colon after it. */
    method ParseMemberKey(seen: set<Bytes>) returns (key: Bytes, error: Option<JsonError>)
      requires Valid()
      modifies this
      ensures Follows(ParseKey(old(Left()), Curly, seen), error) && position >= old(position)
      ensures error.None? ==>
                && position > old(position)
                && seen + {key} == With(seen, ParseKey(old(Left()), Curly, seen).value)
    {
      key := "";
      if position >= |data| || data[position] != '"' {
        return key, Some(InvalidJson);
      }
      key, error := ParseStringLiteral();
      if error.Some? {
        return;
      }
      if key in seen {
        return key, Some(DuplicateKey);
      }
      SkipWhitespace();
      var colon := Consume(':');
      if !colon {
        return key, Some(InvalidJson);
      }
      SkipWhitespace();
    }

    method ParseObject(depth: int) returns (error: Option<JsonError>)
      requires Valid() && Starts(Left(), '{')
      modifies this
      ensures Follows(ParseContainer(old(Left()), Curly, depth, maximumDepth), error) && position >= old(position)
      decreases |data| - position, 0
    {
      if depth > maximumDepth {
        return Some(DepthExceeded);
      }
      ghost var whole := ParseContainer(Left(), Curly, depth, maximumDepth);
      ContainerOpens(Left(), Curly, depth, maximumDepth);
      Step();
      SkipWhitespace();
      var closed := Consume('}');
      if closed {
        return None;
      }
      var seen: set<Bytes> := {};
      while true
        invariant old(position) < position <= |data|
        invariant EndAlike(whole, ParseItems(Left(), Curly, depth, maximumDepth, seen))
        decreases |data| - position
      {
        ghost var s := Left();
        var key;
        key, error := ParseMemberKey(seen);
        if error.Some? {
          KeyFails(s, depth, maximumDepth, seen);
          return;
        }
        ItemRound(s, Curly, depth, maximumDepth, seen);
        seen := seen + {key};
        error := ParseJsonValue(depth + 1);
        if error.Some? {
          return;
        }
        SkipWhitespace();
        closed := Consume('}');
        if closed {
          return None;
        }
        var comma := Consume(',');
        if !comma {
          return Some(InvalidJson);
        }
        SkipWhitespace();
      }
    }
  }

  /** Validation accepts exactly the valid UTF-8 texts of the grammar, and says why it refuses a text. */
  method ValidateJson(data: Bytes, maximumDepth: int, requireObject: bool) returns (error: Option<JsonError>)
    ensures error == Validate(data, maximumDepth, requireObject)
    ensures error.None? <==> Utf8Valid(data) && Derives(data, maximumDepth, requireObject)
  {
    AcceptsTheGrammar(data, maximumDepth, requireObject);
    if !Utf8Valid(data) {
      return Some(InvalidUtf8);
    }
    var parser := new Parser(data, maximumDepth);
    assert parser.Left() == data;
    parser.SkipWhitespace();
    if parser.position >= |parser.data| {
      return Some(InvalidJson);
    }
    if requireObject && parser.data[parser.position] != '{' {
      return Some(InvalidJson);
    }
    error := parser.ParseJsonValue(1);
    if error.Some? {
      return;
    }
    parser.SkipWhitespace();
    if parser.position != |parser.data| {
      return Some(InvalidJson);
    }
  }
}
