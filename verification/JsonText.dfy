/**
  The texts the wire accepts: the grammar of RFC 8259 with whitespace narrowed to space and tab,
  given by concrete syntax trees that keep every byte, and the text of a tree.
*/
module JsonText {
  import opened Wire
  import opened JsonNumber

  /** One element of a string literal; a `Pair` is two escapes forming a surrogate pair. */
  datatype Char =
    | Raw(c: char)
    | Simple(letter: char)
    | Unit(digits: Bytes)
    | Pair(high: Bytes, low: Bytes)

  datatype Bracket = Curly | Square

  datatype Tree =
    | Literal(word: Bytes)
    | Numeral(number: Number)
    | String(chars: seq<Char>)
    | Empty(bracket: Bracket, gap: Bytes)
    | Filled(bracket: Bracket, gap: Bytes, items: Items)

  /** Array elements or object members; each but the last is followed by a comma and a gap. */
  datatype Items =
    | Last(item: Item)
    | Then(item: Item, gap: Bytes, more: Items)

  datatype Item = Item(key: Key, value: Tree, after: Bytes)

  /** What stands before a value: nothing in an array, the key and its colon in an object. */
  datatype Key = NoKey | Key(chars: seq<Char>, beforeColon: Bytes, afterColon: Bytes)

  // ---------------------------------------------------------------- text

  // The text of each part followed by more text.

  function CharThen(c: Char, rest: Bytes): Bytes {
    match c
    case Raw(c) => [c] + rest
    case Simple(letter) => ['\\'] + ([letter] + rest)
    case Unit(digits) => ['\\'] + (['u'] + (digits + rest))
    case Pair(high, low) => ['\\'] + (['u'] + (high + (['\\'] + (['u'] + (low + rest)))))
  }

  function CharsThen(chars: seq<Char>, rest: Bytes): Bytes {
    if chars == [] then rest else CharThen(chars[0], CharsThen(chars[1..], rest))
  }

  function StringThen(chars: seq<Char>, rest: Bytes): Bytes { ['"'] + CharsThen(chars, ['"'] + rest) }

  function Open(bracket: Bracket): char { if bracket.Curly? then '{' else '[' }

  function Close(bracket: Bracket): char { if bracket.Curly? then '}' else ']' }

  function TextThen(t: Tree, rest: Bytes): Bytes {
    match t
    case Literal(word) => word + rest
    case Numeral(number) => NumberThen(number, rest)
    case String(chars) => StringThen(chars, rest)
    case Empty(bracket, gap) => [Open(bracket)] + (gap + ([Close(bracket)] + rest))
    case Filled(bracket, gap, items) => [Open(bracket)] + (gap + ItemsThen(items, [Close(bracket)] + rest))
  }

  function ItemsThen(items: Items, rest: Bytes): Bytes {
    match items
    case Last(item) => ItemThen(item, rest)
    case Then(item, gap, more) => ItemThen(item, [','] + (gap + ItemsThen(more, rest)))
  }

  function ItemThen(item: Item, rest: Bytes): Bytes { KeyThen(item.key, TextThen(item.value, item.after + rest)) }

  function KeyThen(key: Key, rest: Bytes): Bytes {
    match key
    case NoKey => rest
    case Key(chars, beforeColon, afterColon) => StringThen(chars, beforeColon + ([':'] + (afterColon + rest)))
  }

  // ---------------------------------------------------------------- the grammar

  predicate IsSpace(c: char) { c == ' ' || c == '\t' }

  predicate Blank(s: Bytes) { forall i :: 0 <= i < |s| ==> IsSpace(s[i]) }

  predicate IsHex(c: char) { '0' <= c <= '9' || 'a' <= c <= 'f' || 'A' <= c <= 'F' }

  function HexDigit(c: char): nat
    requires IsHex(c)
  {
    if c <= '9' then c as int - '0' as int
    else if 'a' <= c then c as int - 'a' as int + 10
    else c as int - 'A' as int + 10
  }

  predicate FourHex(digits: Bytes) { |digits| == 4 && forall i :: 0 <= i < 4 ==> IsHex(digits[i]) }

  function CodeUnit(digits: Bytes): (code: nat)
    requires FourHex(digits)
    ensures code < 0x10000
  {
    HexDigit(digits[0]) * 4096 + HexDigit(digits[1]) * 256 + HexDigit(digits[2]) * 16 + HexDigit(digits[3])
  }

  predicate HighSurrogate(code: nat) { 0xd800 <= code <= 0xdbff }

  predicate LowSurrogate(code: nat) { 0xdc00 <= code <= 0xdfff }

  predicate SimpleEscape(c: char) {
    c == '"' || c == '\\' || c == '/' || c == 'b' || c == 'f' || c == 'n' || c == 'r' || c == 't'
  }

  predicate ValidChar(c: Char) {
    match c
    case Raw(c) => c >= ' ' && c != '"' && c != '\\'
    case Simple(letter) => SimpleEscape(letter)
    case Unit(digits) => FourHex(digits) && !HighSurrogate(CodeUnit(digits)) && !LowSurrogate(CodeUnit(digits))
    case Pair(high, low) =>
      FourHex(high) && FourHex(low) && HighSurrogate(CodeUnit(high)) && LowSurrogate(CodeUnit(low))
  }

  predicate ValidChars(chars: seq<Char>) { forall i :: 0 <= i < |chars| ==> ValidChar(chars[i]) }

  predicate Valid(t: Tree) {
    match t
    case Literal(word) => word == "true" || word == "false" || word == "null"
    case Numeral(number) => ValidNumber(number)
    case String(chars) => ValidChars(chars)
    case Empty(_, gap) => Blank(gap)
    case Filled(bracket, gap, items) => Blank(gap) && ValidItems(items, bracket) && Distinct(Keys(items))
  }

  predicate ValidItems(items: Items, bracket: Bracket) {
    match items
    case Last(item) => ValidItem(item, bracket)
    case Then(item, gap, more) => ValidItem(item, bracket) && Blank(gap) && ValidItems(more, bracket)
  }

  predicate ValidItem(item: Item, bracket: Bracket) {
    ValidKey(item.key, bracket) && Valid(item.value) && Blank(item.after)
  }

  predicate ValidKey(key: Key, bracket: Bracket) {
    match key
    case NoKey => bracket.Square?
    case Key(chars, beforeColon, afterColon) =>
      bracket.Curly? && ValidChars(chars) && Blank(beforeColon) && Blank(afterColon)
  }

  // ---------------------------------------------------------------- decoded keys

  /** The UTF-8 encoding of a code point (section 3 of RFC 3629). */
  function Utf8(code: nat): Bytes
    requires code < 0x110000
  {
    if code < 0x80 then [code as char]
    else if code < 0x800 then [(0xC0 + code / 64) as char, (0x80 + code % 64) as char]
    else if code < 0x10000 then
      [(0xE0 + code / 4096) as char, (0x80 + code / 64 % 64) as char, (0x80 + code % 64) as char]
    else
      [(0xF0 + code / 262144) as char, (0x80 + code / 4096 % 64) as char, (0x80 + code / 64 % 64) as char,
       (0x80 + code % 64) as char]
  }

  function EscapeValue(letter: char): char {
    match letter
    case 'b' => 8 as char
    case 'f' => 12 as char
    case 'n' => '\n'
    case 'r' => '\r'
    case 't' => '\t'
    case c => c
  }

  function PairValue(high: nat, low: nat): nat
    requires HighSurrogate(high) && LowSurrogate(low)
  {
    0x10000 + (high - 0xd800) * 1024 + (low - 0xdc00)
  }

  function DecodeChar(c: Char): Bytes
    requires ValidChar(c)
  {
    match c
    case Raw(c) => [c]
    case Simple(letter) => [EscapeValue(letter)]
    case Unit(digits) => Utf8(CodeUnit(digits))
    case Pair(high, low) => Utf8(PairValue(CodeUnit(high), CodeUnit(low)))
  }

  /** What a string literal stands for: the key comparison is on these, not on the spelling. */
  function Decode(chars: seq<Char>): Bytes
    requires ValidChars(chars)
  {
    if chars == [] then "" else DecodeChar(chars[0]) + Decode(chars[1..])
  }

  /** The decoded keys of an object's members, in order; an array has none. */
  function Keys(items: Items): seq<Bytes> {
    match items
    case Last(item) => KeyOf(item.key)
    case Then(item, _, more) => KeyOf(item.key) + Keys(more)
  }

  function KeyOf(key: Key): seq<Bytes> {
    if key.Key? && ValidChars(key.chars) then [Decode(key.chars)] else []
  }

  predicate Distinct(keys: seq<Bytes>) { forall i, j :: 0 <= i < j < |keys| ==> keys[i] != keys[j] }

  // ---------------------------------------------------------------- nesting

  /** The number of containers on the deepest path. */
  function Depth(t: Tree): nat {
    match t
    case Empty(_, _) => 1
    case Filled(_, _, items) => 1 + ItemsDepth(items)
    case _ => 0
  }

  function ItemsDepth(items: Items): nat {
    match items
    case Last(item) => Depth(item.value)
    case Then(item, _, more) => Max(Depth(item.value), ItemsDepth(more))
  }

  predicate NestsWithin(t: Tree, limit: int) { Depth(t) == 0 || Depth(t) <= limit }

  predicate ItemsNestWithin(items: Items, limit: int) { ItemsDepth(items) == 0 || ItemsDepth(items) <= limit }

  /** The texts the validator is for. */
  ghost predicate Derives(data: Bytes, limit: int, requireObject: bool) {
    exists before: Bytes, t: Tree, after: Bytes ::
      IsDocument(data, limit, requireObject, before, t, after)
  }

  predicate IsObject(t: Tree) { (t.Empty? || t.Filled?) && t.bracket.Curly? }

  ghost predicate IsDocument(data: Bytes, limit: int, requireObject: bool, before: Bytes, t: Tree, after: Bytes) {
    && data == before + TextThen(t, after)
    && Blank(before) && Blank(after) && Valid(t) && NestsWithin(t, limit)
    && (requireObject ==> IsObject(t))
  }

  // ---------------------------------------------------------------- no line breaks

  predicate OneLine(s: Bytes) { forall i :: 0 <= i < |s| ==> s[i] != '\n' && s[i] != '\r' }

  lemma {:induction false} CharsOneLine(chars: seq<Char>, rest: Bytes)
    requires ValidChars(chars) && OneLine(rest)
    ensures OneLine(CharsThen(chars, rest))
  {
    if chars != [] {
      assert ValidChar(chars[0]);
      CharsOneLine(chars[1..], rest);
    }
  }

  /** Nothing in a tree's text is a line break. */
  lemma {:induction false} TextOneLine(t: Tree, rest: Bytes)
    requires Valid(t) && OneLine(rest)
    ensures OneLine(TextThen(t, rest))
    decreases t
  {
    match t
    case Literal(_) =>
    case Numeral(number) => NumberOneLine(number, rest);
    case String(chars) => CharsOneLine(chars, ['"'] + rest);
    case Empty(_, _) =>
    case Filled(bracket, _, items) => ItemsOneLine(items, bracket, [Close(bracket)] + rest);
  }

  lemma NumberOneLine(n: Number, rest: Bytes)
    requires ValidNumber(n) && OneLine(rest)
    ensures OneLine(NumberThen(n, rest))
  {
    assert OneLine(ExponentThen(n.exponent, rest));
    assert OneLine(FractionThen(n.fraction, ExponentThen(n.exponent, rest)));
  }

  lemma {:induction false} ItemsOneLine(items: Items, bracket: Bracket, rest: Bytes)
    requires ValidItems(items, bracket) && OneLine(rest)
    ensures OneLine(ItemsThen(items, rest))
    decreases items
  {
    if items.Last? {
      ItemOneLine(items.item, bracket, rest);
    } else {
      ItemsOneLine(items.more, bracket, rest);
      ItemOneLine(items.item, bracket, [','] + (items.gap + ItemsThen(items.more, rest)));
    }
  }

  lemma {:induction false} ItemOneLine(item: Item, bracket: Bracket, rest: Bytes)
    requires ValidItem(item, bracket) && OneLine(rest)
    ensures OneLine(ItemThen(item, rest))
    decreases item
  {
    TextOneLine(item.value, item.after + rest);
    if item.key.Key? {
      var key := item.key;
      CharsOneLine(key.chars,
                   ['"'] + (key.beforeColon + ([':'] + (key.afterColon + TextThen(item.value, item.after + rest)))));
    }
  }
}
