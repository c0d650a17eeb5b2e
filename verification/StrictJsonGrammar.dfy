/** The validator reads exactly the texts of valid trees: it undoes TextThen, and TextThen undoes it. */
module StrictJsonGrammar {
  import opened Wire
  import opened JsonNumber
  import opened JsonText
  import opened StrictJson

  /** Each key is new when the parser meets it. */
  predicate Fresh(items: Items, seen: set<Bytes>) {
    && ReadableKey(items.item.key) && IsNew(items.item.key, seen)
    && (items.Then? ==> Fresh(items.more, With(seen, items.item.key)))
  }

  predicate AllNew(keys: seq<Bytes>, seen: set<Bytes>) { forall i :: 0 <= i < |keys| ==> keys[i] !in seen }

  /** Meeting only new keys is having pairwise distinct ones. */
  lemma {:induction false} FreshIsDistinct(items: Items, bracket: Bracket, seen: set<Bytes>)
    requires ValidItems(items, bracket)
    ensures Fresh(items, seen) <==> Distinct(Keys(items)) && AllNew(Keys(items), seen)
    decreases items
  {
    var first := KeyOf(items.item.key);
    if first != [] {
      assert first == [first[0]] && With(seen, items.item.key) == seen + {first[0]};
    }
    if items.Then? {
      FreshIsDistinct(items.more, bracket, With(seen, items.item.key));
      var keys := Keys(items.more);
      assert forall k :: 0 <= k < |keys| ==> Keys(items)[|first| + k] == keys[k];
      if first != [] {
        assert Keys(items)[0] == first[0];
      }
    }
  }

  // ---------------------------------------------------------------- what is read is a derivation

  lemma {:induction false} BlanksSound(s: Bytes)
    ensures Blank(Blanks(s)) && Blanks(s) + AfterBlanks(s) == s
  {
    if s != "" && IsSpace(s[0]) {
      BlanksSound(s[1..]);
      assert Blanks(s) + AfterBlanks(s) == [s[0]] + (Blanks(s[1..]) + AfterBlanks(s[1..]));
    }
  }

  lemma {:induction false} DigitsSound(s: Bytes)
    ensures AllDigits(Digits(s)) && Digits(s) + AfterDigits(s) == s
  {
    if StartsDigit(s) {
      DigitsSound(s[1..]);
      assert Digits(s) + AfterDigits(s) == [s[0]] + (Digits(s[1..]) + AfterDigits(s[1..]));
    }
  }

  lemma Uncons(s: Bytes)
    requires s != ""
    ensures s == [s[0]] + s[1..]
  {}

  lemma FractionSound(s: Bytes)
    requires ParseFraction(s).Parsed?
    ensures FractionThen(ParseFraction(s).value, ParseFraction(s).rest) == s
    ensures ParseFraction(s).value.Some? ==> SomeDigits(ParseFraction(s).value.value)
  {
    if Starts(s, '.') {
      DigitsSound(s[1..]);
      Uncons(s);
    }
  }

  lemma ExponentSound(s: Bytes)
    requires ParseExponent(s).Parsed?
    ensures ExponentThen(ParseExponent(s).value, ParseExponent(s).rest) == s
    ensures ParseExponent(s).value.Some? ==> ValidExponent(ParseExponent(s).value.value)
  {
    if ParseExponent(s).value.Some? {
      var tail := if Starts(s[1..], '+') || Starts(s[1..], '-') then s[2..] else s[1..];
      DigitsSound(tail);
      Uncons(s);
      if |tail| + 2 == |s| {
        Uncons(s[1..]);
        assert s[1..][1..] == tail;
      } else {
        assert "" + tail == tail;
      }
    }
  }

  lemma IntegerSound(s: Bytes)
    requires ParseInteger(s).Parsed?
    ensures ParseInteger(s).value + ParseInteger(s).rest == s
    ensures SomeDigits(ParseInteger(s).value)
    ensures ParseInteger(s).value[0] == '0' ==> |ParseInteger(s).value| == 1
  {
    DigitsSound(s);
    Uncons(s);
  }

  lemma NumberSound(s: Bytes)
    requires ParseNumber(s).Parsed?
    ensures ParseNumber(s).value.Numeral? && ValidNumber(ParseNumber(s).value.number)
    ensures NumberThen(ParseNumber(s).value.number, ParseNumber(s).rest) == s
  {
    var unsigned := if Starts(s, '-') then s[1..] else s;
    var integer := ParseInteger(unsigned);
    IntegerSound(unsigned);
    FractionSound(integer.rest);
    ExponentSound(ParseFraction(integer.rest).rest);
    if Starts(s, '-') {
      Uncons(s);
    } else {
      assert "" + s == s;
    }
  }

  lemma EscapeSound(s: Bytes)
    requires Starts(s, '\\') && ParseEscape(s).Parsed?
    ensures CharThen(ParseEscape(s).value, ParseEscape(s).rest) == s
  {
    Uncons(s);
    Uncons(s[1..]);
    if s[1] == 'u' {
      var tail := s[1..][1..];
      HexSound(tail);
      if ParseEscape(s).value.Pair? {
        LowSound(ParseHex(tail).value, ParseHex(tail).rest);
      }
    }
  }

  lemma HexSound(s: Bytes)
    requires ParseHex(s).Parsed?
    ensures ParseHex(s).value + ParseHex(s).rest == s
  {}

  lemma LowSound(high: Bytes, s: Bytes)
    requires FourHex(high) && HighSurrogate(CodeUnit(high)) && ParseLow(high, s).Parsed?
    ensures var p := ParseLow(high, s);
            p.value.Pair? && p.value.high == high && ['\\'] + (['u'] + (p.value.low + p.rest)) == s
  {
    Uncons(s);
    Uncons(s[1..]);
    HexSound(s[1..][1..]);
  }

  lemma {:induction false} CharsSound(s: Bytes)
    requires ParseChars(s).Parsed?
    ensures CharsThen(ParseChars(s).value, ['"'] + ParseChars(s).rest) == s
    decreases |s|
  {
    Uncons(s);
    if s[0] != '"' {
      var c, rest := Raw(s[0]), s[1..];
      if s[0] == '\\' {
        EscapeSound(s);
        c, rest := ParseEscape(s).value, ParseEscape(s).rest;
      }
      CharsSound(rest);
      assert ParseChars(s).value[1..] == ParseChars(rest).value;
    }
  }

  lemma StringSound(s: Bytes)
    requires Starts(s, '"') && ParseString(s).Parsed?
    ensures StringThen(ParseString(s).value, ParseString(s).rest) == s
  {
    CharsSound(s[1..]);
    Uncons(s);
  }

  lemma KeySound(s: Bytes, bracket: Bracket, seen: set<Bytes>)
    requires ParseKey(s, bracket, seen).Parsed?
    ensures var p := ParseKey(s, bracket, seen);
            KeyThen(p.value, p.rest) == s && ValidKey(p.value, bracket) && IsNew(p.value, seen)
  {
    if bracket.Curly? {
      var tail := ParseString(s).rest;
      StringSound(s);
      BlanksSound(tail);
      Uncons(AfterBlanks(tail));
      BlanksSound(AfterBlanks(tail)[1..]);
    }
  }

  /** The tree that was read is valid, nests within what the depth leaves, and its text is what was read. */
  lemma {:induction false} ValueSound(s: Bytes, depth: int, limit: int)
    requires ParseValue(s, depth, limit).Parsed?
    ensures Valid(ParseValue(s, depth, limit).value)
    ensures NestsWithin(ParseValue(s, depth, limit).value, limit - depth + 1)
    ensures TextThen(ParseValue(s, depth, limit).value, ParseValue(s, depth, limit).rest) == s
    decreases |s|, 1
  {
    if s[0] == '{' {
      ContainerSound(s, Curly, depth, limit);
    } else if s[0] == '[' {
      ContainerSound(s, Square, depth, limit);
    } else if s[0] == '"' {
      StringSound(s);
    } else if s[0] !in ['t', 'f', 'n'] {
      NumberSound(s);
    }
  }

  lemma {:induction false} ContainerSound(s: Bytes, bracket: Bracket, depth: int, limit: int)
    requires Starts(s, Open(bracket)) && ParseContainer(s, bracket, depth, limit).Parsed?
    ensures var p := ParseContainer(s, bracket, depth, limit);
            Valid(p.value) && NestsWithin(p.value, limit - depth + 1) && TextThen(p.value, p.rest) == s
    decreases |s|, 0
  {
    var inside := AfterBlanks(s[1..]);
    Uncons(s);
    BlanksSound(s[1..]);
    if Starts(inside, Close(bracket)) {
      Uncons(inside);
    } else {
      ItemsSound(inside, bracket, depth, limit, {});
      FreshIsDistinct(ParseItems(inside, bracket, depth, limit, {}).value, bracket, {});
    }
  }

  lemma {:induction false} ItemsSound(s: Bytes, bracket: Bracket, depth: int, limit: int, seen: set<Bytes>)
    requires ParseItems(s, bracket, depth, limit, seen).Parsed?
    ensures var p := ParseItems(s, bracket, depth, limit, seen);
            && ValidItems(p.value, bracket) && ItemsNestWithin(p.value, limit - depth) && Fresh(p.value, seen)
            && ItemsThen(p.value, [Close(bracket)] + p.rest) == s
    decreases |s|, 3
  {
    ItemSound(s, bracket, depth, limit, seen);
    var item := ParseItem(s, bracket, depth, limit, seen);
    Uncons(item.rest);
    if !Starts(item.rest, Close(bracket)) {
      BlanksSound(item.rest[1..]);
      ItemsSound(AfterBlanks(item.rest[1..]), bracket, depth, limit, With(seen, item.value.key));
    }
  }

  lemma {:induction false} ItemSound(s: Bytes, bracket: Bracket, depth: int, limit: int, seen: set<Bytes>)
    requires ParseItem(s, bracket, depth, limit, seen).Parsed?
    ensures var p := ParseItem(s, bracket, depth, limit, seen);
            && ValidItem(p.value, bracket) && NestsWithin(p.value.value, limit - depth) && IsNew(p.value.key, seen)
            && ItemThen(p.value, p.rest) == s
    decreases |s|, 2
  {
    var key := ParseKey(s, bracket, seen);
    KeySound(s, bracket, seen);
    ValueSound(key.rest, depth + 1, limit);
    BlanksSound(ParseValue(key.rest, depth + 1, limit).rest);
  }

  // ---------------------------------------------------------------- every derivation is read

  lemma {:induction false} BlanksOf(gap: Bytes, rest: Bytes)
    requires Blank(gap) && (rest != "" ==> !IsSpace(rest[0]))
    ensures Blanks(gap + rest) == gap && AfterBlanks(gap + rest) == rest
  {
    if gap == "" {
      assert gap + rest == rest;
    } else {
      BlanksOf(gap[1..], rest);
      assert gap + rest == [gap[0]] + (gap[1..] + rest);
    }
  }

  lemma {:induction false} DigitsOf(digits: Bytes, rest: Bytes)
    requires AllDigits(digits) && !StartsDigit(rest)
    ensures Digits(digits + rest) == digits && AfterDigits(digits + rest) == rest
  {
    if digits == "" {
      assert digits + rest == rest;
    } else {
      DigitsOf(digits[1..], rest);
      assert digits + rest == [digits[0]] + (digits[1..] + rest);
    }
  }

  /** What would make a longer number of the one before it. */
  predicate GoesOn(rest: Bytes) { StartsDigit(rest) || Starts(rest, '.') || Starts(rest, 'e') || Starts(rest, 'E') }

  lemma IntegerOf(integer: string, rest: Bytes)
    requires SomeDigits(integer) && (integer[0] == '0' ==> |integer| == 1) && !StartsDigit(rest)
    ensures ParseInteger(integer + rest) == Parsed(integer, rest)
  {
    DigitsOf(integer, rest);
    if integer[0] == '0' {
      assert integer == "0";
    }
  }

  lemma FractionOf(fraction: Option<string>, rest: Bytes)
    requires fraction.Some? ==> SomeDigits(fraction.value)
    requires !StartsDigit(rest) && !Starts(rest, '.')
    ensures ParseFraction(FractionThen(fraction, rest)) == Parsed(fraction, rest)
  {
    if fraction.Some? {
      DigitsOf(fraction.value, rest);
    }
  }

  lemma ExponentOf(exponent: Option<Exponent>, rest: Bytes)
    requires (exponent.Some? ==> ValidExponent(exponent.value)) && !GoesOn(rest)
    ensures ParseExponent(ExponentThen(exponent, rest)) == Parsed(exponent, rest)
  {
    if exponent.Some? {
      var e := exponent.value;
      var s := ExponentThen(exponent, rest);
      DigitsOf(e.digits, rest);
      assert s[1..] == e.sign + (e.digits + rest);
      if e.sign == "" {
        assert s[1..] == e.digits + rest;
      } else {
        assert s[2..] == e.digits + rest;
      }
    }
  }

  lemma NumberOf(n: Number, rest: Bytes)
    requires ValidNumber(n) && !GoesOn(rest)
    ensures ParseNumber(NumberThen(n, rest)) == Parsed(Numeral(n), rest)
    ensures StartsDigit(NumberThen(n, rest)) || Starts(NumberThen(n, rest), '-')
  {
    var afterFraction := ExponentThen(n.exponent, rest);
    var afterInteger := FractionThen(n.fraction, afterFraction);
    ExponentOf(n.exponent, rest);
    FractionOf(n.fraction, afterFraction);
    IntegerOf(n.integer, afterInteger);
    if !n.negative {
      assert NumberThen(n, rest) == n.integer + afterInteger;
    }
  }

  lemma HexOf(digits: Bytes, rest: Bytes)
    requires FourHex(digits)
    ensures ParseHex(digits + rest) == Parsed(digits, rest)
  {}

  lemma EscapeOf(c: Char, rest: Bytes)
    requires ValidChar(c) && !c.Raw?
    ensures Starts(CharThen(c, rest), '\\') && ParseEscape(CharThen(c, rest)) == Parsed(c, rest)
  {
    match c
    case Simple(_) =>
    case Unit(digits) => HexOf(digits, rest);
    case Pair(high, low) =>
      HexOf(low, rest);
      HexOf(high, ['\\'] + (['u'] + (low + rest)));
  }

  lemma {:induction false} CharsOf(chars: seq<Char>, rest: Bytes)
    requires ValidChars(chars)
    ensures ParseChars(CharsThen(chars, ['"'] + rest)) == Parsed(chars, rest)
  {
    if chars != [] {
      var tail := CharsThen(chars[1..], ['"'] + rest);
      CharsOf(chars[1..], rest);
      if !chars[0].Raw? {
        EscapeOf(chars[0], tail);
      }
      assert chars == [chars[0]] + chars[1..];
    }
  }

  lemma StringOf(chars: seq<Char>, rest: Bytes)
    requires ValidChars(chars)
    ensures Starts(StringThen(chars, rest), '"') && ParseString(StringThen(chars, rest)) == Parsed(chars, rest)
  {
    CharsOf(chars, rest);
  }

  /** Nothing that starts a value or a member is a blank or punctuation. */
  predicate StartsWell(s: Bytes) { s != "" && s[0] !in [' ', '\t', ',', ':', ']', '}'] }

  lemma ValueStarts(t: Tree, rest: Bytes)
    requires Valid(t)
    ensures StartsWell(TextThen(t, rest))
  {
    if t.Numeral? {
      assert NumberThen(t.number, rest)[0] == if t.number.negative then '-' else t.number.integer[0];
    }
  }

  lemma ItemsStart(items: Items, bracket: Bracket, rest: Bytes)
    requires ValidItems(items, bracket)
    ensures StartsWell(ItemsThen(items, rest))
  {
    var item := items.item;
    var tail := if items.Last? then rest else [','] + (items.gap + ItemsThen(items.more, rest));
    ValueStarts(item.value, item.after + tail);
    assert ItemsThen(items, rest) == ItemThen(item, tail);
  }

  lemma KeyRead(key: Key, bracket: Bracket, seen: set<Bytes>, rest: Bytes)
    requires ValidKey(key, bracket) && IsNew(key, seen) && StartsWell(rest)
    ensures ParseKey(KeyThen(key, rest), bracket, seen) == Parsed(key, rest)
  {
    if key.Key? {
      var afterColon := key.afterColon + rest;
      StringOf(key.chars, key.beforeColon + ([':'] + afterColon));
      BlanksOf(key.beforeColon, [':'] + afterColon);
      BlanksOf(key.afterColon, rest);
    }
  }

  /** What may follow an element or a member. */
  predicate ItemEnds(rest: Bytes) { Starts(rest, ',') || Starts(rest, ']') || Starts(rest, '}') }

  lemma AfterValue(after: Bytes, rest: Bytes)
    requires Blank(after) && ItemEnds(rest)
    ensures !GoesOn(after + rest)
    ensures Blanks(after + rest) == after && AfterBlanks(after + rest) == rest
  {
    BlanksOf(after, rest);
    assert (after + rest)[0] == if after == "" then rest[0] else after[0];
  }

  /** The text of a valid tree is read back as that tree, up to where the text ends. */
  lemma {:induction false} ValueOf(t: Tree, rest: Bytes, depth: int, limit: int)
    requires Valid(t) && NestsWithin(t, limit - depth + 1) && !GoesOn(rest)
    ensures ParseValue(TextThen(t, rest), depth, limit) == Parsed(t, rest)
    decreases t
  {
    match t
    case Literal(word) => assert word <= word + rest && (word + rest)[|word|..] == rest;
    case Numeral(n) => NumberOf(n, rest);
    case String(chars) => StringOf(chars, rest);
    case Empty(bracket, gap) => BlanksOf(gap, [Close(bracket)] + rest);
    case Filled(bracket, gap, items) =>
      var inside := ItemsThen(items, [Close(bracket)] + rest);
      ItemsStart(items, bracket, [Close(bracket)] + rest);
      BlanksOf(gap, inside);
      FreshIsDistinct(items, bracket, {});
      ItemsOf(items, rest, bracket, depth, limit, {});
  }

  lemma {:induction false} ItemsOf(items: Items, rest: Bytes, bracket: Bracket, depth: int, limit: int,
                                   seen: set<Bytes>)
    requires ValidItems(items, bracket) && ItemsNestWithin(items, limit - depth) && Fresh(items, seen)
    ensures ParseItems(ItemsThen(items, [Close(bracket)] + rest), bracket, depth, limit, seen) == Parsed(items, rest)
    decreases items
  {
    var close := [Close(bracket)] + rest;
    if items.Last? {
      ItemOf(items.item, close, bracket, depth, limit, seen);
    } else {
      var more := ItemsThen(items.more, close);
      ItemOf(items.item, [','] + (items.gap + more), bracket, depth, limit, seen);
      ItemsStart(items.more, bracket, close);
      BlanksOf(items.gap, more);
      ItemsOf(items.more, rest, bracket, depth, limit, With(seen, items.item.key));
    }
  }

  lemma {:induction false} ItemOf(item: Item, rest: Bytes, bracket: Bracket, depth: int, limit: int, seen: set<Bytes>)
    requires ValidItem(item, bracket) && NestsWithin(item.value, limit - depth) && IsNew(item.key, seen)
    requires ItemEnds(rest)
    ensures ParseItem(ItemThen(item, rest), bracket, depth, limit, seen) == Parsed(item, rest)
    decreases item
  {
    AfterValue(item.after, rest);
    ValueStarts(item.value, item.after + rest);
    KeyRead(item.key, bracket, seen, TextThen(item.value, item.after + rest));
    ValueOf(item.value, item.after + rest, depth + 1, limit);
  }
}
