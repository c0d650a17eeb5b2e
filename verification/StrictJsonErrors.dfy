/**
  Which kind of failure the validator reports.

  For a text that the grammar derives but for its limits, it is the first flaw in reading order: a
  container too deep, or a key that was there before.  A larger limit takes away such failures of
  depth and changes nothing else.
*/
module StrictJsonErrors {
  import opened Wire
  import opened JsonNumber
  import opened JsonText
  import opened StrictJson
  import opened StrictJsonGrammar
  import opened StrictJsonValidator

  // ---------------------------------------------------------------- trees without the limits

  /** Like Valid, but keys may repeat. */
  predicate Shaped(t: Tree) {
    match t
    case Literal(word) => word == "true" || word == "false" || word == "null"
    case Numeral(number) => ValidNumber(number)
    case String(chars) => ValidChars(chars)
    case Empty(_, gap) => Blank(gap)
    case Filled(bracket, gap, items) => Blank(gap) && ShapedItems(items, bracket)
  }

  predicate ShapedItems(items: Items, bracket: Bracket) {
    match items
    case Last(item) => ShapedItem(item, bracket)
    case Then(item, gap, more) => ShapedItem(item, bracket) && Blank(gap) && ShapedItems(more, bracket)
  }

  predicate ShapedItem(item: Item, bracket: Bracket) {
    ValidKey(item.key, bracket) && Shaped(item.value) && Blank(item.after)
  }

  // ---------------------------------------------------------------- the first flaw

  /** Depth counts from 1; a container beyond the limit is a flaw before anything in it. */
  function Flaw(t: Tree, depth: int, limit: int): Option<JsonError>
    requires Shaped(t)
    decreases t
  {
    match t
    case Empty(_, _) => if depth > limit then Some(DepthExceeded) else None
    case Filled(bracket, _, items) =>
      if depth > limit then Some(DepthExceeded) else FlawOfItems(items, bracket, depth, limit, {})
    case _ => None
  }

  /** A member's key is looked at before its value, and members in their order. */
  function FlawOfItems(items: Items, bracket: Bracket, depth: int, limit: int, seen: set<Bytes>): Option<JsonError>
    requires ShapedItems(items, bracket)
    decreases items
  {
    var item := items.item;
    assert ShapedItem(item, bracket);
    if item.key.Key? && Decode(item.key.chars) in seen then Some(DuplicateKey)
    else
      var flaw := Flaw(item.value, depth + 1, limit);
      if flaw.Some? || items.Last? then flaw
      else
        FlawOfItems(items.more, bracket, depth, limit, if item.key.Key? then seen + {Decode(item.key.chars)} else seen)
  }

  // ---------------------------------------------------------------- it is what is reported

  function Outcome<T>(flaw: Option<JsonError>, value: T, rest: Bytes): Parse<T> {
    if flaw.Some? then Failed(flaw.value) else Parsed(value, rest)
  }

  lemma ShapedStarts(t: Tree, rest: Bytes)
    requires Shaped(t)
    ensures StartsWell(TextThen(t, rest))
  {
    if t.Numeral? {
      assert NumberThen(t.number, rest)[0] == if t.number.negative then '-' else t.number.integer[0];
    }
  }

  lemma ShapedItemsStart(items: Items, bracket: Bracket, rest: Bytes)
    requires ShapedItems(items, bracket)
    ensures StartsWell(ItemsThen(items, rest))
  {
    var item := items.item;
    var tail := if items.Last? then rest else [','] + (items.gap + ItemsThen(items.more, rest));
    ShapedStarts(item.value, item.after + tail);
    assert ItemsThen(items, rest) == ItemThen(item, tail);
  }

  lemma OldKeyRead(key: Key, bracket: Bracket, seen: set<Bytes>, rest: Bytes)
    requires ValidKey(key, bracket) && !IsNew(key, seen)
    ensures ParseKey(KeyThen(key, rest), bracket, seen) == Failed(DuplicateKey)
  {
    StringOf(key.chars, key.beforeColon + ([':'] + (key.afterColon + rest)));
  }

  lemma {:induction false} ValueRead(t: Tree, rest: Bytes, depth: int, limit: int)
    requires Shaped(t) && !GoesOn(rest)
    ensures ParseValue(TextThen(t, rest), depth, limit) == Outcome(Flaw(t, depth, limit), t, rest)
    decreases t
  {
    match t
    case Literal(word) => assert word <= word + rest && (word + rest)[|word|..] == rest;
    case Numeral(n) => NumberOf(n, rest);
    case String(chars) => StringOf(chars, rest);
    case Empty(bracket, gap) => BlanksOf(gap, [Close(bracket)] + rest);
    case Filled(bracket, gap, items) =>
      var inside := ItemsThen(items, [Close(bracket)] + rest);
      ShapedItemsStart(items, bracket, [Close(bracket)] + rest);
      BlanksOf(gap, inside);
      ItemsRead(items, rest, bracket, depth, limit, {});
  }

  lemma {:induction false} ItemsRead(items: Items, rest: Bytes, bracket: Bracket, depth: int, limit: int,
                                     seen: set<Bytes>)
    requires ShapedItems(items, bracket)
    ensures ParseItems(ItemsThen(items, [Close(bracket)] + rest), bracket, depth, limit, seen)
         == Outcome(FlawOfItems(items, bracket, depth, limit, seen), items, rest)
    decreases items
  {
    var close := [Close(bracket)] + rest;
    if items.Last? {
      ItemRead(items.item, close, bracket, depth, limit, seen);
    } else {
      var more := ItemsThen(items.more, close);
      ItemRead(items.item, [','] + (items.gap + more), bracket, depth, limit, seen);
      ShapedItemsStart(items.more, bracket, close);
      BlanksOf(items.gap, more);
      ItemsRead(items.more, rest, bracket, depth, limit, With(seen, items.item.key));
    }
  }

  lemma {:induction false} ItemRead(item: Item, rest: Bytes, bracket: Bracket, depth: int, limit: int, seen: set<Bytes>)
    requires ShapedItem(item, bracket) && ItemEnds(rest)
    ensures ParseItem(ItemThen(item, rest), bracket, depth, limit, seen)
         == Outcome(if !IsNew(item.key, seen) then Some(DuplicateKey) else Flaw(item.value, depth + 1, limit),
                    item, rest)
    decreases item
  {
    var text := TextThen(item.value, item.after + rest);
    AfterValue(item.after, rest);
    ShapedStarts(item.value, item.after + rest);
    if IsNew(item.key, seen) {
      KeyRead(item.key, bracket, seen, text);
      ValueRead(item.value, item.after + rest, depth + 1, limit);
    } else {
      OldKeyRead(item.key, bracket, seen, text);
    }
  }

  /** A document of the grammar but for its limits. */
  ghost predicate IsShapedDocument(data: Bytes, before: Bytes, t: Tree, after: Bytes) {
    data == before + TextThen(t, after) && Blank(before) && Blank(after) && Shaped(t)
  }

  /** Such a document is refused for its first flaw, and accepted without one; text that is no UTF-8 is refused before
      it is looked at, and a document that has to be an object before it is read. */
  lemma FirstFlawIsReported(data: Bytes, limit: int, requireObject: bool, before: Bytes, t: Tree, after: Bytes)
    requires IsShapedDocument(data, before, t, after)
    ensures Validate(data, limit, requireObject)
         == if !Utf8Valid(data) then Some(InvalidUtf8)
            else if requireObject && !IsObject(t) then Some(InvalidJson)
            else Flaw(t, 1, limit)
  {
    ShapedStarts(t, after);
    BlanksOf(before, TextThen(t, after));
    assert after + "" == after;
    BlanksOf(after, "");
    ValueRead(t, after, 1, limit);
    TopOf(t, after);
  }

  lemma TopOf(t: Tree, rest: Bytes)
    requires Shaped(t)
    ensures TextThen(t, rest) != "" && (TextThen(t, rest)[0] == '{' <==> IsObject(t))
  {
    if t.Numeral? {
      assert NumberThen(t.number, rest)[0] == if t.number.negative then '-' else t.number.integer[0];
    }
  }

  // ---------------------------------------------------------------- other limits

  lemma {:induction false} LimitOnlyDeepens(s: Bytes, depth: int, limit: int, more: int)
    requires limit <= more
    ensures ParseValue(s, depth, limit) == Failed(DepthExceeded)
            || ParseValue(s, depth, more) == ParseValue(s, depth, limit)
    decreases |s|, 1
  {
    if s != "" && (s[0] == '{' || s[0] == '[') {
      var bracket := if s[0] == '{' then Curly else Square;
      if depth <= limit && !Starts(AfterBlanks(s[1..]), Close(bracket)) {
        ItemsOnlyDeepen(AfterBlanks(s[1..]), bracket, depth, limit, more, {});
      }
    }
  }

  lemma {:induction false} ItemsOnlyDeepen(s: Bytes, bracket: Bracket, depth: int, limit: int, more: int,
                                           seen: set<Bytes>)
    requires limit <= more
    ensures ParseItems(s, bracket, depth, limit, seen) == Failed(DepthExceeded)
            || ParseItems(s, bracket, depth, more, seen) == ParseItems(s, bracket, depth, limit, seen)
    decreases |s|, 3
  {
    ItemOnlyDeepens(s, bracket, depth, limit, more, seen);
    var item := ParseItem(s, bracket, depth, limit, seen);
    if item.Parsed? && Starts(item.rest, ',') {
      ItemsOnlyDeepen(AfterBlanks(item.rest[1..]), bracket, depth, limit, more, With(seen, item.value.key));
    }
  }

  lemma {:induction false} ItemOnlyDeepens(s: Bytes, bracket: Bracket, depth: int, limit: int, more: int,
                                           seen: set<Bytes>)
    requires limit <= more
    ensures ParseItem(s, bracket, depth, limit, seen) == Failed(DepthExceeded)
            || ParseItem(s, bracket, depth, more, seen) == ParseItem(s, bracket, depth, limit, seen)
    decreases |s|, 2
  {
    var key := ParseKey(s, bracket, seen);
    if key.Parsed? {
      LimitOnlyDeepens(key.rest, depth + 1, limit, more);
    }
  }

  /** A larger limit on nesting changes no verdict but those of depth. */
  lemma LargerLimits(data: Bytes, limit: int, more: int, requireObject: bool)
    requires limit <= more
    ensures Validate(data, limit, requireObject) == Some(DepthExceeded)
            || Validate(data, more, requireObject) == Validate(data, limit, requireObject)
  {
    LimitOnlyDeepens(AfterBlanks(data), 1, limit, more);
  }
}
