/**
  What the characters and escapes of a JSON string stand for, from the side of the numbers: hexadecimal
  spellings by division, UTF-8 by decoding it again (section 3 of RFC 3629), surrogate pairs by taking a
  code point apart, and the classes of characters by their codes (sections 2, 6 and 7 of RFC 8259).
*/
module JsonCharacters {
  import opened Wire
  import opened JsonNumber
  import opened JsonText
  import opened StrictJsonValidator

  // ---------------------------------------------------------------- classes of characters

  const QUOTE: int := 0x22
  const BACKSLASH: int := 0x5C

  /** The classes that the grammar and the parser share, by code. */
  lemma CharacterClasses(c: char)
    ensures IsSpace(c) <==> c as int in {0x20, 0x09}
    ensures IsDigit(c) <==> 0x30 <= c as int <= 0x39
    ensures IsHex(c) <==> 0x30 <= c as int <= 0x39 || 0x41 <= c as int <= 0x46 || 0x61 <= c as int <= 0x66
    ensures SimpleEscape(c) <==> c as int in {QUOTE, BACKSLASH, 0x2F, 0x62, 0x66, 0x6E, 0x72, 0x74}
    ensures ValidChar(Raw(c)) <==> c as int >= 0x20 && c as int != QUOTE && c as int != BACKSLASH
  {}

  /** What the two-character escapes stand for, in the order of section 7 of RFC 8259. */
  lemma SimpleEscapes(i: nat)
    requires i < 8
    ensures var letters, codes := "\"\\/bfnrt", [0x22, 0x5C, 0x2F, 0x08, 0x0C, 0x0A, 0x0D, 0x09];
            SimpleEscape(letters[i]) && DecodeChar(Simple(letters[i])) == [codes[i] as char]
  {}

  // ---------------------------------------------------------------- hexadecimal spellings

  const LOWER: string := "0123456789abcdef"
  const UPPER: string := "0123456789ABCDEF"

  predicate SpellsDigit(c: char, d: int) { 0 <= d < 16 && (c == LOWER[d] || c == UPPER[d]) }

  lemma HexDigitIff(c: char, d: nat)
    ensures IsHex(c) && HexDigit(c) == d <==> SpellsDigit(c, d)
  {
    if d < 10 {
      assert LOWER[d] == UPPER[d] == ('0' as int + d) as char;
    } else if d < 16 {
      assert LOWER[d] == ('a' as int + d - 10) as char && UPPER[d] == ('A' as int + d - 10) as char;
    }
  }

  /** Four digits of either case spell a number, the first digit the highest. */
  predicate Spells(s: Bytes, n: nat) {
    && |s| == 4 && n < 0x10000
    && SpellsDigit(s[0], n / 4096) && SpellsDigit(s[1], n / 256 % 16)
    && SpellsDigit(s[2], n / 16 % 16) && SpellsDigit(s[3], n % 16)
  }

  /** The code unit of an escape is the number that its digits spell. */
  lemma CodeUnitIff(s: Bytes, n: nat)
    ensures FourHex(s) && CodeUnit(s) == n <==> Spells(s, n)
  {
    if |s| == 4 {
      if FourHex(s) && CodeUnit(s) == n {
        Digits(HexDigit(s[0]), HexDigit(s[1]), HexDigit(s[2]), HexDigit(s[3]));
      } else if Spells(s, n) {
        Undigits(n);
      }
      HexDigitIff(s[0], n / 4096);
      HexDigitIff(s[1], n / 256 % 16);
      HexDigitIff(s[2], n / 16 % 16);
      HexDigitIff(s[3], n % 16);
    }
  }

  lemma Digits(a: nat, b: nat, c: nat, d: nat)
    requires a < 16 && b < 16 && c < 16 && d < 16
    ensures var n := a * 4096 + b * 256 + c * 16 + d;
            n / 4096 == a && n / 256 % 16 == b && n / 16 % 16 == c && n % 16 == d
  {
    var n := a * 4096 + b * 256 + c * 16 + d;
    assert n / 256 == a * 16 + b && n / 16 == a * 256 + b * 16 + c;
  }

  lemma Undigits(n: nat)
    requires n < 0x10000
    ensures n == n / 4096 * 4096 + n / 256 % 16 * 256 + n / 16 % 16 * 16 + n % 16
  {
    assert n / 16 / 16 == n / 256 && n / 256 / 16 == n / 4096;
  }

  // ---------------------------------------------------------------- surrogate pairs

  /** A code point that UTF-8 and UTF-16 encode: no surrogate. */
  predicate Scalar(code: nat) { code < 0xD800 || 0xE000 <= code < 0x110000 }

  /** A pair of surrogates is the one code point beyond the first plane whose offset they hold, ten bits each. */
  lemma PairIff(high: nat, low: nat, code: nat)
    requires HighSurrogate(high) && LowSurrogate(low)
    ensures PairValue(high, low) == code <==>
              && 0x10000 <= code < 0x110000
              && high == 0xD800 + (code - 0x10000) / 0x400 && low == 0xDC00 + (code - 0x10000) % 0x400
  {}

  lemma SurrogateRanges(code: nat)
    ensures HighSurrogate(code) <==> code / 0x400 == 0x36
    ensures LowSurrogate(code) <==> code / 0x400 == 0x37
    ensures code < 0x10000 ==> (Scalar(code) <==> !HighSurrogate(code) && !LowSurrogate(code))
  {}

  // ---------------------------------------------------------------- UTF-8

  /** The value of the rune that s starts with: the payload bits of its bytes. */
  function RuneValue(s: Bytes): nat
    requires s != "" && RuneWidth(s) > 0
  {
    match RuneWidth(s)
    case 1 => s[0] as int
    case 2 => s[0] as int % 32 * 64 + s[1] as int % 64
    case 3 => s[0] as int % 16 * 4096 + s[1] as int % 64 * 64 + s[2] as int % 64
    case _ => s[0] as int % 8 * 262144 + s[1] as int % 64 * 4096 + s[2] as int % 64 * 64 + s[3] as int % 64
  }

  // The payload bits of two, three and four bytes, and which lead and second bytes they may have.

  lemma TwoBytes(code: nat)
    requires 0x80 <= code < 0x800
    ensures 0xC2 <= 0xC0 + code / 64 <= 0xDF && (0xC0 + code / 64) % 32 * 64 + (0x80 + code % 64) % 64 == code
  {}

  lemma ThreeBytes(code: nat)
    requires 0x800 <= code < 0x10000 && Scalar(code)
    ensures var b, second := 0xE0 + code / 4096, 0x80 + code / 64 % 64;
            && 0xE0 <= b <= 0xEF && (b == 0xE0 ==> second >= 0xA0) && (b == 0xED ==> second <= 0x9F)
            && b % 16 * 4096 + second % 64 * 64 + (0x80 + code % 64) % 64 == code
  {
    var q := code / 64;
    assert code == q * 64 + code % 64 && q / 64 == code / 4096 && q == q / 64 * 64 + q % 64;
  }

  lemma FourBytes(code: nat)
    requires 0x10000 <= code < 0x110000
    ensures var b, second := 0xF0 + code / 262144, 0x80 + code / 4096 % 64;
            && 0xF0 <= b <= 0xF4 && (b == 0xF0 ==> second >= 0x90) && (b == 0xF4 ==> second <= 0x8F)
            && b % 8 * 262144 + second % 64 * 4096 + (0x80 + code / 64 % 64) % 64 * 64 + (0x80 + code % 64) % 64 == code
  {
    var q := code / 64;
    var p := q / 64;
    assert code == q * 64 + code % 64 && q == p * 64 + q % 64 && p == p / 64 * 64 + p % 64;
    assert p == code / 4096 && p / 64 == code / 262144;
  }

  /** The encoding of a scalar value is one well-formed rune, whatever follows, and the value is read back from it. */
  lemma Utf8IsOneRune(code: nat, rest: Bytes)
    requires Scalar(code)
    ensures var s := Utf8(code) + rest;
            RuneWidth(s) == |Utf8(code)| && RuneValue(s) == code && s[RuneWidth(s)..] == rest
  {
    var s := Utf8(code) + rest;
    var width := |Utf8(code)|;
    assert s[width..] == rest;
    assert s[..width] == Utf8(code);
    if code < 0x80 {
      assert s[0] == code as char;
    } else if code < 0x800 {
      TwoBytes(code);
      BytesOf(s, Utf8(code), rest);
    } else if code < 0x10000 {
      ThreeBytes(code);
      BytesOf(s, Utf8(code), rest);
      assert RuneWidth(s) == 3;
    } else {
      FourBytes(code);
      BytesOf(s, Utf8(code), rest);
      assert RuneWidth(s) == 4;
    }
  }

  lemma BytesOf(s: Bytes, bytes: Bytes, rest: Bytes)
    requires s == bytes + rest
    ensures forall i :: 0 <= i < |bytes| ==> s[i] == bytes[i]
  {}

  lemma FromTwo(b: nat, second: nat)
    requires 0xC2 <= b <= 0xDF && 0x80 <= second <= 0xBF
    ensures var code := b % 32 * 64 + second % 64;
            0x80 <= code < 0x800 && b == 0xC0 + code / 64 && second == 0x80 + code % 64
  {}

  lemma FromThree(b: nat, second: nat, third: nat)
    requires 0xE0 <= b <= 0xEF && 0x80 <= second <= 0xBF && 0x80 <= third <= 0xBF
    requires (b == 0xE0 ==> second >= 0xA0) && (b == 0xED ==> second <= 0x9F)
    ensures var code := b % 16 * 4096 + second % 64 * 64 + third % 64;
            && 0x800 <= code < 0x10000 && Scalar(code)
            && b == 0xE0 + code / 4096 && second == 0x80 + code / 64 % 64 && third == 0x80 + code % 64
  {
    var code := b % 16 * 4096 + second % 64 * 64 + third % 64;
    assert code / 64 == b % 16 * 64 + second % 64;
    assert code / 4096 == b % 16;
  }

  lemma FromFour(b: nat, second: nat, third: nat, fourth: nat)
    requires 0xF0 <= b <= 0xF4 && 0x80 <= second <= 0xBF && 0x80 <= third <= 0xBF && 0x80 <= fourth <= 0xBF
    requires (b == 0xF0 ==> second >= 0x90) && (b == 0xF4 ==> second <= 0x8F)
    ensures var code := b % 8 * 262144 + second % 64 * 4096 + third % 64 * 64 + fourth % 64;
            && 0x10000 <= code < 0x110000
            && b == 0xF0 + code / 262144 && second == 0x80 + code / 4096 % 64
            && third == 0x80 + code / 64 % 64 && fourth == 0x80 + code % 64
  {
    var code := b % 8 * 262144 + second % 64 * 4096 + third % 64 * 64 + fourth % 64;
    assert code / 64 == b % 8 * 4096 + second % 64 * 64 + third % 64;
    assert code / 4096 == b % 8 * 64 + second % 64;
    assert code / 262144 == b % 8;
  }

  /** A well-formed rune is the encoding of the scalar value it holds: nothing overlong, no surrogate. */
  lemma RuneIsUtf8(s: Bytes)
    requires s != "" && RuneWidth(s) > 0
    ensures Scalar(RuneValue(s)) && Utf8(RuneValue(s)) == s[..RuneWidth(s)]
  {
    var b, code := s[0] as int, RuneValue(s);
    if b < 0x80 {
      assert s[..1] == [s[0]];
    } else if b <= 0xDF {
      FromTwo(b, s[1] as int);
      assert s[..2] == [s[0], s[1]];
    } else if b <= 0xEF {
      FromThree(b, s[1] as int, s[2] as int);
      assert s[..3] == [s[0], s[1], s[2]];
    } else {
      FromFour(b, s[1] as int, s[2] as int, s[3] as int);
      assert s[..4] == [s[0], s[1], s[2], s[3]];
    }
  }

  /** Two scalar values have two encodings, neither the start of the other. */
  lemma Utf8IsUnique(a: nat, b: nat, s: Bytes, t: Bytes)
    requires Scalar(a) && Scalar(b) && Utf8(a) + s == Utf8(b) + t
    ensures a == b && s == t
  {
    Utf8IsOneRune(a, s);
    Utf8IsOneRune(b, t);
  }

  predicate AllScalar(codes: seq<nat>) { codes == [] || (Scalar(codes[0]) && AllScalar(codes[1..])) }

  /** The encoding of a text, scalar value by scalar value. */
  function Encode(codes: seq<nat>): Bytes
    requires AllScalar(codes)
  {
    if codes == [] then "" else Utf8(codes[0]) + Encode(codes[1..])
  }

  ghost predicate Encodes(s: Bytes, codes: seq<nat>) {
    AllScalar(codes) && s == Encode(codes)
  }

  /** Valid UTF-8 is what encodes some scalar values. */
  lemma Utf8ValidIff(s: Bytes)
    ensures Utf8Valid(s) <==> exists codes: seq<nat> :: Encodes(s, codes)
  {
    if Utf8Valid(s) {
      var codes := Decoded(s);
    }
    if codes: seq<nat> :| Encodes(s, codes) {
      EncodedIsValid(codes);
    }
  }

  lemma {:induction false} Decoded(s: Bytes) returns (codes: seq<nat>)
    requires Utf8Valid(s)
    ensures Encodes(s, codes)
    decreases |s|
  {
    if s == "" {
      codes := [];
    } else {
      RuneIsUtf8(s);
      var more := Decoded(s[RuneWidth(s)..]);
      codes := [RuneValue(s)] + more;
      assert codes[1..] == more && s == s[..RuneWidth(s)] + s[RuneWidth(s)..];
    }
  }

  lemma {:induction false} EncodedIsValid(codes: seq<nat>)
    requires AllScalar(codes)
    ensures Utf8Valid(Encode(codes))
  {
    if codes != [] {
      EncodedIsValid(codes[1..]);
      Utf8IsOneRune(codes[0], Encode(codes[1..]));
    }
  }

  /** The examples of section 7 of RFC 3629. */
  lemma Examples()
    ensures Utf8(0x41) == [0x41 as char]
    ensures Utf8(0x391) == [0xCE as char, 0x91 as char]
    ensures Utf8(0x2262) == [0xE2 as char, 0x89 as char, 0xA2 as char]
    ensures Utf8(0x233B4) == [0xF0 as char, 0xA3 as char, 0x8E as char, 0xB4 as char]
  {}

  /** U+1D11E as section 7 of RFC 8259 escapes it. */
  lemma EscapedExample()
    ensures CodeUnit("D834") == 0xD834 && CodeUnit("dd1e") == 0xDD1E
    ensures DecodeChar(Pair("D834", "dd1e")) == Utf8(0x1D11E)
  {
    CodeUnitIff("D834", 0xD834);
    CodeUnitIff("dd1e", 0xDD1E);
  }
}
