/** String literals: the scanner's reading of one character at a time, and the grammar
    of section 7 of RFC 8259 it amounts to. */
module ScanString {
  import opened Sequences
  import opened Jsons
  import opened Utf8

  const EOF := -1
  const QUOTE := 0x22
  const BACKSLASH := 0x5C

  /** The character at i; past the end, the value that stands for the end of the file. */
  function At(input: seq<Byte>, i: nat): int {
    if i < |input| then input[i] else EOF
  }

  /** One character read: the octets it adds and where the next one starts. */
  datatype Scanned = Char(bytes: seq<Byte>, next: nat) | Closing(next: nat) | Bad(at: nat)

  // ------------------------------------------------------------- the scanner

  function HexValue(c: int): (v: int)
    ensures -1 <= v < 16
  {
    if 0x30 <= c <= 0x39 then c - 0x30
    else if 0x41 <= c <= 0x46 then c - 0x37
    else if 0x61 <= c <= 0x66 then c - 0x57
    else -1
  }

  predicate FourHex(input: seq<Byte>, i: nat) {
    && HexValue(At(input, i)) >= 0 && HexValue(At(input, i + 1)) >= 0
    && HexValue(At(input, i + 2)) >= 0 && HexValue(At(input, i + 3)) >= 0
  }

  /** The number that four hexadecimal digits at i write. */
  function HexNumber(input: seq<Byte>, i: nat): (v: int)
    requires FourHex(input, i)
    ensures 0 <= v <= 0xFFFF
  {
    HexValue(At(input, i)) * 4096 + HexValue(At(input, i + 1)) * 256 + HexValue(At(input, i + 2)) * 16
      + HexValue(At(input, i + 3))
  }

  /** get_codepoint: -1 if a character is not a hexadecimal digit. */
  function Codepoint(input: seq<Byte>, i: nat): (v: int)
    ensures v >= 0 <==> FourHex(input, i)
    ensures v >= 0 ==> v == HexNumber(input, i)
    ensures v >= -1
  {
    if FourHex(input, i) then HexNumber(input, i) else -1
  }

  predicate IsHigh(u: int) {
    0xD800 <= u <= 0xDBFF
  }

  predicate IsLow(u: int) {
    0xDC00 <= u <= 0xDFFF
  }

  /** The code point of a surrogate pair as the scanner computes it. */
  function Combined(high: int, low: int): (c: Scalar)
    requires IsHigh(high) && IsLow(low)
    ensures 0x1_0000 <= c
  {
    high * 1024 + low - 0x35F_DC00
  }

  /** The character a short escape stands for, or -1. */
  function ShortEscape(c: int): int {
    if c == 0x22 || c == 0x5C || c == 0x2F then c
    else if c == 0x62 then 0x08
    else if c == 0x66 then 0x0C
    else if c == 0x6E then 0x0A
    else if c == 0x72 then 0x0D
    else if c == 0x74 then 0x09
    else -1
  }

  /** Section 7 of RFC 8259: the letters behind a backslash and what they stand for,
      quotation mark, backslash, solidus, backspace, form feed, line feed, carriage return
      and tab. */
  const SHORT_ESCAPES: map<int, Scalar> := map[
    0x22 := 0x22, 0x5C := 0x5C, 0x2F := 0x2F, 0x62 := 0x08, 0x66 := 0x0C, 0x6E := 0x0A, 0x72 := 0x0D, 0x74 := 0x09]

  /** After a backslash at i - 1. */
  function ScanEscape(input: seq<Byte>, i: nat): Scanned {
    if ShortEscape(At(input, i)) >= 0 then Char([ShortEscape(At(input, i))], i + 1)
    else if At(input, i) == 0x75 then
      var one := Codepoint(input, i + 1);
      if one == -1 then Bad(i)
      else if IsHigh(one) then
        if At(input, i + 5) == BACKSLASH && At(input, i + 6) == 0x75 then
          var two := Codepoint(input, i + 7);
          if IsLow(two) then Char(Encode(Combined(one, two)), i + 11) else Bad(i)
        else Bad(i)
      else if IsLow(one) then Bad(i)
      else Char(Encode(one), i + 5)
    else Bad(i)
  }

  /** The ranges allowed for the octets that follow the first one. */
  datatype Follow = Follow(low: int, high: int)

  function FollowRanges(first: int): (r: seq<Follow>)
    ensures |r| <= 3 && forall k :: 0 <= k < |r| ==> 0x80 <= r[k].low && r[k].high <= 0xBF
  {
    var any := Follow(0x80, 0xBF);
    if 0xC2 <= first <= 0xDF then [any]
    else if first == 0xE0 then [Follow(0xA0, 0xBF), any]
    else if 0xE1 <= first <= 0xEC || 0xEE <= first <= 0xEF then [any, any]
    else if first == 0xED then [Follow(0x80, 0x9F), any]
    else if first == 0xF0 then [Follow(0x90, 0xBF), any, any]
    else if 0xF1 <= first <= 0xF3 then [any, any, any]
    else if first == 0xF4 then [Follow(0x80, 0x8F), any, any]
    else []
  }

  /** How many of the characters from i on are in their ranges. */
  function InRanges(input: seq<Byte>, i: nat, ranges: seq<Follow>): (n: nat)
    requires forall k :: 0 <= k < |ranges| ==> 0x80 <= ranges[k].low
    ensures n <= |ranges| && (n > 0 ==> i + n <= |input|)
    decreases |ranges|
  {
    if ranges == [] || !(ranges[0].low <= At(input, i) <= ranges[0].high) then 0
    else 1 + InRanges(input, i + 1, ranges[1..])
  }

  function ScanChar(input: seq<Byte>, i: nat): Scanned {
    var c := At(input, i);
    if c == QUOTE then Closing(i + 1)
    else if c == BACKSLASH then ScanEscape(input, i + 1)
    else if 0x20 <= c < 0x80 then Char([c], i + 1)
    else
      var ranges := FollowRanges(c);
      var n := |ranges|;
      if n > 0 && InRanges(input, i + 1, ranges) == n then Char(input[i..i + 1 + n], i + 1 + n) else Bad(i)
  }

  /** The whole literal, from the character after the opening quote. */
  datatype Literal = Complete(bytes: seq<Byte>, next: nat) | IllFormed

  function ScanFrom(input: seq<Byte>, i: nat): Literal
    requires i <= |input|
    decreases |input| - i
  {
    match ScanChar(input, i)
    case Closing(next) => Complete([], next)
    case Bad(_) => IllFormed
    case Char(bytes, next) =>
      ScanAdvances(input, i);
      match ScanFrom(input, next)
      case Complete(rest, end) => Complete(bytes + rest, end)
      case IllFormed => IllFormed
  }

  /** The scanner's switch is that table, and its hexadecimal digits are the usual ones. */
  lemma EscapeTables(c: int)
    ensures ShortEscape(c) == if c in SHORT_ESCAPES then SHORT_ESCAPES[c] else -1
    ensures HexValue(c) == if 0x30 <= c <= 0x39 then c - 0x30 else if 0x41 <= c <= 0x46 then c - 0x41 + 10
      else if 0x61 <= c <= 0x66 then c - 0x61 + 10 else -1
  {
  }

  lemma ScanAdvances(input: seq<Byte>, i: nat)
    ensures ScanChar(input, i).Char? ==> i < ScanChar(input, i).next <= |input|
  {
  }

  // ------------------------------------------------------------- the grammar

  /** A character of a literal: unescaped, a short escape, or \u escapes. */
  datatype Item = Unescaped(c: Scalar) | Short(letter: Byte) | Hex(digits: seq<Byte>)
      | HexPair(high: seq<Byte>, low: seq<Byte>)

  predicate IsHexNumber(digits: seq<Byte>) {
    |digits| == 4 && FourHex(digits, 0)
  }

  predicate Legal(it: Item) {
    match it
    case Unescaped(c) => c >= 0x20 && c != QUOTE && c != BACKSLASH
    case Short(letter) => letter as int in SHORT_ESCAPES
    case Hex(digits) => IsHexNumber(digits) && !IsHigh(HexNumber(digits, 0)) && !IsLow(HexNumber(digits, 0))
    case HexPair(high, low) =>
      IsHexNumber(high) && IsHexNumber(low) && IsHigh(HexNumber(high, 0)) && IsLow(HexNumber(low, 0))
  }

  function Text(it: Item): (r: seq<Byte>)
    ensures |r| > 0
  {
    match it
    case Unescaped(c) => Encode(c)
    case Short(letter) => [BACKSLASH, letter]
    case Hex(digits) => [BACKSLASH, 0x75] + digits
    case HexPair(high, low) => [BACKSLASH, 0x75] + high + [BACKSLASH, 0x75] + low
  }

  /** The code point an item denotes. */
  function Denotes(it: Item): Scalar
    requires Legal(it)
  {
    match it
    case Unescaped(c) => c
    case Short(letter) => SHORT_ESCAPES[letter]
    case Hex(digits) => HexNumber(digits, 0)
    case HexPair(high, low) => PairValue(HexNumber(high, 0), HexNumber(low, 0))
  }

  /** Section 2.2 of RFC 2781. */
  function PairValue(high: int, low: int): (c: Scalar)
    requires IsHigh(high) && IsLow(low)
    ensures 0x1_0000 <= c
  {
    0x1_0000 + (high - 0xD800) * 0x400 + (low - 0xDC00)
  }

  predicate Spelled(input: seq<Byte>, i: nat, text: seq<Byte>) {
    i + |text| <= |input| && input[i..i + |text|] == text
  }

  /** The items follow each other from i on, and then comes the closing quote. */
  predicate SpelledItems(input: seq<Byte>, i: nat, items: seq<Item>)
    decreases |items|
  {
    if items == [] then At(input, i) == QUOTE
    else Spelled(input, i, Text(items[0])) && SpelledItems(input, i + |Text(items[0])|, items[1..])
  }

  predicate AllLegal(items: seq<Item>) {
    forall k :: 0 <= k < |items| ==> Legal(items[k])
  }

  function Meaning(items: seq<Item>): seq<Scalar>
    requires AllLegal(items)
  {
    if items == [] then [] else [Denotes(items[0])] + Meaning(items[1..])
  }

  // ------------------------------------------------ scanner against grammar

  lemma AtSpelled(input: seq<Byte>, i: nat, text: seq<Byte>, k: nat)
    requires Spelled(input, i, text) && k < |text|
    ensures At(input, i + k) == text[k]
  {
    assert input[i..i + |text|][k] == text[k];
  }

  lemma HexSpelled(input: seq<Byte>, i: nat, digits: seq<Byte>)
    requires |digits| == 4 && Spelled(input, i, digits)
    ensures FourHex(input, i) <==> FourHex(digits, 0)
    ensures FourHex(input, i) ==> HexNumber(input, i) == HexNumber(digits, 0)
  {
    AtSpelled(input, i, digits, 0);
    AtSpelled(input, i, digits, 1);
    AtSpelled(input, i, digits, 2);
    AtSpelled(input, i, digits, 3);
  }

  lemma SpelledSplit(input: seq<Byte>, i: nat, a: seq<Byte>, b: seq<Byte>)
    ensures Spelled(input, i, a + b) <==> Spelled(input, i, a) && Spelled(input, i + |a|, b)
  {
    if i + |a| + |b| <= |input| {
      assert input[i..i + |a| + |b|] == input[i..i + |a|] + input[i + |a|..i + |a| + |b|];
      Parts(a, b);
      Parts(input[i..i + |a|], input[i + |a|..i + |a| + |b|]);
    }
  }

  /** The two characters that begin a numeric escape. */
  predicate EscapeU(input: seq<Byte>, i: nat) {
    At(input, i) == BACKSLASH && At(input, i + 1) == 0x75
  }

  lemma EscapeUSpelled(input: seq<Byte>, i: nat)
    ensures EscapeU(input, i) <==> Spelled(input, i, [BACKSLASH, 0x75])
  {
    if EscapeU(input, i) {
      assert input[i..i + 2] == [input[i], input[i + 1]];
    }
    if Spelled(input, i, [BACKSLASH, 0x75]) {
      AtSpelled(input, i, [BACKSLASH, 0x75], 0);
      AtSpelled(input, i, [BACKSLASH, 0x75], 1);
    }
  }

  lemma HexText(input: seq<Byte>, i: nat, digits: seq<Byte>)
    requires |digits| == 4
    ensures Spelled(input, i, Text(Hex(digits))) <==> EscapeU(input, i) && Spelled(input, i + 2, digits)
  {
    SpelledSplit(input, i, [BACKSLASH, 0x75], digits);
    EscapeUSpelled(input, i);
  }

  lemma PairText(input: seq<Byte>, i: nat, high: seq<Byte>, low: seq<Byte>)
    requires |high| == |low| == 4
    ensures |Text(HexPair(high, low))| == 12
    ensures Spelled(input, i, Text(HexPair(high, low))) <==>
      EscapeU(input, i) && Spelled(input, i + 2, high) && EscapeU(input, i + 6) && Spelled(input, i + 8, low)
  {
    var u: seq<Byte> := [BACKSLASH, 0x75];
    SpelledSplit(input, i, u + high + u, low);
    SpelledSplit(input, i, u + high, u);
    SpelledSplit(input, i, u, high);
    EscapeUSpelled(input, i);
    EscapeUSpelled(input, i + 6);
  }

  lemma ScanHex(input: seq<Byte>, i: nat, it: Item)
    requires it.Hex? && Legal(it) && Spelled(input, i, Text(it))
    ensures ScanChar(input, i) == Char(Encode(Denotes(it)), i + |Text(it)|)
  {
    HexText(input, i, it.digits);
    HexSpelled(input, i + 2, it.digits);
  }

  lemma ScanPair(input: seq<Byte>, i: nat, it: Item)
    requires it.HexPair? && Legal(it) && Spelled(input, i, Text(it))
    ensures ScanChar(input, i) == Char(Encode(Denotes(it)), i + |Text(it)|)
  {
    PairText(input, i, it.high, it.low);
    HexSpelled(input, i + 2, it.high);
    HexSpelled(input, i + 8, it.low);
  }

  predicate InRange(c: int, range: Follow) {
    range.low <= c <= range.high
  }

  lemma {:induction false} InRangesAll(input: seq<Byte>, i: nat, ranges: seq<Follow>)
    requires forall k :: 0 <= k < |ranges| ==> 0x80 <= ranges[k].low
    ensures InRanges(input, i, ranges) == |ranges|
      <==> forall k: nat :: k < |ranges| ==> InRange(At(input, i + k), ranges[k])
    decreases |ranges|
  {
    if ranges != [] {
      InRangesAll(input, i + 1, ranges[1..]);
      if InRanges(input, i, ranges) == |ranges| {
        forall k: nat | k < |ranges| ensures InRange(At(input, i + k), ranges[k]) {
          if k > 0 {
            assert InRange(At(input, i + 1 + (k - 1)), ranges[1..][k - 1]);
          }
        }
      }
      if forall k: nat :: k < |ranges| ==> InRange(At(input, i + k), ranges[k]) {
        assert InRange(At(input, i + 0), ranges[0]);
        forall k: nat | k < |ranges[1..]| ensures InRange(At(input, i + 1 + k), ranges[1..][k]) {
          assert InRange(At(input, i + (k + 1)), ranges[k + 1]);
        }
      }
    }
  }

  /** The table of section 4 of RFC 3629: an octet sequence of two or more is the form
      of a code point exactly when each octet after the first is in its range. */
  lemma RangesAreUtf8(b: seq<Byte>) returns (c: int)
    requires |b| > 1
    ensures (exists d :: IsUtf8(b, d)) <==> IsUtf8(b, c)
    ensures var ranges := FollowRanges(b[0]);
      IsUtf8(b, c) <==> (|ranges| == |b| - 1 && forall k: nat :: k < |b| - 1 ==> InRange(b[k + 1], ranges[k]))
  {
    var ranges := FollowRanges(b[0]);
    c := 0;
    if |b| == 2 {
      c := Bits(b[0], 0xC0) * 64 + Bits(b[1], 0x80);
    } else if |b| == 3 {
      c := Bits(b[0], 0xE0) * 4096 + Bits(b[1], 0x80) * 64 + Bits(b[2], 0x80);
    } else if |b| == 4 {
      c := Bits(b[0], 0xF0) * 0x4_0000 + Bits(b[1], 0x80) * 4096 + Bits(b[2], 0x80) * 64 + Bits(b[3], 0x80);
    }
    RangesIff(b, c, ranges);
  }

  lemma RangesIff(b: seq<Byte>, c: int, ranges: seq<Follow>)
    requires |b| > 1 && ranges == FollowRanges(b[0])
    requires |b| == 2 ==> c == Bits(b[0], 0xC0) * 64 + Bits(b[1], 0x80)
    requires |b| == 3 ==> c == Bits(b[0], 0xE0) * 4096 + Bits(b[1], 0x80) * 64 + Bits(b[2], 0x80)
    requires |b| == 4 ==>
      c == Bits(b[0], 0xF0) * 0x4_0000 + Bits(b[1], 0x80) * 4096 + Bits(b[2], 0x80) * 64 + Bits(b[3], 0x80)
    ensures IsUtf8(b, c) <==> |ranges| == |b| - 1 && forall k: nat :: k < |b| - 1 ==> InRange(b[k + 1], ranges[k])
  {
    if |ranges| == |b| - 1 && forall k: nat :: k < |b| - 1 ==> InRange(b[k + 1], ranges[k]) {
      assert InRange(b[0 + 1], ranges[0]);
      if |b| > 2 {
        assert InRange(b[1 + 1], ranges[1]);
      }
      if |b| > 3 {
        assert InRange(b[2 + 1], ranges[2]);
      }
    }
  }

  lemma ScanUnescaped(input: seq<Byte>, i: nat, it: Item)
    requires it.Unescaped? && Legal(it) && Spelled(input, i, Text(it))
    ensures ScanChar(input, i) == Char(Encode(Denotes(it)), i + |Text(it)|)
  {
    var b := Encode(it.c);
    AtSpelled(input, i, b, 0);
    if |b| > 1 {
      var c := RangesAreUtf8(b);
      var ranges := FollowRanges(b[0]);
      forall k: nat | k < |ranges| ensures InRange(At(input, i + 1 + k), ranges[k]) {
        AtSpelled(input, i, b, k + 1);
      }
      InRangesAll(input, i + 1, ranges);
    } else {
      assert b == [it.c];
    }
  }

  lemma ScanItem(input: seq<Byte>, i: nat, it: Item)
    requires Legal(it) && Spelled(input, i, Text(it))
    ensures ScanChar(input, i) == Char(Encode(Denotes(it)), i + |Text(it)|)
  {
    match it
    case Unescaped(_) => ScanUnescaped(input, i, it);
    case Short(letter) =>
      AtSpelled(input, i, Text(it), 0);
      AtSpelled(input, i, Text(it), 1);
      EscapeTables(letter);
      assert [ShortEscape(letter)] == Encode(ShortEscape(letter));
    case Hex(_) => ScanHex(input, i, it);
    case HexPair(_, _) => ScanPair(input, i, it);
  }

  lemma SoundUnescaped(input: seq<Byte>, i: nat) returns (it: Item)
    requires ScanChar(input, i).Char? && At(input, i) != BACKSLASH
    ensures Legal(it) && Spelled(input, i, Text(it))
  {
    var first := At(input, i);
    if first < 0x80 {
      it := Unescaped(first);
      assert input[i..i + 1] == [input[i]];
    } else {
      var ranges := FollowRanges(first);
      var b := input[i..i + 1 + |ranges|];
      InRangesAll(input, i + 1, ranges);
      forall k: nat | k < |b| - 1 ensures InRange(b[k + 1], FollowRanges(b[0])[k]) {
        assert InRange(At(input, i + 1 + k), ranges[k]);
      }
      var c := RangesAreUtf8(b);
      Utf8Unique(b, c, b, c);
      EncodeUnique(b, c);
      it := Unescaped(c);
    }
  }

  lemma HexAt(input: seq<Byte>, i: nat)
    requires FourHex(input, i)
    ensures i + 4 <= |input| && FourHex(input[i..i + 4], 0) && HexNumber(input[i..i + 4], 0) == HexNumber(input, i)
  {
    HexSpelled(input, i, input[i..i + 4]);
  }

  lemma SoundShort(input: seq<Byte>, i: nat) returns (it: Item)
    requires At(input, i) == BACKSLASH && ShortEscape(At(input, i + 1)) >= 0
    ensures it.Short? && Legal(it) && Spelled(input, i, Text(it))
  {
    EscapeTables(At(input, i + 1));
    it := Short(input[i + 1]);
    assert input[i..i + 2] == [input[i], input[i + 1]];
  }

  lemma SoundEscape(input: seq<Byte>, i: nat) returns (it: Item)
    requires ScanChar(input, i).Char? && At(input, i) == BACKSLASH
    ensures Legal(it) && Spelled(input, i, Text(it))
  {
    if ShortEscape(At(input, i + 1)) >= 0 {
      it := SoundShort(input, i);
    } else {
      HexAt(input, i + 2);
      if IsHigh(HexNumber(input, i + 2)) {
        HexAt(input, i + 8);
        it := HexPair(input[i + 2..i + 6], input[i + 8..i + 12]);
        PairText(input, i, it.high, it.low);
      } else {
        it := Hex(input[i + 2..i + 6]);
        HexText(input, i, it.digits);
      }
    }
  }

  lemma SoundChar(input: seq<Byte>, i: nat) returns (it: Item)
    requires ScanChar(input, i).Char?
    ensures Legal(it) && Spelled(input, i, Text(it))
    ensures ScanChar(input, i) == Char(Encode(Denotes(it)), i + |Text(it)|)
  {
    if At(input, i) == BACKSLASH {
      it := SoundEscape(input, i);
    } else {
      it := SoundUnescaped(input, i);
    }
    ScanItem(input, i, it);
  }

  /** Every literal of the grammar is scanned, into the UTF-8 of what it denotes. */
  lemma {:induction false} ScanComplete(input: seq<Byte>, i: nat, items: seq<Item>)
    requires i <= |input| && AllLegal(items) && SpelledItems(input, i, items)
    ensures ScanFrom(input, i).Complete? && ScanFrom(input, i).bytes == Encoded(Meaning(items))
    decreases |items|
  {
    if items != [] {
      ScanItem(input, i, items[0]);
      ScanComplete(input, i + |Text(items[0])|, items[1..]);
      EncodedFirst(Denotes(items[0]), Meaning(items[1..]));
    }
  }

  lemma FirstItem(input: seq<Byte>, i: nat, it: Item, rest: seq<Item>)
    requires Legal(it) && Spelled(input, i, Text(it)) && AllLegal(rest) && SpelledItems(input, i + |Text(it)|, rest)
    ensures AllLegal([it] + rest) && SpelledItems(input, i, [it] + rest)
    ensures Encoded(Meaning([it] + rest)) == Encode(Denotes(it)) + Encoded(Meaning(rest))
  {
    Parts([it], rest);
    SpelledFirst(input, i, it, rest);
    MeaningFirst(it, rest);
    EncodedFirst(Denotes(it), Meaning(rest));
  }

  lemma SpelledFirst(input: seq<Byte>, i: nat, it: Item, rest: seq<Item>)
    requires Spelled(input, i, Text(it)) && SpelledItems(input, i + |Text(it)|, rest)
    ensures SpelledItems(input, i, [it] + rest)
  {
    Parts([it], rest);
  }

  lemma MeaningFirst(it: Item, rest: seq<Item>)
    requires Legal(it) && AllLegal(rest)
    ensures AllLegal([it] + rest) && Meaning([it] + rest) == [Denotes(it)] + Meaning(rest)
  {
    Parts([it], rest);
  }

  /** Every scanned literal is one of the grammar. */
  lemma {:induction false} ScanSound(input: seq<Byte>, i: nat) returns (items: seq<Item>)
    requires i <= |input| && ScanFrom(input, i).Complete?
    ensures AllLegal(items) && SpelledItems(input, i, items)
    ensures ScanFrom(input, i).bytes == Encoded(Meaning(items))
    decreases |input| - i
  {
    if ScanChar(input, i).Closing? {
      items := [];
    } else {
      var it := SoundChar(input, i);
      var rest := ScanSound(input, ScanChar(input, i).next);
      items := [it] + rest;
      FirstItem(input, i, it, rest);
    }
  }

  /** A literal is accepted exactly if the grammar derives it, and what it leaves in
      the buffer is the UTF-8 form of the code points it denotes. */
  lemma ScanIff(input: seq<Byte>, i: nat)
    requires i <= |input|
    ensures ScanFrom(input, i).Complete? <==> exists items :: AllLegal(items) && SpelledItems(input, i, items)
    ensures forall items :: AllLegal(items) && SpelledItems(input, i, items) ==>
      ScanFrom(input, i).Complete? && ScanFrom(input, i).bytes == Encoded(Meaning(items))
  {
    if ScanFrom(input, i).Complete? {
      var items := ScanSound(input, i);
    }
    forall items | AllLegal(items) && SpelledItems(input, i, items)
      ensures ScanFrom(input, i).Complete? && ScanFrom(input, i).bytes == Encoded(Meaning(items))
    {
      ScanComplete(input, i, items);
    }
  }

  // --------------------------------------------- writing code points as escapes

  function HexDigit(v: int): (b: Byte)
    requires 0 <= v < 16
    ensures HexValue(b) == v
  {
    if v < 10 then 0x30 + v else 0x57 + v
  }

  function HexDigits(u: int): (r: seq<Byte>)
    requires 0 <= u <= 0xFFFF
    ensures IsHexNumber(r) && HexNumber(r, 0) == u
  {
    HexSplit(u);
    [HexDigit(u / 4096), HexDigit(u / 256 % 16), HexDigit(u / 16 % 16), HexDigit(u % 16)]
  }

  lemma HexSplit(u: nat)
    ensures u == u / 4096 * 4096 + u / 256 % 16 * 256 + u / 16 % 16 * 16 + u % 16
  {
    DivideTwice(u, 16, 16);
    DivideTwice(u, 256, 16);
  }

  /** The surrogate pair of a code point, as section 2.1 of RFC 2781 makes it. */
  function HighOf(c: Scalar): (u: int)
    requires c >= 0x1_0000
    ensures IsHigh(u)
  {
    0xD800 + (c - 0x1_0000) / 0x400
  }

  function LowOf(c: Scalar): (u: int)
    requires c >= 0x1_0000
    ensures IsLow(u) && PairValue(HighOf(c), u) == c
  {
    0xDC00 + (c - 0x1_0000) % 0x400
  }

  /** The escape of a code point. */
  function EscapeOf(c: Scalar): (it: Item)
    ensures Legal(it) && Denotes(it) == c
  {
    if c < 0x1_0000 then Hex(HexDigits(c)) else
      var high, low := HighOf(c), LowOf(c);
      HexPair(HexDigits(high), HexDigits(low))
  }

  function EscapesOf(cs: seq<Scalar>): (items: seq<Item>)
    ensures AllLegal(items) && |items| == |cs|
  {
    if cs == [] then [] else [EscapeOf(cs[0])] + EscapesOf(cs[1..])
  }

  lemma {:induction false} EscapesMean(cs: seq<Scalar>)
    ensures Meaning(EscapesOf(cs)) == cs
  {
    if cs != [] {
      EscapesMean(cs[1..]);
      Parts([EscapeOf(cs[0])], EscapesOf(cs[1..]));
      HeadTail(cs);
    }
  }

  /** Any text written in escapes is scanned into its UTF-8 form. */
  lemma ScanEscapes(input: seq<Byte>, i: nat, cs: seq<Scalar>)
    requires i <= |input| && SpelledItems(input, i, EscapesOf(cs))
    ensures ScanFrom(input, i).Complete? && ScanFrom(input, i).bytes == Encoded(cs)
  {
    EscapesMean(cs);
    ScanComplete(input, i, EscapesOf(cs));
  }
}
