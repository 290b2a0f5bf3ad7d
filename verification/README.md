# Verified model of the tick pipeline and its JSON library

Ultra-MDS receives market data, checks every tick against the rules of its contract and
forwards what passes. It reads its rules with a bundled JSON library. This project models
the four parts of that code whose correctness is hard to see, and proves it.

* **Printing doubles** (`Powers`, `Decimals`, `Diyfp`, `CachedPowers`, `DigitGen`, `Grisu`,
  `FormatNumber`) and **scanning them** (`NumberGrammar`, `NumberValue`, `Lexer`).
  Machine words are integers with an explicit range, so every sum, shift and product
  carries the proof that it does not wrap. Decimals and binary numbers are compared on exact integers. The main results:
  Grisu2 prints a decimal that lies strictly between the rounding boundaries, and what
  `to_chars` writes is scanned back whole and restores the same double.
* **JSON trees** (`Json`, `JsonEquality`, `StringEscape`, `JsonPointer`, `JsonPatch`, `JsonDiff`,
  `StringOrder`, `Flatten`, `Unflatten`, `UnflattenErrors`), **their parser** (`Grammar`,
  `Parser`, `ParserErrors`, `Dom`, `DomParser`) and **its strings** (`Utf8`,
  `ScanString`, `Lexer`, `WideInput`). The main results: a diff patches its source into its target; flattening is undone by
  unflattening exactly on the values named; the loop with the bit stack accepts exactly
  the grammar, reports its preorder events, and reports an error at the first token with
  which no value goes on; the builder rebuilds the value; a scanned
  string is the UTF-8 of the code points it denotes; pointer texts and token lists are in
  bijection.
* **The ring buffer and the pipeline** (`Spsc`, `SpscQueue`, `Pipeline`, `TickHandler`).
  Producer and consumer are state machines over atomic steps, interleaved arbitrarily.
  `Spsc` proves what every interleaving keeps; `SpscQueue` has the methods as imperative
  code over an array, tied to those steps.
* **The timestamp filter** (`UnitProcessor`), over unbounded sequences of ticks.

Where the source changes state step by step, the model has a method or class with loops,
proved against a function; the theorems are about that function.

## What the proofs found

The model keeps the code as it is. Where a promise does not hold for all inputs, there is
a lemma with the exact condition.

* `diff`/`patch` reaches a document equal to the target exactly if the target holds no NaN
  and nothing discarded (`JsonDiff.PatchOfDiff`). The source may hold them. It reaches the
  target itself for text whose numbers are integers from -2^63 to 2^63 - 1, -0 aside
  (`PatchGivesTarget`); in general it does not, because what is equal is left alone: 1
  does not replace 1.0 (`OneStaysDouble`).
* `unflatten(flatten(j))` does not give j back for an object whose first replayed leaf
  lies under the key "0": it becomes an array (`Unflattening.UnflattenFlatten`,
  `ObjectMistaken`).
* Equality of JSON values is not transitive; a chain of two equalities closes exactly
  under the condition of `JsonEquality.EqualTransitiveIff`. It can fail for two
  independent reasons: an unsigned number is cast to signed before it is compared with a
  signed one, and an integer is rounded before it is compared with a double. It never
  fails among exactly representable integers below 2^63, and every other clean value
  starts a chain in which it does (`EqualTransitive`, `OutsideFails`).
* `remove` below a primitive value succeeds and does nothing; `add` below one reaches the
  assertion whose comment says that it cannot happen; a failing operation changes the
  document exactly if it is a `move` whose source exists below the root
  (`JsonPatch.RemoveChangesNothing`, `AddReachesAssertion`, `FailureKeepsDocument`).
* Error 410 of `array_index`, documented as a matter of special platforms, is reached on
  64-bit ones by 18446744073709551615 (`JsonPointer.IndexExceedsSizeType`).
* The lower bound `10^(n-1) <= p1` that a comment in the first digit loop calls an
  invariant is lost whenever the next digit is zero (`DigitGen.LowerBoundLost`).
* Ill-formed UTF-16 goes unnoticed unless a surrogate is left over at the very end,
  because a surrogate is joined with whatever unit follows it (`WideInput.UnnoticedIff`).
* The assertion in `pop` is not enough: without a preceding `front` the queue stays in
  order exactly if the cached write index differs from the read index
  (`Spsc.PopSafeIff`). Called by a third thread, `size()` can be wrong in either order of
  its two loads, exactly as `Spsc.SizeBetweenLoads` and `SizeReadIndexFirst` say. A
  requested capacity of SIZE_MAX wraps to an unusable queue (`Spsc.UsableCapacity`).
* `allow_same_ms_data` has no effect (`UnitProcessors.AllowSameMsIrrelevant`). A tick late
  by less than the tolerance can be rejected when it crosses a minute or an hour
  (`UnitProcessors.LateTickRejected`). A tick rejected by a later check still advances the
  last timestamp (`UnitProcessors.RejectedStillAdvances`) and can shut out good ones
  (`EarlierTickShadows`). An accepted time consists of digits exactly if the second
  characters of hour, minute and second do (`UnitProcessors.TimeDigitsIff`).
* A worker serves one contract more than its queue was sized for exactly if its number is
  below the remainder of contracts over threads (`Pipeline.QueueTooShort`).

## Model

| member | source | states |
|---|---|---|
| Diyfps.Mul | Ultra-MDS/Tool/nlohmann/detail/conversions/to_chars.hpp:82-141 | the four 32-bit partial products, added without wrap-around, give exactly the 128-bit product rounded to its upper word, ties up; exponents add up plus 64 |
| Diyfps.Normalize | Ultra-MDS/Tool/nlohmann/detail/conversions/to_chars.hpp:147-158 | the loop shifts the leading bit to position 63 and lowers the exponent by the same count |
| Diyfps.NormalizeTo | Ultra-MDS/Tool/nlohmann/detail/conversions/to_chars.hpp:164-172 | if the word shifted up and down again is the word itself, which the source asserts, the shift modulo 2^64 is an exact multiplication |
| Diyfps.ShiftedBack | Ultra-MDS/Tool/nlohmann/detail/conversions/to_chars.hpp:168-169 | a word shift can be undone exactly if the product fits into the word |
| Diyfps.ShiftOfBoundary | Ultra-MDS/Tool/nlohmann/detail/conversions/to_chars.hpp:241-253 | for every double the shifts that normalize the boundaries lie between 10 and 62 and lose no bit of any of the three significands |
| Diyfps.ComputeBoundaries | Ultra-MDS/Tool/nlohmann/detail/conversions/to_chars.hpp:188-254 | the number and the exact midpoints to its two neighbours, at one common exponent, with the lower one closer exactly at a power of two above the denormals; all significands fit a word |
| CachedPowers.AccurateEntry | Ultra-MDS/Tool/nlohmann/detail/conversions/to_chars.hpp:347-468 | each of the 79 table entries is within half a unit in the last place of the exact power of ten, compared on exact integers |
| CachedPowers.CachedPowerFor | Ultra-MDS/Tool/nlohmann/detail/conversions/to_chars.hpp:328-486 | for every exponent a double can produce the lookup stays inside the table and the product lands in [alpha, gamma] |
| DigitGen.FindLargestPow10 | Ultra-MDS/Tool/nlohmann/detail/conversions/to_chars.hpp:488-544 | 10^(k-1) <= n < 10^k, and that power, for every n but 0, for which k is 1 and the power 1 |
| DigitGen.RoundStepsClosest | Ultra-MDS/Tool/nlohmann/detail/conversions/to_chars.hpp:546-582 | the rounding loop stays in the interval and no other number of steps ends closer to w |
| DigitGen.Grisu2Round | Ultra-MDS/Tool/nlohmann/detail/conversions/to_chars.hpp:546-582 | the last digit goes down by exactly the number of rounding steps and never below '1', let alone '0'; nothing else changes |
| DigitGen.LastDigitBest | Ultra-MDS/Tool/nlohmann/detail/conversions/to_chars.hpp:555-581 | rounding the last digit yields a value in the interval, no coarser multiple of ten of its unit does, and none of its own unit is closer to w |
| DigitGen.SeventeenDigitsSuffice | Ultra-MDS/Tool/nlohmann/detail/conversions/to_chars.hpp:750-792 | the fraction loop never writes past seventeen digits |
| DigitGen.IntegralDigits | Ultra-MDS/Tool/nlohmann/detail/conversions/to_chars.hpp:627-709 | the first loop either ends with a finished digit string or hands over digits whose remainder still exceeds delta; every word fits 64 bits |
| DigitGen.LowerBoundLost | Ultra-MDS/Tool/nlohmann/detail/conversions/to_chars.hpp:653-709 | after a round the lower bound 10^(n-1) <= p1 of the comment holds exactly if the next digit is not zero |
| DigitGen.LowerBoundLostAt101 | Ultra-MDS/Tool/nlohmann/detail/conversions/to_chars.hpp:653-709 | the loop with p1 = 101: after the first digit its invariant holds with n = 2 and p1 = 1, below the 10 of the comment |
| DigitGen.FractionDigits | Ultra-MDS/Tool/nlohmann/detail/conversions/to_chars.hpp:750-819 | the second loop terminates without overflowing 64 bits and ends with a finished digit string |
| DigitGen.Grisu2DigitGen | Ultra-MDS/Tool/nlohmann/detail/conversions/to_chars.hpp:587-820 | at most 17 digits, first and last not zero; V lies in [M-, M+], no coarser multiple does, and V is the multiple of its own power of ten closest to w |
| Grisu.ScaledWithinOneUnit | Ultra-MDS/Tool/nlohmann/detail/conversions/to_chars.hpp:852-862 | rounding the product and the cached power costs less than one unit, so one unit of safety suffices |
| Grisu.ReadyForDigits | Ultra-MDS/Tool/nlohmann/detail/conversions/to_chars.hpp:843-876 | M- < w < M+ survive rounding and the safety units, and the interval is wide enough for 17 digits |
| Grisu.PrintedBetweenBoundaries | Ultra-MDS/Tool/nlohmann/detail/conversions/to_chars.hpp:864-878 | digits in the scaled interval lie strictly between the unscaled boundaries: the printed decimal is compared with m- and m+ on exact integers |
| Grisu.BoundariesReadBack | Ultra-MDS/Tool/nlohmann/detail/conversions/to_chars.hpp:220-239 | whatever lies strictly between m- and m+ is strictly closer to v than to any other double, zero and the overflow threshold included |
| Grisu.Grisu2 | Ultra-MDS/Tool/nlohmann/detail/conversions/to_chars.hpp:886-921 | for every positive finite double: at most 17 digits without outer zeros whose value lies strictly between m- and m+, so that every correct reader gets the same double back |
| FormatNumber.MemMove | Ultra-MDS/Tool/nlohmann/detail/conversions/to_chars.hpp:1013-1015 | an overlapping move to the right keeps every moved character and everything outside |
| FormatNumber.AppendExponent | Ultra-MDS/Tool/nlohmann/detail/conversions/to_chars.hpp:928-968 | a sign and two or three digits are appended; nothing in front changes |
| FormatNumber.FormatBuffer | Ultra-MDS/Tool/nlohmann/detail/conversions/to_chars.hpp:980-1048 | rewriting the digits in place yields exactly one of the four layouts, for every decimal exponent of three digits |
| FormatNumber.LayoutDenotes | Ultra-MDS/Tool/nlohmann/detail/conversions/to_chars.hpp:986-1047 | whatever the layout, the text spells a JSON number with fraction or exponent that denotes sign * digits * 10^decimal_exponent |
| FormatNumber.LayoutByMagnitude | Ultra-MDS/Tool/nlohmann/detail/conversions/to_chars.hpp:1071-1114 | the magnitude alone decides the layout: from 10^-4 to below 10^15 there is no exponent, and behind the point stand the digits of the fraction, or one zero for a whole number; otherwise there is an exponent and one digit, not zero, in front of the point |
| FormatNumber.LayoutIsScanned | Ultra-MDS/Tool/nlohmann/detail/input/lexer.hpp:970-1295 | every layout is scanned whole as one value_float token, and any reading of that text as a number denotes sign * digits * 10^decimal_exponent |
| FormatNumber.NotTooLarge | Ultra-MDS/Tool/nlohmann/detail/conversions/to_chars.hpp:920-931 | the digits of a double never need an exponent of 1000 or more |
| FormatNumber.NotTooSmall | Ultra-MDS/Tool/nlohmann/detail/conversions/to_chars.hpp:920-931 | the digits of a double never need an exponent of -1000 or less; with NotTooLarge, the two assertions of append_exponent hold |
| FormatNumber.PrintedIsReadBack | Ultra-MDS/Tool/nlohmann/detail/input/lexer.hpp:970-1295 | the printed text is scanned whole as a floating-point token, and every number it can be read as restores sign and magnitude |
| FormatNumber.ToChars | Ultra-MDS/Tool/nlohmann/detail/conversions/to_chars.hpp:1065-1115 | for every finite double, zeros included, the buffer holds the text of a number from which sign and magnitude are recovered |
| NumberGrammar.AcceptsNumbers | Ultra-MDS/Tool/nlohmann/detail/input/lexer.hpp:941-951 | the states labelled done are reached exactly by the numbers of section 6 of RFC 8259 |
| NumberGrammar.RunsOnViable | Ultra-MDS/Tool/nlohmann/detail/input/lexer.hpp:941-951 | the machine is still running exactly after the beginnings of numbers |
| NumberValues.SpellUnique | Ultra-MDS/Tool/nlohmann/detail/input/lexer.hpp:941-951 | no text spells two numbers, so what a text denotes is well defined |
| NumberValues.ScannedWhole | Ultra-MDS/Tool/nlohmann/detail/input/lexer.hpp:1245-1295 | a number followed by a character that cannot continue it is scanned up to its end, and a fraction or exponent makes it a floating-point token |
| NumberValues.IntegerTokens | Ultra-MDS/Tool/nlohmann/detail/input/lexer.hpp:1245-1290 | the token of a number without fraction and exponent: with a minus, the negated value as a signed integer if that fits 64 bits; without, the value as an unsigned one if that fits; else a float token of the whole text |
| NumberValues.MinusFive | Ultra-MDS/Tool/nlohmann/detail/input/lexer.hpp:1272-1281 | the text -5 is the signed integer -5 |
| Lexers.LongestBeginning | Ultra-MDS/Tool/nlohmann/detail/input/lexer.hpp:970-1248 | the scanner takes the longest prefix that can begin a number and succeeds exactly when that prefix is a number |
| Lexers.GetAfterUnget | Ultra-MDS/Tool/nlohmann/detail/input/lexer.hpp:1341-1402 | getting an ungotten character restores all counters, the token string and the current character, end of line and end of input included |
| Lexers.PositionOf | Ultra-MDS/Tool/nlohmann/detail/input/lexer.hpp:1341-1368 | after n calls of get the position is that of the first n characters: their number, the line ends among them, and the characters after the last of these; the token string is those characters |
| Lexers.Lexer.Get | Ultra-MDS/Tool/nlohmann/detail/input/lexer.hpp:1341-1368 | delivers the ungotten character again or else the next byte, and updates the counters and token string |
| Lexers.Lexer.Unget | Ultra-MDS/Tool/nlohmann/detail/input/lexer.hpp:1378-1402 | the next get reads the current character again; counters and token string go back |
| Lexers.Lexer.Switch | Ultra-MDS/Tool/nlohmann/detail/input/lexer.hpp:970-1243 | each switch of the goto machine is the transition function |
| Lexers.Lexer.RunMachine | Ultra-MDS/Tool/nlohmann/detail/input/lexer.hpp:1013-1243 | the gotos collect the longest beginning of a number and stop at the character behind it |
| Lexers.Lexer.ScanNumber | Ultra-MDS/Tool/nlohmann/detail/input/lexer.hpp:970-1295 | a token exactly if the longest beginning is a number; it is the token of that text, kept in token_buffer, and the next get delivers the character behind it |
| Utf8.Utf8Unique | Ultra-MDS/Tool/nlohmann/detail/input/lexer.hpp:720-830 | well-formed UTF-8 (section 4 of RFC 3629) encodes scalars injectively and never a surrogate |
| Utf8.Encode | Ultra-MDS/Tool/nlohmann/detail/input/lexer.hpp:383-409 | the four shift-and-mask branches produce the UTF-8 of the code point |
| ScanString.RangesIff | Ultra-MDS/Tool/nlohmann/detail/input/lexer.hpp:617-830 | the byte ranges checked after each lead byte admit exactly the well-formed sequences |
| ScanString.EscapeTables | Ultra-MDS/Tool/nlohmann/detail/input/lexer.hpp:284-318 | the switch over the letter behind a backslash is the table of section 7 of RFC 8259, pair by pair, and hexadecimal digits have their usual values |
| ScanString.ScanPair | Ultra-MDS/Tool/nlohmann/detail/input/lexer.hpp:331-366 | two escaped surrogates are scanned as the one character they stand for |
| ScanString.ScanIff | Ultra-MDS/Tool/nlohmann/detail/input/lexer.hpp:255-839 | scanning succeeds exactly on the strings of section 7 of RFC 8259 and then yields the UTF-8 of exactly the code points they denote |
| ScanString.ScanEscapes | Ultra-MDS/Tool/nlohmann/detail/input/lexer.hpp:320-410 | the \u escapes of any sequence of scalars, surrogate pairs included, are scanned as that sequence's UTF-8 |
| Lexers.Lexer.GetCodepoint | Ultra-MDS/Tool/nlohmann/detail/input/lexer.hpp:170-201 | four hexadecimal digits give their value, anything else -1 |
| Lexers.Lexer.NextByteInRange | Ultra-MDS/Tool/nlohmann/detail/input/lexer.hpp:218-239 | true exactly if the following bytes lie in the ranges, and then they are in the token buffer |
| Lexers.Lexer.GetSecondHalf | Ultra-MDS/Tool/nlohmann/detail/input/lexer.hpp:331-366 | a high surrogate is combined with the \u escape of a low one behind it, and rejected otherwise |
| Lexers.Lexer.ScanOne | Ultra-MDS/Tool/nlohmann/detail/input/lexer.hpp:264-836 | one turn of the loop scans one character, meets the closing quote, or fails, as the specification says |
| Lexers.Lexer.ScanString | Ultra-MDS/Tool/nlohmann/detail/input/lexer.hpp:255-839 | the loop succeeds exactly when the specification does, with its bytes in token_buffer and its end position |
| WideInput.PairFormulas | Ultra-MDS/Tool/nlohmann/detail/input/input_adapters.hpp:318-319 | the adapter's formula for surrogate pairs, the lexer's and that of section 2.2 of RFC 2781 agree on all pairs |
| WideInput.StreamIsUtf8 | Ultra-MDS/Tool/nlohmann/detail/input/input_adapters.hpp:278-333 | the byte stream of every well-formed UTF-16 text is the UTF-8 of its code points |
| WideInput.StreamIsScanned | Ultra-MDS/Tool/nlohmann/detail/input/input_adapters.hpp:278-361 | it equals what scan_string produces for the same text written in \u escapes |
| WideInput.Stream32IsUtf8 | Ultra-MDS/Tool/nlohmann/detail/input/input_adapters.hpp:220-271 | the byte stream of a UTF-32 text is UTF-8 exactly if all units are scalar values, and then it is theirs; every 32-bit unit is covered |
| WideInput.StreamIsUtf8Iff | Ultra-MDS/Tool/nlohmann/detail/input/input_adapters.hpp:278-333 | the byte stream of any UTF-16 text, well-formed or not, is UTF-8 exactly if no refill starts with a surrogate in last position, and then it is that of the code points read by pairing each surrogate with whatever follows |
| WideInput.IllFormedIff | Ultra-MDS/Tool/nlohmann/detail/input/input_adapters.hpp:307-331 | a text is ill-formed exactly if some refill starts with a surrogate without its partner |
| WideInput.UnnoticedIff | Ultra-MDS/Tool/nlohmann/detail/input/input_adapters.hpp:307-331 | so it goes unnoticed exactly if some refill starts with such a surrogate and none with a surrogate in last position |
| WideInput.SurrogateUnchecked | Ultra-MDS/Tool/nlohmann/detail/input/input_adapters.hpp:314-325 | the units D800 and 0041 are ill-formed and come out as the UTF-8 of U+10041 |
| WideInput.WideStringInputAdapter.FillBuffer | Ultra-MDS/Tool/nlohmann/detail/input/input_adapters.hpp:278-333 | refills the four-byte buffer with the bytes of the next character, or the end mark |
| WideInput.WideStringInputAdapter.GetCharacter | Ultra-MDS/Tool/nlohmann/detail/input/input_adapters.hpp:346-361 | delivers the byte stream one by one and then the end mark for ever; the index never passes the fill count |
| StringEscape.ReplaceSubstring | Ultra-MDS/Tool/nlohmann/detail/string_escape.hpp:31-40 | the position loop replaces the leftmost occurrences and never looks into its own replacements |
| StringEscape.TwoPassEscape | Ultra-MDS/Tool/nlohmann/detail/string_escape.hpp:50-55 | escaping in two passes is the one-pass character map |
| StringEscape.TwoPassUnescape | Ultra-MDS/Tool/nlohmann/detail/string_escape.hpp:65-69 | unescaping in two passes is the one-pass inverse, on every string |
| StringEscape.UnescapeEscape | Ultra-MDS/Tool/nlohmann/detail/string_escape.hpp:42-69 | unescaping undoes escaping, and what is escaped is properly escaped |
| StringEscape.EscapeUnescape | Ultra-MDS/Tool/nlohmann/detail/string_escape.hpp:42-69 | escaping undoes unescaping on properly escaped text |
| StringEscape.Escape | Ultra-MDS/Tool/nlohmann/detail/string_escape.hpp:50-55 | the two calls in place compute the map |
| StringEscape.Unescape | Ultra-MDS/Tool/nlohmann/detail/string_escape.hpp:65-69 | the two calls in place compute its inverse |
| JsonPointer.ParseToString | Ultra-MDS/Tool/nlohmann/detail/json_pointer.hpp:68-76 | split(to_string(ts)) == ts for every token list |
| JsonPointer.ToStringParse | Ultra-MDS/Tool/nlohmann/detail/json_pointer.hpp:666-724 | to_string(split(s)) == s for every accepted s |
| JsonPointer.ToStringInjective | Ultra-MDS/Tool/nlohmann/detail/json_pointer.hpp:68-76 | different token lists have different texts |
| JsonPointer.ParseAccepts | Ultra-MDS/Tool/nlohmann/detail/json_pointer.hpp:663-716 | exactly the empty text and the texts that begin with a slash and follow each ~ by 0 or 1 are accepted; otherwise error 107 or 108 |
| JsonPointer.Split | Ultra-MDS/Tool/nlohmann/detail/json_pointer.hpp:666-724 | the loop over slashes with its check of ~ computes the parse, errors included |
| JsonPointer.IndexIsNumeral | Ultra-MDS/Tool/nlohmann/detail/json_pointer.hpp:214-249 | array_index succeeds exactly on canonical decimal numerals below 2^64 - 1 |
| JsonPointer.IndexExceedsSizeType | Ultra-MDS/Tool/nlohmann/detail/json_pointer.hpp:241-246 | error 410 is reached on 64-bit platforms, by one numeral |
| JsonPointer.IndexRefused | Ultra-MDS/Tool/nlohmann/detail/json_pointer.hpp:218-239 | which tokens are refused with 106, 109 and 404 |
| Jsons.EqualReflexive | Ultra-MDS/Tool/nlohmann/json.hpp:3611-3680 | a value equals itself exactly if it holds no NaN and nothing discarded |
| Jsons.EqualIsClean | Ultra-MDS/Tool/nlohmann/json.hpp:3611-3680 | equal values hold no NaN and nothing discarded on either side |
| Jsons.EqualSymmetric | Ultra-MDS/Tool/nlohmann/json.hpp:3611-3680 | equality is symmetric across all mixed number types |
| JsonEquality.EqualIsIdentity | Ultra-MDS/Tool/nlohmann/json.hpp:3611-3680 | among values without doubles, unsigned numbers and discarded values, and also among those without doubles and discarded values whose unsigned numbers are below 2^63 and whose signed ones are negative, as parsed text has them (-0 aside), equal means identical |
| JsonEquality.EqualByKind | Ultra-MDS/Tool/nlohmann/json.hpp:3611-3680 | values of different kinds are equal only if both are numbers; arrays are equal exactly if as long and equal element by element, objects exactly if they have the same keys with equal members |
| JsonEquality.FloatsByValue | Ultra-MDS/Tool/nlohmann/json.hpp:3611-3680 | two doubles are equal exactly if they denote the same real number, compared exactly, or are the same infinity |
| JsonEquality.IntegersByValue | Ultra-MDS/Tool/nlohmann/json.hpp:3667-3674 | an unsigned and a signed number are equal exactly if congruent modulo 2^64: below 2^63 if they are the same number, above if they differ by 2^64 |
| JsonEquality.DoublesByValue | Ultra-MDS/Tool/nlohmann/json.hpp:3651-3666 | an integer and a double are equal exactly if the double is the integer rounded, in either order |
| JsonEquality.NearestIsNearest | Ultra-MDS/Tool/nlohmann/json.hpp:3651-3666 | no number that a double can be is nearer to the integer than what it is rounded to |
| JsonEquality.TiesToEven | Ultra-MDS/Tool/nlohmann/json.hpp:3651-3666 | the rounded integer is a multiple of a power of two with at most 53 bits, half a unit away at most, and even if exactly half |
| JsonEquality.EqualTransitive | Ultra-MDS/Tool/nlohmann/json.hpp:3611-3680 | equality is transitive among values whose integers are representable as doubles and whose unsigned integers are below 2^63 |
| JsonEquality.EqualTransitiveIff | Ultra-MDS/Tool/nlohmann/json.hpp:3611-3680 | for all values, a == b and b == c give a == c exactly if integers on both sides of a double have the same signed form and an integer in the middle is rounded like one that faces a double |
| JsonEquality.OutsideFails | Ultra-MDS/Tool/nlohmann/json.hpp:3651-3674 | every other clean value, nested or not, starts a chain of two equalities whose ends differ |
| JsonEquality.EqualIsNotTransitive | Ultra-MDS/Tool/nlohmann/json.hpp:3667-3674 | a chain through the cast to signed: 2^64 - 1 equals -1, which equals -1.0, which differs from 2^64 - 1 |
| JsonEquality.RoundingIsNotTransitive | Ultra-MDS/Tool/nlohmann/json.hpp:3651-3666 | a chain through rounding alone: 2^53 + 1 equals the double 2^53, which equals the integer 2^53, signed or not |
| JsonPatch.GetChecked | Ultra-MDS/Tool/nlohmann/detail/json_pointer.hpp:422-464 | walking the tokens computes access by path, with errors 402, 403, 404, 401, 106, 109 and 410 |
| JsonPatch.AtWithAt | Ultra-MDS/Tool/nlohmann/json.hpp:5004-5009 | what is stored at a place is read back there, and the last store wins |
| JsonPatch.WithAtSplit | Ultra-MDS/Tool/nlohmann/json.hpp:5004-5009 | storing below a path is storing at the path's head an updated subtree |
| JsonPatch.StoreElsewhere | Ultra-MDS/Tool/nlohmann/json.hpp:5004-5009 | a store changes nothing at places that are neither above nor below it |
| JsonPatch.ApplyAllSplit | Ultra-MDS/Tool/nlohmann/json.hpp:4947-5074 | a patch is applied like its two parts one after the other, and stops at the first failure |
| JsonPatch.FailureKeepsDocument | Ultra-MDS/Tool/nlohmann/json.hpp:4990-5073 | a failing operation changes the document if and only if it is a move whose source exists and is not the root |
| JsonPatch.MoveLosesValue | Ultra-MDS/Tool/nlohmann/json.hpp:5011-5026 | moving /a to /b/c in a document with nothing but /a fails with 403 and leaves the empty object |
| JsonPatch.AddReachesAssertion | Ultra-MDS/Tool/nlohmann/json.hpp:4867-4909 | add reaches the assertion that a parent cannot be primitive exactly if the parent exists and is a primitive other than null |
| JsonPatch.AddBelowTrue | Ultra-MDS/Tool/nlohmann/json.hpp:4867-4909 | adding /a/b where /a is true reaches the assertion |
| JsonPatch.RemoveChangesNothing | Ultra-MDS/Tool/nlohmann/json.hpp:4913-4939 | remove silently does nothing exactly if the parent exists and is neither array nor object |
| JsonPatch.RemoveBelowTrue | Ultra-MDS/Tool/nlohmann/json.hpp:4913-4939 | removing /a from true succeeds and changes nothing |
| JsonPatch.ChildIsElement | Ultra-MDS/Tool/nlohmann/detail/json_pointer.hpp:422-464 | an element of an array is found under its numeral, and beyond the end there is error 401 |
| JsonPatch.ChildErrors | Ultra-MDS/Tool/nlohmann/detail/json_pointer.hpp:422-464 | when access by a token fails with 403, 402, 401, 404 and 410 |
| JsonPatch.AddToArray | Ultra-MDS/Tool/nlohmann/json.hpp:4876-4898 | adding at an index not above the length inserts in front of that element and moves the others up; beyond it there is error 401; at - it appends |
| JsonPatch.AddInserts | Ultra-MDS/Tool/nlohmann/json.hpp:4845-4910 | the same for the add operation on an array at any place of a document; the value is found at the path given |
| JsonPatch.AddSetsMember | Ultra-MDS/Tool/nlohmann/json.hpp:4867-4875 | adding below an object sets the member and keeps the others; below null it makes an object of that member |
| JsonPatch.RemoveFromContainer | Ultra-MDS/Tool/nlohmann/json.hpp:4913-4939 | removing an element moves those behind it down, removing a member keeps the others; errors 401 and 403 |
| JsonPatch.RemoveTakesOut | Ultra-MDS/Tool/nlohmann/json.hpp:4913-4939 | the same for the remove operation at any place of a document |
| JsonPatch.ReplaceStores | Ultra-MDS/Tool/nlohmann/json.hpp:5004-5009 | replace stores the value where there is something and else fails with the error of the access |
| JsonPatch.CopyAndMove | Ultra-MDS/Tool/nlohmann/json.hpp:5011-5041 | copy is an add of what is found at from; move is an add of that to the document without it; failures of either part are those of the whole |
| JsonPatch.TestCompares | Ultra-MDS/Tool/nlohmann/json.hpp:5043-5065 | test succeeds exactly if an equal value is at the path; otherwise, a missing one included, it fails with 501, or with the error of a malformed index, and it never changes the document |
| JsonPatch.AddedIsThere | Ultra-MDS/Tool/nlohmann/json.hpp:4845-4910 | what a successful add was given is found at its path, unless that ends in - |
| JsonPatch.ValueArrives | Ultra-MDS/Tool/nlohmann/json.hpp:5011-5041 | after a successful copy or move, what was found at from is found at the path |
| JsonPatch.MoveRenames | Ultra-MDS/Tool/nlohmann/json.hpp:5011-5026 | moving a member of an object to another name: the value is there and no longer where it was |
| JsonPatch.DecodeWritten | Ultra-MDS/Tool/nlohmann/json.hpp:4947-4990 | each operation is read back from the object that section 4 of RFC 6902 writes it as |
| JsonPatch.DecodeErrors | Ultra-MDS/Tool/nlohmann/json.hpp:4947-4990 | which elements of a patch are refused before anything is done, with errors 104 and 105 and those of the pointer |
| JsonPatch.Document.AddAt | Ultra-MDS/Tool/nlohmann/json.hpp:4845-4910 | the add operation on the stored document, with its failures |
| JsonPatch.Document.RemoveAt | Ultra-MDS/Tool/nlohmann/json.hpp:4913-4939 | the remove operation on the stored document, with its failures |
| JsonPatch.Document.PatchInplace | Ultra-MDS/Tool/nlohmann/json.hpp:4808-5075 | the loop over the operations changes the document as the specification of patches says, and keeps what was done before a failure |
| JsonDiff.Diff | Ultra-MDS/Tool/nlohmann/json.hpp:5089-5219 | the two passes of diff, with removals inserted in reverse order, produce the specified patch |
| JsonDiff.DiffArrays | Ultra-MDS/Tool/nlohmann/json.hpp:5113-5155 | the array case: common elements, removals from the end, appends through /- |
| JsonDiff.DiffObjects | Ultra-MDS/Tool/nlohmann/json.hpp:5157-5197 | the object case: common keys and removals in source order, then additions in target order |
| JsonDiff.PatchedEqualsTarget | Ultra-MDS/Tool/nlohmann/json.hpp:5096-5099 | the document a diff leads to equals the target exactly if the target holds no NaN and nothing discarded |
| JsonDiff.DiffRuns | Ultra-MDS/Tool/nlohmann/json.hpp:5089-5219 | a diff computed for the value at any path applies without failure and changes the document at that path only |
| JsonDiff.PatchOfDiff | Ultra-MDS/Tool/nlohmann/json.hpp:4808-5219 | patching the source with diff(source, target) always succeeds, and the result equals the target if and only if the target holds no NaN and nothing discarded |
| JsonDiff.PatchGivesTarget | Ultra-MDS/Tool/nlohmann/json.hpp:4808-5219 | patching the source with diff(source, target) gives the target itself, if equality is identity on them: without discarded values and doubles, and either without unsigned numbers or, as in parsed text, with unsigned ones below 2^63 and only negative signed ones |
| JsonDiff.EqualPartsKept | Ultra-MDS/Tool/nlohmann/json.hpp:5096-5099 | what is equal in source and target at a place that the diff descends to stays the source's, to the bit |
| JsonDiff.OneStaysDouble | Ultra-MDS/Tool/nlohmann/json.hpp:5096-5099 | so the diff from 1.0 to 1 is empty, and patching leaves 1.0 |
| JsonDiff.PatchToNaN | Ultra-MDS/Tool/nlohmann/json.hpp:4808-5219 | null patched into NaN: it succeeds, and the result does not equal the target |
| StringOrder.SortedKeys | Ultra-MDS/Tool/nlohmann/detail/json_pointer.hpp:770-816 | objects are iterated in ascending key order, every key once |
| Flattening.Flatten | Ultra-MDS/Tool/nlohmann/detail/json_pointer.hpp:735-793 | the recursion that fills the result object computes the specification |
| Flattening.FlattenedLeaves | Ultra-MDS/Tool/nlohmann/detail/json_pointer.hpp:735-793 | the flattened object has exactly the pointers of the leaves as keys, with the leaves, or null for empty containers, as values |
| Flattening.Unflatten | Ultra-MDS/Tool/nlohmann/detail/json_pointer.hpp:807-832 | the loop over the sorted keys computes the replay, with errors 314, 315 and 313 |
| UnflattenErrors.AssignmentThrowsIff | Ultra-MDS/Tool/nlohmann/detail/json_pointer.hpp:274-332 | for any value and any path, get_and_create fails exactly if the path leads, through what is there, to a value that is neither null nor a container, or to an array with a token that is no index; with error 313 or that of the index |
| UnflattenErrors.UnflattenThrowsIff | Ultra-MDS/Tool/nlohmann/detail/json_pointer.hpp:807-832 | unflatten throws 314 exactly for non-objects, and otherwise the error of the first entry, in key order, that cannot be assigned: 315 for a value that is not primitive, that of the pointer, or that of the assignment |
| UnflattenErrors.Throws313Iff | Ultra-MDS/Tool/nlohmann/detail/json_pointer.hpp:814-831 | error 313 in terms of the entries alone: some pointer has a value other than null, and the first entry that cannot be assigned is below it |
| Unflattening.FirstOfArray | Ultra-MDS/Tool/nlohmann/detail/json_pointer.hpp:751-755 | the first leaf replayed under an array lies under index 0, although /10 is replayed before /2 |
| Unflattening.ReplayInOrder | Ultra-MDS/Tool/nlohmann/detail/json_pointer.hpp:814-831 | after any number of leaves the partial document is known, and the remaining leaves complete it |
| Unflattening.ObjectMistaken | Ultra-MDS/Tool/nlohmann/detail/json_pointer.hpp:284-297 | an object whose first replayed leaf lies under the key "0" comes back as an array |
| Unflattening.OnlyRecoverable | Ultra-MDS/Tool/nlohmann/detail/json_pointer.hpp:274-332 | only recoverable values come back |
| Unflattening.UnflattenFlatten | Ultra-MDS/Tool/nlohmann/detail/json_pointer.hpp:735-832 | unflattening the flattened j gives j back, identically, if and only if j has no empty container, nothing discarded, and no object whose first replayed leaf lies under "0" |
| Unflattening.UnflattenFlattenEqual | Ultra-MDS/Tool/nlohmann/detail/json_pointer.hpp:735-832 | it gives a value that operator== calls equal to j if and only if, besides, j holds no NaN |
| Unflattening.WithoutZeroKeys | Ultra-MDS/Tool/nlohmann/detail/json_pointer.hpp:735-832 | the round trip holds for every value without empty containers, discarded values and object keys equal to "0" |
| Unflattening.ZeroKeyAlone | Ultra-MDS/Tool/nlohmann/detail/json_pointer.hpp:284-297 | no object whose only key is "0" is recoverable, so the round trip fails for it |
| Parser.RunTree | Ultra-MDS/Tool/nlohmann/detail/input/parser.hpp:188-485 | from any stack the loop consumes any derivable value, reports its preorder events and returns to the same stack |
| Parser.ParseComplete | Ultra-MDS/Tool/nlohmann/detail/input/parser.hpp:182-485 | every token sequence that begins with a derivable value is accepted, with its events and its end |
| Parser.ParseSound | Ultra-MDS/Tool/nlohmann/detail/input/parser.hpp:182-485 | every accepted token sequence begins with a derivable value, which is found, whose events were reported |
| Parser.ParseIff | Ultra-MDS/Tool/nlohmann/detail/input/parser.hpp:182-485 | acceptance by the loop with its bit stack is derivability in the recursive grammar, with or without trailing commas |
| Parser.SaxParseInternal | Ultra-MDS/Tool/nlohmann/detail/input/parser.hpp:182-485 | the while loop over last_token, states and skip_to_state_evaluation, for every consumer: it hears the events of the run up to the first it refuses, and the result is false exactly if it refuses one; terminates on every token sequence |
| Parser.ToldAll | Ultra-MDS/Tool/nlohmann/detail/input/parser.hpp:199-484 | a consumer that refuses hears the shortest sequence of events it refuses, a prefix of all events; one that does not hears them all |
| Parser.StrictIff | Ultra-MDS/Tool/nlohmann/detail/input/parser.hpp:163-177 | strict mode accepts exactly the texts that are one derivable value as a whole, and reports the events of every derivation |
| Parser.SaxParse | Ultra-MDS/Tool/nlohmann/detail/input/parser.hpp:163-177 | the same for the public entry, with the error at trailing tokens in strict mode |
| Parser.ErrorsOnly | Ultra-MDS/Tool/nlohmann/detail/input/json_sax.hpp:910-985 | a consumer that stops at errors only, as the acceptor and the builder do, hears the reported events, and the result is acceptance |
| Parser.RejectedReports | Ultra-MDS/Tool/nlohmann/detail/input/parser.hpp:210-484 | a rejected text reports exactly one error, as its last event, numbered 101 or 406 |
| ParserErrors.ErrorAtFirstMisfit | Ultra-MDS/Tool/nlohmann/detail/input/parser.hpp:188-485 | the error is reported as early as possible: the tokens before the one where it is reported begin some derivable value, and the events before it are the beginning of that value's events |
| ParserErrors.NoWayOn | Ultra-MDS/Tool/nlohmann/detail/input/parser.hpp:188-485 | and never too early: with that token the text begins no derivable value, whatever follows, and is rejected at the same place with the same events |
| Dom.GetPut | Ultra-MDS/Tool/nlohmann/detail/input/json_sax.hpp:421-456 | what the builder stores through a reference is read back through it, and the last store wins |
| Dom.FeedTree | Ultra-MDS/Tool/nlohmann/detail/input/json_sax.hpp:193-323 | feeding the events of a value at any point of a build places that value and restores the stack |
| Dom.FeedBuilds | Ultra-MDS/Tool/nlohmann/detail/input/json_sax.hpp:193-323 | feeding the events of any derivation builds its value: preorder events suffice and the last duplicate key wins |
| Dom.LastMemberCounts | Ultra-MDS/Tool/nlohmann/detail/input/json_sax.hpp:258-266 | in the value built, a key has the value of the last member with that key |
| Dom.KeysAreMembers | Ultra-MDS/Tool/nlohmann/detail/input/json_sax.hpp:258-266 | and the keys are exactly those of the members |
| Dom.FeedKeepsChain | Ultra-MDS/Tool/nlohmann/detail/input/json_sax.hpp:413-456 | after every event each entry of ref_stack is the newest child of the one below it, so that the stack is the path from the root to the current container; and no array below the top entry changes its length, so no append invalidates an entry |
| Dom.EntriesAreAbove | Ultra-MDS/Tool/nlohmann/detail/input/json_sax.hpp:460-466 | every entry of the stack is an ancestor of the top |
| DomParsers.NoFault | Ultra-MDS/Tool/nlohmann/detail/input/json_sax.hpp:258-323 | along every run of the parser the assertions of the builder hold |
| DomParsers.ConsumerIsSafe | Ultra-MDS/Tool/nlohmann/detail/input/json_sax.hpp:258-323 | for every token sequence, well-formed or not, no assertion of the builder fails |
| DomParsers.DomParser.HandleValue | Ultra-MDS/Tool/nlohmann/detail/input/json_sax.hpp:421-456 | the three branches change root and stack as specified and return the place of the value |
| DomParsers.DomParser.Start | Ultra-MDS/Tool/nlohmann/detail/input/json_sax.hpp:235-305 | start_object and start_array push the place of the new container |
| DomParsers.DomParser.Key | Ultra-MDS/Tool/nlohmann/detail/input/json_sax.hpp:258-266 | adds null under the key and remembers its place |
| DomParsers.DomParser.End | Ultra-MDS/Tool/nlohmann/detail/input/json_sax.hpp:268-323 | end_object and end_array pop one entry |
| DomParsers.ParseText | Ultra-MDS/Tool/nlohmann/detail/input/parser.hpp:95-147 | parse yields the value of any derivation of an accepted text, and a discarded value for a rejected one |
| DomParsers.ReportRebuilds | Ultra-MDS/Tool/nlohmann/detail/input/json_sax.hpp:193-323 | reporting any value that JSON text can express rebuilds it, whatever the root held before |
| Spsc.StepKeepsInv | Ultra-MDS/Tool/SPSCQueue.h:105-192 | every atomic step of producer and consumer, interleaved in any way with stale caches, keeps the invariant that ties wrapped indices, caches and slots to unbounded counters |
| Spsc.RunIsSafe | Ultra-MDS/Tool/SPSCQueue.h:105-192 | in every run no live slot is overwritten and no dead slot read or destroyed; popped values are a prefix of the pushed ones, and never more than capacity() are inside |
| Spsc.ProducerRefinesFifo | Ultra-MDS/Tool/SPSCQueue.h:105-141 | each producer step leaves the queue unchanged or appends the value to a queue with room |
| Spsc.ConsumerRefinesFifo | Ultra-MDS/Tool/SPSCQueue.h:169-192 | each consumer step leaves the queue unchanged or takes its first value |
| Spsc.StaleCacheOnlyReloads | Ultra-MDS/Tool/SPSCQueue.h:132-136 | a stale cache never changes an outcome, it only forces a reload |
| Spsc.RefusedOnlyIfFull | Ultra-MDS/Tool/SPSCQueue.h:132-136 | try_emplace returns false only if the queue was full at its own load of readIdx_ |
| Spsc.NullOnlyIfEmpty | Ultra-MDS/Tool/SPSCQueue.h:171-176 | front returns null only if the queue was empty at its own load of writeIdx_ |
| Spsc.FrontReturnsOldest | Ultra-MDS/Tool/SPSCQueue.h:169-178 | where front returns a slot, it is live and holds the first value of the queue |
| Spsc.EmptyAnswersAsAtLoad | Ultra-MDS/Tool/SPSCQueue.h:203-206 | empty answers true exactly if the queue was empty when it loaded writeIdx_, whatever the producer does before it loads readIdx_ |
| Spsc.FrontAfterNonEmpty | Ultra-MDS/DataHandler/TickHandler.cpp:13-17 | once the consumer has seen !empty(), its next front() is non-null however many producer steps come between |
| Spsc.PopSafeIff | Ultra-MDS/Tool/SPSCQueue.h:180-192 | with its assertion as the only guard, a pop keeps the invariant if and only if writeIdxCache_ differs from readIdx_ |
| Spsc.BlindPopThenFront | Ultra-MDS/Tool/SPSCQueue.h:169-192 | after a pop with equal indices the next front reads a dead slot exactly if nothing else was inside or being published |
| Spsc.PopNeedsFront | Ultra-MDS/Tool/SPSCQueue.h:184-185 | a run into that state: one value pushed, popped without front |
| Spsc.SizeBetweenLoads | Ultra-MDS/Tool/SPSCQueue.h:194-201 | size() that loads writeIdx_ first, with any steps before it loads readIdx_: the number of values inside at the first load and still at the second, exactly if no more than those were popped meanwhile or the surplus fills whole rounds of the ring; the size at a load when one side stands still |
| Spsc.SizeReadIndexFirst | Ultra-MDS/Tool/SPSCQueue.h:194-201 | with the loads in the other order: the number of values inside at the first load or pushed before the second, exactly if that many fit |
| Spsc.SizeGoesWrong | Ultra-MDS/Tool/SPSCQueue.h:194-201 | a run in which the queue is empty at both loads and size() returns 1 |
| Spsc.SizeGoesWrongToo | Ultra-MDS/Tool/SPSCQueue.h:194-201 | in the other order, a run in which the queue holds one value at both loads and size() returns 0 |
| Spsc.UsableCapacity | Ultra-MDS/Tool/SPSCQueue.h:58-91 | the requested capacity is the usable one except near SIZE_MAX; requesting SIZE_MAX itself wraps to no usable slot |
| SpscQueue.SPSCQueue.constructor | Ultra-MDS/Tool/SPSCQueue.h:58-91 | an empty queue with the requested usable capacity, at least one; for SIZE_MAX a queue without slots |
| SpscQueue.SPSCQueue.TryEmplace | Ultra-MDS/Tool/SPSCQueue.h:123-141 | appends if and only if the queue is not full |
| SpscQueue.SPSCQueue.Emplace | Ultra-MDS/Tool/SPSCQueue.h:106-120 | spins on a full queue while the consumer pops, and appends as soon as there is room, behind what is left |
| SpscQueue.SPSCQueue.Front | Ultra-MDS/Tool/SPSCQueue.h:169-178 | the first value, or none exactly if the queue is empty |
| SpscQueue.SPSCQueue.Pop | Ultra-MDS/Tool/SPSCQueue.h:180-192 | takes the first value and destroys its slot |
| SpscQueue.SPSCQueue.Size | Ultra-MDS/Tool/SPSCQueue.h:194-201 | in either order of the loads, with other threads at work between them, the difference of the counters loaded, modulo the number of slots; the number of values inside when nobody interferes |
| SpscQueue.SPSCQueue.Empty | Ultra-MDS/Tool/SPSCQueue.h:203-206 | index equality means emptiness |
| SpscQueue.SPSCQueue.Drain | Ultra-MDS/Tool/SPSCQueue.h:93-99 | the destructor destroys every value once and leaves no live slot |
| Pipeline.ThreadCount | Ultra-MDS/SystemStart.h:64-73 | the largest number of threads not above the cores and the contracts; one if there are no contracts or the cores are not known |
| Pipeline.QueueSizeShare | Ultra-MDS/SystemStart.h:72-84 | for every number of contracts and cores the queue size is a positive multiple of eight and, over all threads, within one contract per thread of eight places for each contract |
| Pipeline.QueueTooShort | Ultra-MDS/SystemStart.h:73-88 | worker q serves more contracts than its queue was sized for exactly if q is below the remainder of contracts over threads |
| Pipeline.FirstQueueTooShort | Ultra-MDS/SystemStart.h:73-88 | three contracts on two cores: worker 0 serves two with a queue sized for one |
| Pipeline.RoundRobinServes | Ultra-MDS/CtpRelated/Contract/Dispatcher.h:46-53 | the mapping made in turn gives each queue exactly the number of contracts counted there |
| Pipeline.InitDispatcher | Ultra-MDS/CtpRelated/Contract/Dispatcher.h:46-53 | the loop maps every name to its first processor, queues in turn |
| Pipeline.DispatcherSetsUp | Ultra-MDS/CtpRelated/Contract/Dispatcher.h:46-53 | after start-up every processor is served by the queue with its number modulo the queue count |
| Pipeline.StepKeepsInv | Ultra-MDS/CtpRelated/Contract/Dispatcher.h:57-68 | dispatching, polling, handling and popping keep the order and counting invariant |
| Pipeline.DroppedIffFull | Ultra-MDS/CtpRelated/Contract/Dispatcher.h:57-68 | in every reachable state a dispatched tick is dropped exactly if its contract is known and its queue full; otherwise a known one becomes the last of its queue, and nothing else changes |
| Pipeline.SentIsFiltered | Ultra-MDS/DataHandler/TickHandler.cpp:9-24 | in every run, what was sent for a contract is the validate-filter of its handled ticks, which with those still queued are its enqueued ticks in dispatch order; known = dropped + queued + rejected + sent, where each counter is the length of the logs it stands for |
| Pipeline.OneWorkerPerProcessor | Ultra-MDS/DataHandler/TickHandler.cpp:45-51 | a worker never touches a processor of another queue |
| TickHandlers.TickHandler.HandleTick | Ultra-MDS/DataHandler/TickHandler.cpp:45-51 | the tick is validated by its own processor and logged as sent exactly if accepted |
| TickHandlers.TickHandler.Poll | Ultra-MDS/DataHandler/TickHandler.cpp:13-22 | one turn of the loop handles and removes the oldest tick, or nothing on an empty queue, whatever is dispatched between empty, front, handling and pop |
| TickHandlers.TickHandler.ProcessLoop | Ultra-MDS/DataHandler/TickHandler.cpp:9-24 | after any turns with any ticks dispatched in between, queue and handled ticks are those of the specification, with no null dereference |
| TickHandlers.TakenInOrder | Ultra-MDS/DataHandler/TickHandler.cpp:9-24 | there the ticks are taken in the order in which they found room: taken + queued = initial + accepted |
| UnitProcessors.StrToInt64 | Ultra-MDS/DataHandler/UnitProcessor.h:143-150 | true exactly if all characters are digits, and then their value, for every text whose leading digits do not overflow int64 |
| UnitProcessors.PackedEmbedsOrder | Ultra-MDS/DataHandler/UnitProcessor.h:211-215 | the coded timestamp embeds the lexicographic order of day, hour, minute, second and millisecond into int64 |
| UnitProcessors.PackedDifference | Ultra-MDS/DataHandler/UnitProcessor.h:211-237 | within a day the coded difference is at least the true one, with equality exactly when hour and minute agree |
| UnitProcessors.CombineTimestamp | Ultra-MDS/DataHandler/UnitProcessor.h:175-218 | the timestamp, or -1 in the order of the four checks |
| UnitProcessors.SpelledTimestamp | Ultra-MDS/DataHandler/UnitProcessor.h:175-218 | for every moment, a tick whose time, day and millisecond spell it in decimals, the day in the text that is configured, has the timestamp of that moment |
| UnitProcessors.SpelledOrder | Ultra-MDS/DataHandler/UnitProcessor.h:211-215 | ticks are in the order of the moments they spell, and with the same texts they differ by their milliseconds |
| UnitProcessors.UnitProcessor.CheckTimestampNew | Ultra-MDS/DataHandler/UnitProcessor.h:221-250 | passes exactly the tolerated timestamps and advances the last one to the maximum |
| UnitProcessors.UnitProcessor.Validate | Ultra-MDS/DataHandler/UnitProcessor.h:370-378 | accepts by all enabled checks in order; the last timestamp advances even if a later check rejects |
| UnitProcessors.LastIsMaximum | Ultra-MDS/DataHandler/UnitProcessor.h:230-249 | over any tick sequence the last timestamp is the maximum of 0 and the valid timestamps that reached the check |
| UnitProcessors.ForwardedIff | Ultra-MDS/DataHandler/UnitProcessor.h:230-249 | over any tick sequence: a tick is forwarded exactly if it passes its own checks and, with the timestamp check on, is valid and not older by more than the tolerance than any earlier one that counted |
| UnitProcessors.ForwardedWithinTolerance | Ultra-MDS/DataHandler/UnitProcessor.h:236-245 | a forwarded tick is at most the tolerance below every earlier timestamp that counted |
| UnitProcessors.TrulyWithinTolerance | Ultra-MDS/DataHandler/UnitProcessor.h:236-245 | within a day a forwarded tick is truly at most the tolerance in milliseconds late |
| UnitProcessors.LateTickRejected | Ultra-MDS/DataHandler/UnitProcessor.h:236-241 | a tick truly within tolerance is rejected exactly if the excess of the coding across hours and minutes pushes it over |
| UnitProcessors.LateByOneMillisecond | Ultra-MDS/DataHandler/UnitProcessor.h:236-241 | 10:00:59.999 after 10:01:00.000 is rejected with a tolerance of one millisecond |
| UnitProcessors.AllowSameMsIrrelevant | Ultra-MDS/DataHandler/UnitProcessor.h:230-249 | the option allow_same_ms_data changes neither what is forwarded nor the last timestamp |
| UnitProcessors.RejectedStillAdvances | Ultra-MDS/DataHandler/UnitProcessor.h:370-378 | a rejected tick advances the last timestamp exactly if it passed the timestamp check with a newer one and failed a later check |
| UnitProcessors.EarlierTickShadows | Ultra-MDS/DataHandler/UnitProcessor.h:230-249 | a tick that would be accepted is rejected because of an earlier one, forwarded or not, exactly if that one is the newest and newer by more than the tolerance |
| UnitProcessors.BadPriceShutsOut | Ultra-MDS/DataHandler/UnitProcessor.h:370-378 | a tick rejected for its price advances the timestamp and so shuts out a good one |
| UnitProcessors.TimeDigitsIff | Ultra-MDS/DataHandler/UnitProcessor.h:186-194 | an accepted time is made of digits exactly if the second characters of hour, minute and second are digits |
| UnitProcessors.NonDigitsAccepted | Ultra-MDS/DataHandler/UnitProcessor.h:186-194 | one that is not: a semicolon in the second place of the hour is accepted as hour 21 |

## Left out

- Weak memory orders: interleavings of atomic steps are sequentially consistent. Cache-line padding, allocators and `allocate_at_least` do not appear.
- Trading interface, login, UDP, protobuf, logging, CPU affinity, clocks: sending appends to a log, and the clock value carried by a tick is dropped.
- Price, volume, whitelist and empty-packet checks: each tick carries their verdicts, because they are short tests of one tick.
- Configuration lookup: the configuration is a fixed value.
- `strtod`, `strtoull` and locales: the decimal point is '.', and a number is converted by its mathematical value.
- CBOR, MessagePack, UBJSON and BSON; serializer and `dump`: the writers are not part of this model, and a one-way reader has no round trip.
- Parsing with callbacks, comment skipping, byte order marks, literals, whitespace and the lexer's dispatch over first characters: weaker or easier than the scanners modelled. Tokens are the parser's input.
- `merge_patch`, `update`, `ordered_map`, hashing, iterators, type traits, conversion overloads, exception texts: plumbing or easier results. Exceptions are their numbers.
- Single-precision `to_chars`: doubles only.
- FormatNumber.ToChars: the digits are generated in a buffer of their own and copied behind the sign, where the source generates them there; the layouts rewrite them in place.
- FormatNumber.MemMove: copies backwards one character at a time; the library function is only known by its effect.
- JsonDiff.PatchOfDiff: arrays have fewer than 2^64 elements, as `size_type` demands.
- JsonDiff.DiffRuns: the same bound on arrays.
- JsonDiff.PatchGivesTarget: the same bound on arrays.
- Unflattening.UnflattenFlatten: the same bound on arrays; growth of an array by an index of up to 2^64 - 2 is not limited by memory.
- JsonPatch.Document.PatchInplace: references into the document are paths, and an update in place is a store at a path, so aliasing between document and patch is not captured. The operation `test` decodes its members before it accesses the document; the source's order of the two is unspecified.
- JsonPatch.GetChecked: walks values instead of pointers; it changes nothing.
- DomParsers.DomParser.HandleValue: pointers into the growing tree are paths of selectors; that storage may move is captured by the theorem `Dom.FeedKeepsChain` that no array below the top entry changes its length.
- Flattening.Unflatten: `get_and_create` and the assignment to the reference it returns are one store at a path.
- Parser.ParseValue: the token of a number carries the value the lexer made of it.
- SpscQueue.SPSCQueue.Emplace: the consumer's activity during the wait is a list of pop counts, of which one must be positive on a full queue; without it the source spins for ever. `Spsc` has the spinning steps at full granularity.
- SpscQueue.SPSCQueue.Pop: asks for a preceding non-null front, as the comment in the source does; `Spsc.PopSafeIff` says when a pop without one is harmless.
- SpscQueue.SPSCQueue.Size: other threads act between the loads in whole calls; `Spsc.SizeBetweenLoads` and `SizeReadIndexFirst` have their atomic steps.
- TickHandlers.TickHandler.ProcessLoop: runs a given number of turns, where the source runs until a flag is cleared; dispatch happens in whole calls at three points of a turn, and in atomic steps in `Spsc`.
- Pipeline.SentIsFiltered: queues are the bounded FIFOs that `Spsc` refines; a handled tick is removed by a separate step. Stopping a worker is not modelled.
- UnitProcessors.StrToInt64: texts whose leading digits exceed int64, for which the source's behaviour is undefined; it is called with eight characters.
- WideInput.StreamIsUtf8: covers well-formed texts; `WideInput.StreamIsUtf8Iff` covers all.
- WideInput.WideStringInputAdapter.FillBuffer: the class is the UTF-16 instance; the UTF-32 one is given by its function.
- Lexers.Lexer.ScanNumber: starts at a minus or a digit, which is when the source calls it.
