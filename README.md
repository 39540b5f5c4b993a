# Jeff's numbers dictionary and the map dictionary index, in Dafny

This project models two parts of a stenography engine's dictionary layer.

**The numbers dictionary** (`dictionary/jeff_numbers_dictionary.cc`) turns
number strokes into text. Every stroke of an outline must hold the number
key `#`.

- `GetDigits` reads the digit keys of one stroke. E or U reverses them.
  -D repeats the last digit, -Z adds "00", and * with -Z adds ",000".
  It also places a decimal point or a thousands comma, and hands back
  the control keys it did not consume.
- `Lookup` concatenates the texts of all strokes. It then applies the
  formatter that the last stroke's control keys select:
  - dollars;
  - percent;
  - hundreds;
  - time of day;
  - numbers spelled in words, and spelled ordinals;
  - numeric ordinals;
  - Roman numerals.
- `Lookup` rejects the outline when:
  - a stroke lacks `#`;
  - a formatter is chosen before the last stroke;
  - any control key is left unused.
- `ToRoman`, `CanConvertToWords`, `CanonicalizeInPlaceAndReverse`,
  `ToWords`, `EndsWith` and `ReplaceSuffix` are its helpers.

**The map dictionary index** (`dictionary/map_dictionary_definition.h`)
stores a hash table as blocks of 128 slots. Each block holds:

- four 32-bit presence masks;
- a `baseOffset`, which is the number of present slots in all earlier
  blocks.

A present slot's offset into the data table is `baseOffset` plus the count
of present slots before it in its block. A collection starts with the magic
number 0x3243534a.

Modules:

| module | file | contents |
|---|---|---|
| `Wrappers` | wrappers.dfy | `Option` |
| `Sequences` | sequences.dfy | associativity of concatenation |
| `StenoStroke` | steno_stroke.dfy | keys, the digit keys in order, the digit values, the control keys |
| `DigitStrings` | digit_strings.dfy | decimal digits, numerals and their values |
| `StrokeDigits` | stroke_digits.dfy | `GetDigits` and its reference `StrokeText` |
| `RomanNumerals` | roman.dfy | `ToRoman`, the greedy table walk, and the value of a numeral |
| `SpelledNumbers` | spelled_numbers.dfy | `CanConvertToWords`, `CanonicalizeInPlaceAndReverse` on an array, `ToWords` and its reference `Spelled` |
| `SpelledValues` | spelled_values.dfy | what `Spelled` gives for numbers below a million |
| `Ordinals` | ordinals.dfy | `EndsWith`, `ReplaceSuffix`, ordinal words and numeric ordinal suffixes |
| `JeffNumbers` | jeff_numbers.dfy | `Lookup`, the formatter cascade, and facts about whole outlines |
| `MapDictionary` | map_dictionary.dfy | blocks, `PopCount`, `HasEntry`, `GetOffset`, `GetEntryCount`, `ContainsData`, the collection magic |

Each method with a loop is proved equal to a reference function:
`GetDigits` to `StrokeText`, `Lookup` to `Translation`, `ToWords` to
`Spelled`, and `ToRoman` to `Roman`. Lemmas then state what those
functions mean.

## Model

| member | source | states |
|---|---|---|
| `StenoStroke.KeyClassesPartition` | dictionary/jeff_numbers_dictionary.cc:22-40 | The ten digit keys of the all-digits mask are exactly the keys of the digit table. Every key is `#`, a digit key or a control key. No key is both a digit and a control key. |
| `DigitStrings.DecimalStringValue` | dictionary/jeff_numbers_dictionary.cc:252-262 | The decimal numeral of n reads back as n and has no leading zero, so reading digits inverts printing them. |
| `StrokeDigits.GetDigits` | dictionary/jeff_numbers_dictionary.cc:286-340 | The text written for a stroke and the control keys returned are those of the reference: digits in key order or reversed, then zeros and repeat, then punctuation. |
| `StrokeDigits.DigitsInKeyOrder` | dictionary/jeff_numbers_dictionary.cc:289-307 | The forward scan writes the value of each pressed digit key, in key order. |
| `StrokeDigits.DigitsInReverseOrder` | dictionary/jeff_numbers_dictionary.cc:289-307 | The backward scan for E or U writes exactly the reverse of the forward scan. |
| `StrokeDigits.DigitsIdentifyKeys` | dictionary/jeff_numbers_dictionary.cc:289-307 | A digit value appears in the stroke's digits if and only if its key is in the stroke. |
| `StrokeDigits.DigitsInOrder` | dictionary/jeff_numbers_dictionary.cc:289-307 | The digits come strictly in key order, or strictly in reverse key order when E or U is pressed with digits. |
| `StrokeDigits.DigitsFromSound` | dictionary/jeff_numbers_dictionary.cc:293-297 | Every character written from key i onward is the value of a pressed digit key at or after i. |
| `StrokeDigits.DigitsFromComplete` | dictionary/jeff_numbers_dictionary.cc:293-297 | Every pressed digit key at or after i has its value written. |
| `StrokeDigits.DigitsFromEmpty` | dictionary/jeff_numbers_dictionary.cc:289-307 | Nothing is written from key i onward exactly when no digit key from i on is pressed. |
| `StrokeDigits.DigitsNonEmpty` | dictionary/jeff_numbers_dictionary.cc:289-307 | A stroke with a digit key yields at least one digit, so the repeat step always has a last digit. |
| `StrokeDigits.StrokeTextFits` | dictionary/jeff_numbers_dictionary.cc:286-340 | The text for one stroke is at most 16 characters long, so it fits the caller's scratch buffer. |
| `StrokeDigits.StrokeTextControl` | dictionary/jeff_numbers_dictionary.cc:286-340 | The returned control keys are a subset of the stroke's control keys. Only E, U, *, -S, -D and -Z are ever consumed. E and U are consumed exactly when they reverse digits. |
| `StrokeDigits.ZerosAndRepeatBounds` | dictionary/jeff_numbers_dictionary.cc:309-327 | The zeros/repeat step adds at most five characters and consumes only *, -D and -Z. |
| `StrokeDigits.PunctuationBounds` | dictionary/jeff_numbers_dictionary.cc:329-337 | The punctuation step adds at most one character and consumes only * and -S. |
| `StrokeDigits.BothDAndZ` | dictionary/jeff_numbers_dictionary.cc:309-310 | With both -D and -Z the text is just the digits, and both keys stay in the control keys for the hundreds formatter. |
| `StrokeDigits.BothUntouched` | dictionary/jeff_numbers_dictionary.cc:309-337 | With -D and -Z both present, the zeros/repeat and punctuation steps change nothing. |
| `StrokeDigits.ZerosSuffix` | dictionary/jeff_numbers_dictionary.cc:310-319 | -Z without -D appends "00", or ",000" when * is pressed, which also consumes * and -Z. |
| `StrokeDigits.ZerosOnly` | dictionary/jeff_numbers_dictionary.cc:309-337 | The same zeros rule, stated on the text and control keys. |
| `StrokeDigits.RepeatLastDigit` | dictionary/jeff_numbers_dictionary.cc:321-326 | -D without -Z or * repeats the last digit and consumes -D. |
| `StrokeDigits.RepeatOnly` | dictionary/jeff_numbers_dictionary.cc:309-337 | The same repeat rule, stated on the text and control keys. |
| `StrokeDigits.DecimalPoint` | dictionary/jeff_numbers_dictionary.cc:321-337 | * without -R, -S or -Z ends the text with "." after the digits (repeated last digit first under -D), and consumes *. |
| `StrokeDigits.PointAfterRepeat` | dictionary/jeff_numbers_dictionary.cc:321-337 | The decimal point comes after the repeated digit. |
| `StrokeDigits.ThousandsComma` | dictionary/jeff_numbers_dictionary.cc:329-331 | When the control keys that reach the punctuation step (after E and U are consumed by reversing) are exactly * and -S, the text is the digits followed by "," and no control key is left. |
| `StrokeDigits.ReverseAndRepeatExample` | dictionary/jeff_numbers_dictionary.cc:592 | "#STPED" gives the text "3211". |
| `StrokeDigits.ThousandsExample` | dictionary/jeff_numbers_dictionary.cc:595 | "#STP*Z" gives the text "123,000". |
| `StrokeDigits.RepeatThenPointExample` | dictionary/jeff_numbers_dictionary.cc:597 | "#S*D" gives the text "11.". |
| `StrokeDigits.PointStrokeExample` | dictionary/jeff_numbers_dictionary.cc:600 | "#ST*" gives the text "12.". |
| `StrokeDigits.PlainDigitsExample` | dictionary/jeff_numbers_dictionary.cc:601 | "#PH" gives the text "34". |
| `RomanNumerals.ToRoman` | dictionary/jeff_numbers_dictionary.cc:347-364 | For 1 to 3999 the greedy walk over the thirteen-entry table writes a numeral that reads back as the value, and is 1 to 15 characters long. |
| `RomanNumerals.RomanRoundTrip` | dictionary/jeff_numbers_dictionary.cc:347-364 | For 1 to 3999, reading the numeral gives back the number. Its length is 1 to 15, so it fits a 16-byte buffer. |
| `RomanNumerals.RomanIsDecimalNumeral` | dictionary/jeff_numbers_dictionary.cc:347-364 | The greedy numeral equals the place-by-place numeral: thousands as M's, then hundreds, tens and units, each written with the one/five/ten letters of its place. |
| `RomanNumerals.DecimalNumeralValue` | dictionary/jeff_numbers_dictionary.cc:347-351 | The place-by-place numeral of a value up to 3999 reads back as that value under the subtractive rule. |
| `RomanNumerals.DecimalNumeralLength` | dictionary/jeff_numbers_dictionary.cc:17 | Such a numeral has at most 15 letters. |
| `RomanNumerals.GreedyPlace` | dictionary/jeff_numbers_dictionary.cc:355-364 | For one decimal place, the greedy walk over that place's four table entries writes the digit's numeral. |
| `RomanNumerals.GreedyThousands` | dictionary/jeff_numbers_dictionary.cc:355-364 | The greedy walk writes one M per thousand before anything else. |
| `RomanNumerals.NumeralValueAppend` | dictionary/jeff_numbers_dictionary.cc:347-351 | When the tail starts with a letter no larger than the head's last letter, the values of the two parts add. |
| `SpelledNumbers.CanConvertToWords` | dictionary/jeff_numbers_dictionary.cc:408-419 | Returns true exactly when every character is a digit or a comma. |
| `SpelledNumbers.CanonicalizeInPlaceAndReverse` | dictionary/jeff_numbers_dictionary.cc:421-448 | The array's prefix becomes the reverse of the digits with commas and leading zeros removed, and the returned length is that prefix's length. Cells past the prefix keep their contents, apart from the terminator noted under Left out. |
| `SpelledNumbers.CompactDigits` | dictionary/jeff_numbers_dictionary.cc:423-436 | The compacting pass leaves the canonical digits at the front, and the cells past them keep their contents. |
| `SpelledNumbers.ReversePrefix` | dictionary/jeff_numbers_dictionary.cc:439-447 | The two-pointer swap reverses the prefix and leaves the rest alone. |
| `SpelledNumbers.CanonicalShape` | dictionary/jeff_numbers_dictionary.cc:421-437 | The canonical digits contain no comma and no leading zero. They are empty exactly when the input holds only commas and zeros, and they are all digits when the input is digits and commas. |
| `SpelledNumbers.CanonicalIdempotent` | dictionary/jeff_numbers_dictionary.cc:421-437 | Canonicalising twice is the same as canonicalising once. |
| `SpelledNumbers.CanonicalValue` | dictionary/jeff_numbers_dictionary.cc:421-437 | For digits and commas, what is kept is all digits and stands for the same number as all the digits of the input: dropping commas and leading zeros loses no significant digit. |
| `SpelledNumbers.ToWords` | dictionary/jeff_numbers_dictionary.cc:450-539 | Text with a character other than a digit or comma comes back unchanged. Otherwise the words equal the reference spelling: "zero" for no significant digit, otherwise the groups of three joined from the highest, with their scale words and separators. |
| `SpelledNumbers.WordsOfReversed` | dictionary/jeff_numbers_dictionary.cc:470-535 | The group loop over the reversed digits produces the join of the pieces for every group. |
| `SpelledNumbers.ReadGroup` | dictionary/jeff_numbers_dictionary.cc:476-485 | Reads the next group of up to three reversed digits, moving to the next group or to the end. |
| `SpelledNumbers.PrependStep` | dictionary/jeff_numbers_dictionary.cc:487-530 | Putting one more group in front (skipped when it is zero) yields the join of the longer list of pieces. The separator the next group will need is tracked. |
| `SpelledNumbers.JoinEmpty` | dictionary/jeff_numbers_dictionary.cc:487-490 | The words are empty exactly when every group is zero. |
| `SpelledNumbers.GroupWordsNonEmpty` | dictionary/jeff_numbers_dictionary.cc:492-525 | A non-zero group always has words. |
| `SpelledValues.SpelledBelowThousand` | dictionary/jeff_numbers_dictionary.cc:450-539 | Spelling the numeral of n from 1 to 999 gives the words of the group n, e.g. "one hundred and forty-seven". |
| `SpelledValues.SpelledBelowMillion` | dictionary/jeff_numbers_dictionary.cc:450-539 | For 1000q + r below a million, the spelling is the words of q and " thousand". If r is not zero they are followed by " and " and the words of r when r < 100, or " " and the words of r otherwise. |
| `SpelledValues.SpelledCanonical` | dictionary/jeff_numbers_dictionary.cc:421-461 | Commas and leading zeros do not change the spelling. |
| `SpelledValues.SpelledZero` | dictionary/jeff_numbers_dictionary.cc:458-461 | A non-empty string of zeros and commas spells "zero". |
| `SpelledValues.ThousandsNumeral` | dictionary/jeff_numbers_dictionary.cc:470-485 | The numeral of 1000q + r is the numeral of q followed by r in three digits, so r is the lowest group. |
| `SpelledValues.PositiveNumeral` | dictionary/jeff_numbers_dictionary.cc:408-437 | The numeral of a positive number passes the digit check and is already canonical. |
| `Ordinals.EndsWithIsSuffix` | dictionary/jeff_numbers_dictionary.cc:44-64 | The text ends with the suffix exactly when it is some text followed by that suffix. |
| `Ordinals.ReplaceSuffix` | dictionary/jeff_numbers_dictionary.cc:52-59 | Keeps all but the last `offset` characters, then appends the suffix. The result ends with the suffix and has the matching length. |
| `Ordinals.OrdinalWordsLastWord` | dictionary/jeff_numbers_dictionary.cc:183-205 | Turning spelled words into ordinal words changes only the last word. |
| `Ordinals.OrdinalWordsSuffix` | dictionary/jeff_numbers_dictionary.cc:183-205 | The ordinal words end in "st", "nd", "rd" or "th" as the spelled last word dictates. |
| `Ordinals.TwoDigitOrdinalWords` | dictionary/jeff_numbers_dictionary.cc:183-205 | For 1 to 99 the ordinal words end with the English ordinal suffix of the number. |
| `Ordinals.PlainThEnding` | dictionary/jeff_numbers_dictionary.cc:186-204 | A non-empty word whose last letter is none of y, e, o and t matches none of the seven endings and gets "th" appended. |
| `Ordinals.VeOrdinal` | dictionary/jeff_numbers_dictionary.cc:186-197 | A word made of a non-empty stem, whose last letter is none of h, n and t, followed by "ve" has its "ve" replaced by "fth", as "five" becomes "fifth" and "twelve" becomes "twelfth". |
| `Ordinals.UnitOrdinalWords` | dictionary/jeff_numbers_dictionary.cc:183-205 | The words "zero" to "nine" become exactly "zeroth", "first", "second", "third", "fourth", "fifth", "sixth", "seventh", "eighth" and "ninth". |
| `Ordinals.TeenOrdinalWords` | dictionary/jeff_numbers_dictionary.cc:183-205 | The words "ten" to "nineteen" become exactly "tenth" to "nineteenth", with "twelve" becoming "twelfth". |
| `Ordinals.TensOrdinalWords` | dictionary/jeff_numbers_dictionary.cc:186-188 | The words "twenty" to "ninety" become exactly "twentieth" to "ninetieth". |
| `Ordinals.TwoDigitOrdinalWordsExact` | dictionary/jeff_numbers_dictionary.cc:183-205 | For 1 to 99 the ordinal words are exactly the ordinal word below twenty, the ordinal tens word for whole tens, or the tens word, "-" and the ordinal unit word ("twenty-first"). |
| `Ordinals.OrdinalFormattersAgree` | dictionary/jeff_numbers_dictionary.cc:183-238 | For 1 to 999 the ordinal words end with the same suffix that the numeric ordinal formatter appends. |
| `Ordinals.NumericOrdinalSuffix` | dictionary/jeff_numbers_dictionary.cc:215-238 | The scan keeps the last two digit characters and picks "st", "nd", "rd" or "th", as the reference does. |
| `Ordinals.OrdinalSuffixOfNumber` | dictionary/jeff_numbers_dictionary.cc:215-238 | On a number's numeral, the suffix is the English one: "th" for 11 to 13 modulo 100, otherwise by the last digit. |
| `Ordinals.OrdinalSuffixIgnoresNonDigits` | dictionary/jeff_numbers_dictionary.cc:218-222 | Characters other than digits, such as "," and ".", do not affect the suffix. |
| `JeffNumbers.Lookup` | dictionary/jeff_numbers_dictionary.cc:68-280 | The result of an outline equals the reference translation: each stroke's text is appended, then passed through the formatter its control keys select. The first failure makes the outline invalid. |
| `JeffNumbers.ReadRomanInput` | dictionary/jeff_numbers_dictionary.cc:252-262 | Reads the digits of the text as a number, stopping once it exceeds 3999. |
| `JeffNumbers.RomanInputValue` | dictionary/jeff_numbers_dictionary.cc:252-266 | The value read equals the number the digits denote whenever that is at most 3999, and exceeds 3999 exactly when the number does. |
| `JeffNumbers.RomanOutcome` | dictionary/jeff_numbers_dictionary.cc:245-276 | The Roman formatter succeeds exactly when the number is 1 to 3998 and no other control key is left. It then writes the numeral, which reads back as the number. |
| `JeffNumbers.OrdinalNumberOutcome` | dictionary/jeff_numbers_dictionary.cc:208-244 | On a number's numeral, the ordinal formatter appends its English suffix. |
| `JeffNumbers.TimeOutcome` | dictionary/jeff_numbers_dictionary.cc:147-176 | The time formatter always succeeds. It appends one of ":00", ":15", ":30", ":45", then nothing, " a.m." or " p.m.". |
| `JeffNumbers.DollarsOutcome` | dictionary/jeff_numbers_dictionary.cc:96-116 | With -R-B, or else W-R-, held: on the last stroke the text gets "$" in front and succeeds exactly when no key other than the consumed pair, *, -D and -Z is left; on an earlier stroke the outline is invalid. |
| `JeffNumbers.PercentOutcome` | dictionary/jeff_numbers_dictionary.cc:116-136 | With K-R-, or else -R-G, and no dollars pair: on the last stroke "%" goes after the text, under the same leftover-key rule; on an earlier stroke the outline is invalid. |
| `JeffNumbers.HundredsOutcome` | dictionary/jeff_numbers_dictionary.cc:136-146 | With -D-Z and no dollars or percent pair: on the last stroke the text becomes "$", the text and "00", under the same leftover-key rule; on an earlier stroke the outline is invalid. |
| `JeffNumbers.WordsOutcome` | dictionary/jeff_numbers_dictionary.cc:177-207 | On the numeral of 1 to 99, the words formatter writes the number's words, or with W- exactly its ordinal words. |
| `JeffNumbers.NumKeyRequired` | dictionary/jeff_numbers_dictionary.cc:76-80 | Any stroke without `#` makes the outline invalid. |
| `JeffNumbers.FormatterOnlyOnLastStroke` | dictionary/jeff_numbers_dictionary.cc:97-244 | A formatter selected by any stroke but the last makes the outline invalid. |
| `JeffNumbers.VowelLeftOver` | dictionary/jeff_numbers_dictionary.cc:272-276 | E or U left in the control keys always fails the final check. |
| `JeffNumbers.VowelsWithoutDigits` | dictionary/jeff_numbers_dictionary.cc:272-276 | A stroke with E or U but no digit key makes the whole outline invalid. |
| `JeffNumbers.LoneVowelStops` | dictionary/jeff_numbers_dictionary.cc:272-276 | From any stroke at or before a stroke with E or U and no digit key, the rest of the lookup is invalid, whatever the strokes in between produce. |
| `JeffNumbers.PlainOutline` | dictionary/jeff_numbers_dictionary.cc:76-279 | When every stroke selects no formatter and leaves only *, -D or -Z (not both), the result is the strokes' texts one after another. |
| `JeffNumbers.OneStroke` | dictionary/jeff_numbers_dictionary.cc:68-280 | A one-stroke outline is invalid without `#`. Otherwise it is the stroke's text passed through the last-stroke formatter. |
| `JeffNumbers.DollarsExample` | dictionary/jeff_numbers_dictionary.cc:97-116 | Text "12" with -R-B left gives "$12". |
| `JeffNumbers.TimeExample` | dictionary/jeff_numbers_dictionary.cc:147-176 | Text "1" with K-, -B, -G and -S left gives "1:45 a.m.". |
| `JeffNumbers.RomanExample` | dictionary/jeff_numbers_dictionary.cc:245-270 | Text "12" with R- left gives "XII". |
| `JeffNumbers.ReverseAndRepeatTranslation` | dictionary/jeff_numbers_dictionary.cc:592 | The outline "#STPED" translates to "3211". |
| `JeffNumbers.ThousandsTranslation` | dictionary/jeff_numbers_dictionary.cc:595 | The outline "#STP*Z" translates to "123,000". |
| `JeffNumbers.LoneVowelTranslation` | dictionary/jeff_numbers_dictionary.cc:775-787 | The outline "#E" is invalid. |
| `JeffNumbers.DecimalTranslation` | dictionary/jeff_numbers_dictionary.cc:599-605 | The outline "#ST*/#PH" translates to "12.34". |
| `JeffNumbers.PercentTranslation` | dictionary/jeff_numbers_dictionary.cc:624 | The outline "#ST-RG" translates to "12%". |
| `JeffNumbers.DollarsDecimalTranslation` | dictionary/jeff_numbers_dictionary.cc:613-618 | The outline "#ST*/#PWHR" translates to "$12.34". |
| `JeffNumbers.TwelveTranslation` | dictionary/jeff_numbers_dictionary.cc:753-767 | The outline "#STG" translates to "twelve", and "#STWG" to "twelfth". |
| `MapDictionary.PopCountBelowIsRank` | dictionary/map_dictionary_definition.h:26-39 | Counting set bits in the whole mask words before a slot, plus the bits below it in its word, gives the number of present slots before it in the block. The block's PopCount is the number of present slots in it. |
| `MapDictionary.RankWithinWord` | dictionary/map_dictionary_definition.h:22-28 | The rank of a slot within its 32-bit mask word adds the set bits of that word below it. |
| `MapDictionary.GetOffsetIsRank` | dictionary/map_dictionary_definition.h:21-52 | In a table whose base offsets tally the earlier blocks, a slot's offset is the number of present slots before it in the whole table. |
| `MapDictionary.EntryCountIsTotal` | dictionary/map_dictionary_definition.h:23-54 | The entry count is the number of present slots in the table. |
| `MapDictionary.EntryCountIsCountBefore` | dictionary/map_dictionary_definition.h:23-54 | The entry count equals the tally past the last block. |
| `MapDictionary.BaseOffsetRecurrence` | dictionary/map_dictionary_definition.h:23-24 | Each block's base offset is the previous block's base offset plus its PopCount. |
| `MapDictionary.OffsetsIncreasing` | dictionary/map_dictionary_definition.h:14-53 | A present slot's offset is smaller than the offset of any later slot. |
| `MapDictionary.OffsetsInjective` | dictionary/map_dictionary_definition.h:14-53 | Two different present slots have different offsets. |
| `MapDictionary.OffsetInRange` | dictionary/map_dictionary_definition.h:14-54 | A present slot's offset is below the entry count. |
| `MapDictionary.OffsetsDense` | dictionary/map_dictionary_definition.h:14-54 | Every offset below the entry count belongs to some present slot, so the data block holds no gaps. |
| `MapDictionary.RankMonotone` | dictionary/map_dictionary_definition.h:17-19 | The count of present slots never decreases along the table, and grows past each present slot. |
| `MapDictionary.PopCountBound` | dictionary/map_dictionary_definition.h:35-39 | A block counts at most 128 present slots. |
| `MapDictionary.LittleEndianRoundTrip` | dictionary/map_dictionary_definition.h:72-75 | Splitting a 32-bit word into four little-endian bytes and joining them gives the word back. |
| `MapDictionary.FromLittleEndianRoundTrip` | dictionary/map_dictionary_definition.h:72-75 | Joining four bytes into a word and splitting it gives the bytes back. |
| `MapDictionary.MagicIsJSC2` | dictionary/map_dictionary_definition.h:72-75 | The magic 0x3243534a is stored as the ASCII bytes "JSC2". A header carries the magic exactly when its first four bytes are "JSC2". |

## Left out

- Memory is not modelled. `malloc`, `free`, `Str::Asprintf`, `strdup` and the `char *` cursors become immutable strings. The scratch buffer that `GetDigits` writes into becomes its returned string. `StrokeTextFits` proves the result fits in 16 characters, so it never overflows the 32-byte buffer.
- Strokes are sets of keys. Parsing stroke text such as "#STPED" and the bit layout of `StenoStroke` belong to stroke.h, which is not part of this model. The example lemmas therefore take the key set directly.
- `JeffNumbers.Lookup` on an outline with no strokes: the C++ `Lookup` wraps a null string, and the model returns empty text.
- The lookup-result type, `GetName`, the dictionary instance, console output and the unit test driver are not modelled.
- The Roman formatter rejects 3999 (it requires the value to be below 3999), although `ToRoman` itself handles 3999. The model keeps both behaviours as written: `JeffNumbers.RomanOutcome` states the 1 to 3998 range and `RomanNumerals.ToRoman` accepts 1 to 3999.
- `Block.PopCount`, `GetOffset`, `HasEntry` and `GetEntryCount` are declared in the header without bodies. They are modelled from the header's layout comment: a mask bit is 1 for a present slot, and the base offset tallies earlier blocks. Bit k of mask w is slot 32w + k.
- Pointers are modelled as integers. `ContainsData` compares addresses, and `data` and `offsets` are the start addresses of the two regions.
- The header comment names the magic "JSC1", but its little-endian bytes spell "JSC2". The model uses the constant as written, and `MapDictionary.MagicIsJSC2` states what it spells.
- Hashing, probing, decoding entries, `PrintDictionary`, `StenoMapDictionaryDefinition` and the collection's other fields are outside this model, as are `dictionary_list.h`, `orthography.h` and `script_byte_code.h`.
- `SpelledNumbers.CanonicalizeInPlaceAndReverse`: the `'\0'` that the C++ code writes right after the kept digits (line 437) is not modelled, because a Dafny string carries its own length. Its contract therefore says the cells past the kept digits keep their old contents, where the C++ code overwrites the first of them.
- `SpelledNumbers.ToWords` is proved equal to the general reference spelling for any length of digits. Its concrete meaning (`SpelledValues`) is spelled out only for numbers below a million. The seven-digit examples ("one million, one thousand and seventy") follow from the same reference, but no lemma states them.
- Integer widths: the C++ code's `size_t` and `int` are unbounded integers here. The Roman reading loop stops above 3999, so no overflow can occur in it. `baseOffset` is modelled as a 32-bit value (`u32`).
