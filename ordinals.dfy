/**
 * The two ordinal formatters of the numbers dictionary
 * (dictionary/jeff_numbers_dictionary.cc): the numeric suffix that turns
 * "21" into "21st", and the rewrite of spelled-out words that turns
 * "twenty-one" into "twenty-first", with the suffix helpers it uses
 * (_EndsWith, EndsWith and ReplaceSuffix).
 */
module Ordinals {

  import opened DigitStrings
  import SpelledNumbers

  // ---------------------------------------------------------------------
  // EndsWith and ReplaceSuffix

  /** _EndsWith: the last |suffix| characters of s are suffix. */
  predicate EndsWith(s: string, suffix: string) {
    |suffix| <= |s| && s[|s| - |suffix|..] == suffix
  }

  /** EndsWith holds exactly when s is something followed by suffix. */
  lemma EndsWithIsSuffix(s: string, suffix: string)
    ensures EndsWith(s, suffix) <==> exists t :: s == t + suffix
  {
    if EndsWith(s, suffix) {
      var t := s[..|s| - |suffix|];
      assert s == t + suffix;
    }
    if exists t :: s == t + suffix {
      var t :| s == t + suffix;
      assert s[|t|..] == suffix;
    }
  }

  /**
   * ReplaceSuffix: drops the last `offset` characters and appends suffix.
   * The caller promises offset <= |s|, as ReplaceSuffix asserts.
   */
  function ReplaceSuffix(s: string, offset: nat, suffix: string): (r: string)
    requires offset <= |s|
    ensures EndsWith(r, suffix)
    ensures |r| == |s| - offset + |suffix|
    ensures r[..|s| - offset] == s[..|s| - offset]
  {
    var r := s[..|s| - offset] + suffix;
    assert r[|r| - |suffix|..] == suffix;
    r
  }

  /**
   * The ordinal-words rewrite applied after ToWords when -G and W- are
   * both held: the endings are tried in the order Lookup tries them.
   */
  function OrdinalWords(w: string): string {
    if EndsWith(w, "ty") then ReplaceSuffix(w, 1, "ieth")
    else if EndsWith(w, "one") then ReplaceSuffix(w, 3, "first")
    else if EndsWith(w, "two") then ReplaceSuffix(w, 3, "second")
    else if EndsWith(w, "three") then ReplaceSuffix(w, 5, "third")
    else if EndsWith(w, "ve") then ReplaceSuffix(w, 2, "fth")
    else if EndsWith(w, "eight") then ReplaceSuffix(w, 0, "h")
    else if EndsWith(w, "nine") then ReplaceSuffix(w, 1, "th")
    else ReplaceSuffix(w, 0, "th")
  }

  /**
   * Behind a space or a hyphen, a word ends with one of the endings exactly
   * when the whole text does.
   */
  lemma EndsWithAfterBreak(p: string, x: string, suffix: string)
    requires p != [] && p[|p| - 1] in " -"
    requires forall i :: 0 <= i < |suffix| ==> suffix[i] !in " -"
    ensures EndsWith(p + x, suffix) <==> EndsWith(x, suffix)
  {
    var w := p + x;
    if |suffix| <= |x| {
      assert w[|w| - |suffix|..] == x[|x| - |suffix|..];
    } else if |suffix| <= |w| {
      var k := |suffix| - |x| - 1;
      assert w[|w| - |suffix|..][k] == p[|p| - 1];
    }
  }

  /** Replacing the end of the last word keeps what precedes it. */
  lemma ReplaceSuffixOfLastWord(p: string, x: string, offset: nat, suffix: string)
    requires offset <= |x|
    ensures ReplaceSuffix(p + x, offset, suffix) == p + ReplaceSuffix(x, offset, suffix)
  {
    var w := p + x;
    assert w[..|w| - offset] == p + x[..|x| - offset];
  }

  /** The rewrite only touches the last word: whatever precedes a space or hyphen is kept. */
  lemma OrdinalWordsLastWord(p: string, x: string)
    requires p != [] && p[|p| - 1] in " -"
    ensures OrdinalWords(p + x) == p + OrdinalWords(x)
  {
    var w := p + x;
    EndsWithAfterBreak(p, x, "ty");
    if EndsWith(x, "ty") {
      ReplaceSuffixOfLastWord(p, x, 1, "ieth");
      return;
    }
    EndsWithAfterBreak(p, x, "one");
    if EndsWith(x, "one") {
      ReplaceSuffixOfLastWord(p, x, 3, "first");
      return;
    }
    EndsWithAfterBreak(p, x, "two");
    if EndsWith(x, "two") {
      ReplaceSuffixOfLastWord(p, x, 3, "second");
      return;
    }
    EndsWithAfterBreak(p, x, "three");
    if EndsWith(x, "three") {
      ReplaceSuffixOfLastWord(p, x, 5, "third");
      return;
    }
    EndsWithAfterBreak(p, x, "ve");
    if EndsWith(x, "ve") {
      ReplaceSuffixOfLastWord(p, x, 2, "fth");
      return;
    }
    EndsWithAfterBreak(p, x, "eight");
    if EndsWith(x, "eight") {
      ReplaceSuffixOfLastWord(p, x, 0, "h");
      return;
    }
    EndsWithAfterBreak(p, x, "nine");
    if EndsWith(x, "nine") {
      ReplaceSuffixOfLastWord(p, x, 1, "th");
      return;
    }
    ReplaceSuffixOfLastWord(p, x, 0, "th");
  }

  // ---------------------------------------------------------------------
  // The numeric ordinal suffix

  /** The last two digit characters of s, '\0' standing in for a missing one. */
  function LastTwoDigits(s: string): (char, char) {
    var d := DigitChars(s);
    (if |d| >= 2 then d[|d| - 2] else '\0', if |d| >= 1 then d[|d| - 1] else '\0')
  }

  /**
   * The suffix the ordinals formatter appends: "th" after a tens digit of
   * 1, otherwise "st", "nd" or "rd" after a last digit of 1, 2 or 3, and
   * "th" after anything else. Characters that are not digits are ignored.
   */
  function OrdinalSuffix(s: string): string {
    var (secondLast, last) := LastTwoDigits(s);
    if secondLast == '1' then "th"
    else if last == '1' then "st"
    else if last == '2' then "nd"
    else if last == '3' then "rd"
    else "th"
  }

  /** The scan of the ordinals formatter: remembers the last two digits seen, then picks the suffix. */
  method NumericOrdinalSuffix(s: string) returns (suffix: string)
    ensures suffix == OrdinalSuffix(s)
  {
    var secondLastDigit, lastDigit := '\0', '\0';
    for i := 0 to |s|
      invariant (secondLastDigit, lastDigit) == LastTwoDigits(s[..i])
    {
      assert s[..i + 1][..i] == s[..i];
      if IsDigit(s[i]) {
        secondLastDigit := lastDigit;
        lastDigit := s[i];
      } else {
        assert DigitChars(s[..i + 1]) == DigitChars(s[..i]) + [];
      }
    }
    assert s[..|s|] == s;
    suffix := "th";
    if secondLastDigit != '1' {
      if lastDigit == '1' {
        suffix := "st";
      } else if lastDigit == '2' {
        suffix := "nd";
      } else if lastDigit == '3' {
        suffix := "rd";
      }
    }
  }

  /** Only the digits of the text decide the suffix. */
  lemma OrdinalSuffixIgnoresNonDigits(s: string)
    ensures OrdinalSuffix(s) == OrdinalSuffix(DigitChars(s))
  {
    DigitCharsIdempotent(s);
    assert LastTwoDigits(DigitChars(s)) == LastTwoDigits(s);
  }

  /** The numeral of n ends with n's units digit. */
  lemma DecimalStringLast(n: nat)
    ensures var s := DecimalString(n); s[|s| - 1] == DigitChar(n % 10)
  {
  }

  /** From 10 on, the numeral of n has n's tens digit before its last. */
  lemma DecimalStringSecondLast(n: nat)
    requires n >= 10
    ensures var s := DecimalString(n); |s| >= 2 && s[|s| - 2] == DigitChar(n / 10 % 10)
  {
    var s, t := DecimalString(n), DecimalString(n / 10);
    assert s == t + [DigitChar(n % 10)];
    DecimalStringLast(n / 10);
    assert s[|s| - 2] == t[|t| - 1];
  }

  /** The last two digits of the numeral of n are n's tens and units digits. */
  lemma LastTwoDigitsOfNumber(n: nat)
    ensures LastTwoDigits(DecimalString(n)).1 == DigitChar(n % 10)
    ensures LastTwoDigits(DecimalString(n)).0 == (if n < 10 then '\0' else DigitChar(n / 10 % 10))
  {
    var s := DecimalString(n);
    DigitCharsOfDigits(s);
    DecimalStringLast(n);
    if n >= 10 {
      DecimalStringSecondLast(n);
    } else {
      assert |s| == 1;
    }
  }

  /**
   * The English rule for the ordinal suffix of n: "th" when the tens digit
   * is 1 (11th, 12th, 113th), otherwise decided by the last digit.
   */
  function EnglishOrdinalSuffix(n: nat): string {
    if n / 10 % 10 == 1 then "th"
    else if n % 10 == 1 then "st"
    else if n % 10 == 2 then "nd"
    else if n % 10 == 3 then "rd"
    else "th"
  }

  /** The numeric ordinal suffix of the numeral of n follows the English rule. */
  lemma OrdinalSuffixOfNumber(n: nat)
    ensures OrdinalSuffix(DecimalString(n)) == EnglishOrdinalSuffix(n)
  {
    LastTwoDigitsOfNumber(n);
  }

  // ---------------------------------------------------------------------
  // The two formatters agree

  /** A mismatch at position k of the suffix rules EndsWith out. */
  lemma NotEndsWith(s: string, suffix: string, k: nat)
    requires k < |suffix| && (|suffix| <= |s| ==> s[|s| - |suffix| + k] != suffix[k])
    ensures !EndsWith(s, suffix)
  {
    if |suffix| <= |s| {
      assert s[|s| - |suffix|..][k] == s[|s| - |suffix| + k];
    }
  }

  /** A text that ends with some suffix ends with every tail of that suffix. */
  lemma EndsWithTail(s: string, suffix: string, k: nat)
    requires EndsWith(s, suffix) && k <= |suffix|
    ensures EndsWith(s, suffix[k..])
  {
    assert s[|s| - |suffix[k..]|..] == s[|s| - |suffix|..][k..];
  }

  /** The English suffix a word ordinal ends with, read off the cardinal word. */
  function WordOrdinalSuffix(w: string): string {
    if EndsWith(w, "ty") then "th"
    else if EndsWith(w, "one") then "st"
    else if EndsWith(w, "two") then "nd"
    else if EndsWith(w, "three") then "rd"
    else "th"
  }

  /**
   * The ordinal words of w end with "st" after "one", "nd" after "two",
   * "rd" after "three" and "th" in every other case, "eighth" included.
   */
  lemma OrdinalWordsSuffix(w: string)
    ensures EndsWith(OrdinalWords(w), WordOrdinalSuffix(w))
  {
    var r := OrdinalWords(w);
    if EndsWith(w, "ty") {
      ReplacedEnding(w, 1, "ieth", 2);
      assert "ieth"[2..] == "th";
    } else if EndsWith(w, "one") {
      ReplacedEnding(w, 3, "first", 3);
      assert "first"[3..] == "st";
    } else if EndsWith(w, "two") {
      ReplacedEnding(w, 3, "second", 4);
      assert "second"[4..] == "nd";
    } else if EndsWith(w, "three") {
      ReplacedEnding(w, 5, "third", 3);
      assert "third"[3..] == "rd";
    } else if EndsWith(w, "ve") {
      ReplacedEnding(w, 2, "fth", 1);
      assert "fth"[1..] == "th";
    } else if EndsWith(w, "eight") {
      EightEnding(w);
    } else if EndsWith(w, "nine") {
      ReplacedEnding(w, 1, "th", 0);
    } else {
      ReplacedEnding(w, 0, "th", 0);
    }
  }

  /** After ReplaceSuffix, the text ends with every tail of the new suffix. */
  lemma ReplacedEnding(w: string, offset: nat, suffix: string, k: nat)
    requires offset <= |w| && k <= |suffix|
    ensures EndsWith(ReplaceSuffix(w, offset, suffix), suffix[k..])
  {
    EndsWithTail(ReplaceSuffix(w, offset, suffix), suffix, k);
  }

  /** "eight" takes only an "h": "eighth". */
  lemma EightEnding(w: string)
    requires EndsWith(w, "eight")
    ensures EndsWith(ReplaceSuffix(w, 0, "h"), "th")
  {
    var r := ReplaceSuffix(w, 0, "h");
    assert r == w + "h";
    assert w[|w| - 1] == "eight"[4];
    assert r[|r| - 2..] == [w[|w| - 1], 'h'];
  }

  /** A word whose last letter is neither 'e' nor 'o' ends with none of "one", "two", "three". */
  lemma NoUnitEnding(w: string)
    requires w != [] && w[|w| - 1] !in "eo"
    ensures WordOrdinalSuffix(w) == "th"
  {
    NotEndsWith(w, "one", 2);
    NotEndsWith(w, "two", 2);
    NotEndsWith(w, "three", 4);
  }

  /** The words for 1, 2 and 3 end with their own unit word. */
  lemma FirstWordsSuffix(n: nat)
    requires 0 < n < 4
    ensures WordOrdinalSuffix(SpelledNumbers.NumberWord(n)) == EnglishOrdinalSuffix(n)
  {
    var w := SpelledNumbers.NumberWord(n);
    if n == 1 {
      assert w == "one" && EndsWith(w, "one");
      NotEndsWith(w, "ty", 1);
    } else if n == 2 {
      assert w == "two" && EndsWith(w, "two");
      NotEndsWith(w, "ty", 1);
      NotEndsWith(w, "one", 2);
    } else {
      assert w == "three" && EndsWith(w, "three");
      NotEndsWith(w, "ty", 1);
      NotEndsWith(w, "one", 0);
      NotEndsWith(w, "two", 2);
    }
  }

  /** "five", "nine" and "twelve" end in 'e' but with none of the unit words. */
  lemma LetterEWordsSuffix(n: nat)
    requires n == 5 || n == 9 || n == 12
    ensures WordOrdinalSuffix(SpelledNumbers.NumberWord(n)) == "th"
  {
    var w := SpelledNumbers.NumberWord(n);
    NotEndsWith(w, "ty", 1);
    NotEndsWith(w, "two", 2);
    if n == 5 {
      assert w == "five";
      NotEndsWith(w, "one", 1);
      NotEndsWith(w, "three", 0);
    } else {
      assert w == "nine" || w == "twelve";
      NotEndsWith(w, "one", 0);
      NotEndsWith(w, "three", 0);
    }
  }

  /** The last letter of each word for 0 to 19. */
  const LastLetters: string := "oeoerexntennennnnnnn"

  lemma NumberWordLastLetter(n: nat)
    requires n < 20
    ensures SpelledNumbers.NumberWord(n) != []
    ensures SpelledNumbers.NumberWord(n)[|SpelledNumbers.NumberWord(n)| - 1] == LastLetters[n]
  {
  }

  /** The suffix read off the words for 1 to 19 is the English ordinal suffix. */
  lemma SmallWordSuffix(n: nat)
    requires 0 < n < 20
    ensures WordOrdinalSuffix(SpelledNumbers.NumberWord(n)) == EnglishOrdinalSuffix(n)
  {
    if n < 4 {
      FirstWordsSuffix(n);
    } else if n == 5 || n == 9 || n == 12 {
      LetterEWordsSuffix(n);
    } else {
      NumberWordLastLetter(n);
      NoUnitEnding(SpelledNumbers.NumberWord(n));
      if n >= 10 {
        assert n / 10 % 10 == 1;
      }
    }
  }

  /** Every tens word from "twenty" to "ninety" ends with "ty". */
  lemma TensWordEndsWithTy(t: nat)
    requires 2 <= t < 10
    ensures EndsWith(SpelledNumbers.TensWord(t), "ty")
  {
    var w := SpelledNumbers.TensWord(t);
    assert w[|w| - 2..] == "ty";
  }

  /** Whatever precedes a text that ends with a suffix, the whole ends with it too. */
  lemma EndsWithAfterPrefix(p: string, o: string, suffix: string)
    requires EndsWith(o, suffix)
    ensures EndsWith(p + o, suffix)
  {
    assert o[|o| - |suffix|..] == (p + o)[|p + o| - |suffix|..];
  }

  /** After a space or hyphen, the last word alone decides the suffix of the ordinal words. */
  lemma LastWordSuffix(p: string, x: string)
    requires p != [] && p[|p| - 1] in " -"
    ensures EndsWith(OrdinalWords(p + x), WordOrdinalSuffix(x))
  {
    OrdinalWordsLastWord(p, x);
    OrdinalWordsSuffix(x);
    EndsWithAfterPrefix(p, OrdinalWords(x), WordOrdinalSuffix(x));
  }

  /** The words for 21 to 99 that are not a multiple of ten: a tens word, a hyphen and a unit word. */
  lemma CompoundWords(n: nat)
    requires 20 <= n < 100 && n % 10 != 0
    ensures SpelledNumbers.GroupWords(n) == SpelledNumbers.TensWord(n / 10) + "-" + SpelledNumbers.NumberWord(n % 10)
  {
    assert SpelledNumbers.GroupWords(n % 10) == SpelledNumbers.NumberWord(n % 10);
  }

  /** From 20 on, a two-digit number takes the suffix of its unit digit. */
  lemma CompoundEnglishSuffix(n: nat)
    requires 20 <= n < 100
    ensures EnglishOrdinalSuffix(n) == EnglishOrdinalSuffix(n % 10)
  {
  }

  /** "twenty-one" to "ninety-nine": the unit word decides the suffix. */
  lemma CompoundOrdinalWords(n: nat)
    requires 20 <= n < 100 && n % 10 != 0
    ensures EndsWith(OrdinalWords(SpelledNumbers.GroupWords(n)), EnglishOrdinalSuffix(n))
  {
    var p := SpelledNumbers.TensWord(n / 10) + "-";
    var u := SpelledNumbers.NumberWord(n % 10);
    CompoundWords(n);
    LastWordSuffix(p, u);
    SmallWordSuffix(n % 10);
    CompoundEnglishSuffix(n);
  }

  /** For 1 to 99 the ordinal word ends with the English ordinal suffix. */
  lemma TwoDigitOrdinalWords(n: nat)
    requires 0 < n < 100
    ensures EndsWith(OrdinalWords(SpelledNumbers.GroupWords(n)), EnglishOrdinalSuffix(n))
  {
    if n < 20 {
      var w := SpelledNumbers.NumberWord(n);
      assert SpelledNumbers.GroupWords(n) == w;
      OrdinalWordsSuffix(w);
      SmallWordSuffix(n);
    } else if n % 10 == 0 {
      var w := SpelledNumbers.TensWord(n / 10);
      assert SpelledNumbers.GroupWords(n) == w;
      TensWordEndsWithTy(n / 10);
      OrdinalWordsSuffix(w);
    } else {
      CompoundOrdinalWords(n);
    }
  }

  /** The words for a whole number of hundreds end with " hundred". */
  lemma WholeHundredsWords(n: nat)
    requires 100 <= n < 1000 && n % 100 == 0
    ensures WordOrdinalSuffix(SpelledNumbers.GroupWords(n)) == "th"
  {
    var w := SpelledNumbers.GroupWords(n);
    assert w == SpelledNumbers.GroupWords(n / 100) + SpelledNumbers.Hundred;
    assert w[|w| - 1] == 'd';
    NoUnitEnding(w);
    NotEndsWith(w, "ty", 1);
  }

  /** The words for 101 to 999 that are not a whole number of hundreds: hundreds, " and ", the rest. */
  lemma HundredsAndWords(n: nat)
    requires 100 <= n < 1000 && n % 100 != 0
    ensures SpelledNumbers.GroupWords(n) ==
      SpelledNumbers.GroupWords(n / 100) + SpelledNumbers.Hundred + " and " + SpelledNumbers.GroupWords(n % 100)
  {
  }

  /** The suffix depends only on the last two digits. */
  lemma EnglishSuffixLastTwoDigits(n: nat)
    ensures EnglishOrdinalSuffix(n) == EnglishOrdinalSuffix(n % 100)
  {
    HundredsDropped(n / 100, n % 100);
  }

  /** Whole hundreds change neither the tens digit nor the units digit. */
  lemma HundredsDropped(q: nat, r: nat)
    requires r < 100
    ensures (100 * q + r) / 10 % 10 == r / 10 % 10
    ensures (100 * q + r) % 10 == r % 10
  {
    assert (100 * q + r) / 10 == 10 * q + r / 10;
  }

  /**
   * For 1 to 999 the ordinal words the words formatter writes end with the
   * suffix the numeric ordinals formatter writes: "one hundred and
   * twenty-first" and "121st", "one hundredth" and "100th".
   */
  lemma OrdinalFormattersAgree(n: nat)
    requires 0 < n < 1000
    ensures EndsWith(OrdinalWords(SpelledNumbers.GroupWords(n)), OrdinalSuffix(DecimalString(n)))
  {
    OrdinalSuffixOfNumber(n);
    if n < 100 {
      TwoDigitOrdinalWords(n);
    } else if n % 100 == 0 {
      OrdinalWordsSuffix(SpelledNumbers.GroupWords(n));
      WholeHundredsWords(n);
      EnglishSuffixLastTwoDigits(n);
    } else {
      var p := SpelledNumbers.GroupWords(n / 100) + SpelledNumbers.Hundred + " and ";
      var x := SpelledNumbers.GroupWords(n % 100);
      HundredsAndWords(n);
      assert SpelledNumbers.GroupWords(n) == p + x;
      OrdinalWordsLastWord(p, x);
      TwoDigitOrdinalWords(n % 100);
      EnglishSuffixLastTwoDigits(n);
      EndsWithAfterPrefix(p, OrdinalWords(x), EnglishOrdinalSuffix(n));
    }
  }

  // ---------------------------------------------------------------------
  // The ordinal words themselves

  /** The English ordinal words for 0 to 19, written out independently of the rewrite. */
  function OrdinalWord(n: nat): string
    requires n < 20
  {
    match n
      case 0 => "zeroth"
      case 1 => "first"
      case 2 => "second"
      case 3 => "third"
      case 4 => "fourth"
      case 5 => "fifth"
      case 6 => "sixth"
      case 7 => "seventh"
      case 8 => "eighth"
      case 9 => "ninth"
      case 10 => "tenth"
      case 11 => "eleventh"
      case 12 => "twelfth"
      case 13 => "thirteenth"
      case 14 => "fourteenth"
      case 15 => "fifteenth"
      case 16 => "sixteenth"
      case 17 => "seventeenth"
      case 18 => "eighteenth"
      case _ => "nineteenth"
  }

  /** The English ordinal words for the multiples of ten from 20 to 90, by tens digit. */
  function OrdinalTensWord(t: nat): string
    requires 2 <= t < 10
  {
    match t
      case 2 => "twentieth"
      case 3 => "thirtieth"
      case 4 => "fortieth"
      case 5 => "fiftieth"
      case 6 => "sixtieth"
      case 7 => "seventieth"
      case 8 => "eightieth"
      case _ => "ninetieth"
  }

  /** A word whose last letter is none of y, e, o and t matches no ending and takes "th". */
  lemma PlainThEnding(w: string)
    requires w != [] && w[|w| - 1] !in "yeot"
    ensures OrdinalWords(w) == w + "th"
  {
    NotEndsWith(w, "ty", 1);
    NotEndsWith(w, "one", 2);
    NotEndsWith(w, "two", 2);
    NotEndsWith(w, "three", 4);
    NotEndsWith(w, "ve", 1);
    NotEndsWith(w, "eight", 4);
    NotEndsWith(w, "nine", 3);
    assert w[..|w|] == w;
  }

  /** The same, for a word whose ordinal is given. */
  lemma PlainTh(w: string, o: string)
    requires w != [] && w[|w| - 1] !in "yeot" && o == w + "th"
    ensures OrdinalWords(w) == o
  {
    PlainThEnding(w);
  }

  /** "zero" matches no ending and becomes "zeroth". */
  lemma ZeroOrdinal(w: string)
    requires w == "zero"
    ensures OrdinalWords(w) == "zeroth"
  {
    NotEndsWith(w, "ty", 1);
    NotEndsWith(w, "one", 0);
    NotEndsWith(w, "two", 0);
    NotEndsWith(w, "three", 0);
    NotEndsWith(w, "ve", 1);
    NotEndsWith(w, "eight", 0);
    NotEndsWith(w, "nine", 0);
    assert w[..|w|] + "th" == "zeroth";
  }

  /** "one" becomes "first". */
  lemma OneOrdinal(w: string)
    requires w == "one"
    ensures OrdinalWords(w) == "first"
  {
    NotEndsWith(w, "ty", 1);
    assert w[|w| - 3..] == "one";
    assert w[..0] + "first" == "first";
  }

  /** "two" becomes "second". */
  lemma TwoOrdinal(w: string)
    requires w == "two"
    ensures OrdinalWords(w) == "second"
  {
    NotEndsWith(w, "ty", 1);
    NotEndsWith(w, "one", 2);
    assert w[|w| - 3..] == "two";
    assert w[..0] + "second" == "second";
  }

  /** "three" becomes "third". */
  lemma ThreeOrdinal(w: string)
    requires w == "three"
    ensures OrdinalWords(w) == "third"
  {
    NotEndsWith(w, "ty", 1);
    NotEndsWith(w, "one", 0);
    NotEndsWith(w, "two", 2);
    assert w[|w| - 5..] == "three";
    assert w[..0] + "third" == "third";
  }

  /** A word ending in "ve" but in none of the earlier endings loses "ve" and takes "fth": "five", "twelve". */
  lemma VeOrdinal(w: string, stem: string)
    requires w == stem + "ve" && stem != [] && stem[|stem| - 1] !in "hnt"
    ensures OrdinalWords(w) == stem + "fth"
  {
    NotEndsWith(w, "ty", 1);
    NotEndsWith(w, "one", 1);
    NotEndsWith(w, "two", 2);
    NotEndsWith(w, "three", 3);
    assert w[|w| - 2..] == "ve";
    assert w[..|w| - 2] == stem;
  }

  /** "eight" becomes "eighth". */
  lemma EightOrdinal(w: string)
    requires w == "eight"
    ensures OrdinalWords(w) == "eighth"
  {
    NotEndsWith(w, "ty", 1);
    NotEndsWith(w, "one", 2);
    NotEndsWith(w, "two", 2);
    NotEndsWith(w, "three", 0);
    NotEndsWith(w, "ve", 1);
    assert w[|w| - 5..] == "eight";
    assert w[..|w|] + "h" == "eighth";
  }

  /** "nine" becomes "ninth". */
  lemma NineOrdinal(w: string)
    requires w == "nine"
    ensures OrdinalWords(w) == "ninth"
  {
    NotEndsWith(w, "ty", 1);
    NotEndsWith(w, "one", 0);
    NotEndsWith(w, "two", 2);
    NotEndsWith(w, "three", 0);
    NotEndsWith(w, "ve", 0);
    NotEndsWith(w, "eight", 0);
    assert w[|w| - 4..] == "nine";
    assert w[..|w| - 1] + "th" == "ninth";
  }

  /** The rewrite turns each word from "zero" to "nine" into its ordinal word. */
  lemma UnitOrdinalWords(n: nat)
    requires n < 10
    ensures OrdinalWords(SpelledNumbers.NumberWord(n)) == OrdinalWord(n)
  {
    var w := SpelledNumbers.NumberWord(n);
    match n
    case 0 => ZeroOrdinal(w);
    case 1 => OneOrdinal(w);
    case 2 => TwoOrdinal(w);
    case 3 => ThreeOrdinal(w);
    case 4 => PlainThEnding(w);
    case 5 => VeOrdinal(w, "fi");
    case 6 => PlainThEnding(w);
    case 7 => PlainThEnding(w);
    case 8 => EightOrdinal(w);
    case 9 => NineOrdinal(w);
  }

  /** The rewrite turns each word from "ten" to "nineteen" into its ordinal word. */
  lemma TeenOrdinalWords(n: nat)
    requires 10 <= n < 20
    ensures OrdinalWords(SpelledNumbers.NumberWord(n)) == OrdinalWord(n)
  {
    var w := SpelledNumbers.NumberWord(n);
    match n
    case 10 =>
      PlainTh(w, OrdinalWord(n));
    case 11 =>
      PlainTh(w, OrdinalWord(n));
    case 12 =>
      VeOrdinal(w, "twel");
    case 13 =>
      PlainTh(w, OrdinalWord(n));
    case 14 =>
      PlainTh(w, OrdinalWord(n));
    case 15 =>
      PlainTh(w, OrdinalWord(n));
    case 16 =>
      PlainTh(w, OrdinalWord(n));
    case 17 =>
      PlainTh(w, OrdinalWord(n));
    case 18 =>
      PlainTh(w, OrdinalWord(n));
    case 19 =>
      PlainTh(w, OrdinalWord(n));
  }

  /** The spelled words of 12, "twelve", become "twelfth". */
  lemma TwelfthOrdinal()
    ensures OrdinalWords(SpelledNumbers.GroupWords(12)) == "twelfth"
  {
    var w := SpelledNumbers.GroupWords(12);
    SpelledNumbers.GroupWordsTwelve();
    VeOrdinal(w, "twel");
    assert "twel" + "fth" == "twelfth";
  }

  /** The rewrite turns "twenty" to "ninety" into "twentieth" to "ninetieth". */
  lemma TensOrdinalWords(t: nat)
    requires 2 <= t < 10
    ensures OrdinalWords(SpelledNumbers.TensWord(t)) == OrdinalTensWord(t)
  {
    var w := SpelledNumbers.TensWord(t);
    match t
    case 2 => TyOrdinal(w, "twen", OrdinalTensWord(t));
    case 3 => TyOrdinal(w, "thir", OrdinalTensWord(t));
    case 4 => TyOrdinal(w, "for", OrdinalTensWord(t));
    case 5 => TyOrdinal(w, "fif", OrdinalTensWord(t));
    case 6 => TyOrdinal(w, "six", OrdinalTensWord(t));
    case 7 => TyOrdinal(w, "seven", OrdinalTensWord(t));
    case 8 => TyOrdinal(w, "eigh", OrdinalTensWord(t));
    case 9 => TyOrdinal(w, "nine", OrdinalTensWord(t));
  }

  /** A word ending in "ty" loses its "y" and takes "ieth": "twenty" becomes "twentieth". */
  lemma TyOrdinal(w: string, stem: string, o: string)
    requires w == stem + "ty" && o == stem + "tieth"
    ensures OrdinalWords(w) == o
  {
    assert w[|w| - 2..] == "ty";
    assert w[..|w| - 1] == stem + "t";
    assert stem + "t" + "ieth" == o;
  }

  /**
   * For 1 to 99 the rewrite gives the English ordinal words: "twelfth",
   * "twentieth", "twenty-first".
   */
  lemma TwoDigitOrdinalWordsExact(n: nat)
    requires 0 < n < 100
    ensures OrdinalWords(SpelledNumbers.GroupWords(n)) ==
      if n < 20 then OrdinalWord(n)
      else if n % 10 == 0 then OrdinalTensWord(n / 10)
      else SpelledNumbers.TensWord(n / 10) + "-" + OrdinalWord(n % 10)
  {
    if n < 10 {
      UnitOrdinalWords(n);
    } else if n < 20 {
      TeenOrdinalWords(n);
    } else if n % 10 == 0 {
      assert SpelledNumbers.GroupWords(n) == SpelledNumbers.TensWord(n / 10);
      TensOrdinalWords(n / 10);
    } else {
      var p := SpelledNumbers.TensWord(n / 10) + "-";
      CompoundWords(n);
      OrdinalWordsLastWord(p, SpelledNumbers.NumberWord(n % 10));
      UnitOrdinalWords(n % 10);
    }
  }
}
