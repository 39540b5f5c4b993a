/**
 * Lookup of the numbers dictionary (dictionary/jeff_numbers_dictionary.cc).
 *
 * Every stroke of the outline must hold the number key #. Each stroke's
 * text (GetDigits) is appended to the result, and the control keys the
 * stroke leaves pick at most one formatter: dollars, percent, hundreds of
 * dollars, time, words, numeric ordinal or Roman numeral. A formatter is
 * only allowed on the last stroke, and a control key that nothing used
 * makes the whole lookup invalid.
 */
module JeffNumbers {

  import opened Wrappers
  import opened StenoStroke
  import opened DigitStrings
  import StrokeDigits
  import SpelledNumbers
  import SpelledValues
  import RomanNumerals
  import Ordinals
  import Sequences

  // ---------------------------------------------------------------------
  // Choosing a formatter

  const RB: set<Key> := {RR, BR}
  const WR: set<Key> := {WL, RL}
  const KR: set<Key> := {KL, RL}
  const RG: set<Key> := {RR, GR}
  const DZ: set<Key> := {DR, ZR}
  const BG: set<Key> := {BR, GR}

  /** The keys the final check of every stroke ignores. */
  const Ignored: set<Key> := {Star, DR, ZR}

  /** The formatter a stroke's control keys select; `keys` are the keys it consumes. */
  datatype Format =
    | Plain
    | Dollars(keys: set<Key>)
    | Percent(keys: set<Key>)
    | HundredsOfDollars
    | Time
    | Words
    | OrdinalNumber
    | RomanNumeral

  /** The cascade of Lookup: the first test that matches wins. */
  function FormatOf(control: set<Key>): Format {
    if RB <= control then Dollars(RB)
    else if WR <= control then Dollars(WR)
    else if KR <= control then Percent(KR)
    else if RG <= control then Percent(RG)
    else if DZ <= control then HundredsOfDollars
    else if KL in control || BG <= control then Time
    else if GR in control then Words
    else if WL in control || BR in control then OrdinalNumber
    else if RL in control || RR in control then RomanNumeral
    else Plain
  }

  // ---------------------------------------------------------------------
  // Time

  /** The minutes: ":00" without K-, else ":45" for -B-G, ":15" for -G, ":30" for -B. */
  function TimeMinutes(control: set<Key>): string {
    if KL !in control then ":00"
    else if BG <= control then ":45"
    else if GR in control then ":15"
    else if BR in control then ":30"
    else ":00"
  }

  /** " a.m." with -S, " p.m." with -S and *, nothing otherwise. */
  function TimeSuffix(control: set<Key>): string {
    if SR !in control then ""
    else if Star in control then " p.m."
    else " a.m."
  }

  // ---------------------------------------------------------------------
  // The value a Roman numeral is made from

  /**
   * The value the Roman numeral formatter reads from the text: the digits
   * accumulated from the left, ignoring everything else, and frozen as soon
   * as the value exceeds 3999 (the reading loop of Lookup breaks there).
   */
  function RomanInput(s: string): nat {
    if s == [] then 0
    else
      var v := RomanInput(s[..|s| - 1]);
      var c := s[|s| - 1];
      if v > 3999 then v
      else if IsDigit(c) then 10 * v + DigitValue(c)
      else v
  }

  /** The loop of the Roman numeral formatter that reads the value. */
  method ReadRomanInput(s: string) returns (value: nat)
    ensures value == RomanInput(s)
  {
    value := 0;
    var i := 0;
    while i < |s|
      invariant 0 <= i <= |s|
      invariant value == RomanInput(s[..i]) && value <= 3999
    {
      assert s[..i + 1][..i] == s[..i];
      if IsDigit(s[i]) {
        value := value * 10 + DigitValue(s[i]);
      }
      i := i + 1;
      if value > 3999 {
        break;
      }
    }
    RomanInputFrozen(s, i);
  }

  /** Once the value is over 3999 the rest of the text does not change it. */
  lemma {:induction false} RomanInputFrozen(s: string, i: nat)
    requires i <= |s|
    requires i == |s| || RomanInput(s[..i]) > 3999
    ensures RomanInput(s) == RomanInput(s[..i])
    decreases |s| - i
  {
    if i == |s| {
      assert s[..i] == s;
    } else {
      assert s[..|s| - 1][..i] == s[..i];
      RomanInputFrozen(s[..|s| - 1], i);
    }
  }

  /**
   * Below the cut-off the value read is the decimal value of the text's
   * digits, and it is over 3999 exactly when that value is; it never goes
   * past 39999, so the int of Lookup cannot overflow.
   */
  lemma {:induction false} RomanInputValue(s: string)
    ensures RomanInput(s) <= 3999 ==> RomanInput(s) == DecimalValue(DigitChars(s))
    ensures RomanInput(s) > 3999 ==> DecimalValue(DigitChars(s)) > 3999
    ensures RomanInput(s) <= 39999
  {
    if s != [] {
      var init := s[..|s| - 1];
      var c := s[|s| - 1];
      RomanInputValue(init);
      var d := DigitChars(init);
      if IsDigit(c) {
        var e := d + [c];
        assert DigitChars(s) == e;
        assert e[..|e| - 1] == d;
        assert DecimalValue(e) == 10 * DecimalValue(d) + DigitValue(c);
      } else {
        assert DigitChars(s) == d + [];
        assert d + [] == d;
      }
    }
  }

  // ---------------------------------------------------------------------
  // Formatting one stroke

  /** The text and control keys after a formatter has run. */
  datatype Step = Step(text: string, control: set<Key>)

  /** What the selected formatter does to the result so far; None when it rejects it. */
  function Formatted(f: Format, result: string, control: set<Key>): Option<Step> {
    match f
    case Plain => Some(Step(result, control))
    case Dollars(keys) => Some(Step("$" + result, control - keys))
    case Percent(keys) => Some(Step(result + "%", control - keys))
    case HundredsOfDollars => Some(Step("$" + result + "00", control - DZ))
    case Time =>
      Some(Step(result + TimeMinutes(control) + TimeSuffix(control), control - {KL, BR, GR, SR}))
    case Words =>
      var words := SpelledNumbers.Spelled(result);
      Some(Step(if WL in control then Ordinals.OrdinalWords(words) else words, control - {GR, WL}))
    case OrdinalNumber => Some(Step(result + Ordinals.OrdinalSuffix(result), control - {WL, BR}))
    case RomanNumeral =>
      var value := RomanInput(result);
      if value <= 0 || value >= 3999 then None
      else Some(Step(RomanNumerals.Roman(value), control - {RL, RR}))
  }

  /**
   * One round of Lookup's loop after the stroke's text has been appended:
   * a formatter on any stroke but the last, a rejected value, or a control
   * key left over (other than *, -D and -Z) makes the lookup invalid.
   */
  function StrokeOutcome(result: string, control: set<Key>, last: bool): Option<string> {
    var f := FormatOf(control);
    if f != Plain && !last then None
    else match Formatted(f, result, control)
      case None => None
      case Some(step) => if step.control - Ignored != {} then None else Some(step.text)
  }

  /** The rest of Lookup from stroke i on, with `result` built so far. */
  function Run(strokes: seq<Stroke>, i: nat, result: string): Option<string>
    requires i <= |strokes|
    decreases |strokes| - i
  {
    if i == |strokes| then Some(result)
    else if Num !in strokes[i] then None
    else
      var d := StrokeDigits.StrokeText(strokes[i]);
      match StrokeOutcome(result + d.text, d.control, i + 1 == |strokes|)
      case None => None
      case Some(text) => Run(strokes, i + 1, text)
  }

  /** A stroke that the formatting step accepts hands its text on to the next stroke. */
  lemma RunStep(strokes: seq<Stroke>, i: nat, result: string, text: string)
    requires i < |strokes| && Num in strokes[i]
    requires var d := StrokeDigits.StrokeText(strokes[i]);
      StrokeOutcome(result + d.text, d.control, i + 1 == |strokes|) == Some(text)
    ensures Run(strokes, i, result) == Run(strokes, i + 1, text)
  {
  }

  /**
   * What Lookup returns for an outline. With no strokes at all Lookup
   * hands back a result holding no string; here that is the empty text.
   */
  function Translation(strokes: seq<Stroke>): Option<string> {
    Run(strokes, 0, "")
  }

  // ---------------------------------------------------------------------
  // The methods

  /** The body of Lookup's cascade for one stroke. */
  method FormatStroke(result: string, control: set<Key>, last: bool) returns (r: Option<string>)
    ensures r == StrokeOutcome(result, control, last)
  {
    var text := result;
    var keys := control;
    if RB <= keys {
      if !last { return None; }
      keys := keys - RB;
      text := "$" + text;
    } else if WR <= keys {
      if !last { return None; }
      keys := keys - WR;
      text := "$" + text;
    } else if KR <= keys {
      if !last { return None; }
      keys := keys - KR;
      text := text + "%";
    } else if RG <= keys {
      if !last { return None; }
      keys := keys - RG;
      text := text + "%";
    } else if DZ <= keys {
      if !last { return None; }
      keys := keys - DZ;
      text := "$" + text + "00";
    } else if KL in keys || BG <= keys {
      if !last { return None; }
      var minutes, suffix := TimeMinutes(keys), TimeSuffix(keys);
      text := text + minutes + suffix;
      keys := keys - {KL, BR, GR, SR};
    } else if GR in keys {
      if !last { return None; }
      text := SpelledNumbers.ToWords(text);
      if WL in keys {
        text := Ordinals.OrdinalWords(text);
      }
      keys := keys - {GR, WL};
    } else if WL in keys || BR in keys {
      if !last { return None; }
      var suffix := Ordinals.NumericOrdinalSuffix(text);
      text := text + suffix;
      keys := keys - {WL, BR};
    } else if RL in keys || RR in keys {
      if !last { return None; }
      var value := ReadRomanInput(text);
      if value <= 0 || value >= 3999 {
        return None;
      }
      text := RomanNumerals.ToRoman(value);
      keys := keys - {RL, RR};
    }
    keys := keys - Ignored;
    if keys != {} {
      return None;
    }
    r := Some(text);
  }

  /**
   * Lookup: the loop over the strokes of the outline. Lookup in C++ starts
   * from no result and duplicates the first stroke's text; starting from
   * the empty text is the same.
   */
  method Lookup(strokes: seq<Stroke>) returns (r: Option<string>)
    ensures r == Translation(strokes)
  {
    var result := "";
    for i := 0 to |strokes|
      invariant Run(strokes, i, result) == Translation(strokes)
    {
      if Num !in strokes[i] {
        return None;
      }
      var text, control := StrokeDigits.GetDigits(strokes[i]);
      result := result + text;
      var outcome := FormatStroke(result, control, i + 1 == |strokes|);
      if outcome.None? {
        return None;
      }
      result := outcome.value;
    }
    r := Some(result);
  }

  // ---------------------------------------------------------------------
  // What Lookup promises

  /** Every stroke must hold #: one without it anywhere makes the outline invalid. */
  lemma {:induction false} NumKeyRequired(strokes: seq<Stroke>, i: nat, result: string)
    requires i <= |strokes|
    ensures (exists j :: i <= j < |strokes| && Num !in strokes[j]) ==> Run(strokes, i, result) == None
    decreases |strokes| - i
  {
    if i < |strokes| && Num in strokes[i] {
      var d := StrokeDigits.StrokeText(strokes[i]);
      match StrokeOutcome(result + d.text, d.control, i + 1 == |strokes|)
      case None =>
      case Some(text) =>
        NumKeyRequired(strokes, i + 1, text);
        if exists j :: i <= j < |strokes| && Num !in strokes[j] {
          var j :| i <= j < |strokes| && Num !in strokes[j];
          assert j != i;
        }
    }
  }

  /** A formatter selected by any stroke but the last makes the outline invalid. */
  lemma {:induction false} FormatterOnlyOnLastStroke(strokes: seq<Stroke>, i: nat, result: string)
    requires i <= |strokes|
    ensures (exists j :: i <= j < |strokes| - 1 && FormatOf(StrokeDigits.StrokeText(strokes[j]).control) != Plain) ==>
      Run(strokes, i, result) == None
    decreases |strokes| - i
  {
    if i < |strokes| && Num in strokes[i] {
      var d := StrokeDigits.StrokeText(strokes[i]);
      match StrokeOutcome(result + d.text, d.control, i + 1 == |strokes|)
      case None =>
      case Some(text) =>
        FormatterOnlyOnLastStroke(strokes, i + 1, text);
        if exists j :: i <= j < |strokes| - 1 && FormatOf(StrokeDigits.StrokeText(strokes[j]).control) != Plain {
          var j :| i <= j < |strokes| - 1 && FormatOf(StrokeDigits.StrokeText(strokes[j]).control) != Plain;
          assert j != i;
        }
    }
  }

  /** E and U are consumed by no formatter: left in the control keys they always invalidate. */
  lemma VowelLeftOver(result: string, control: set<Key>, last: bool)
    requires E in control || U in control
    ensures StrokeOutcome(result, control, last) == None
  {
    var f := FormatOf(control);
    var kept := control - {RR, BR, WL, RL, KL, GR, SR, DR, ZR};
    match Formatted(f, result, control)
    case None =>
    case Some(step) =>
      assert kept <= step.control;
      assert E in kept || U in kept;
  }

  /** A stroke with E or U and no digit key hands E or U on to the formatters. */
  lemma VowelStroke(s: Stroke, result: string, last: bool)
    requires !StrokeDigits.HasDigits(s) && (E in s || U in s)
    ensures var d := StrokeDigits.StrokeText(s);
      StrokeOutcome(result + d.text, d.control, last) == None
  {
    var d := StrokeDigits.StrokeText(s);
    StrokeDigits.StrokeTextControl(s);
    VowelLeftOver(result + d.text, d.control, last);
  }

  /**
   * A stroke that holds E or U but no digit key (such as "#E", "#U" and
   * "#EU") makes any outline it is part of invalid.
   */
  lemma VowelsWithoutDigits(strokes: seq<Stroke>, i: nat, result: string)
    requires i <= |strokes|
    ensures (exists j :: i <= j < |strokes| && LoneVowel(strokes[j])) ==> Run(strokes, i, result) == None
  {
    if exists j :: i <= j < |strokes| && LoneVowel(strokes[j]) {
      var j :| i <= j < |strokes| && LoneVowel(strokes[j]);
      LoneVowelStops(strokes, i, j, result);
    }
  }

  /** The lone vowel stroke at j stops the lookup from any earlier stroke i on. */
  lemma {:induction false} LoneVowelStops(strokes: seq<Stroke>, i: nat, j: nat, result: string)
    requires i <= j < |strokes| && LoneVowel(strokes[j])
    ensures Run(strokes, i, result) == None
    decreases j - i
  {
    if Num in strokes[i] {
      var d := StrokeDigits.StrokeText(strokes[i]);
      var o := StrokeOutcome(result + d.text, d.control, i + 1 == |strokes|);
      if j == i {
        VowelStroke(strokes[i], result, i + 1 == |strokes|);
        RunStops(strokes, i, result);
      } else if o == None {
        RunStops(strokes, i, result);
      } else {
        LoneVowelStops(strokes, i + 1, j, o.value);
        RunStep(strokes, i, result, o.value);
      }
    }
  }

  /** A stroke holding E or U but no digit key. */
  predicate LoneVowel(s: Stroke) {
    !StrokeDigits.HasDigits(s) && (E in s || U in s)
  }

  /** A stroke that the formatting step rejects makes the whole outline fail. */
  lemma RunStops(strokes: seq<Stroke>, i: nat, result: string)
    requires i < |strokes| && Num in strokes[i]
    requires var d := StrokeDigits.StrokeText(strokes[i]);
      StrokeOutcome(result + d.text, d.control, i + 1 == |strokes|) == None
    ensures Run(strokes, i, result) == None
  {
  }

  /** A stroke that selects no formatter and leaves only *, -D or -Z (not both of -D and -Z). */
  predicate PlainStroke(s: Stroke) {
    Num in s && PlainControl(StrokeDigits.StrokeText(s).control)
  }

  /** Control keys that select no formatter and pass the final check. */
  predicate PlainControl(c: set<Key>) {
    c <= Ignored && !(DZ <= c)
  }

  /** Plain control keys leave the result as it is. */
  lemma PlainOutcome(result: string, c: set<Key>, last: bool)
    requires PlainControl(c)
    ensures StrokeOutcome(result, c, last) == Some(result)
  {
    assert FormatOf(c) == Plain;
  }

  /** The texts of strokes[i..] one after another. */
  function PlainText(strokes: seq<Stroke>, i: nat): string
    requires i <= |strokes|
    decreases |strokes| - i
  {
    if i == |strokes| then "" else StrokeDigits.StrokeText(strokes[i]).text + PlainText(strokes, i + 1)
  }

  /** An outline of plain strokes translates to their texts one after another ("#ST*" "#PH" is "12.34"). */
  lemma {:induction false} PlainOutline(strokes: seq<Stroke>, i: nat, result: string)
    requires i <= |strokes|
    requires forall j :: i <= j < |strokes| ==> PlainStroke(strokes[j])
    ensures Run(strokes, i, result) == Some(result + PlainText(strokes, i))
    decreases |strokes| - i
  {
    if i == |strokes| {
      assert result + "" == result;
    } else {
      var d := StrokeDigits.StrokeText(strokes[i]);
      PlainOutline(strokes, i + 1, result + d.text);
      PlainOutlineStep(strokes, i, result);
    }
  }

  /** One plain stroke of PlainOutline: its text goes in front of the rest. */
  lemma PlainOutlineStep(strokes: seq<Stroke>, i: nat, result: string)
    requires i < |strokes| && PlainStroke(strokes[i])
    requires var d := StrokeDigits.StrokeText(strokes[i]);
      Run(strokes, i + 1, result + d.text) == Some(result + d.text + PlainText(strokes, i + 1))
    ensures Run(strokes, i, result) == Some(result + PlainText(strokes, i))
  {
    var d := StrokeDigits.StrokeText(strokes[i]);
    PlainOutcome(result + d.text, d.control, i + 1 == |strokes|);
    RunStep(strokes, i, result, result + d.text);
    PlainTextCons(strokes, i, result);
  }

  /** PlainText unfolded by one stroke, behind a prefix. */
  lemma PlainTextCons(strokes: seq<Stroke>, i: nat, result: string)
    requires i < |strokes|
    ensures result + PlainText(strokes, i)
      == (result + StrokeDigits.StrokeText(strokes[i]).text) + PlainText(strokes, i + 1)
  {
    var d := StrokeDigits.StrokeText(strokes[i]);
    Sequences.AppendAssociative(result, d.text, PlainText(strokes, i + 1));
  }

  /** A single stroke: its text, passed through the formatter it selects. */
  lemma OneStroke(s: Stroke)
    ensures Translation([s]) == if Num !in s then None
      else StrokeOutcome(StrokeDigits.StrokeText(s).text, StrokeDigits.StrokeText(s).control, true)
  {
    var d := StrokeDigits.StrokeText(s);
    assert "" + d.text == d.text;
    if Num in s {
      match StrokeOutcome(d.text, d.control, true)
      case None =>
      case Some(text) =>
        assert Run([s], 1, text) == Some(text);
    }
  }

  /**
   * The Roman numeral formatter succeeds exactly when the digits read as a
   * number from 1 to 3998 and no other control key is left, and then the
   * numeral it writes reads back as that number.
   */
  lemma RomanOutcome(result: string, control: set<Key>)
    requires FormatOf(control) == RomanNumeral
    ensures var n := DecimalValue(DigitChars(result));
      StrokeOutcome(result, control, true) != None <==> 1 <= n <= 3998 && control - {RL, RR} - Ignored == {}
    ensures var n := DecimalValue(DigitChars(result));
      StrokeOutcome(result, control, true) != None ==>
        StrokeOutcome(result, control, true).value == RomanNumerals.Roman(n) &&
        RomanNumerals.NumeralValue(StrokeOutcome(result, control, true).value) == n
  {
    RomanInputValue(result);
    var n := DecimalValue(DigitChars(result));
    if 1 <= n <= 3998 {
      RomanNumerals.RomanRoundTrip(n);
    }
  }

  /** The numeric ordinal formatter on the numeral of n appends the English suffix: "21st", "12th". */
  lemma OrdinalNumberOutcome(n: nat, control: set<Key>)
    requires FormatOf(control) == OrdinalNumber && control - {WL, BR} - Ignored == {}
    ensures StrokeOutcome(DecimalString(n), control, true) ==
      Some(DecimalString(n) + Ordinals.EnglishOrdinalSuffix(n))
  {
    Ordinals.OrdinalSuffixOfNumber(n);
  }

  /** The time formatter appends one of four minute marks, then " a.m.", " p.m." or nothing. */
  lemma TimeOutcome(result: string, control: set<Key>)
    requires FormatOf(control) == Time && control - {KL, BR, GR, SR} - Ignored == {}
    ensures var t := StrokeOutcome(result, control, true);
      t != None &&
      (exists m, x :: m in {":00", ":15", ":30", ":45"} && x in {"", " a.m.", " p.m."} && t.value == result + m + x)
  {
    var m, x := TimeMinutes(control), TimeSuffix(control);
    assert StrokeOutcome(result, control, true).value == result + m + x;
  }

  /**
   * Dollars (-R-B, or else W-R-): allowed on the last stroke only, "$" goes
   * in front of the text, and any other key left besides *, -D and -Z
   * rejects the stroke.
   */
  lemma DollarsOutcome(result: string, control: set<Key>, last: bool)
    requires RB <= control || WR <= control
    ensures var keys := if RB <= control then RB else WR;
      StrokeOutcome(result, control, last) ==
        if last && control - keys - Ignored == {} then Some("$" + result) else None
  {
  }

  /** Percent (K-R-, or else -R-G) when no dollars keys are held: "%" goes after the text. */
  lemma PercentOutcome(result: string, control: set<Key>, last: bool)
    requires !(RB <= control) && !(WR <= control) && (KR <= control || RG <= control)
    ensures var keys := if KR <= control then KR else RG;
      StrokeOutcome(result, control, last) ==
        if last && control - keys - Ignored == {} then Some(result + "%") else None
  {
  }

  /** Hundreds of dollars (-D-Z) when no dollars or percent keys are held: "$" before, "00" after. */
  lemma HundredsOutcome(result: string, control: set<Key>, last: bool)
    requires !(RB <= control) && !(WR <= control) && !(KR <= control) && !(RG <= control)
    requires DZ <= control
    ensures StrokeOutcome(result, control, last) ==
      if last && control - Ignored == {} then Some("$" + result + "00") else None
  {
    assert control - DZ - Ignored == control - Ignored;
  }

  /**
   * The words formatter on the numeral of a number from 1 to 99: its words
   * ("twelve", "twenty-one"), or with W- its ordinal ("twelfth",
   * "twenty-first", "twentieth").
   */
  lemma WordsOutcome(n: nat, control: set<Key>)
    requires 0 < n < 100
    requires FormatOf(control) == Words && control - {GR, WL} - Ignored == {}
    ensures WL !in control ==> StrokeOutcome(DecimalString(n), control, true) == Some(SpelledNumbers.GroupWords(n))
    ensures WL in control ==> StrokeOutcome(DecimalString(n), control, true) == Some(
      if n < 20 then Ordinals.OrdinalWord(n)
      else if n % 10 == 0 then Ordinals.OrdinalTensWord(n / 10)
      else SpelledNumbers.TensWord(n / 10) + "-" + Ordinals.OrdinalWord(n % 10))
  {
    SpelledValues.SpelledBelowThousand(n);
    Ordinals.TwoDigitOrdinalWordsExact(n);
  }

  /** The last stroke of "#ST-RB": text "12" with -R-B left is "$12". */
  lemma DollarsExample()
    ensures StrokeOutcome("12", {RR, BR}, true) == Some("$12")
  {
    var c: set<Key> := {RR, BR};
    assert RB <= c;
    assert FormatOf(c) == Dollars(RB);
    assert c - RB == {};
    assert "$" + "12" == "$12";
  }

  /** "#SK-BGS": text "1" with K-, -B, -G and -S left is "1:45 a.m.". */
  lemma TimeExample()
    ensures StrokeOutcome("1", {KL, BR, GR, SR}, true) == Some("1:45 a.m.")
  {
    var c: set<Key> := {KL, BR, GR, SR};
    assert !(RB <= c) && !(WR <= c) && !(KR <= c) && !(RG <= c) && !(DZ <= c);
    assert FormatOf(c) == Time;
    assert TimeMinutes(c) == ":45" && TimeSuffix(c) == " a.m.";
    assert c - {KL, BR, GR, SR} == {};
    assert "1" + ":45" + " a.m." == "1:45 a.m.";
  }

  /** "#STR": text "12" with R- left is "XII". */
  lemma RomanExample()
    ensures StrokeOutcome("12", {RL}, true) == Some("XII")
  {
    var c: set<Key> := {RL};
    assert FormatOf(c) == RomanNumeral;
    assert RomanInput("12"[..1]) == 1;
    assert RomanInput("12") == 12;
    assert RomanNumerals.Greedy(2, 9) == "II" by {
      assert RomanNumerals.Greedy(0, 12) == "";
      assert RomanNumerals.Greedy(2, 12) == "I" + ("I" + "");
    }
    assert RomanNumerals.Roman(12) == "XII" by {
      assert RomanNumerals.Greedy(12, 8) == "X" + "II";
    }
    assert c - {RL, RR} == {};
  }

  /** A stroke with no control key left keeps the text as it is. */
  lemma EmptyControlOutcome(text: string, last: bool)
    ensures StrokeOutcome(text, {}, last) == Some(text)
  {
    assert FormatOf({}) == Plain;
  }

  /** "#STPED" translates to "3211". */
  lemma ReverseAndRepeatTranslation(s: Stroke)
    requires s == {Num, SL, TL, PL, E, DR}
    ensures Translation([s]) == Some("3211")
  {
    OneStroke(s);
    StrokeDigits.ReverseAndRepeatExample(s);
    EmptyControlOutcome(StrokeDigits.StrokeText(s).text, true);
  }

  /** "#STP*Z" translates to "123,000". */
  lemma ThousandsTranslation(s: Stroke)
    requires s == {Num, SL, TL, PL, Star, ZR}
    ensures Translation([s]) == Some("123,000")
  {
    OneStroke(s);
    StrokeDigits.ThousandsExample(s);
    EmptyControlOutcome(StrokeDigits.StrokeText(s).text, true);
  }

  /** "#E" on its own is no number: E is left over after the stroke. */
  lemma LoneVowelTranslation(s: Stroke)
    requires s == {Num, E}
    ensures Translation([s]) == None
  {
    VowelStroke(s, "", true);
  }

  /** "#ST*" then "#PH" translates to "12.34": the point of the first stroke stays in the text. */
  lemma DecimalTranslation(s1: Stroke, s2: Stroke)
    requires s1 == {Num, SL, TL, Star} && s2 == {Num, PL, HL}
    ensures Translation([s1, s2]) == Some("12.34")
  {
    var strokes := [s1, s2];
    StrokeDigits.PointStrokeExample(s1);
    StrokeDigits.PlainDigitsExample(s2);
    assert "" + "12." == "12.";
    EmptyControlOutcome("12.", false);
    RunStep(strokes, 0, "", "12.");
    assert "12." + "34" == "12.34";
    EmptyControlOutcome("12.34", true);
    RunStep(strokes, 1, "12.", "12.34");
  }

  /** "#ST-RG" translates to "12%". */
  lemma PercentTranslation(s: Stroke)
    requires s == {Num, SL, TL, RR, GR}
    ensures Translation([s]) == Some("12%")
  {
    OneStroke(s);
    StrokeDigits.STControlParts(s, {RR, GR});
    StrokeDigits.UnpunctuatedText(s, "12", {RR, GR});
    PercentOutcome("12", {RR, GR}, true);
    assert {RR, GR} - RG - Ignored == {};
    assert "12" + "%" == "12%";
  }

  /** The last stroke of "$12.34": "12." and "34" with W- and R- left. */
  lemma DollarsDecimalLast()
    ensures StrokeOutcome("12.34", {WL, RL}, true) == Some("$12.34")
  {
    DollarsOutcome("12.34", {WL, RL}, true);
    assert {WL, RL} - WR - Ignored == {};
    assert "$" + "12.34" == "$12.34";
  }

  /** "#ST*" then "#PWHR" translates to "$12.34": W-R- on the last stroke puts "$" before all of it. */
  lemma DollarsDecimalTranslation(s1: Stroke, s2: Stroke)
    requires s1 == {Num, SL, TL, Star} && s2 == {Num, PL, WL, HL, RL}
    ensures Translation([s1, s2]) == Some("$12.34")
  {
    var strokes := [s1, s2];
    StrokeDigits.PointStrokeExample(s1);
    assert "" + "12." == "12.";
    EmptyControlOutcome("12.", false);
    RunStep(strokes, 0, "", "12.");
    StrokeDigits.PWHRParts(s2);
    StrokeDigits.UnpunctuatedText(s2, "34", {WL, RL});
    assert "12." + "34" == "12.34";
    DollarsDecimalLast();
    RunStep(strokes, 1, "12.", "$12.34");
  }

  /** The words formatter on the text "12" of "#STG": "twelve". */
  lemma TwelveWords(control: set<Key>)
    requires control == {GR}
    ensures StrokeOutcome("12", control, true) == Some("twelve")
  {
    assert FormatOf(control) == Words;
    assert SpelledNumbers.Spelled("12") == "twelve" by {
      SpelledTwelve();
      SpelledNumbers.GroupWordsTwelve();
    }
  }

  /** The words formatter on the text "12" of "#STWG": "twelfth". */
  lemma TwelfthWords(control: set<Key>)
    requires control == {WL, GR}
    ensures StrokeOutcome("12", control, true) == Some("twelfth")
  {
    assert FormatOf(control) == Words;
    assert Ordinals.OrdinalWords(SpelledNumbers.Spelled("12")) == "twelfth" by {
      SpelledTwelve();
      Ordinals.TwelfthOrdinal();
    }
  }

  /** ToWords spells "12" as the words of the group 12. */
  lemma SpelledTwelve()
    ensures SpelledNumbers.Spelled("12") == SpelledNumbers.GroupWords(12)
  {
    assert DecimalString(12) == "12";
    SpelledValues.SpelledBelowThousand(12);
  }

  /** "#STG" translates to "twelve" and "#STWG" to "twelfth". */
  lemma TwelveTranslation(s: Stroke, control: set<Key>)
    requires control == {GR} || control == {WL, GR}
    requires s == {Num, SL, TL} + control
    ensures Translation([s]) == Some(if WL in control then "twelfth" else "twelve")
  {
    OneStroke(s);
    StrokeDigits.STControlParts(s, control);
    StrokeDigits.UnpunctuatedText(s, "12", control);
    if WL in control {
      TwelfthWords(control);
    } else {
      TwelveWords(control);
    }
  }
}
