/**
 * GetDigits of the numbers dictionary (dictionary/jeff_numbers_dictionary.cc):
 * the text one number stroke stands for, and the control keys it leaves for
 * Lookup's formatters.
 *
 * The digit keys give their digits in the fixed order S- T- P- H- A O -F -P
 * -L -T ("1234506789"), or in the reverse order when E or U is held. Then
 * -Z adds "00" (",000" with *), -D repeats the last digit, * adds "." and *
 * with -S adds ",".
 */
module StrokeDigits {

  import opened StenoStroke
  import SpelledNumbers

  /** The digits of the keys DigitKeys[i..] held in the stroke, in key order. */
  function DigitsFrom(stroke: Stroke, i: nat): string
    requires i <= |DigitKeys|
    decreases |DigitKeys| - i
  {
    if i == |DigitKeys| then ""
    else (if DigitKeys[i] in stroke then [DigitValues[i]] else "") + DigitsFrom(stroke, i + 1)
  }

  /** The position of a digit character in DigitValues ("1234506789"), 10 for anything else. */
  function DigitIndex(c: char): nat {
    match c
      case '1' => 0
      case '2' => 1
      case '3' => 2
      case '4' => 3
      case '5' => 4
      case '0' => 5
      case '6' => 6
      case '7' => 7
      case '8' => 8
      case '9' => 9
      case _ => 10
  }

  /** The stroke holds at least one digit key. */
  predicate HasDigits(stroke: Stroke) {
    stroke * AllDigits != {}
  }

  /** The stroke holds digit keys and E or U, so its digits come out reversed. */
  predicate IsReversed(stroke: Stroke) {
    HasDigits(stroke) && (E in stroke || U in stroke)
  }

  /** The digits of the stroke in the order GetDigits writes them. */
  function NumberDigits(stroke: Stroke): string {
    if !HasDigits(stroke) then ""
    else if IsReversed(stroke) then SpelledNumbers.Reverse(DigitsFrom(stroke, 0))
    else DigitsFrom(stroke, 0)
  }

  /** What GetDigits writes for one stroke, and the control keys it hands back. */
  datatype Digits = Digits(text: string, control: set<Key>)

  /**
   * The zeros of -Z (",000" when * is held too, which consumes both) and the
   * repeat of -D; skipped altogether when -D and -Z are both held.
   */
  function ZerosAndRepeat(text: string, control: set<Key>, hasDigits: bool): Digits
    requires hasDigits ==> text != ""
  {
    if DR in control && ZR in control then Digits(text, control)
    else
      var zeros :=
        if ZR !in control then Digits(text, control)
        else if Star in control then Digits(text + ",000", control - {Star, ZR})
        else Digits(text + "00", control);
      if DR in zeros.control && hasDigits then
        Digits(zeros.text + [zeros.text[|zeros.text| - 1]], zeros.control - {DR})
      else zeros
  }

  /** The punctuation: "," for exactly * and -S, "." for * without -R, -S or -Z. */
  function Punctuation(text: string, control: set<Key>): Digits {
    if control == {Star, SR} then Digits(text + ",", {})
    else if Star in control && RR !in control && SR !in control && ZR !in control then
      Digits(text + ".", control - {Star})
    else Digits(text, control)
  }

  /** The reference for GetDigits: digits, then zeros and repeat, then punctuation. */
  function StrokeText(stroke: Stroke): Digits {
    var control := stroke * ControlKeys - (if IsReversed(stroke) then {E, U} else {});
    DigitsNonEmpty(stroke);
    var d := ZerosAndRepeat(NumberDigits(stroke), control, HasDigits(stroke));
    Punctuation(d.text, d.control)
  }

  // ---------------------------------------------------------------------
  // GetDigits

  /**
   * GetDigits: writes the stroke's text the way GetDigits in C++ writes
   * through its moving pointer, one character after another, and returns the
   * control keys it did not consume.
   */
  method GetDigits(stroke: Stroke) returns (text: string, control: set<Key>)
    ensures Digits(text, control) == StrokeText(stroke)
  {
    control := stroke * ControlKeys;
    text := "";
    if stroke * AllDigits != {} {
      if E !in stroke && U !in stroke {
        text := DigitsInKeyOrder(stroke);
      } else {
        control := control - {E, U};
        text := DigitsInReverseOrder(stroke);
      }
    }
    DigitsNonEmpty(stroke);
    assert text == NumberDigits(stroke);
    assert control == stroke * ControlKeys - (if IsReversed(stroke) then {E, U} else {});
    text, control := AddZerosAndRepeat(text, control, stroke * AllDigits != {});
    text, control := AddPunctuation(text, control);
  }

  /** The -Z and -D step of GetDigits. */
  method AddZerosAndRepeat(digits: string, keys: set<Key>, hasDigits: bool) returns (text: string, control: set<Key>)
    requires hasDigits ==> digits != ""
    ensures Digits(text, control) == ZerosAndRepeat(digits, keys, hasDigits)
  {
    text, control := digits, keys;
    if !(DR in control && ZR in control) {
      if ZR in control {
        if Star in control {
          ThousandsSeparator(text);
          text := text + ",0";
          control := control - {Star, ZR};
        }
        text := text + "00";
      }
      if DR in control && hasDigits {
        var previousDigit := text[|text| - 1];
        text := text + [previousDigit];
        control := control - {DR};
      }
    }
  }

  /** The * and *-S step of GetDigits. */
  method AddPunctuation(digits: string, keys: set<Key>) returns (text: string, control: set<Key>)
    ensures Digits(text, control) == Punctuation(digits, keys)
  {
    text, control := digits, keys;
    if control == {Star, SR} {
      text := text + ",";
      control := control - {Star, SR};
    } else if Star in control && RR !in control && SR !in control && ZR !in control {
      text := text + ".";
      control := control - {Star};
    }
  }

  /** GetDigits writes ",0" and then "00": together the ",000" of a thousands group. */
  lemma ThousandsSeparator(t: string)
    ensures (t + ",0") + "00" == t + ",000"
  {
    var s := ",000";
    assert s == ",0" + "00";
  }

  /** The loop over the digit keys from S- to -T. */
  method DigitsInKeyOrder(stroke: Stroke) returns (text: string)
    ensures text == DigitsFrom(stroke, 0)
  {
    text := "";
    for i := 0 to 10
      invariant text + DigitsFrom(stroke, i) == DigitsFrom(stroke, 0)
    {
      var head := if DigitKeys[i] in stroke then [DigitValues[i]] else "";
      assert DigitsFrom(stroke, i) == head + DigitsFrom(stroke, i + 1);
      assert text + DigitsFrom(stroke, i) == (text + head) + DigitsFrom(stroke, i + 1);
      text := text + head;
    }
    assert text + "" == text;
  }

  /** The loop over the digit keys from -T down to S-. */
  method DigitsInReverseOrder(stroke: Stroke) returns (text: string)
    ensures text == SpelledNumbers.Reverse(DigitsFrom(stroke, 0))
  {
    text := "";
    var i: nat := |DigitKeys|;
    while i > 0
      invariant i <= |DigitKeys|
      invariant text == SpelledNumbers.Reverse(DigitsFrom(stroke, i))
    {
      i := i - 1;
      var head := if DigitKeys[i] in stroke then [DigitValues[i]] else "";
      ReverseStep(stroke, i);
      text := text + head;
    }
  }

  /** One step of the reversed loop: key i's digit goes after the digits of the keys above it. */
  lemma ReverseStep(stroke: Stroke, i: nat)
    requires i < |DigitKeys|
    ensures SpelledNumbers.Reverse(DigitsFrom(stroke, i)) ==
      SpelledNumbers.Reverse(DigitsFrom(stroke, i + 1)) + (if DigitKeys[i] in stroke then [DigitValues[i]] else "")
  {
    var head := if DigitKeys[i] in stroke then [DigitValues[i]] else "";
    var rest := DigitsFrom(stroke, i + 1);
    ReverseAppend(head, rest);
    if head != "" {
      assert SpelledNumbers.Reverse(head) == head;
    }
  }

  lemma ReverseAppend(a: string, b: string)
    ensures SpelledNumbers.Reverse(a + b) == SpelledNumbers.Reverse(b) + SpelledNumbers.Reverse(a)
  {
    var r, s := SpelledNumbers.Reverse(a + b), SpelledNumbers.Reverse(b) + SpelledNumbers.Reverse(a);
    assert |r| == |s|;
    forall k | 0 <= k < |r| ensures r[k] == s[k] {
      if k < |b| {
        assert r[k] == (a + b)[|a| + |b| - 1 - k] == b[|b| - 1 - k];
      } else {
        assert r[k] == (a + b)[|a| + |b| - 1 - k] == a[|a| - 1 - (k - |b|)];
      }
    }
  }

  // ---------------------------------------------------------------------
  // What the digits are

  /** DigitIndex inverts DigitValues. */
  lemma DigitValueIndex(n: nat)
    requires n < |DigitValues|
    ensures DigitIndex(DigitValues[n]) == n
  {
  }

  /** No digit is written exactly when none of the keys DigitKeys[i..] is held. */
  lemma {:induction false} DigitsFromEmpty(stroke: Stroke, i: nat)
    requires i <= |DigitKeys|
    ensures DigitsFrom(stroke, i) == "" <==> forall n :: i <= n < |DigitKeys| ==> DigitKeys[n] !in stroke
    decreases |DigitKeys| - i
  {
    if i < |DigitKeys| {
      DigitsFromEmpty(stroke, i + 1);
      var head: string := if DigitKeys[i] in stroke then [DigitValues[i]] else "";
      assert DigitsFrom(stroke, i) == head + DigitsFrom(stroke, i + 1);
      assert (forall n :: i <= n < |DigitKeys| ==> DigitKeys[n] !in stroke) <==>
        DigitKeys[i] !in stroke && forall n :: i + 1 <= n < |DigitKeys| ==> DigitKeys[n] !in stroke;
    }
  }

  /** A stroke with a digit key writes at least one digit. */
  lemma DigitsNonEmpty(stroke: Stroke)
    ensures HasDigits(stroke) ==> NumberDigits(stroke) != ""
  {
    if HasDigits(stroke) {
      var k :| k in stroke * AllDigits;
      KeyClassesPartition(k);
      var n :| 0 <= n < |DigitKeys| && DigitKeys[n] == k;
      DigitsFromEmpty(stroke, 0);
    }
  }

  /** Each written character is the digit of a held key of DigitKeys[i..], named by DigitIndex. */
  lemma {:induction false} DigitsFromSound(stroke: Stroke, i: nat)
    requires i <= |DigitKeys|
    ensures forall a :: 0 <= a < |DigitsFrom(stroke, i)| ==>
      i <= DigitIndex(DigitsFrom(stroke, i)[a]) < |DigitKeys| &&
      DigitKeys[DigitIndex(DigitsFrom(stroke, i)[a])] in stroke &&
      DigitValues[DigitIndex(DigitsFrom(stroke, i)[a])] == DigitsFrom(stroke, i)[a]
    decreases |DigitKeys| - i
  {
    if i < |DigitKeys| {
      DigitsFromSound(stroke, i + 1);
      DigitValueIndex(i);
      var rest := DigitsFrom(stroke, i + 1);
      if DigitKeys[i] in stroke {
        var s := [DigitValues[i]] + rest;
        assert DigitsFrom(stroke, i) == s;
        forall a | 0 < a < |s| ensures s[a] == rest[a - 1] {}
      }
    }
  }

  /** The digit of every held key of DigitKeys[i..] is written. */
  lemma {:induction false} DigitsFromComplete(stroke: Stroke, i: nat)
    requires i <= |DigitKeys|
    ensures forall n :: i <= n < |DigitKeys| && DigitKeys[n] in stroke ==> DigitValues[n] in DigitsFrom(stroke, i)
    decreases |DigitKeys| - i
  {
    if i < |DigitKeys| {
      DigitsFromComplete(stroke, i + 1);
    }
  }

  /** The digits come in key order: their DigitIndex strictly increases. */
  lemma {:induction false} DigitsFromOrdered(stroke: Stroke, i: nat)
    requires i <= |DigitKeys|
    ensures forall a, b :: 0 <= a < b < |DigitsFrom(stroke, i)| ==>
      DigitIndex(DigitsFrom(stroke, i)[a]) < DigitIndex(DigitsFrom(stroke, i)[b])
    decreases |DigitKeys| - i
  {
    if i < |DigitKeys| {
      DigitsFromOrdered(stroke, i + 1);
      DigitsFromSound(stroke, i + 1);
      DigitValueIndex(i);
      var rest := DigitsFrom(stroke, i + 1);
      if DigitKeys[i] in stroke {
        var s := [DigitValues[i]] + rest;
        assert DigitsFrom(stroke, i) == s;
        forall a | 0 < a < |s| ensures s[a] == rest[a - 1] {}
      }
    }
  }

  lemma {:induction false} DigitsFromLength(stroke: Stroke, i: nat)
    requires i <= |DigitKeys|
    ensures |DigitsFrom(stroke, i)| <= |DigitKeys| - i
    decreases |DigitKeys| - i
  {
    if i < |DigitKeys| {
      DigitsFromLength(stroke, i + 1);
    }
  }

  lemma ReverseMembers<T>(s: seq<T>)
    ensures forall x :: x in SpelledNumbers.Reverse(s) <==> x in s
  {
    var r := SpelledNumbers.Reverse(s);
    forall x | x in s ensures x in r {
      var k :| 0 <= k < |s| && s[k] == x;
      assert r[|s| - 1 - k] == x;
    }
  }

  /** Whatever the order, the characters written are those of DigitsFrom(stroke, 0). */
  lemma NumberDigitsMembers(stroke: Stroke)
    ensures forall c :: c in NumberDigits(stroke) <==> c in DigitsFrom(stroke, 0)
  {
    if !HasDigits(stroke) {
      DigitsFromEmpty(stroke, 0);
      forall n | 0 <= n < |DigitKeys| ensures DigitKeys[n] !in stroke {
        KeyClassesPartition(DigitKeys[n]);
      }
    } else if IsReversed(stroke) {
      ReverseMembers(DigitsFrom(stroke, 0));
    }
  }

  lemma ReverseOrder(d: string)
    requires forall a, b :: 0 <= a < b < |d| ==> DigitIndex(d[a]) < DigitIndex(d[b])
    ensures var r := SpelledNumbers.Reverse(d);
      forall a, b :: 0 <= a < b < |r| ==> DigitIndex(r[a]) > DigitIndex(r[b])
  {
    var r := SpelledNumbers.Reverse(d);
    forall a, b | 0 <= a < b < |r| ensures DigitIndex(r[a]) > DigitIndex(r[b]) {
      assert r[a] == d[|d| - 1 - a] && r[b] == d[|d| - 1 - b];
    }
  }

  lemma ZerosAndRepeatBounds(text: string, control: set<Key>, hasDigits: bool)
    requires hasDigits ==> text != ""
    ensures var r := ZerosAndRepeat(text, control, hasDigits);
      |r.text| <= |text| + 5 && r.control <= control && control - {Star, DR, ZR} <= r.control
  {
  }

  lemma PunctuationBounds(text: string, control: set<Key>)
    ensures var r := Punctuation(text, control);
      |r.text| <= |text| + 1 && r.control <= control && control - {Star, SR} <= r.control
  {
  }

  // ---------------------------------------------------------------------
  // What GetDigits promises

  /** The digits written name exactly the digit keys held: the text decodes back to the keys. */
  lemma DigitsIdentifyKeys(stroke: Stroke)
    ensures forall n :: 0 <= n < |DigitKeys| ==> (DigitKeys[n] in stroke <==> DigitValues[n] in NumberDigits(stroke))
  {
    var d := DigitsFrom(stroke, 0);
    DigitsFromSound(stroke, 0);
    DigitsFromComplete(stroke, 0);
    NumberDigitsMembers(stroke);
    forall n | 0 <= n < |DigitKeys| && DigitValues[n] in d
      ensures DigitKeys[n] in stroke
    {
      var a :| 0 <= a < |d| && d[a] == DigitValues[n];
      DigitValueIndex(n);
    }
  }

  /**
   * The digits come in the order of their keys, S- first, or in the
   * opposite order when E or U is held.
   */
  lemma DigitsInOrder(stroke: Stroke)
    ensures var d := NumberDigits(stroke);
      forall a, b :: 0 <= a < b < |d| ==>
        if IsReversed(stroke) then DigitIndex(d[a]) > DigitIndex(d[b])
        else DigitIndex(d[a]) < DigitIndex(d[b])
  {
    DigitsFromOrdered(stroke, 0);
    if IsReversed(stroke) {
      ReverseOrder(DigitsFrom(stroke, 0));
    }
  }

  /**
   * The text fits the caller's 32-byte scratch buffer with its terminator:
   * at most ten digits, ",000", one repeated digit and one punctuation mark.
   */
  lemma StrokeTextFits(stroke: Stroke)
    ensures |StrokeText(stroke).text| <= 16
  {
    DigitsFromLength(stroke, 0);
    DigitsNonEmpty(stroke);
    var control := stroke * ControlKeys - (if IsReversed(stroke) then {E, U} else {});
    var d := ZerosAndRepeat(NumberDigits(stroke), control, HasDigits(stroke));
    ZerosAndRepeatBounds(NumberDigits(stroke), control, HasDigits(stroke));
    PunctuationBounds(d.text, d.control);
  }

  /**
   * Only E and U (when they reverse digits), *, -S, -D and -Z are consumed:
   * every other control key held is handed back to Lookup, and nothing
   * that was not held is.
   */
  lemma StrokeTextControl(stroke: Stroke)
    ensures StrokeText(stroke).control <= stroke * ControlKeys
    ensures stroke * ControlKeys - {E, U, Star, SR, DR, ZR} <= StrokeText(stroke).control
    ensures !IsReversed(stroke) ==> (E in StrokeText(stroke).control <==> E in stroke)
    ensures !IsReversed(stroke) ==> (U in StrokeText(stroke).control <==> U in stroke)
    ensures IsReversed(stroke) ==> E !in StrokeText(stroke).control && U !in StrokeText(stroke).control
  {
    DigitsNonEmpty(stroke);
    var control := stroke * ControlKeys - (if IsReversed(stroke) then {E, U} else {});
    var d := ZerosAndRepeat(NumberDigits(stroke), control, HasDigits(stroke));
    ZerosAndRepeatBounds(NumberDigits(stroke), control, HasDigits(stroke));
    PunctuationBounds(d.text, d.control);
  }

  /** -D and -Z together: neither zeros nor a repeat, both keys go back to Lookup. */
  lemma BothDAndZ(stroke: Stroke)
    requires DR in stroke && ZR in stroke
    ensures StrokeText(stroke).text == NumberDigits(stroke)
    ensures DR in StrokeText(stroke).control && ZR in StrokeText(stroke).control
  {
    var control := stroke * ControlKeys - (if IsReversed(stroke) then {E, U} else {});
    assert DR in control && ZR in control;
    DigitsNonEmpty(stroke);
    BothUntouched(NumberDigits(stroke), control, HasDigits(stroke));
  }

  /** With -D and -Z both among the control keys the text and the keys pass through unchanged. */
  lemma BothUntouched(text: string, control: set<Key>, hasDigits: bool)
    requires DR in control && ZR in control
    requires hasDigits ==> text != ""
    ensures var d := ZerosAndRepeat(text, control, hasDigits);
      Punctuation(d.text, d.control) == Digits(text, control)
  {
    assert control != {Star, SR};
  }

  /** -Z alone appends "00"; with * it appends ",000" and consumes both keys. */
  lemma ZerosSuffix(stroke: Stroke)
    requires ZR in stroke && DR !in stroke
    ensures Star in stroke ==> StrokeText(stroke).text == NumberDigits(stroke) + ",000"
    ensures Star !in stroke ==> StrokeText(stroke).text == NumberDigits(stroke) + "00"
    ensures Star in stroke ==> Star !in StrokeText(stroke).control && ZR !in StrokeText(stroke).control
  {
    var control := stroke * ControlKeys - (if IsReversed(stroke) then {E, U} else {});
    assert ZR in control && DR !in control && (Star in control <==> Star in stroke);
    DigitsNonEmpty(stroke);
    ZerosOnly(NumberDigits(stroke), control, HasDigits(stroke));
  }

  /** -Z without -D: "00", or ",000" consuming * and -Z, and no punctuation after. */
  lemma ZerosOnly(text: string, control: set<Key>, hasDigits: bool)
    requires ZR in control && DR !in control
    requires hasDigits ==> text != ""
    ensures var d := ZerosAndRepeat(text, control, hasDigits);
      var p := Punctuation(d.text, d.control);
      && (Star in control ==> p.text == text + ",000" && Star !in p.control && ZR !in p.control)
      && (Star !in control ==> p.text == text + "00")
  {
    var d := ZerosAndRepeat(text, control, hasDigits);
    if Star in control {
      assert d == Digits(text + ",000", control - {Star, ZR});
      assert Star !in d.control && ZR !in d.control;
      assert Punctuation(d.text, d.control) == d;
    } else {
      assert d == Digits(text + "00", control);
      assert Punctuation(d.text, d.control) == d;
    }
  }

  /** * without -R, -S or -Z ends the text with "." and consumes *, after any repeat of -D. */
  lemma DecimalPoint(stroke: Stroke)
    requires Star in stroke && RR !in stroke && SR !in stroke && ZR !in stroke
    ensures var t := StrokeText(stroke).text; var d := NumberDigits(stroke);
      t != [] && t[|t| - 1] == '.' &&
      t[..|t| - 1] == (if DR in stroke && d != [] then d + [d[|d| - 1]] else d)
    ensures Star !in StrokeText(stroke).control
  {
    var control := stroke * ControlKeys - (if IsReversed(stroke) then {E, U} else {});
    assert Star in control && RR !in control && SR !in control && ZR !in control;
    assert DR in control <==> DR in stroke;
    DigitsNonEmpty(stroke);
    PointAfterRepeat(NumberDigits(stroke), control, HasDigits(stroke));
  }

  lemma PointAfterRepeat(text: string, control: set<Key>, hasDigits: bool)
    requires Star in control && RR !in control && SR !in control && ZR !in control
    requires hasDigits ==> text != ""
    ensures var d := ZerosAndRepeat(text, control, hasDigits);
      var p := Punctuation(d.text, d.control);
      && p.text == d.text + "."
      && d.text == (if DR in control && hasDigits then text + [text[|text| - 1]] else text)
      && Star !in p.control
  {
    var d := ZerosAndRepeat(text, control, hasDigits);
    assert Star in d.control && RR !in d.control && SR !in d.control && ZR !in d.control;
    assert d.control != {Star, SR};
  }

  /** Exactly * and -S reaching the punctuation step (after E and U have reversed the digits): the text ends with "," and no control key is left. */
  lemma ThousandsComma(stroke: Stroke)
    requires stroke * ControlKeys - (if IsReversed(stroke) then {E, U} else {}) == {Star, SR}
    ensures StrokeText(stroke).text == NumberDigits(stroke) + ","
    ensures StrokeText(stroke).control == {}
  {
    var control := stroke * ControlKeys - (if IsReversed(stroke) then {E, U} else {});
    DigitsNonEmpty(stroke);
    assert ZerosAndRepeat(NumberDigits(stroke), control, HasDigits(stroke)) == Digits(NumberDigits(stroke), control);
  }

  /** -D with digits repeats the last digit written. */
  lemma RepeatLastDigit(stroke: Stroke)
    requires DR in stroke && ZR !in stroke && HasDigits(stroke)
    requires Star !in stroke
    ensures var d := NumberDigits(stroke);
      d != "" && StrokeText(stroke).text == d + [d[|d| - 1]] && DR !in StrokeText(stroke).control
  {
    DigitsNonEmpty(stroke);
    var control := stroke * ControlKeys - (if IsReversed(stroke) then {E, U} else {});
    assert DR in control && ZR !in control && Star !in control;
    RepeatOnly(NumberDigits(stroke), control);
  }

  /** -D without -Z or * repeats the last digit, consumes -D and adds no punctuation. */
  lemma RepeatOnly(text: string, control: set<Key>)
    requires DR in control && ZR !in control && Star !in control && text != ""
    ensures var d := ZerosAndRepeat(text, control, true);
      var p := Punctuation(d.text, d.control);
      p.text == text + [text[|text| - 1]] && DR !in p.control
  {
    var d := ZerosAndRepeat(text, control, true);
    assert d.control == control - {DR};
    assert Star !in d.control;
  }

  // ---------------------------------------------------------------------
  // The strokes of the unit tests

  /** S-, T- and P- give "123" in key order ("#STPED", "#STP*Z"). */
  lemma DigitsOfSTP(s: Stroke)
    requires s == {Num, SL, TL, PL, E, DR} || s == {Num, SL, TL, PL, Star, ZR}
    ensures DigitsFrom(s, 0) == "123" && HasDigits(s)
  {
    assert DigitsFrom(s, 9) == "";
    assert DigitsFrom(s, 8) == "";
    assert DigitsFrom(s, 7) == "";
    assert DigitsFrom(s, 6) == "";
    assert DigitsFrom(s, 5) == "";
    assert DigitsFrom(s, 4) == "";
    assert DigitsFrom(s, 3) == "";
    assert DigitsFrom(s, 2) == "3";
    assert DigitsFrom(s, 1) == "23";
    assert SL in s * AllDigits;
  }

  /** "#S*D" writes the single digit 1. */
  lemma DigitsOfS(s: Stroke)
    requires s == {Num, SL, Star, DR}
    ensures DigitsFrom(s, 0) == "1" && HasDigits(s) && !IsReversed(s)
  {
    assert DigitsFrom(s, 9) == "";
    assert DigitsFrom(s, 8) == "";
    assert DigitsFrom(s, 7) == "";
    assert DigitsFrom(s, 6) == "";
    assert DigitsFrom(s, 5) == "";
    assert DigitsFrom(s, 4) == "";
    assert DigitsFrom(s, 3) == "";
    assert DigitsFrom(s, 2) == "";
    assert DigitsFrom(s, 1) == "";
    assert SL in s * AllDigits;
  }

  /** "#ST*", "#ST-RG", "#STG" and "#STWG" write 1 and 2. */
  lemma DigitsOfST(s: Stroke)
    requires s == {Num, SL, TL, Star} || s == {Num, SL, TL, RR, GR} || s == {Num, SL, TL, GR} || s == {Num, SL, TL, WL, GR}
    ensures DigitsFrom(s, 0) == "12" && HasDigits(s) && !IsReversed(s)
  {
    assert DigitsFrom(s, 9) == "";
    assert DigitsFrom(s, 8) == "";
    assert DigitsFrom(s, 7) == "";
    assert DigitsFrom(s, 6) == "";
    assert DigitsFrom(s, 5) == "";
    assert DigitsFrom(s, 4) == "";
    assert DigitsFrom(s, 3) == "";
    assert DigitsFrom(s, 2) == "";
    assert DigitsFrom(s, 1) == "2";
    assert SL in s * AllDigits;
  }

  /** "#PH" and "#PWHR" write 3 and 4. */
  lemma DigitsOfPH(s: Stroke)
    requires s == {Num, PL, HL} || s == {Num, PL, WL, HL, RL}
    ensures DigitsFrom(s, 0) == "34" && HasDigits(s) && !IsReversed(s)
  {
    assert DigitsFrom(s, 9) == "";
    assert DigitsFrom(s, 8) == "";
    assert DigitsFrom(s, 7) == "";
    assert DigitsFrom(s, 6) == "";
    assert DigitsFrom(s, 5) == "";
    assert DigitsFrom(s, 4) == "";
    assert DigitsFrom(s, 3) == "4";
    assert DigitsFrom(s, 2) == "34";
    assert DigitsFrom(s, 1) == "34";
    assert PL in s * AllDigits;
  }

  /** Reading "123" backwards. */
  lemma ReverseOneTwoThree()
    ensures SpelledNumbers.Reverse("123") == "321"
  {
    var r := SpelledNumbers.Reverse("123");
    assert r[0] == '3' && r[1] == '2' && r[2] == '1';
  }

  /** Digits and control keys of "#STPED". */
  lemma STPEDParts(s: Stroke)
    requires s == {Num, SL, TL, PL, E, DR}
    ensures NumberDigits(s) == "321" && HasDigits(s) && IsReversed(s)
    ensures s * ControlKeys - (if IsReversed(s) then {E, U} else {}) == {DR}
  {
    DigitsOfSTP(s);
    ReverseOneTwoThree();
    assert s * ControlKeys == {E, DR};
  }

  /** Digits and control keys of "#STP*Z". */
  lemma STPStarZParts(s: Stroke)
    requires s == {Num, SL, TL, PL, Star, ZR}
    ensures NumberDigits(s) == "123" && HasDigits(s) && !IsReversed(s)
    ensures s * ControlKeys - (if IsReversed(s) then {E, U} else {}) == {Star, ZR}
  {
    DigitsOfSTP(s);
    assert s * ControlKeys == {Star, ZR};
  }

  /** Digits and control keys of "#S*D". */
  lemma SStarDParts(s: Stroke)
    requires s == {Num, SL, Star, DR}
    ensures NumberDigits(s) == "1" && HasDigits(s) && !IsReversed(s)
    ensures s * ControlKeys - (if IsReversed(s) then {E, U} else {}) == {Star, DR}
  {
    DigitsOfS(s);
    assert s * ControlKeys == {Star, DR};
  }

  /** Digits and control keys of "#ST*". */
  lemma STStarParts(s: Stroke)
    requires s == {Num, SL, TL, Star}
    ensures NumberDigits(s) == "12" && HasDigits(s) && !IsReversed(s)
    ensures s * ControlKeys - (if IsReversed(s) then {E, U} else {}) == {Star}
  {
    DigitsOfST(s);
    assert s * ControlKeys == {Star};
  }

  /** Digits and control keys of "#PH". */
  lemma PHParts(s: Stroke)
    requires s == {Num, PL, HL}
    ensures NumberDigits(s) == "34" && HasDigits(s) && !IsReversed(s)
    ensures s * ControlKeys - (if IsReversed(s) then {E, U} else {}) == {}
  {
    DigitsOfPH(s);
    assert s * ControlKeys == {};
  }

  /** Digits and control keys of "#ST-RG", "#STG" and "#STWG": 1 and 2, and the keys besides S- and T-. */
  lemma STControlParts(s: Stroke, control: set<Key>)
    requires control == {RR, GR} || control == {GR} || control == {WL, GR}
    requires s == {Num, SL, TL} + control
    ensures NumberDigits(s) == "12" && HasDigits(s) && !IsReversed(s)
    ensures s * ControlKeys - (if IsReversed(s) then {E, U} else {}) == control
  {
    assert s == {Num, SL, TL, RR, GR} || s == {Num, SL, TL, GR} || s == {Num, SL, TL, WL, GR};
    DigitsOfST(s);
    assert s * ControlKeys == control;
  }

  /** Digits and control keys of "#PWHR": 3 and 4, with W- and R- left. */
  lemma PWHRParts(s: Stroke)
    requires s == {Num, PL, WL, HL, RL}
    ensures NumberDigits(s) == "34" && HasDigits(s) && !IsReversed(s)
    ensures s * ControlKeys - (if IsReversed(s) then {E, U} else {}) == {WL, RL}
  {
    DigitsOfPH(s);
    assert s * ControlKeys == {WL, RL};
  }

  /**
   * Without *, -D and -Z the zeros, repeat and punctuation steps write
   * nothing: the text is the digits, and the control keys are handed on
   * for the formatters.
   */
  lemma UnpunctuatedText(stroke: Stroke, digits: string, control: set<Key>)
    requires NumberDigits(stroke) == digits && HasDigits(stroke) && digits != ""
    requires stroke * ControlKeys - (if IsReversed(stroke) then {E, U} else {}) == control
    requires Star !in control && DR !in control && ZR !in control
    ensures StrokeText(stroke) == Digits(digits, control)
  {
  }

  /** StrokeText put together from the digits and control keys of a stroke. */
  lemma StrokeTextFrom(stroke: Stroke, digits: string, control: set<Key>)
    requires NumberDigits(stroke) == digits && HasDigits(stroke) && digits != ""
    requires stroke * ControlKeys - (if IsReversed(stroke) then {E, U} else {}) == control
    ensures var d := ZerosAndRepeat(digits, control, true);
      StrokeText(stroke) == Punctuation(d.text, d.control)
  {
  }

  /** The zeros, repeat and punctuation of the example strokes, on their digits. */
  lemma ExampleSuffixes()
    ensures var d := ZerosAndRepeat("321", {DR}, true); Punctuation(d.text, d.control) == Digits("3211", {})
    ensures var d := ZerosAndRepeat("123", {Star, ZR}, true); Punctuation(d.text, d.control) == Digits("123,000", {})
    ensures var d := ZerosAndRepeat("1", {Star, DR}, true); Punctuation(d.text, d.control) == Digits("11.", {})
    ensures var d := ZerosAndRepeat("12", {Star}, true); Punctuation(d.text, d.control) == Digits("12.", {})
    ensures var d := ZerosAndRepeat("34", {}, true); Punctuation(d.text, d.control) == Digits("34", {})
  {
    assert ZerosAndRepeat("321", {DR}, true) == Digits("3211", {});
    assert Punctuation("3211", {}) == Digits("3211", {});
    assert {Star, ZR} - {Star, ZR} == {};
    assert ZerosAndRepeat("123", {Star, ZR}, true) == Digits("123,000", {});
    assert Punctuation("123,000", {}) == Digits("123,000", {});
    assert {Star, DR} - {DR} == {Star};
    assert ZerosAndRepeat("1", {Star, DR}, true) == Digits("11", {Star});
    assert Punctuation("11", {Star}) == Digits("11.", {});
    assert ZerosAndRepeat("12", {Star}, true) == Digits("12", {Star});
    assert Punctuation("12", {Star}) == Digits("12.", {});
    assert ZerosAndRepeat("34", {}, true) == Digits("34", {});
    assert Punctuation("34", {}) == Digits("34", {});
  }

  /** "#STPED" is "3211": E reverses "123", then -D repeats the last digit. */
  lemma ReverseAndRepeatExample(s: Stroke)
    requires s == {Num, SL, TL, PL, E, DR}
    ensures StrokeText(s) == Digits("3211", {})
  {
    STPEDParts(s);
    StrokeTextFrom(s, "321", {DR});
    ExampleSuffixes();
  }

  /** "#STP*Z" is "123,000". */
  lemma ThousandsExample(s: Stroke)
    requires s == {Num, SL, TL, PL, Star, ZR}
    ensures StrokeText(s) == Digits("123,000", {})
  {
    STPStarZParts(s);
    StrokeTextFrom(s, "123", {Star, ZR});
    ExampleSuffixes();
  }

  /** "#S*D" is "11.": -D repeats the digit before * adds the point. */
  lemma RepeatThenPointExample(s: Stroke)
    requires s == {Num, SL, Star, DR}
    ensures StrokeText(s) == Digits("11.", {})
  {
    SStarDParts(s);
    StrokeTextFrom(s, "1", {Star, DR});
    ExampleSuffixes();
  }

  /** "#ST*" is "12.", the first stroke of "12.34". */
  lemma PointStrokeExample(s: Stroke)
    requires s == {Num, SL, TL, Star}
    ensures StrokeText(s) == Digits("12.", {})
  {
    STStarParts(s);
    StrokeTextFrom(s, "12", {Star});
    ExampleSuffixes();
  }

  /** "#PH" is "34", the second stroke of "12.34". */
  lemma PlainDigitsExample(s: Stroke)
    requires s == {Num, PL, HL}
    ensures StrokeText(s) == Digits("34", {})
  {
    PHParts(s);
    StrokeTextFrom(s, "34", {});
    ExampleSuffixes();
  }
}
