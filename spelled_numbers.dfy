/**
 * Spelling out numbers in English words (ToWords and its helpers in
 * dictionary/jeff_numbers_dictionary.cc), and the rewrite that turns the
 * words of a cardinal into an ordinal ("twenty" to "twentieth").
 *
 * ToWords leaves its input alone unless it holds only digits and commas.
 * Otherwise it drops commas and leading zeros, reverses the digits in place
 * and walks them in groups of three from the least significant, putting
 * each group's words and scale word in front of what it has so far.
 *
 * The reference definition Spelled states the result group by group (Join
 * over Pieces): the words of every non-zero group, highest first, each
 * followed by its scale word, with " and ", ", " or " " before the next
 * lower group's words according to that lower group. The method ToWords is
 * proved to compute it.
 */
module SpelledNumbers {

  import opened DigitStrings

  /** NUMBER_WORDS: the words for 0 to 19. */
  function NumberWord(n: nat): string
    requires n < 20
  {
    match n
      case 0 => "zero"
      case 1 => "one"
      case 2 => "two"
      case 3 => "three"
      case 4 => "four"
      case 5 => "five"
      case 6 => "six"
      case 7 => "seven"
      case 8 => "eight"
      case 9 => "nine"
      case 10 => "ten"
      case 11 => "eleven"
      case 12 => "twelve"
      case 13 => "thirteen"
      case 14 => "fourteen"
      case 15 => "fifteen"
      case 16 => "sixteen"
      case 17 => "seventeen"
      case 18 => "eighteen"
      case _ => "nineteen"
  }

  /** TENS: the words for the multiples of ten, by tens digit. */
  function TensWord(n: nat): string
    requires n < 10
  {
    match n
      case 0 => "zero"
      case 1 => "ten"
      case 2 => "twenty"
      case 3 => "thirty"
      case 4 => "forty"
      case 5 => "fifty"
      case 6 => "sixty"
      case 7 => "seventy"
      case 8 => "eighty"
      case _ => "ninety"
  }

  const Hundred: string := " hundred"

  /** The number of scale words; the last one stands for every larger scale. */
  const ScaleCount := 23

  /** LARGE_SUM_WORDS: the scale word of group number n ("", " thousand", " million", ...). */
  function ScaleWord(n: nat): string
    requires n < ScaleCount
  {
    match n
      case 0 => ""
      case 1 => " thousand"
      case 2 => " million"
      case 3 => " billion"
      case 4 => " trillion"
      case 5 => " quadrillion"
      case 6 => " quintillion"
      case 7 => " sextillion"
      case 8 => " septillion"
      case 9 => " octillion"
      case 10 => " nonillion"
      case 11 => " decillion"
      case 12 => " undecillion"
      case 13 => " duodecillion"
      case 14 => " tredecillion"
      case 15 => " quattuordecillion"
      case 16 => " quindecillion"
      case 17 => " sexdecillion"
      case 18 => " septendecillion"
      case 19 => " octodecillion"
      case 20 => " novemdecillion"
      case 21 => " vigintillion"
      case _ => " ???"
  }

  function Min(a: int, b: int): int {
    if a < b then a else b
  }

  function Reverse<T>(s: seq<T>): (r: seq<T>)
    ensures |r| == |s|
    ensures forall k :: 0 <= k < |s| ==> r[k] == s[|s| - 1 - k]
  {
    if s == [] then [] else Reverse(s[1..]) + [s[0]]
  }

  // ---------------------------------------------------------------------
  // CanConvertToWords

  /** Every character is a digit or a comma. */
  predicate AllDigitsOrCommas(s: string) {
    forall i :: 0 <= i < |s| ==> IsDigit(s[i]) || s[i] == ','
  }

  /** CanConvertToWords: scans for a character that is neither a digit nor a comma. */
  method CanConvertToWords(digits: string) returns (ok: bool)
    ensures ok <==> AllDigitsOrCommas(digits)
  {
    var i := 0;
    while i < |digits|
      invariant 0 <= i <= |digits|
      invariant AllDigitsOrCommas(digits[..i])
    {
      if IsDigit(digits[i]) || digits[i] == ',' {
        i := i + 1;
        continue;
      }
      return false;
    }
    assert digits[..i] == digits;
    return true;
  }

  // ---------------------------------------------------------------------
  // CanonicalizeInPlaceAndReverse

  /** The digits with commas and leading zeros removed. */
  function Canonical(s: string): string {
    if s == [] then []
    else
      var c := s[|s| - 1];
      var prefix := Canonical(s[..|s| - 1]);
      if c == ',' || (prefix == [] && c == '0') then prefix else prefix + [c]
  }

  /** Canonical removes exactly the commas and the zeros in front of the first other digit. */
  lemma {:induction false} CanonicalShape(s: string)
    ensures ',' !in Canonical(s)
    ensures Canonical(s) != [] ==> Canonical(s)[0] != '0'
    ensures Canonical(s) == [] <==> forall i :: 0 <= i < |s| ==> s[i] in ",0"
    ensures AllDigitsOrCommas(s) ==> forall i :: 0 <= i < |Canonical(s)| ==> IsDigit(Canonical(s)[i])
  {
    if s != [] {
      var init := s[..|s| - 1];
      CanonicalShape(init);
      assert forall i :: 0 <= i < |init| ==> init[i] == s[i];
    }
  }

  /**
   * Canonical keeps every significant digit in order: it stands for the
   * same number as all the digits of s.
   */
  lemma {:induction false} CanonicalValue(s: string)
    requires AllDigitsOrCommas(s)
    ensures forall i :: 0 <= i < |Canonical(s)| ==> IsDigit(Canonical(s)[i])
    ensures DecimalValue(Canonical(s)) == DecimalValue(DigitChars(s))
  {
    CanonicalShape(s);
    if s != [] {
      var init, c := s[..|s| - 1], s[|s| - 1];
      assert forall i :: 0 <= i < |init| ==> init[i] == s[i];
      CanonicalValue(init);
      var p, d := Canonical(init), DigitChars(init);
      if c == ',' {
        assert DigitChars(s) == d + [];
        assert d + [] == d;
      } else {
        var e := d + [c];
        assert DigitChars(s) == e;
        assert e[..|e| - 1] == d;
        if p == [] && c == '0' {
          assert DecimalValue(e) == 10 * DecimalValue(d) + DigitValue(c);
        } else {
          var q := p + [c];
          assert Canonical(s) == q;
          assert q[..|q| - 1] == p;
          assert DecimalValue(q) == 10 * DecimalValue(p) + DigitValue(c);
        }
      }
    }
  }

  /** A canonical string is its own canonical form. */
  lemma {:induction false} CanonicalIdempotent(s: string)
    ensures Canonical(Canonical(s)) == Canonical(s)
  {
    if s != [] {
      var init, c := s[..|s| - 1], s[|s| - 1];
      var p := Canonical(init);
      CanonicalIdempotent(init);
      if c == ',' || (p == [] && c == '0') {
        assert Canonical(s) == p;
      } else {
        assert Canonical(s) == p + [c];
        CanonicalAppend(p, c);
      }
    }
  }

  /** Appending a kept character to a canonical string keeps it canonical. */
  lemma CanonicalAppend(p: string, c: char)
    requires Canonical(p) == p
    requires c != ',' && (p == [] ==> c != '0')
    ensures Canonical(p + [c]) == p + [c]
  {
    var q := p + [c];
    assert q[..|q| - 1] == p && q[|q| - 1] == c;
  }

  /**
   * CanonicalizeInPlaceAndReverse: compacts the buffer over itself, then
   * reverses the kept part in place. Returns the length of what it kept.
   */
  method CanonicalizeInPlaceAndReverse(a: array<char>) returns (len: nat)
    modifies a
    ensures len <= a.Length
    ensures a[..len] == Reverse(Canonical(old(a[..])))
    ensures a[len..] == old(a[len..])
  {
    len := CompactDigits(a);
    ReversePrefix(a, len);
  }

  /**
   * The first loop of CanonicalizeInPlaceAndReverse: a read index and a
   * write index walk the buffer; commas are skipped, and so are zeros until
   * some other digit has been seen.
   */
  method CompactDigits(a: array<char>) returns (write: nat)
    modifies a
    ensures write <= a.Length
    ensures a[..write] == Canonical(old(a[..]))
    ensures a[write..] == old(a[write..])
  {
    ghost var s := a[..];
    var hasFoundValue := false;
    var read := 0;
    write := 0;
    while read < a.Length
      invariant 0 <= write <= read <= a.Length
      invariant a[..write] == Canonical(s[..read])
      invariant hasFoundValue <==> write > 0
      invariant a[write..] == s[write..]
    {
      assert s[..read + 1][..read] == s[..read];
      var c := a[read];
      assert c == s[read] by { assert a[write..][read - write] == s[write..][read - write]; }
      if c != ',' {
        if c != '0' {
          hasFoundValue := true;
        }
        if hasFoundValue {
          a[write] := c;
          write := write + 1;
        }
      }
      read := read + 1;
    }
    assert s[..read] == s;
  }

  /** The second loop of CanonicalizeInPlaceAndReverse: swaps from both ends of a[..len] inwards. */
  method ReversePrefix(a: array<char>, len: nat)
    requires len <= a.Length
    modifies a
    ensures a[..len] == Reverse(old(a[..len]))
    ensures a[len..] == old(a[len..])
  {
    ghost var kept := a[..len];
    var left, right := 0, len - 1;
    while left < right
      invariant 0 <= left <= len && right == len - 1 - left
      invariant forall k :: 0 <= k < left ==> a[k] == kept[len - 1 - k] && a[len - 1 - k] == kept[k]
      invariant forall k :: left <= k < len - left ==> a[k] == kept[k]
      invariant forall k :: len <= k < a.Length ==> a[k] == old(a[k])
    {
      a[left], a[right] := a[right], a[left];
      left := left + 1;
      right := right - 1;
    }
    assert a[..len] == Reverse(kept);
  }

  // ---------------------------------------------------------------------
  // The reference definition, group by group

  /** One group of three decimal digits. */
  datatype Group = Group(hundreds: nat, tens: nat, units: nat) {
    predicate Valid() {
      hundreds < 10 && tens < 10 && units < 10
    }
    function Value(): nat {
      100 * hundreds + 10 * tens + units
    }
  }

  /** The digit at position i of the reversed digits, or 0 past the end. */
  function DigitAt(rev: string, i: nat): nat
    requires forall k :: 0 <= k < |rev| ==> IsDigit(rev[k])
  {
    if i < |rev| then DigitValue(rev[i]) else 0
  }

  /** Group j of the reversed digits: positions 3j (units), 3j+1 (tens), 3j+2 (hundreds). */
  function GroupAt(rev: string, j: nat): (g: Group)
    requires forall k :: 0 <= k < |rev| ==> IsDigit(rev[k])
    ensures g.Valid()
  {
    Group(DigitAt(rev, 3 * j + 2), DigitAt(rev, 3 * j + 1), DigitAt(rev, 3 * j))
  }


  /**
   * The English words for 1 to 999: below twenty a word of its own, then
   * tens with a hyphenated unit, then hundreds joined by " and ".
   */
  function GroupWords(n: nat): (w: string)
    requires 0 < n < 1000
  {
    if n < 20 then NumberWord(n)
    else if n < 100 then
      if n % 10 == 0 then TensWord(n / 10) else TensWord(n / 10) + "-" + GroupWords(n % 10)
    else if n % 100 == 0 then GroupWords(n / 100) + Hundred
    else GroupWords(n / 100) + Hundred + " and " + GroupWords(n % 100)
  }

  /** The group 12 is spelled "twelve". */
  lemma GroupWordsTwelve()
    ensures GroupWords(12) == "twelve"
  {
    assert GroupWords(12) == NumberWord(12);
  }

  /** The words for group number j, followed by its scale word. */
  function Phrase(g: Group, j: nat): string
    requires g.Valid()
  {
    (if g.Value() == 0 then "" else GroupWords(g.Value())) + ScaleWord(Min(j, ScaleCount - 1))
  }

  /**
   * What goes between a higher group's words and those of group number j:
   * " and " after the units group when it has no hundreds, ", " after any
   * higher group, " " otherwise.
   */
  function Separator(g: Group, j: nat): string {
    if j == 0 && g.hundreds == 0 then " and "
    else if j != 0 then ", "
    else " "
  }

  /**
   * What one group contributes: whether it is non-zero, its words with the
   * scale word, and the separator that goes in front of them when a higher
   * group's words precede them.
   */
  datatype Piece = Piece(present: bool, words: string, separator: string)

  function PieceOf(g: Group, j: nat): Piece
    requires g.Valid()
  {
    Piece(g.Value() != 0, Phrase(g, j), Separator(g, j))
  }

  /** Group j of the reversed digits as a piece. */
  function PieceAt(rev: string, j: nat): Piece
    requires forall k :: 0 <= k < |rev| ==> IsDigit(rev[k])
  {
    PieceOf(GroupAt(rev, j), j)
  }

  /** The first n pieces of the reversed digits, least significant group first. */
  function PiecesUpTo(rev: string, n: nat): (ps: seq<Piece>)
    requires forall k :: 0 <= k < |rev| ==> IsDigit(rev[k])
    ensures |ps| == n
  {
    if n == 0 then [] else PiecesUpTo(rev, n - 1) + [PieceAt(rev, n - 1)]
  }

  /** All the pieces of the reversed digits: one per group of three. */
  function Pieces(rev: string): (ps: seq<Piece>)
    requires forall k :: 0 <= k < |rev| ==> IsDigit(rev[k])
    ensures |ps| == (|rev| + 2) / 3
  {
    PiecesUpTo(rev, (|rev| + 2) / 3)
  }

  /**
   * The reference assembly: the words of every present piece, highest
   * first, each lower one preceded by its own separator.
   */
  function Join(ps: seq<Piece>): string {
    if ps == [] then ""
    else
      var higher := Join(ps[1..]);
      if !ps[0].present then higher
      else if higher == "" then ps[0].words
      else higher + ps[0].separator + ps[0].words
  }

  /** What ToWords returns. */
  function Spelled(digits: string): string {
    if !AllDigitsOrCommas(digits) then digits
    else
      var c := Canonical(digits);
      CanonicalShape(digits);
      if c == [] then NumberWord(0)
      else Join(Pieces(Reverse(c)))
  }

  // ---------------------------------------------------------------------
  // Lemmas about the reference definition

  lemma {:induction false} GroupWordsNonEmpty(n: nat)
    requires 0 < n < 1000
    ensures GroupWords(n) != ""
  {
    if n < 20 {
      assert |NumberWord(n)| >= 3;
    } else if n < 100 {
      assert |TensWord(n / 10)| >= 3;
    } else {
      GroupWordsNonEmpty(n / 100);
    }
  }

  /** Every present piece has words. */
  predicate WellFormed(ps: seq<Piece>) {
    forall i :: 0 <= i < |ps| ==> ps[i].present ==> ps[i].words != ""
  }

  lemma PieceOfWellFormed(g: Group, j: nat)
    requires g.Valid()
    ensures PieceOf(g, j).present ==> PieceOf(g, j).words != ""
  {
    if g.Value() != 0 {
      GroupWordsNonEmpty(g.Value());
    }
  }

  /** The assembly is empty exactly when no piece is present. */
  lemma {:induction false} JoinEmpty(ps: seq<Piece>)
    requires WellFormed(ps)
    ensures Join(ps) == "" <==> forall i :: 0 <= i < |ps| ==> !ps[i].present
  {
    if ps != [] {
      assert WellFormed(ps[1..]);
      JoinEmpty(ps[1..]);
      assert forall i :: 1 <= i < |ps| ==> ps[i] == ps[1..][i - 1];
    }
  }

  /** The separator of the highest present piece, "" when there is none. */
  function TopSeparator(ps: seq<Piece>): string {
    if ps == [] then ""
    else if ps[|ps| - 1].present then ps[|ps| - 1].separator
    else TopSeparator(ps[..|ps| - 1])
  }

  /** TopSeparator read from the low end. */
  lemma {:induction false} TopSeparatorCons(ps: seq<Piece>)
    requires WellFormed(ps) && ps != []
    ensures TopSeparator(ps) ==
      if Join(ps[1..]) != "" then TopSeparator(ps[1..])
      else if ps[0].present then ps[0].separator
      else ""
  {
    assert WellFormed(ps[1..]);
    JoinEmpty(ps[1..]);
    if |ps| > 1 {
      var init := ps[..|ps| - 1];
      assert init[1..] == ps[1..][..|ps| - 2];
      assert init[0] == ps[0];
      assert WellFormed(init);
      TopSeparatorCons(init);
      assert WellFormed(init[1..]);
      JoinEmpty(init[1..]);
      assert forall i :: 1 <= i < |init| ==> init[i] == ps[i];
      assert forall i :: 1 <= i < |ps| - 1 ==> ps[1..][i - 1] == ps[i];
    }
  }

  /**
   * One more (higher) piece: its words go in front, followed by the
   * separator of the highest present piece below it.
   */
  lemma {:induction false} JoinSnoc(ps: seq<Piece>, p: Piece)
    requires WellFormed(ps) && (p.present ==> p.words != "")
    ensures Join(ps + [p]) ==
      if !p.present then Join(ps)
      else if Join(ps) == "" then p.words
      else p.words + TopSeparator(ps) + Join(ps)
  {
    var all := ps + [p];
    if ps == [] {
      assert all == [p] && all[1..] == [];
    } else {
      var rest := ps[1..];
      assert all[1..] == rest + [p];
      assert all[0] == ps[0];
      assert WellFormed(rest);
      JoinSnoc(rest, p);
      TopSeparatorCons(ps);
    }
  }

  /** Piece j of the reversed digits is group j as a piece. */
  lemma {:induction false} PiecesUpToAt(rev: string, n: nat, j: nat)
    requires forall k :: 0 <= k < |rev| ==> IsDigit(rev[k])
    requires j < n
    ensures PiecesUpTo(rev, n)[j] == PieceAt(rev, j)
  {
    var init := PiecesUpTo(rev, n - 1);
    assert PiecesUpTo(rev, n) == init + [PieceAt(rev, n - 1)];
    if j < n - 1 {
      PiecesUpToAt(rev, n - 1, j);
      assert PiecesUpTo(rev, n)[j] == init[j];
    }
  }

  /** Every present piece of the digits has words. */
  lemma {:induction false} PiecesUpToWellFormed(rev: string, n: nat)
    requires forall k :: 0 <= k < |rev| ==> IsDigit(rev[k])
    ensures WellFormed(PiecesUpTo(rev, n))
  {
    if n > 0 {
      PiecesUpToWellFormed(rev, n - 1);
      PieceOfWellFormed(GroupAt(rev, n - 1), n - 1);
    }
  }

  // ---------------------------------------------------------------------
  // ToWords

  /**
   * One step of ToWords on the pieces: prepending piece p (when present)
   * to the assembly of the pieces below it gives the assembly with p on
   * top, and the separator for the next present piece becomes p's own.
   */
  lemma PrependStep(ps: seq<Piece>, p: Piece, result: string, separator: string, updated: string)
    requires WellFormed(ps) && (p.present ==> p.words != "")
    requires result == Join(ps)
    requires result != "" ==> separator == TopSeparator(ps)
    requires updated == if !p.present then result
      else p.words + (if result == "" then "" else separator) + result
    ensures updated == Join(ps + [p])
    ensures TopSeparator(ps + [p]) == if p.present then p.separator else TopSeparator(ps)
  {
    assert (ps + [p])[..|ps|] == ps;
    JoinSnoc(ps, p);
  }

  /** The separator ToWords picks from its two flags once it has some words. */
  function SeparatorOf(needsAnd: bool, needsComma: bool): string {
    if needsAnd then " and " else if needsComma then ", " else " "
  }

  /**
   * The inner loop of ToWords: reads group q of the reversed digits, at most
   * three digits from position 3q, into hundreds, tens and units, and sums
   * its value.
   */
  method ReadGroup(rev: string, q: nat) returns (next: nat, value: nat, digitValues: seq<nat>)
    requires forall k :: 0 <= k < |rev| ==> IsDigit(rev[k])
    requires 3 * q < |rev|
    ensures next == Min(3 * q + 3, |rev|)
    ensures |digitValues| == 3
    ensures GroupAt(rev, q) == Group(digitValues[0], digitValues[1], digitValues[2])
    ensures value == GroupAt(rev, q).Value()
  {
    var p := 3 * q;
    value := 0;
    var positionValue := 1;
    digitValues := [0, 0, 0];
    var i := 0;
    while p < |rev| && positionValue < 1000
      invariant 0 <= i <= 3 && p == 3 * q + i <= |rev|
      invariant positionValue == if i == 0 then 1 else if i == 1 then 10 else if i == 2 then 100 else 1000
      invariant |digitValues| == 3
      invariant digitValues[2] == if i > 0 then DigitAt(rev, 3 * q) else 0
      invariant digitValues[1] == if i > 1 then DigitAt(rev, 3 * q + 1) else 0
      invariant digitValues[0] == if i > 2 then DigitAt(rev, 3 * q + 2) else 0
      invariant value == 100 * digitValues[0] + 10 * digitValues[1] + digitValues[2]
    {
      var digitValue := DigitValue(rev[p]);
      p := p + 1;
      digitValues := digitValues[2 - i := digitValue];
      value := value + positionValue * digitValue;
      positionValue := positionValue * 10;
      i := i + 1;
    }
    next := p;
  }

  /**
   * The words ToWords puts in front of what it has: the group's words, the
   * scale word numbered scale, then the separator.
   */
  method PrependGroupWords(g: Group, ghost j: nat, scale: nat, separator: string, result: string)
    returns (updated: string)
    requires g.Valid() && scale == Min(j, ScaleCount - 1)
    ensures updated == Phrase(g, j) + separator + result
  {
    var twoDigitValue := g.tens * 10 + g.units;
    var twoDigitWord := "";
    if twoDigitValue != 0 {
      if twoDigitValue < 20 {
        twoDigitWord := NumberWord(twoDigitValue);
      } else if g.units == 0 {
        twoDigitWord := TensWord(g.tens);
      } else {
        twoDigitWord := TensWord(g.tens) + "-" + NumberWord(g.units);
      }
      assert twoDigitValue / 10 == g.tens && twoDigitValue % 10 == g.units;
      assert twoDigitWord == GroupWords(twoDigitValue);
    }
    assert g.Value() / 100 == g.hundreds && g.Value() % 100 == twoDigitValue;
    if g.hundreds != 0 {
      if twoDigitValue == 0 {
        updated := NumberWord(g.hundreds) + Hundred + ScaleWord(scale) + separator + result;
      } else {
        updated := NumberWord(g.hundreds) + Hundred + " and " + twoDigitWord
          + ScaleWord(scale) + separator + result;
      }
    } else {
      updated := twoDigitWord + ScaleWord(scale) + separator + result;
    }
  }

  /**
   * ToWords: the digits (and commas) spelled out in English words; any
   * other input comes back unchanged.
   */
  method ToWords(digits: string) returns (r: string)
    ensures r == Spelled(digits)
  {
    var ok := CanConvertToWords(digits);
    if !ok {
      return digits;
    }
    var a := new char[|digits|](i requires 0 <= i < |digits| => digits[i]);
    assert a[..] == digits;
    var len := CanonicalizeInPlaceAndReverse(a);
    CanonicalShape(digits);
    if len == 0 {
      return NumberWord(0);
    }
    r := WordsOfReversed(a[..len]);
  }

  /**
   * The main loop of ToWords over the reversed canonical digits: one group
   * of three per round, least significant first, each non-zero group's
   * words going in front of what is there.
   */
  method WordsOfReversed(rev: string) returns (result: string)
    requires forall k :: 0 <= k < |rev| ==> IsDigit(rev[k])
    ensures result == Join(Pieces(rev))
  {
    var p := 0;
    var q := 0;
    result := "";
    var needsAnd := false;
    var needsComma := false;
    var scale := 0;
    while p < |rev|
      invariant p == Min(3 * q, |rev|) && q <= (|rev| + 2) / 3
      invariant scale == Min(q, ScaleCount)
      invariant result == Join(PiecesUpTo(rev, q))
      invariant result != "" ==> SeparatorOf(needsAnd, needsComma) == TopSeparator(PiecesUpTo(rev, q))
      decreases |rev| - p
    {
      if scale == ScaleCount {
        scale := scale - 1;
      }
      var value, digitValues;
      p, value, digitValues := ReadGroup(rev, q);
      var g := Group(digitValues[0], digitValues[1], digitValues[2]);
      var updated := result;
      if value != 0 {
        var separator := if result == "" then "" else SeparatorOf(needsAnd, needsComma);
        updated := PrependGroupWords(g, q, scale, separator, result);
      }
      PiecesUpToWellFormed(rev, q);
      PieceOfWellFormed(g, q);
      PrependStep(PiecesUpTo(rev, q), PieceOf(g, q), result, SeparatorOf(needsAnd, needsComma), updated);
      result := updated;
      if value != 0 {
        needsComma := scale != 0;
        needsAnd := scale == 0 && digitValues[0] == 0;
      }
      q := q + 1;
      scale := scale + 1;
    }
    GroupsCovered(q, |rev|);
  }

  /** Once 3 * q reaches n, q is the number of groups of three in n digits. */
  lemma GroupsCovered(q: nat, n: nat)
    requires Min(3 * q, n) >= n && q <= (n + 2) / 3
    ensures q == (n + 2) / 3
  {
  }
}
