/**
 * Roman numerals for the numbers dictionary (ToRoman and ROMAN_NUMERAL_DATA
 * in dictionary/jeff_numbers_dictionary.cc).
 *
 * ToRoman is greedy: it walks a descending table of values and appends a
 * symbol for as long as the remaining value allows. The lemmas show that the
 * greedy output is the usual digit-by-digit numeral, that the usual
 * subtractive reading of it gives back the input, and that it never needs
 * more than 15 characters.
 */
module RomanNumerals {

  import Sequences

  type Positive = x: int | x >= 1 witness 1

  datatype Numeral = Numeral(value: Positive, symbol: string)

  /** ROMAN_NUMERAL_DATA: the greedy table, in descending order of value. */
  const Table: seq<Numeral> := [
    Numeral(1000, "M"), Numeral(900, "CM"), Numeral(500, "D"), Numeral(400, "CD"),
    Numeral(100, "C"), Numeral(90, "XC"), Numeral(50, "L"), Numeral(40, "XL"),
    Numeral(10, "X"), Numeral(9, "IX"), Numeral(5, "V"), Numeral(4, "IV"),
    Numeral(1, "I")
  ]

  /** What the greedy walk appends for `value`, starting at table entry `k`. */
  function Greedy(value: nat, k: nat): string
    requires k <= |Table|
    decreases |Table| - k, value
  {
    if k == |Table| then ""
    else if value >= Table[k].value then Table[k].symbol + Greedy(value - Table[k].value, k)
    else Greedy(value, k + 1)
  }

  /** The numeral ToRoman writes for `value`. */
  function Roman(value: nat): string {
    Greedy(value, 0)
  }

  // ---------------------------------------------------------------------
  // Reading a numeral back

  function SymbolValue(c: char): nat {
    match c
    case 'I' => 1
    case 'V' => 5
    case 'X' => 10
    case 'L' => 50
    case 'C' => 100
    case 'D' => 500
    case 'M' => 1000
    case _ => 0
  }

  /**
   * The value of a numeral under the subtractive rule: a symbol followed by
   * a larger one counts negatively.
   */
  function NumeralValue(s: string): int {
    if |s| == 0 then 0
    else if |s| >= 2 && SymbolValue(s[0]) < SymbolValue(s[1]) then NumeralValue(s[1..]) - SymbolValue(s[0])
    else NumeralValue(s[1..]) + SymbolValue(s[0])
  }

  /** `s` is empty or starts with a symbol worth at most `bound`. */
  predicate StartsAtMost(s: string, bound: int) {
    s == [] || SymbolValue(s[0]) <= bound
  }

  function Repeat(c: char, n: nat): (r: string)
    ensures |r| == n
    ensures forall i :: 0 <= i < n ==> r[i] == c
  {
    if n == 0 then "" else [c] + Repeat(c, n - 1)
  }

  /** The usual numeral for one decimal digit, given that digit's one, five and ten symbols. */
  function DigitNumeral(d: nat, one: char, five: char, ten: char): string
    requires d < 10
  {
    if d == 9 then [one, ten]
    else if d >= 5 then [five] + Repeat(one, d - 5)
    else if d == 4 then [one, five]
    else Repeat(one, d)
  }

  /** The usual numeral for 1..3999, thousands, hundreds, tens and units written one after another. */
  function DecimalNumeral(value: nat): string
    requires value <= 3999
  {
    Repeat('M', value / 1000)
    + DigitNumeral(value / 100 % 10, 'C', 'D', 'M')
    + DigitNumeral(value / 10 % 10, 'X', 'L', 'C')
    + DigitNumeral(value % 10, 'I', 'V', 'X')
  }

  // ---------------------------------------------------------------------
  // The greedy walk produces the digit-by-digit numeral

  /** Table entries k..k+3 are the 9, 5, 4 and 1 entries of one decimal place of scale `s`. */
  predicate PlaceEntries(k: nat, s: Positive, one: char, five: char, ten: char) {
    && k + 4 <= |Table|
    && Table[k] == Numeral(9 * s, [one, ten])
    && Table[k + 1] == Numeral(5 * s, [five])
    && Table[k + 2] == Numeral(4 * s, [one, five])
    && Table[k + 3] == Numeral(s, [one])
  }

  /** The greedy walk takes table entry k while the value allows it. */
  lemma GreedyTake(value: nat, k: nat)
    requires k < |Table| && value >= Table[k].value
    ensures Greedy(value, k) == Table[k].symbol + Greedy(value - Table[k].value, k)
  {
  }

  /** The greedy walk moves past table entry k once the value is below it. */
  lemma GreedySkip(value: nat, k: nat)
    requires k < |Table| && value < Table[k].value
    ensures Greedy(value, k) == Greedy(value, k + 1)
  {
  }

  lemma {:induction false} GreedyOnes(n: nat, r: nat, k: nat, s: Positive, one: char)
    requires k + 4 <= |Table| && Table[k + 3] == Numeral(s, [one])
    requires n < 4 && r < s
    ensures Greedy(n * s + r, k + 3) == Repeat(one, n) + Greedy(r, k + 4)
  {
    if n == 0 {
      assert n * s + r == r;
      GreedySkip(r, k + 3);
    } else {
      var w := n * s + r;
      assert w >= s && w - s == (n - 1) * s + r by { assert n * s == (n - 1) * s + s; }
      GreedyOnes(n - 1, r, k, s, one);
      GreedyTake(w, k + 3);
      Sequences.AppendAssociative([one], Repeat(one, n - 1), Greedy(r, k + 4));
    }
  }

  lemma GreedyNine(r: nat, k: nat, s: Positive, one: char, five: char, ten: char)
    requires PlaceEntries(k, s, one, five, ten) && r < s
    ensures Greedy(9 * s + r, k) == [one, ten] + Greedy(r, k + 4)
  {
    GreedyTake(9 * s + r, k);
    GreedySkip(r, k);
    GreedySkip(r, k + 1);
    GreedySkip(r, k + 2);
    GreedySkip(r, k + 3);
  }

  lemma GreedyFivePlus(n: nat, r: nat, k: nat, s: Positive, one: char, five: char, ten: char)
    requires PlaceEntries(k, s, one, five, ten)
    requires n < 4 && r < s
    ensures Greedy(5 * s + (n * s + r), k) == [five] + Repeat(one, n) + Greedy(r, k + 4)
  {
    var w := n * s + r;
    assert w < 4 * s by { assert n * s <= 3 * s; }
    GreedySkip(5 * s + w, k);
    GreedyTake(5 * s + w, k + 1);
    assert 5 * s + w - 5 * s == w;
    GreedySkip(w, k + 1);
    GreedySkip(w, k + 2);
    GreedyOnes(n, r, k, s, one);
    Sequences.AppendAssociative([five], Repeat(one, n), Greedy(r, k + 4));
  }

  lemma GreedyFour(r: nat, k: nat, s: Positive, one: char, five: char, ten: char)
    requires PlaceEntries(k, s, one, five, ten) && r < s
    ensures Greedy(4 * s + r, k) == [one, five] + Greedy(r, k + 4)
  {
    GreedySkip(4 * s + r, k);
    GreedySkip(4 * s + r, k + 1);
    GreedyTake(4 * s + r, k + 2);
    GreedySkip(r, k + 2);
    GreedySkip(r, k + 3);
  }

  lemma GreedyUpToThree(d: nat, r: nat, k: nat, s: Positive, one: char, five: char, ten: char)
    requires PlaceEntries(k, s, one, five, ten)
    requires d < 4 && r < s
    ensures Greedy(d * s + r, k) == Repeat(one, d) + Greedy(r, k + 4)
  {
    var w := d * s + r;
    assert w < 4 * s by { assert d * s <= 3 * s; }
    GreedySkip(w, k);
    GreedySkip(w, k + 1);
    GreedySkip(w, k + 2);
    GreedyOnes(d, r, k, s, one);
  }

  /** One decimal place: the greedy walk over its four table entries writes DigitNumeral. */
  lemma GreedyPlace(d: nat, r: nat, k: nat, s: Positive, one: char, five: char, ten: char)
    requires PlaceEntries(k, s, one, five, ten)
    requires d < 10 && r < s
    ensures Greedy(d * s + r, k) == DigitNumeral(d, one, five, ten) + Greedy(r, k + 4)
  {
    if d == 9 {
      GreedyNine(r, k, s, one, five, ten);
    } else if d >= 5 {
      assert d * s + r == 5 * s + ((d - 5) * s + r) by { assert d * s == (d - 5) * s + 5 * s; }
      GreedyFivePlus(d - 5, r, k, s, one, five, ten);
    } else if d == 4 {
      GreedyFour(r, k, s, one, five, ten);
    } else {
      GreedyUpToThree(d, r, k, s, one, five, ten);
    }
  }

  lemma {:induction false} GreedyThousands(m: nat, w: nat)
    requires w < 1000
    ensures Greedy(1000 * m + w, 0) == Repeat('M', m) + Greedy(w, 1)
  {
    if m == 0 {
      GreedySkip(w, 0);
    } else {
      GreedyThousands(m - 1, w);
      GreedyTake(1000 * m + w, 0);
      assert 1000 * m + w - 1000 == 1000 * (m - 1) + w;
      Sequences.AppendAssociative("M", Repeat('M', m - 1), Greedy(w, 1));
    }
  }

  /** The decimal digits DecimalNumeral reads off a value below 4000. */
  lemma DecimalDigits(value: nat)
    requires value <= 3999
    ensures value / 1000 <= 3
    ensures value == 1000 * (value / 1000) + value % 1000
    ensures value % 1000 == 100 * (value / 100 % 10) + value % 100
    ensures value % 100 == 10 * (value / 10 % 10) + value % 10
  {
  }

  lemma GreedyHundreds(h: nat, r: nat)
    requires h < 10 && r < 100
    ensures Greedy(100 * h + r, 1) == DigitNumeral(h, 'C', 'D', 'M') + Greedy(r, 5)
  {
    assert PlaceEntries(1, 100, 'C', 'D', 'M');
    GreedyPlace(h, r, 1, 100, 'C', 'D', 'M');
  }

  lemma GreedyTens(t: nat, r: nat)
    requires t < 10 && r < 10
    ensures Greedy(10 * t + r, 5) == DigitNumeral(t, 'X', 'L', 'C') + Greedy(r, 9)
  {
    assert PlaceEntries(5, 10, 'X', 'L', 'C');
    GreedyPlace(t, r, 5, 10, 'X', 'L', 'C');
  }

  lemma GreedyUnits(u: nat)
    requires u < 10
    ensures Greedy(u, 9) == DigitNumeral(u, 'I', 'V', 'X')
  {
    assert PlaceEntries(9, 1, 'I', 'V', 'X');
    GreedyPlace(u, 0, 9, 1, 'I', 'V', 'X');
    assert Greedy(0, 13) == "";
  }

  /** For 0..3999 the greedy numeral is the digit-by-digit numeral. */
  lemma RomanIsDecimalNumeral(value: nat)
    requires value <= 3999
    ensures Roman(value) == DecimalNumeral(value)
  {
    DecimalDigits(value);
    var m, h, t, u := value / 1000, value / 100 % 10, value / 10 % 10, value % 10;
    var r3, r2 := value % 1000, value % 100;
    GreedyThousands(m, r3);
    GreedyHundreds(h, r2);
    GreedyTens(t, u);
    GreedyUnits(u);
    var pm, ph, pt, pu := Repeat('M', m), DigitNumeral(h, 'C', 'D', 'M'), DigitNumeral(t, 'X', 'L', 'C'), DigitNumeral(u, 'I', 'V', 'X');
    assert Roman(value) == pm + (ph + (pt + pu));
    Sequences.AppendAssociative(pm + ph, pt, pu);
    Sequences.AppendAssociative(pm, ph, pt + pu);
  }

  // ---------------------------------------------------------------------
  // Reading the numeral back gives the value

  lemma {:induction false} NumeralValueAppend(a: string, b: string)
    requires a == [] || StartsAtMost(b, SymbolValue(a[|a| - 1]))
    ensures NumeralValue(a + b) == NumeralValue(a) + NumeralValue(b)
  {
    if a == [] {
      assert a + b == b;
    } else {
      var t := a[1..];
      assert (a + b)[1..] == t + b;
      if t == [] {
        assert NumeralValue(a) == SymbolValue(a[0]);
        if b != [] {
          assert (a + b)[1] == b[0];
        }
        assert NumeralValue(a + b) == NumeralValue(b) + SymbolValue(a[0]);
      } else {
        assert t[|t| - 1] == a[|a| - 1];
        assert (a + b)[1] == a[1];
        NumeralValueAppend(t, b);
      }
    }
  }

  lemma {:induction false} RepeatValue(c: char, n: nat)
    ensures NumeralValue(Repeat(c, n)) == n * SymbolValue(c)
  {
    if n > 0 {
      RepeatValue(c, n - 1);
      NumeralValueAppend([c], Repeat(c, n - 1));
      assert Repeat(c, n) == [c] + Repeat(c, n - 1);
    }
  }

  /** Reading one symbol in front of a numeral. */
  lemma NumeralValueCons(c: char, t: string)
    ensures NumeralValue([c] + t) ==
      if t != [] && SymbolValue(c) < SymbolValue(t[0]) then NumeralValue(t) - SymbolValue(c)
      else NumeralValue(t) + SymbolValue(c)
  {
    assert ([c] + t)[1..] == t;
  }

  /** A run of a symbol followed by lower symbols starts with a symbol no larger than that one. */
  lemma RepeatStarts(c: char, n: nat, rest: string)
    requires StartsAtMost(rest, SymbolValue(c))
    ensures StartsAtMost(Repeat(c, n) + rest, SymbolValue(c))
  {
    if n > 0 {
      assert (Repeat(c, n) + rest)[0] == c;
    } else {
      assert Repeat(c, n) + rest == rest;
    }
  }

  /** A two-symbol subtractive pair ("IX", "IV", ...) in front of lower places. */
  lemma PairValue(one: char, big: char, s: Positive, rest: string)
    requires SymbolValue(one) == s && SymbolValue(big) > s
    requires StartsAtMost(rest, s)
    ensures NumeralValue([one, big] + rest) == SymbolValue(big) - s + NumeralValue(rest)
    ensures StartsAtMost([one, big] + rest, s)
  {
    NumeralValueCons(big, rest);
    NumeralValueCons(one, [big] + rest);
    assert [one, big] == [one] + [big];
    Sequences.AppendAssociative([one], [big], rest);
  }

  /** Five and up to three ones ("VIII", "LX", ...) in front of lower places. */
  lemma FivePlusValue(n: nat, s: Positive, one: char, five: char, rest: string)
    requires SymbolValue(one) == s && SymbolValue(five) == 5 * s
    requires StartsAtMost(rest, s)
    ensures NumeralValue([five] + Repeat(one, n) + rest) == 5 * s + n * s + NumeralValue(rest)
  {
    var t := Repeat(one, n) + rest;
    RepeatValue(one, n);
    NumeralValueAppend(Repeat(one, n), rest);
    RepeatStarts(one, n, rest);
    NumeralValueCons(five, t);
    Sequences.AppendAssociative([five], Repeat(one, n), rest);
  }

  /** A place numeral followed by the lower places reads as d * s plus the rest. */
  lemma DigitNumeralValue(d: nat, s: Positive, one: char, five: char, ten: char, rest: string)
    requires d < 10
    requires SymbolValue(one) == s && SymbolValue(five) == 5 * s && SymbolValue(ten) == 10 * s
    requires StartsAtMost(rest, s)
    ensures NumeralValue(DigitNumeral(d, one, five, ten) + rest) == d * s + NumeralValue(rest)
    ensures StartsAtMost(DigitNumeral(d, one, five, ten) + rest, 5 * s)
  {
    if d == 9 {
      PairValue(one, ten, s, rest);
    } else if d >= 5 {
      FivePlusValue(d - 5, s, one, five, rest);
      assert 5 * s + (d - 5) * s == d * s;
    } else if d == 4 {
      PairValue(one, five, s, rest);
    } else {
      RepeatValue(one, d);
      NumeralValueAppend(Repeat(one, d), rest);
      RepeatStarts(one, d, rest);
    }
  }

  lemma PlacesValue(h: nat, t: nat, u: nat)
    requires h < 10 && t < 10 && u < 10
    ensures NumeralValue(DigitNumeral(h, 'C', 'D', 'M') + (DigitNumeral(t, 'X', 'L', 'C') + DigitNumeral(u, 'I', 'V', 'X')))
         == 100 * h + 10 * t + u
    ensures StartsAtMost(DigitNumeral(h, 'C', 'D', 'M') + (DigitNumeral(t, 'X', 'L', 'C') + DigitNumeral(u, 'I', 'V', 'X')), 500)
  {
    var pt := DigitNumeral(t, 'X', 'L', 'C');
    var pu := DigitNumeral(u, 'I', 'V', 'X');
    DigitNumeralValue(u, 1, 'I', 'V', 'X', "");
    assert pu + "" == pu;
    DigitNumeralValue(t, 10, 'X', 'L', 'C', pu);
    DigitNumeralValue(h, 100, 'C', 'D', 'M', pt + pu);
  }

  /** The digit-by-digit numeral of 0..3999 reads back as the value. */
  lemma DecimalNumeralValue(value: nat)
    requires value <= 3999
    ensures NumeralValue(DecimalNumeral(value)) == value
  {
    DecimalDigits(value);
    var m, h, t, u := value / 1000, value / 100 % 10, value / 10 % 10, value % 10;
    var pm, ph, pt, pu := Repeat('M', m), DigitNumeral(h, 'C', 'D', 'M'), DigitNumeral(t, 'X', 'L', 'C'), DigitNumeral(u, 'I', 'V', 'X');
    var rest := ph + (pt + pu);
    Sequences.AppendAssociative(pm + ph, pt, pu);
    Sequences.AppendAssociative(pm, ph, pt + pu);
    PlacesValue(h, t, u);
    RepeatValue('M', m);
    NumeralValueAppend(pm, rest);
  }

  lemma DigitNumeralLength(d: nat, one: char, five: char, ten: char)
    requires d < 10
    ensures |DigitNumeral(d, one, five, ten)| <= 4
  {
  }

  /** The digit-by-digit numeral of 0..3999 has at most 15 symbols ("MMMDCCCLXXXVIII"). */
  lemma DecimalNumeralLength(value: nat)
    requires value <= 3999
    ensures |DecimalNumeral(value)| <= 15
  {
    DigitNumeralLength(value / 100 % 10, 'C', 'D', 'M');
    DigitNumeralLength(value / 10 % 10, 'X', 'L', 'C');
    DigitNumeralLength(value % 10, 'I', 'V', 'X');
  }

  /**
   * The numeral ToRoman writes for 1..3999 reads back as the input and fits
   * the 16-byte buffer (15 characters and a terminator).
   */
  lemma RomanRoundTrip(value: nat)
    requires 1 <= value <= 3999
    ensures NumeralValue(Roman(value)) == value
    ensures 1 <= |Roman(value)| <= 15
  {
    RomanIsDecimalNumeral(value);
    DecimalNumeralValue(value);
    DecimalNumeralLength(value);
  }

  /** ToRoman: the greedy loops over ROMAN_NUMERAL_DATA. */
  method ToRoman(value: int) returns (out: string)
    requires 1 <= value <= 3999
    ensures out == Roman(value)
    ensures NumeralValue(out) == value && 1 <= |out| <= 15
  {
    out := "";
    var v: nat := value;
    for k := 0 to |Table|
      invariant out + Greedy(v, k) == Roman(value)
    {
      while v >= Table[k].value
        invariant out + Greedy(v, k) == Roman(value)
      {
        GreedyTake(v, k);
        Sequences.AppendAssociative(out, Table[k].symbol, Greedy(v - Table[k].value, k));
        v := v - Table[k].value;
        out := out + Table[k].symbol;
      }
      GreedySkip(v, k);
    }
    assert out + "" == out;
    RomanRoundTrip(value);
  }
}
