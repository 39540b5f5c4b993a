/**
 * What ToWords (dictionary/jeff_numbers_dictionary.cc) says about the
 * numeral of a number: below a thousand the words of the number itself,
 * below a million the words of the thousands, " thousand", and the words of
 * the rest behind " and " (rest below a hundred) or " " (otherwise). Commas
 * and leading zeros change nothing, and a numeral of zeros is "zero".
 */
module SpelledValues {

  import opened DigitStrings
  import opened SpelledNumbers

  // ---------------------------------------------------------------------
  // Numerals digit by digit

  /** The three digits of r < 1000, zero-padded on the left. */
  function ThreeDigits(r: nat): string
    requires r < 1000
  {
    [DigitChar(r / 100), DigitChar(r / 10 % 10), DigitChar(r % 10)]
  }

  /** A number splits into its decimal digits. */
  lemma PlaceValues(n: nat)
    requires n < 1000
    ensures n == 100 * (n / 100) + 10 * (n / 10 % 10) + n % 10
    ensures n / 100 < 10
  {
  }

  /** The numeral of a number below a thousand, digit by digit. */
  lemma SmallNumeral(n: nat)
    requires n < 1000
    ensures DecimalString(n) ==
      if n < 10 then [DigitChar(n)]
      else if n < 100 then [DigitChar(n / 10), DigitChar(n % 10)]
      else ThreeDigits(n)
  {
    if n >= 10 {
      assert DecimalString(n) == DecimalString(n / 10) + [DigitChar(n % 10)];
      if n >= 100 {
        assert n / 10 >= 10 && n / 10 / 10 == n / 100 && n / 10 / 10 < 10;
        assert DecimalString(n / 10) == [DigitChar(n / 100)] + [DigitChar(n / 10 % 10)];
      }
    }
  }

  /** One step of the numeral: a last digit split off. */
  lemma NumeralStep(n: nat)
    requires n >= 10
    ensures DecimalString(n) == DecimalString(n / 10) + [DigitChar(n % 10)]
  {
  }

  /** From a thousand on, the numeral is the numeral of the thousands followed by three digits. */
  lemma ThousandsNumeral(q: nat, r: nat)
    requires q > 0 && r < 1000
    ensures DecimalString(1000 * q + r) == DecimalString(q) + ThreeDigits(r)
  {
    var n := 1000 * q + r;
    var m := 100 * q + r / 10;
    var k := 10 * q + r / 100;
    assert n / 10 == m && n % 10 == r % 10;
    assert m / 10 == k && m % 10 == r / 10 % 10;
    assert k / 10 == q && k % 10 == r / 100;
    NumeralStep(n);
    NumeralStep(m);
    NumeralStep(k);
    var a, b, c := DigitChar(r / 100), DigitChar(r / 10 % 10), DigitChar(r % 10);
    assert DecimalString(n) == ((DecimalString(q) + [a]) + [b]) + [c];
    assert ((DecimalString(q) + [a]) + [b]) + [c] == DecimalString(q) + [a, b, c];
  }

  // ---------------------------------------------------------------------
  // The groups of the reversed numeral

  /** The group of three of a numeral of at most three digits holds its digits. */
  lemma SmallGroup(s: string, n: nat)
    requires n < 1000
    requires s == DecimalString(n) || s == ThreeDigits(n)
    ensures GroupAt(Reverse(s), 0) == Group(n / 100, n / 10 % 10, n % 10)
  {
    SmallNumeral(n);
    var rev := Reverse(s);
    assert |rev| == |s| <= 3;
  }

  /** Behind three digits t, the groups of a + t shift up by one. */
  lemma ShiftedGroups(a: string, t: string)
    requires |t| == 3
    requires forall i :: 0 <= i < |a| ==> IsDigit(a[i])
    requires forall i :: 0 <= i < |t| ==> IsDigit(t[i])
    ensures forall i :: 0 <= i < |a + t| ==> IsDigit((a + t)[i])
    ensures GroupAt(Reverse(a + t), 0) == GroupAt(Reverse(t), 0)
    ensures GroupAt(Reverse(a + t), 1) == GroupAt(Reverse(a), 0)
  {
    var s := a + t;
    var rev, rt, ra := Reverse(s), Reverse(t), Reverse(a);
    assert forall k :: 0 <= k < 3 ==> rev[k] == rt[k];
    assert forall k :: 0 <= k < |a| ==> rev[k + 3] == ra[k];
    assert DigitAt(rev, 3) == DigitAt(ra, 0);
    assert DigitAt(rev, 4) == DigitAt(ra, 1);
    assert DigitAt(rev, 5) == DigitAt(ra, 2);
  }

  /** The number of pieces a short reversed numeral falls into. */
  lemma OnePiece(rev: string)
    requires forall k :: 0 <= k < |rev| ==> IsDigit(rev[k])
    requires 1 <= |rev| <= 3
    ensures Pieces(rev) == [PieceAt(rev, 0)]
  {
    assert (|rev| + 2) / 3 == 1;
  }

  lemma TwoPieces(rev: string)
    requires forall k :: 0 <= k < |rev| ==> IsDigit(rev[k])
    requires 4 <= |rev| <= 6
    ensures Pieces(rev) == [PieceAt(rev, 0), PieceAt(rev, 1)]
  {
    assert (|rev| + 2) / 3 == 2;
    assert PiecesUpTo(rev, 1) == [PieceAt(rev, 0)];
  }

  /** Joining one or two pieces. */
  lemma JoinTwo(p0: Piece, p1: Piece)
    ensures Join([p0]) == (if p0.present then p0.words else "")
    ensures p1.present && p1.words != "" ==>
      Join([p0, p1]) == (if p0.present then p1.words + p0.separator + p0.words else p1.words)
  {
    assert [p0][1..] == [];
    assert [p0, p1][1..] == [p1];
    assert [p1][1..] == [];
    assert Join([p1]) == (if p1.present then p1.words else "");
  }

  // ---------------------------------------------------------------------
  // Spelled for numerals

  /** A numeral without a leading zero is its own canonical form. */
  lemma {:induction false} CanonicalNumeral(s: string)
    requires forall i :: 0 <= i < |s| ==> IsDigit(s[i])
    requires s == [] || s[0] != '0'
    ensures Canonical(s) == s
  {
    if s != [] {
      var init := s[..|s| - 1];
      assert init == [] || init[0] == s[0];
      CanonicalNumeral(init);
      CanonicalAppend(init, s[|s| - 1]);
      assert init + [s[|s| - 1]] == s;
    }
  }

  /** The numeral of a positive number is canonical and made of digits. */
  lemma PositiveNumeral(n: nat)
    requires n > 0
    ensures AllDigitsOrCommas(DecimalString(n))
    ensures Canonical(DecimalString(n)) == DecimalString(n)
  {
    var s := DecimalString(n);
    DecimalStringValue(n);
    if |s| == 1 {
      assert n < 10 && s[0] == DigitChar(n);
    }
    CanonicalNumeral(s);
  }

  /** The words of the single group of a number below a thousand. */
  lemma GroupPiece(s: string, n: nat)
    requires 0 < n < 1000 && 1 <= |s| && (s == DecimalString(n) || s == ThreeDigits(n))
    ensures PieceAt(Reverse(s), 0).present
    ensures PieceAt(Reverse(s), 0).words == GroupWords(n)
    ensures PieceAt(Reverse(s), 0).separator == if n < 100 then " and " else " "
  {
    SmallGroup(s, n);
    PlaceValues(n);
    assert GroupAt(Reverse(s), 0).Value() == n;
    assert ScaleWord(Min(0, ScaleCount - 1)) == "";
    assert GroupWords(n) + "" == GroupWords(n);
  }

  /** ToWords spells a number from 1 to 999 as its group words. */
  lemma SpelledBelowThousand(n: nat)
    requires 0 < n < 1000
    ensures Spelled(DecimalString(n)) == GroupWords(n)
  {
    var s := DecimalString(n);
    PositiveNumeral(n);
    SmallNumeral(n);
    var rev := Reverse(s);
    OnePiece(rev);
    GroupPiece(s, n);
    JoinTwo(PieceAt(rev, 0), PieceAt(rev, 0));
  }

  /** The thousands piece: the words of q followed by " thousand". */
  lemma ThousandsPiece(q: nat)
    requires 0 < q < 1000
    ensures PieceOf(GroupAt(Reverse(DecimalString(q)), 0), 1).present
    ensures PieceOf(GroupAt(Reverse(DecimalString(q)), 0), 1).words == GroupWords(q) + " thousand"
  {
    SmallGroup(DecimalString(q), q);
    PlaceValues(q);
    assert GroupAt(Reverse(DecimalString(q)), 0).Value() == q;
    assert ScaleWord(Min(1, ScaleCount - 1)) == " thousand";
  }

  /** The units piece of the three digits of r: absent for 0, else the words of r. */
  lemma RestPiece(r: nat)
    requires r < 1000
    ensures PieceAt(Reverse(ThreeDigits(r)), 0).present <==> r != 0
  {
    SmallGroup(ThreeDigits(r), r);
    PlaceValues(r);
  }

  /** From a thousand on, the numeral falls into the units piece and the thousands piece. */
  lemma ThousandsPieces(n: nat, q: nat, r: nat)
    requires 0 < q < 1000 && r < 1000 && n == 1000 * q + r
    ensures forall k :: 0 <= k < |DecimalString(n)| ==> IsDigit(Reverse(DecimalString(n))[k])
    ensures Pieces(Reverse(DecimalString(n))) ==
      [PieceAt(Reverse(ThreeDigits(r)), 0), PieceOf(GroupAt(Reverse(DecimalString(q)), 0), 1)]
  {
    var a, t := DecimalString(q), ThreeDigits(r);
    ThousandsNumeral(q, r);
    SmallNumeral(q);
    ShiftedGroups(a, t);
    TwoPieces(Reverse(a + t));
  }

  /**
   * ToWords spells a number from 1000 to 999999 as the words of its
   * thousands, " thousand", then, when the rest r is not zero, " and " and
   * the words of r below a hundred, " " and the words of r from a hundred on.
   */
  lemma SpelledBelowMillion(q: nat, r: nat)
    requires 0 < q < 1000 && r < 1000
    ensures r == 0 ==> Spelled(DecimalString(1000 * q + r)) == GroupWords(q) + " thousand"
    ensures 0 < r < 100 ==>
      Spelled(DecimalString(1000 * q + r)) == GroupWords(q) + " thousand" + " and " + GroupWords(r)
    ensures 100 <= r ==>
      Spelled(DecimalString(1000 * q + r)) == GroupWords(q) + " thousand" + " " + GroupWords(r)
  {
    ThousandsSpelled(q, r);
    var p0 := PieceAt(Reverse(ThreeDigits(r)), 0);
    var p1 := PieceOf(GroupAt(Reverse(DecimalString(q)), 0), 1);
    ThousandsPiece(q);
    RestPiece(r);
    JoinTwo(p0, p1);
    if r != 0 {
      GroupPiece(ThreeDigits(r), r);
    }
  }

  /** The words of a numeral from a thousand on are the join of its two pieces. */
  lemma ThousandsSpelled(q: nat, r: nat)
    requires 0 < q < 1000 && r < 1000
    ensures Spelled(DecimalString(1000 * q + r)) ==
      Join([PieceAt(Reverse(ThreeDigits(r)), 0), PieceOf(GroupAt(Reverse(DecimalString(q)), 0), 1)])
  {
    var n := 1000 * q + r;
    PositiveNumeral(n);
    ThousandsPieces(n, q, r);
    assert Spelled(DecimalString(n)) == Join(Pieces(Reverse(DecimalString(n))));
  }

  /** Commas and leading zeros make no difference to the words. */
  lemma SpelledCanonical(digits: string)
    requires AllDigitsOrCommas(digits)
    ensures Spelled(digits) == Spelled(Canonical(digits))
  {
    CanonicalShape(digits);
    CanonicalIdempotent(digits);
    var c := Canonical(digits);
    assert AllDigitsOrCommas(c);
  }

  /** Digits that are all zeros (commas allowed) spell "zero". */
  lemma SpelledZero(digits: string)
    requires |digits| > 0 && forall i :: 0 <= i < |digits| ==> digits[i] in ",0"
    ensures Spelled(digits) == "zero"
  {
    CanonicalShape(digits);
    assert AllDigitsOrCommas(digits);
  }
}
