/**
 * Steno keys and strokes, as the numbers dictionary sees them.
 *
 * A stroke is the set of keys pressed together. The bit layout of a stroke
 * and the parsing of stroke text are not part of this model.
 */
module StenoStroke {

  /** The 23 keys of a steno stroke, left bank to right bank. */
  datatype Key =
    | Num                                     // #
    | SL | TL | KL | PL | WL | HL | RL        // S- T- K- P- W- H- R-
    | A | O | Star | E | U                    // A O * E U
    | FR | RR | PR | BR | LR | GR | TR | SR | DR | ZR  // -F -R -P -B -L -G -T -S -D -Z

  type Stroke = set<Key>

  /** The number keys, in the order their digits are emitted. */
  const DigitKeys: seq<Key> := [SL, TL, PL, HL, A, O, FR, PR, LR, TR]

  /** The digit each key of DigitKeys produces. */
  const DigitValues: string := "1234506789"

  /** Every key that produces a digit. */
  const AllDigits: set<Key> := {SL, TL, PL, HL, A, O, FR, PR, LR, TR}

  /** Every key that modifies the digits of a stroke. */
  const ControlKeys: set<Key> := {KL, WL, RL, Star, E, U, RR, BR, GR, SR, DR, ZR}

  /** The digit key table and the digit set agree, and every key is a number key, a digit key or a control key. */
  lemma KeyClassesPartition(k: Key)
    ensures k in AllDigits <==> k in DigitKeys
    ensures (k == Num) || (k in AllDigits) || (k in ControlKeys)
    ensures !(k in AllDigits && k in ControlKeys)
  {
  }
}
