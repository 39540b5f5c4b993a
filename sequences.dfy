/** Sequence facts shared by the string-building proofs. */
module Sequences {

  /**
   * Concatenation regroups freely. Proved here, away from any string
   * constants, so that proofs about long literal-heavy definitions can call
   * it instead of re-deriving it element by element.
   */
  lemma AppendAssociative<T>(a: seq<T>, b: seq<T>, c: seq<T>)
    ensures (a + b) + c == a + (b + c)
  {
  }
}
