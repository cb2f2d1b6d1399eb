/** Facts about sequences that several modules need. */
module Sequences {

  /** Concatenations can be regrouped. */
  lemma Associative<T>(a: seq<T>, b: seq<T>, c: seq<T>)
    ensures (a + b) + c == a + (b + c)
  {
  }
}
