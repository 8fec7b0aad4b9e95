/** A fact about sequences that needs to be pointed out to the verifier. */
module Sequences {
  lemma AppendIsAssociative<T>(a: seq<T>, b: seq<T>, c: seq<T>)
    ensures a + b + c == a + (b + c)
  {
  }
}
