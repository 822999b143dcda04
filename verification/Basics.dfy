/** Two facts of arithmetic and sequences that several proofs need. */
module Basics {
  lemma Associates<T>(a: seq<T>, b: seq<T>, c: seq<T>)
    ensures a + (b + c) == (a + b) + c
  {
  }

  lemma MulUp(c: nat, x: int, y: int)
    requires x <= y
    ensures c * x <= c * y
  {
  }
}
