// A fact about sequences that proofs about linear forms keep coming back to.
module Sequences {
  lemma ConcatAssociates<T>(a: seq<T>, b: seq<T>, c: seq<T>)
    ensures (a + b) + c == a + (b + c)
  {}
}
