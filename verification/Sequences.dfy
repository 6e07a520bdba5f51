/** Facts about sequences of anything. */
module Sequences {

  /** `a` followed by `b` followed by `c`, however it is bracketed. */
  lemma Assoc<T>(a: seq<T>, b: seq<T>, c: seq<T>)
    ensures (a + b) + c == a + (b + c)
  {}

  lemma NothingMore<T>(a: seq<T>)
    ensures a + [] == a
  {}
}
