/** PHP's `null` against a present value, and one fact about sequences. */
module Wrappers {
  datatype Option<+T> = None | Some(value: T)

  /** Concatenation is associative; stated once so that proofs need not rediscover it. */
  lemma ConcatAssoc<T>(a: seq<T>, b: seq<T>, c: seq<T>)
    ensures (a + b) + c == a + (b + c)
  {
  }
}
