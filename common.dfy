/** Small value wrappers shared by the model's modules. */
module Common {

  /** A value that may be missing: JavaScript's `undefined` / `null` on one side, a value on the other. */
  datatype Option<+T> = None | Some(value: T)

  /** Concatenation is associative (stated once, so that proofs about lists need not rediscover it). */
  lemma ConcatAssociative<T>(a: seq<T>, b: seq<T>, c: seq<T>)
    ensures (a + b) + c == a + (b + c)
  {
  }

  /** Empty sequences on either side change nothing. */
  lemma EmptyAround<T>(s: seq<T>)
    ensures [] + s == s && s + [] == s && [] + s + [] == s
  {
  }

  /** A prefix one element longer is the shorter prefix and that element. */
  lemma PrefixExtended<T>(s: seq<T>, i: nat)
    requires i < |s|
    ensures s[..i + 1] == s[..i] + [s[i]]
  {
  }
}
