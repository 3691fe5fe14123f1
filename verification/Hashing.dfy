// Digests are the values of a function; nothing says that it is injective, and for
// texts of fixed length it cannot be.
module Hashing {

  /** These two different inputs have one digest. */
  ghost predicate Clash<T, H>(hash: T -> H, x: T, y: T) { x != y && hash(x) == hash(y) }
}
