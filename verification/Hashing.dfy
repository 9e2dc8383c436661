/** Hash functions are uninterpreted total functions with a fixed output length.
    Nothing assumes them injective: every binding result says "equal inputs, or two
    different inputs that the two runs really hashed have the same digest". */
module Hashing {
  import opened ByteStrings

  type Sha256 = Bytes -> Bytes32
  type Sha384 = Bytes -> Bytes48

  datatype Hashes = Hashes(sha256: Sha256, sha384: Sha384)

  /** Two different inputs, one hashed by each run, with the same digest. `a` and `b`
      are the finite sets of inputs of the two runs, so the pair is exhibited by them. */
  ghost predicate CollisionBetween<D>(h: Bytes -> D, a: set<Bytes>, b: set<Bytes>)
  {
    exists x, y :: x in a && y in b && x != y && h(x) == h(y)
  }

  lemma CollisionMonotone<D>(h: Bytes -> D, a: set<Bytes>, b: set<Bytes>, a': set<Bytes>, b': set<Bytes>)
    requires a <= a' && b <= b'
    ensures CollisionBetween(h, a, b) ==> CollisionBetween(h, a', b')
  {
  }
}
