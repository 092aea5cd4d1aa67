/**
 The hashing primitives of section 2.1 of RFC 6962. SHA-256 is a parameter `H`: every
 statement holds for every function from byte strings to 32-byte digests. Collision
 resistance is never assumed; soundness theorems compute two colliding inputs instead.
 */
module Hashing {
  import opened Basics

  type HashFn = Bytes -> Digest

  function HashLeaf(H: HashFn, leaf: Bytes): Digest {
    H([0] + leaf)
  }

  /** `left` and `right` are arbitrary byte strings, as they come from an untrusted proof. */
  function HashNode(H: HashFn, left: Bytes, right: Bytes): Digest {
    H(NodeInput(left, right))
  }

  function NodeInput(left: Bytes, right: Bytes): Bytes {
    [1] + left + right
  }

  /** A pair of hash inputs offered as evidence of a collision. */
  type Evidence = (Bytes, Bytes)

  predicate IsCollision(H: HashFn, e: Evidence) {
    e.0 != e.1 && H(e.0) == H(e.1)
  }

  /** Equal inputs of two node hashes have equal children, when one child of each has
      the length of a digest on the same side as a child of the other. */
  lemma NodeInputInjective(l1: Bytes, r1: Bytes, l2: Bytes, r2: Bytes)
    requires |r1| == |r2| || |l1| == |l2|
    requires NodeInput(l1, r1) == NodeInput(l2, r2)
    ensures l1 == l2 && r1 == r2
  {
    var i1, i2 := NodeInput(l1, r1), NodeInput(l2, r2);
    assert |i1| == 1 + |l1| + |r1| && |i2| == 1 + |l2| + |r2|;
    assert i1[1..1 + |l1|] == l1 && i2[1..1 + |l2|] == l2;
    assert i1[1 + |l1|..] == r1 && i2[1 + |l2|..] == r2;
  }
}
