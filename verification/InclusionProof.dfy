/**
 The stateless verifier of provenex/core/merkle.py, which walks a proof bottom-up with two
 shifted counters, and its agreement with the top-down tree of RFC 6962 for every tree size.
 */
module InclusionProof {
  import opened Basics
  import opened Hashing
  import opened Merkle

  /** The inner loop: shift both counters while the first is even and not zero. */
  function Unwind(r: nat, sn: nat): (res: (nat, nat))
    ensures r <= sn ==> res.0 <= res.1
    ensures res.0 % 2 == 1 || res.0 == 0
    decreases r
  {
    if r % 2 == 0 && r != 0 then Unwind(r / 2, sn / 2) else (r, sn)
  }

  /** One turn of the outer loop: whether the sibling is a left one, and the shifted counters. */
  datatype Turn = Turn(siblingLeft: bool, r: nat, sn: nat)

  function NextTurn(r: nat, sn: nat): Turn {
    if r % 2 == 1 || r == sn then
      var u := Unwind(r, sn);
      Turn(true, u.0 / 2, u.1 / 2)
    else
      Turn(false, r / 2, sn / 2)
  }

  function Combine(H: HashFn, fn: Digest, siblingLeft: bool, sibling: Bytes): Digest {
    if siblingLeft then HashNode(H, sibling, fn) else HashNode(H, fn, sibling)
  }

  /** The outer loop: the hash it ends with, or nothing when it rejects or ends with `sn != 0`. */
  function Walk(H: HashFn, fn: Digest, r: nat, sn: nat, proof: seq<Bytes>): Option<Digest>
    decreases |proof|
  {
    if proof == [] then (if sn == 0 then Some(fn) else None)
    else if sn == 0 then None
    else
      var t := NextTurn(r, sn);
      Walk(H, Combine(H, fn, t.siblingLeft, proof[0]), t.r, t.sn, proof[1..])
  }

  predicate Accepts(H: HashFn, leaf: Bytes, leafIndex: int, treeSize: int, proof: seq<Bytes>, root: Bytes) {
    && 0 <= leafIndex < treeSize
    && Walk(H, HashLeaf(H, leaf), leafIndex, treeSize - 1, proof) == Some(root)
  }

  method UnwindLoop(r0: nat, sn0: nat) returns (r: nat, sn: nat)
    ensures (r, sn) == Unwind(r0, sn0)
  {
    r, sn := r0, sn0;
    while r % 2 == 0 && r != 0
      invariant Unwind(r, sn) == Unwind(r0, sn0)
      decreases r
    {
      r, sn := r / 2, sn / 2;
    }
  }

  method VerifyInclusionProof(H: HashFn, leaf: Bytes, leafIndex: int, treeSize: int,
                              proof: seq<Bytes>, root: Bytes) returns (ok: bool)
    ensures ok == Accepts(H, leaf, leafIndex, treeSize, proof, root)
  {
    if treeSize <= 0 || leafIndex < 0 || leafIndex >= treeSize {
      return false;
    }
    var fn: Digest, sn: nat, r: nat := HashLeaf(H, leaf), treeSize - 1, leafIndex;
    var i := 0;
    while i < |proof|
      invariant i <= |proof|
      invariant Walk(H, fn, r, sn, proof[i..]) == Walk(H, HashLeaf(H, leaf), leafIndex, treeSize - 1, proof)
    {
      var sibling := proof[i];
      assert proof[i..][0] == sibling && proof[i..][1..] == proof[i + 1..];
      if sn == 0 {
        return false;
      }
      if r % 2 == 1 || r == sn {
        fn := HashNode(H, sibling, fn);
        r, sn := UnwindLoop(r, sn);
      } else {
        fn := HashNode(H, fn, sibling);
      }
      r, sn := r / 2, sn / 2;
      i := i + 1;
    }
    ok := fn == root && sn == 0;
  }

  // ------------------------------------------------- the top-down reading of a proof

  /** What the split rule of RFC 6962 makes of a proof for leaf `m` within [lo, hi): the last
      sibling is the other half of the split, the rest proves the leaf within its own half. */
  function FoldPath(H: HashFn, fn: Digest, m: nat, lo: nat, hi: nat, proof: seq<Bytes>): Option<Digest>
    requires lo <= m < hi
    decreases hi - lo
  {
    if hi - lo == 1 then (if proof == [] then Some(fn) else None)
    else if proof == [] then None
    else
      var mid := Mid(lo, hi);
      var rest, q := proof[..|proof| - 1], proof[|proof| - 1];
      if m < mid then Close(H, FoldPath(H, fn, m, lo, mid, rest), false, q)
      else Close(H, FoldPath(H, fn, m, mid, hi, rest), true, q)
  }

  function Close(H: HashFn, sub: Option<Digest>, siblingLeft: bool, q: Bytes): Option<Digest> {
    if sub == None then None else Some(Combine(H, sub.value, siblingLeft, q))
  }

  /** A full left subtree of `Pow2(i)` leaves takes its turns in step with the whole tree. */
  lemma TurnLeft(i: nat, r: nat, sn: nat)
    requires i > 0 && r < Pow2(i) <= sn < 2 * Pow2(i)
    ensures NextTurn(r, sn) == Turn(r % 2 == 1, r / 2, sn / 2)
    ensures NextTurn(r, Pow2(i) - 1) == Turn(r % 2 == 1, r / 2, Pow2(i - 1) - 1)
  {
  }

  /** Halving a number with a set bit `i` above the rest. */
  lemma HalveHighBit(i: nat, x: nat, m: nat)
    requires i > 0 && m == Pow2(i) + x
    ensures m / 2 == Pow2(i - 1) + x / 2 && m % 2 == x % 2
    ensures x < Pow2(i) ==> x / 2 < Pow2(i - 1)
  {
  }

  /** Unwinding ignores a common high bit as long as a lower bit is set. */
  lemma {:induction false} UnwindHighBit(i: nat, r: nat, sn: nat, m: nat, last: nat) returns (j: nat)
    requires 0 < r <= sn < Pow2(i) && m == Pow2(i) + r && last == Pow2(i) + sn
    ensures j > 0 && Unwind(r, sn).1 < Pow2(j)
    ensures Unwind(m, last).0 == Pow2(j) + Unwind(r, sn).0
    ensures Unwind(m, last).1 == Pow2(j) + Unwind(r, sn).1
    decreases r
  {
    assert i > 0;
    HalveHighBit(i, r, m);
    if r % 2 == 0 {
      HalveHighBit(i, sn, last);
      j := UnwindHighBit(i - 1, r / 2, sn / 2, m / 2, last / 2);
    } else {
      j := i;
    }
  }

  lemma {:induction false} UnwindPow2(i: nat)
    ensures Unwind(Pow2(i), Pow2(i)) == (1, 1)
  {
    if i == 0 {
    } else {
      HalveHighBit(i, 0, Pow2(i));
      UnwindPow2(i - 1);
    }
  }

  /** Two turns in step: the same side, and counters that differ by the bit `j` only. */
  ghost predicate InStep(t: Turn, high: Turn, j: nat) {
    && t.r <= t.sn < Pow2(j)
    && high == Turn(t.siblingLeft, Pow2(j) + t.r, Pow2(j) + t.sn)
  }

  /** Right of the split the counters carry one extra high bit and take the same turns. */
  lemma TurnRight(i: nat, r: nat, sn: nat, m: nat, last: nat) returns (j: nat)
    requires 0 < sn < Pow2(i) && r <= sn && m == Pow2(i) + r && last == Pow2(i) + sn
    ensures InStep(NextTurn(r, sn), NextTurn(m, last), j)
  {
    HalveHighBit(i, r, m);
    if r % 2 == 1 || r == sn {
      j := TurnRightUnwound(i, r, sn, m, last);
    } else {
      HalveHighBit(i, sn, last);
      j := i - 1;
    }
  }

  lemma TurnRightUnwound(i: nat, r: nat, sn: nat, m: nat, last: nat) returns (j: nat)
    requires 0 < r <= sn < Pow2(i) && m == Pow2(i) + r && last == Pow2(i) + sn
    requires (r % 2 == 1 || r == sn) && (m % 2 == 1 || m == last)
    ensures InStep(NextTurn(r, sn), NextTurn(m, last), j)
  {
    j := UnwindHighBit(i, r, sn, m, last);
    var u, v := Unwind(r, sn), Unwind(m, last);
    HalveHighBit(j, u.0, v.0);
    HalveHighBit(j, u.1, v.1);
    j := j - 1;
  }

  lemma {:induction false} WalkLeft(H: HashFn, fn: Digest, i: nat, r: nat, sn: nat, full: nat, p: seq<Bytes>, q: Bytes)
    requires r < Pow2(i) <= sn < 2 * Pow2(i) && full == Pow2(i) - 1
    ensures Walk(H, fn, r, sn, p + [q]) == Close(H, Walk(H, fn, r, full, p), false, q)
    decreases |p|
  {
    if i == 0 {
    } else {
      TurnLeft(i, r, sn);
    }
    if p == [] {
      assert (p + [q])[1..] == [];
    } else {
      assert (p + [q])[1..] == p[1..] + [q];
      if i > 0 {
        WalkLeft(H, Combine(H, fn, r % 2 == 1, p[0]), i - 1, r / 2, sn / 2, Pow2(i - 1) - 1, p[1..], q);
      }
    }
  }

  lemma {:induction false} WalkRight(H: HashFn, fn: Digest, i: nat, r: nat, sn: nat, m: nat, last: nat,
                                     p: seq<Bytes>, q: Bytes)
    requires r <= sn < Pow2(i) && m == Pow2(i) + r && last == Pow2(i) + sn
    ensures Walk(H, fn, m, last, p + [q]) == Close(H, Walk(H, fn, r, sn, p), true, q)
    decreases |p|
  {
    if sn == 0 {
      WalkTop(H, fn, i, m, p, q);
    } else {
      var j := TurnRight(i, r, sn, m, last);
      var t := NextTurn(r, sn);
      var t' := NextTurn(m, last);
      if p == [] {
        assert (p + [q])[1..] == [];
      } else {
        assert (p + [q])[1..] == p[1..] + [q];
        WalkRight(H, Combine(H, fn, t.siblingLeft, p[0]), j, t.r, t.sn, t'.r, t'.sn, p[1..], q);
      }
    }
  }

  /** Above a finished right subtree exactly one sibling is left to take, a left one. */
  lemma WalkTop(H: HashFn, fn: Digest, i: nat, m: nat, p: seq<Bytes>, q: Bytes)
    requires m == Pow2(i)
    ensures Walk(H, fn, m, m, p + [q]) == if p == [] then Some(HashNode(H, q, fn)) else None
  {
    UnwindPow2(i);
    assert NextTurn(m, m) == Turn(true, 0, 0);
    var s := p + [q];
    assert s[1..] == if p == [] then [] else p[1..] + [q];
  }

  /** The bottom-up verifier and the top-down split rule compute the same thing for every leaf
      position, every tree size and every proof, well-formed or not. */
  lemma {:induction false} WalkIsFoldPath(H: HashFn, fn: Digest, m: nat, lo: nat, hi: nat,
                                          r: nat, sn: nat, proof: seq<Bytes>)
    requires lo <= m < hi && r == m - lo && sn == hi - lo - 1
    ensures Walk(H, fn, r, sn, proof) == FoldPath(H, fn, m, lo, hi, proof)
    decreases hi - lo
  {
    if sn > 0 && proof != [] {
      var mid := Mid(lo, hi);
      var k, i := SplitExponent(lo, mid, hi);
      var rest, q := proof[..|proof| - 1], proof[|proof| - 1];
      assert proof == rest + [q];
      if m < mid {
        WalkLeft(H, fn, i, r, sn, k - 1, rest, q);
        WalkIsFoldPath(H, fn, m, lo, mid, r, k - 1, rest);
      } else {
        WalkRight(H, fn, i, r - k, sn - k, r, sn, rest, q);
        WalkIsFoldPath(H, fn, m, mid, hi, r - k, sn - k, rest);
      }
    }
  }

  lemma SplitExponent(lo: nat, mid: nat, hi: nat) returns (k: nat, i: nat)
    requires hi - lo > 1 && mid == Mid(lo, hi)
    ensures k == mid - lo == Pow2(i) && k < hi - lo <= 2 * k
  {
    k := LargestPow2Lt(hi - lo);
    i := BitLength(hi - lo - 1) - 1;
  }

  /** The verifier accepts exactly the proofs that the split rule folds to the given root. */
  lemma AcceptsIffFolds(H: HashFn, leaf: Bytes, i: nat, n: nat, proof: seq<Bytes>, root: Bytes)
    requires i < n
    ensures Accepts(H, leaf, i, n, proof, root) <==> FoldPath(H, HashLeaf(H, leaf), i, 0, n, proof) == Some(root)
  {
    WalkIsFoldPath(H, HashLeaf(H, leaf), i, 0, n, i, n - 1, proof);
  }
}
