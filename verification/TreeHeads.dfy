/**
 Sections 2.1 and 2.1.1 of RFC 6962, equation by equation, on lists of leaves: what bytes a tree head
 hashes, and what an audit path lists. The tree of provenex/core/merkle.py works on ranges of stored
 leaf hashes; these lemmas say that it computes the heads and paths of the standard.
 */
module TreeHeads {
  import opened Basics
  import opened Hashing
  import opened Merkle

  /** A range of the stored hashes has the tree hash of the list it holds. */
  lemma {:induction false} MthShift(H: HashFn, hs: seq<Digest>, part: seq<Digest>, a: nat, lo: nat, hi: nat)
    requires a <= lo < hi <= a + |part| <= |hs| && part == hs[a..a + |part|]
    ensures Mth(H, hs, lo, hi) == Mth(H, part, lo - a, hi - a)
    decreases hi - lo
  {
    if hi - lo == 1 {
      assert part[lo - a] == hs[lo];
    } else {
      var mid := Mid(lo, hi);
      assert Mid(lo - a, hi - a) == mid - a;
      MthShift(H, hs, part, a, lo, mid);
      MthShift(H, hs, part, a, mid, hi);
    }
  }

  lemma {:induction false} PathShift(H: HashFn, hs: seq<Digest>, part: seq<Digest>, a: nat, m: nat, lo: nat, hi: nat)
    requires a <= lo <= m < hi <= a + |part| <= |hs| && part == hs[a..a + |part|]
    ensures Path(H, hs, m, lo, hi) == Path(H, part, m - a, lo - a, hi - a)
    decreases hi - lo
  {
    if hi - lo == 1 {
    } else {
      var mid := Mid(lo, hi);
      assert Mid(lo - a, hi - a) == mid - a;
      MthShift(H, hs, part, a, lo, mid);
      MthShift(H, hs, part, a, mid, hi);
      if m < mid {
        PathShift(H, hs, part, a, m, lo, mid);
      } else {
        PathShift(H, hs, part, a, m, mid, hi);
      }
    }
  }

  /** The hash of a range of a log is the head of the leaves in it. */
  lemma RangeHead(H: HashFn, leaves: seq<Bytes>, part: seq<Bytes>, lo: nat, hi: nat)
    requires lo < hi <= |leaves| && part == leaves[lo..hi]
    ensures Mth(H, LeafHashes(H, leaves), lo, hi) == Head(H, part)
  {
    assert LeafHashes(H, part) == LeafHashes(H, leaves)[lo..lo + |part|];
    MthShift(H, LeafHashes(H, leaves), LeafHashes(H, part), lo, lo, hi);
  }

  /** `MTH({}) = SHA-256()`. */
  lemma HeadOfNone(H: HashFn)
    ensures Head(H, []) == H([])
  {
    assert LeafHashes(H, []) == [];
  }

  /** `MTH({d(0)}) = SHA-256(0x00 || d(0))`. */
  lemma HeadOfOne(H: HashFn, leaf: Bytes)
    ensures Head(H, [leaf]) == H([0] + leaf)
  {
    assert LeafHashes(H, [leaf])[0] == H([0] + leaf);
  }

  /** D[n] is split into `left` = D[0:k] and `right` = D[k:n] at the largest power of two k below n. */
  ghost predicate SplitInto(leaves: seq<Bytes>, left: seq<Bytes>, right: seq<Bytes>, k: nat) {
    && 1 <= k < |leaves| <= 2 * k && (exists e: nat :: k == Pow2(e))
    && left == leaves[0..k] && right == leaves[k..|leaves|]
  }

  /** Every list of two or more leaves is, at one place. */
  lemma SplitExists(leaves: seq<Bytes>) returns (k: nat)
    requires |leaves| > 1
    ensures k < |leaves|
    ensures SplitInto(leaves, leaves[..k], leaves[k..], k)
  {
    var e := BitLength(|leaves| - 1) - 1;
    BitLengthBounds(|leaves| - 1);
    k := Pow2(e);
  }

  lemma SplitIsMid(leaves: seq<Bytes>, left: seq<Bytes>, right: seq<Bytes>, k: nat)
    requires SplitInto(leaves, left, right, k)
    ensures Mid(0, |leaves|) == k && |left| == k && |right| == |leaves| - k
  {
    var e: nat :| k == Pow2(e);
    SplitUnique(|leaves|, e);
  }

  /** `MTH(D[n]) = SHA-256(0x01 || MTH(D[0:k]) || MTH(D[k:n]))`. */
  lemma HeadOfMore(H: HashFn, leaves: seq<Bytes>, left: seq<Bytes>, right: seq<Bytes>, k: nat)
    requires SplitInto(leaves, left, right, k)
    ensures Head(H, leaves) == H([1] + Head(H, left) + Head(H, right))
  {
    SplitIsMid(leaves, left, right, k);
    RangeHead(H, leaves, left, 0, k);
    RangeHead(H, leaves, right, k, |leaves|);
    NodeHash(H, Head(H, left), Head(H, right));
  }

  lemma NodeHash(H: HashFn, left: Bytes, right: Bytes)
    ensures HashNode(H, left, right) == H([1] + left + right)
  {
  }

  /** The audit path for position m of a log. */
  function AuditPath(H: HashFn, leaves: seq<Bytes>, m: nat): seq<Digest>
    requires m < |leaves|
  {
    Path(H, LeafHashes(H, leaves), m, 0, |leaves|)
  }

  lemma RangePath(H: HashFn, leaves: seq<Bytes>, part: seq<Bytes>, m: nat, lo: nat, hi: nat)
    requires lo <= m < hi <= |leaves| && part == leaves[lo..hi]
    ensures Path(H, LeafHashes(H, leaves), m, lo, hi) == AuditPath(H, part, m - lo)
  {
    assert LeafHashes(H, part) == LeafHashes(H, leaves)[lo..lo + |part|];
    PathShift(H, LeafHashes(H, leaves), LeafHashes(H, part), lo, m, lo, hi);
  }

  /** `PATH(0, {d(0)}) = {}`. */
  lemma PathOfOne(H: HashFn, leaf: Bytes)
    ensures AuditPath(H, [leaf], 0) == []
  {
  }

  /** `PATH(m, D[n]) = PATH(m, D[0:k]) : MTH(D[k:n])` for m < k. */
  lemma PathOfLeft(H: HashFn, leaves: seq<Bytes>, left: seq<Bytes>, right: seq<Bytes>, m: nat, k: nat)
    requires SplitInto(leaves, left, right, k) && m < k == |left|
    ensures AuditPath(H, leaves, m) == AuditPath(H, left, m) + [Head(H, right)]
  {
    SplitIsMid(leaves, left, right, k);
    RangeHead(H, leaves, right, k, |leaves|);
    RangePath(H, leaves, left, m, 0, k);
  }

  /** `PATH(m, D[n]) = PATH(m - k, D[k:n]) : MTH(D[0:k])` for m >= k. */
  lemma PathOfRight(H: HashFn, leaves: seq<Bytes>, left: seq<Bytes>, right: seq<Bytes>, m: nat, k: nat)
    requires SplitInto(leaves, left, right, k) && k <= m < |leaves| == k + |right|
    ensures AuditPath(H, leaves, m) == AuditPath(H, right, m - k) + [Head(H, left)]
  {
    SplitIsMid(leaves, left, right, k);
    RangeHead(H, leaves, left, 0, k);
    RangePath(H, leaves, right, m, k, |leaves|);
  }
}
