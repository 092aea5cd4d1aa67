/**
 Main results about the transparency log: every honest proof is accepted, an accepted proof is
 the honest one, and a head commits to the whole log. Where a statement could fail only through
 a hash collision, a function computes the two colliding inputs from the given data.
 */
module MerkleTheorems {
  import opened Basics
  import opened Hashing
  import opened Merkle
  import opened InclusionProof

  // ---------------------------------------------------------------- completeness

  lemma {:induction false} FoldOfPath(H: HashFn, hs: seq<Digest>, m: nat, lo: nat, hi: nat)
    requires lo <= m < hi <= |hs|
    ensures FoldPath(H, hs[m], m, lo, hi, Path(H, hs, m, lo, hi)) == Some(Mth(H, hs, lo, hi))
    decreases hi - lo
  {
    if hi - lo > 1 {
      var mid := Mid(lo, hi);
      var p := Path(H, hs, m, lo, hi);
      if m < mid {
        FoldOfPath(H, hs, m, lo, mid);
        assert p[..|p| - 1] == Path(H, hs, m, lo, mid);
      } else {
        FoldOfPath(H, hs, m, mid, hi);
        assert p[..|p| - 1] == Path(H, hs, m, mid, hi);
      }
    }
  }

  /** Every leaf's audit path is accepted against the head of its log, whatever the size. */
  lemma {:induction false} Completeness(H: HashFn, leaves: seq<Bytes>, i: nat)
    requires i < |leaves|
    ensures Accepts(H, leaves[i], i, |leaves|, Path(H, LeafHashes(H, leaves), i, 0, |leaves|), Head(H, leaves))
  {
    var hs := LeafHashes(H, leaves);
    FoldOfPath(H, hs, i, 0, |leaves|);
    AcceptsIffFolds(H, leaves[i], i, |leaves|, Path(H, hs, i, 0, |leaves|), Head(H, leaves));
  }

  lemma {:induction false} BitLengthBelow(n: nat, i: nat)
    requires n < Pow2(i)
    ensures BitLength(n) <= i
    decreases i
  {
    if n == 0 {
    } else {
      BitLengthBelow(n / 2, i - 1);
    }
  }

  /** An audit path has at most `bit_length(n - 1)` hashes. */
  lemma {:induction false} PathLength(H: HashFn, hs: seq<Digest>, m: nat, lo: nat, hi: nat)
    requires lo <= m < hi <= |hs|
    ensures |Path(H, hs, m, lo, hi)| <= BitLength(hi - lo - 1)
    decreases hi - lo
  {
    if hi - lo > 1 {
      var mid := Mid(lo, hi);
      HalvesAreShorter(lo, mid, hi);
      if m < mid {
        PathLength(H, hs, m, lo, mid);
      } else {
        PathLength(H, hs, m, mid, hi);
      }
    }
  }

  lemma HalvesAreShorter(lo: nat, mid: nat, hi: nat)
    requires hi - lo > 1 && mid == Mid(lo, hi)
    ensures BitLength(mid - lo - 1) < BitLength(hi - lo - 1)
    ensures BitLength(hi - mid - 1) < BitLength(hi - lo - 1)
  {
    var i := BitLength(hi - lo - 1) - 1;
    BitLengthBelow(mid - lo - 1, i);
    BitLengthBelow(hi - mid - 1, i);
  }

  // ---------------------------------------------------------------- soundness

  /** Follows an accepted proof down the tree to the first node where it departs from it. */
  function PathCollision(H: HashFn, x: Digest, hs: seq<Digest>, m: nat, lo: nat, hi: nat, proof: seq<Bytes>): Evidence
    requires lo <= m < hi <= |hs|
    decreases hi - lo
  {
    if hi - lo == 1 || proof == [] then ([], [])
    else
      var mid := Mid(lo, hi);
      var rest, q := proof[..|proof| - 1], proof[|proof| - 1];
      var honest := NodeInput(Mth(H, hs, lo, mid), Mth(H, hs, mid, hi));
      if m < mid then
        var sub := FoldPath(H, x, m, lo, mid, rest);
        if sub == None then ([], [])
        else if NodeInput(sub.value, q) != honest then (NodeInput(sub.value, q), honest)
        else PathCollision(H, x, hs, m, lo, mid, rest)
      else
        var sub := FoldPath(H, x, m, mid, hi, rest);
        if sub == None then ([], [])
        else if NodeInput(q, sub.value) != honest then (NodeInput(q, sub.value), honest)
        else PathCollision(H, x, hs, m, mid, hi, rest)
  }

  lemma {:induction false} PathSound(H: HashFn, x: Digest, hs: seq<Digest>, m: nat, lo: nat, hi: nat, proof: seq<Bytes>)
    requires lo <= m < hi <= |hs|
    requires FoldPath(H, x, m, lo, hi, proof) == Some(Mth(H, hs, lo, hi))
    ensures (x == hs[m] && proof == Path(H, hs, m, lo, hi))
         || IsCollision(H, PathCollision(H, x, hs, m, lo, hi, proof))
    decreases hi - lo
  {
    if hi - lo > 1 {
      var mid := Mid(lo, hi);
      var rest, q := proof[..|proof| - 1], proof[|proof| - 1];
      var left, right := Mth(H, hs, lo, mid), Mth(H, hs, mid, hi);
      assert proof == rest + [q];
      if m < mid {
        var sub := FoldPath(H, x, m, lo, mid, rest);
        if NodeInput(sub.value, q) == NodeInput(left, right) {
          NodeInputInjective(sub.value, q, left, right);
          PathSound(H, x, hs, m, lo, mid, rest);
        }
      } else {
        var sub := FoldPath(H, x, m, mid, hi, rest);
        if NodeInput(q, sub.value) == NodeInput(left, right) {
          NodeInputInjective(q, sub.value, left, right);
          PathSound(H, x, hs, m, mid, hi, rest);
        }
      }
    }
  }

  function InclusionCollision(H: HashFn, leaf: Bytes, leaves: seq<Bytes>, i: nat, proof: seq<Bytes>): Evidence
    requires i < |leaves|
  {
    if HashLeaf(H, leaf) == HashLeaf(H, leaves[i]) && leaf != leaves[i] then ([0] + leaf, [0] + leaves[i])
    else PathCollision(H, HashLeaf(H, leaf), LeafHashes(H, leaves), i, 0, |leaves|, proof)
  }

  /** An accepted proof for position `i` of an n-leaf log shows the i-th leaf and is exactly the
      audit path the log itself would give, or it yields a collision. */
  lemma {:induction false} Soundness(H: HashFn, leaf: Bytes, leaves: seq<Bytes>, i: int, proof: seq<Bytes>)
    requires Accepts(H, leaf, i, |leaves|, proof, Head(H, leaves))
    ensures (leaf == leaves[i] && proof == Path(H, LeafHashes(H, leaves), i, 0, |leaves|))
         || IsCollision(H, InclusionCollision(H, leaf, leaves, i, proof))
  {
    var hs, x := LeafHashes(H, leaves), HashLeaf(H, leaf);
    AcceptsIffFolds(H, leaf, i, |leaves|, proof, Head(H, leaves));
    PathSound(H, x, hs, i, 0, |leaves|, proof);
    if x == hs[i] && leaf != leaves[i] {
      assert ([0] + leaf)[1..] == leaf && ([0] + leaves[i])[1..] == leaves[i];
    }
  }

  // ---------------------------------------------------------------- the head commits to the log

  /** The hash input behind the tree hash of a range. */
  function RangeInput(H: HashFn, leaves: seq<Bytes>, lo: nat, hi: nat): Bytes
    requires lo < hi <= |leaves|
  {
    if hi - lo == 1 then [0] + leaves[lo]
    else NodeInput(Mth(H, LeafHashes(H, leaves), lo, Mid(lo, hi)), Mth(H, LeafHashes(H, leaves), Mid(lo, hi), hi))
  }

  /** Descends two trees with equal hashes to the first place where they differ. */
  function RangeCollision(H: HashFn, a: seq<Bytes>, alo: nat, ahi: nat, b: seq<Bytes>, blo: nat, bhi: nat): Evidence
    requires alo < ahi <= |a| && blo < bhi <= |b|
    decreases ahi - alo
  {
    if RangeInput(H, a, alo, ahi) != RangeInput(H, b, blo, bhi) || ahi - alo == 1 || bhi - blo == 1 then
      (RangeInput(H, a, alo, ahi), RangeInput(H, b, blo, bhi))
    else if a[alo..Mid(alo, ahi)] != b[blo..Mid(blo, bhi)] then
      RangeCollision(H, a, alo, Mid(alo, ahi), b, blo, Mid(blo, bhi))
    else
      RangeCollision(H, a, Mid(alo, ahi), ahi, b, Mid(blo, bhi), bhi)
  }

  lemma {:induction false} RangeCommits(H: HashFn, a: seq<Bytes>, alo: nat, ahi: nat, b: seq<Bytes>, blo: nat, bhi: nat)
    requires alo < ahi <= |a| && blo < bhi <= |b|
    requires Mth(H, LeafHashes(H, a), alo, ahi) == Mth(H, LeafHashes(H, b), blo, bhi)
    requires a[alo..ahi] != b[blo..bhi]
    ensures IsCollision(H, RangeCollision(H, a, alo, ahi, b, blo, bhi))
    decreases ahi - alo
  {
    var ia, ib := RangeInput(H, a, alo, ahi), RangeInput(H, b, blo, bhi);
    if ahi - alo == 1 && bhi - blo == 1 {
      SinglesDiffer(a, alo, b, blo);
    } else if ahi - alo == 1 || bhi - blo == 1 {
      assert ia[0] != ib[0];
    } else if ia == ib {
      var am, bm := Mid(alo, ahi), Mid(blo, bhi);
      var ha, hb := LeafHashes(H, a), LeafHashes(H, b);
      NodeInputInjective(Mth(H, ha, alo, am), Mth(H, ha, am, ahi), Mth(H, hb, blo, bm), Mth(H, hb, bm, bhi));
      if a[alo..am] != b[blo..bm] {
        RangeCommits(H, a, alo, am, b, blo, bm);
      } else {
        assert a[alo..ahi] == a[alo..am] + a[am..ahi];
        assert b[blo..bhi] == b[blo..bm] + b[bm..bhi];
        RangeCommits(H, a, am, ahi, b, bm, bhi);
      }
    }
  }

  lemma SinglesDiffer(a: seq<Bytes>, i: nat, b: seq<Bytes>, j: nat)
    requires i < |a| && j < |b| && a[i..i + 1] != b[j..j + 1]
    ensures [0] + a[i] != [0] + b[j]
  {
    assert a[i..i + 1] == [a[i]] && b[j..j + 1] == [b[j]];
    assert ([0] + a[i])[1..] == a[i] && ([0] + b[j])[1..] == b[j];
  }

  function HeadInput(H: HashFn, leaves: seq<Bytes>): Bytes {
    if leaves == [] then [] else RangeInput(H, leaves, 0, |leaves|)
  }

  function HeadCollision(H: HashFn, a: seq<Bytes>, b: seq<Bytes>): Evidence {
    if a == [] || b == [] then (HeadInput(H, a), HeadInput(H, b))
    else RangeCollision(H, a, 0, |a|, b, 0, |b|)
  }

  /** Logs with the same head are the same log, of whatever sizes, or yield a collision. */
  lemma HeadCommits(H: HashFn, a: seq<Bytes>, b: seq<Bytes>)
    requires Head(H, a) == Head(H, b)
    ensures a == b || IsCollision(H, HeadCollision(H, a, b))
  {
    if a != b && a != [] && b != [] {
      assert a[0..|a|] == a && b[0..|b|] == b;
      RangeCommits(H, a, 0, |a|, b, 0, |b|);
    }
  }
}
