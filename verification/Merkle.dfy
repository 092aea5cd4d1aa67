/**
 The RFC 6962 Merkle tree head and audit path as functions (sections 2.1 and 2.1.1), and the
 mutable tree of provenex/core/merkle.py with its memo cache, proved against them.
 */
module Merkle {
  import opened Basics
  import opened Hashing

  /** The largest power of two strictly below `n`, by the source's bit trick. */
  function LargestPow2Lt(n: nat): (k: nat)
    requires n > 1
    ensures k < n <= 2 * k
  {
    BitLengthBounds(n - 1);
    Pow2(BitLength(n - 1) - 1)
  }

  /** The split rule is determined by its bounds. */
  lemma {:induction false} SplitUnique(n: nat, e: nat)
    requires n > 1 && Pow2(e) < n <= 2 * Pow2(e)
    ensures LargestPow2Lt(n) == Pow2(e)
  {
    var h := BitLength(n - 1) - 1;
    if h < e {
      Pow2Monotone(h + 1, e);
    } else if e < h {
      Pow2Monotone(e + 1, h);
    }
  }

  /** Where a range of two or more leaves is split. */
  function Mid(lo: nat, hi: nat): (mid: nat)
    requires hi - lo > 1
    ensures lo < mid < hi
  {
    lo + LargestPow2Lt(hi - lo)
  }

  /** The tree hash of the leaf hashes in the half-open range [lo, hi). */
  function Mth(H: HashFn, hs: seq<Digest>, lo: nat, hi: nat): Digest
    requires lo < hi <= |hs|
    decreases hi - lo
  {
    if hi - lo == 1 then hs[lo]
    else
      var mid := Mid(lo, hi);
      HashNode(H, Mth(H, hs, lo, mid), Mth(H, hs, mid, hi))
  }

  /** The audit path of leaf `m` within [lo, hi), bottom-up. */
  function Path(H: HashFn, hs: seq<Digest>, m: nat, lo: nat, hi: nat): seq<Digest>
    requires lo <= m < hi <= |hs|
    decreases hi - lo
  {
    if hi - lo == 1 then []
    else
      var mid := Mid(lo, hi);
      if m < mid then Path(H, hs, m, lo, mid) + [Mth(H, hs, mid, hi)]
      else Path(H, hs, m, mid, hi) + [Mth(H, hs, lo, mid)]
  }

  function LeafHashes(H: HashFn, leaves: seq<Bytes>): (hs: seq<Digest>)
    ensures |hs| == |leaves|
  {
    seq(|leaves|, i requires 0 <= i < |leaves| => HashLeaf(H, leaves[i]))
  }

  /** The tree head over leaf hashes; the hash of the empty string for the empty log. */
  function HeadOfHashes(H: HashFn, hs: seq<Digest>): Digest {
    if hs == [] then H([]) else Mth(H, hs, 0, |hs|)
  }

  function Head(H: HashFn, leaves: seq<Bytes>): Digest {
    HeadOfHashes(H, LeafHashes(H, leaves))
  }

  // ---------------------------------------------------------------- memo cache

  /** A half-open range of leaf positions, the key of the memo. */
  datatype Range = Range(lo: nat, hi: nat)

  /** Every subtree range the tree hash of [lo, hi) visits. */
  ghost function Ranges(lo: nat, hi: nat): set<Range>
    requires lo < hi
    decreases hi - lo
  {
    if hi - lo == 1 then {Range(lo, hi)}
    else
      var mid := Mid(lo, hi);
      {Range(lo, hi)} + Ranges(lo, mid) + Ranges(mid, hi)
  }

  lemma {:induction false} RangesWithin(lo: nat, hi: nat, r: Range)
    requires lo < hi && r in Ranges(lo, hi)
    ensures lo <= r.lo < r.hi <= hi
    decreases hi - lo
  {
    if hi - lo > 1 && r != Range(lo, hi) {
      var mid := Mid(lo, hi);
      if r in Ranges(lo, mid) {
        RangesWithin(lo, mid, r);
      } else {
        RangesWithin(mid, hi, r);
      }
    }
  }

  /** Visited ranges are closed under subdivision. */
  lemma {:induction false} RangesNested(lo: nat, hi: nat, r: Range)
    requires lo < hi && r in Ranges(lo, hi)
    ensures r.lo < r.hi && Ranges(r.lo, r.hi) <= Ranges(lo, hi)
    decreases hi - lo
  {
    if r != Range(lo, hi) {
      var mid := Mid(lo, hi);
      if r in Ranges(lo, mid) {
        RangesNested(lo, mid, r);
      } else {
        RangesNested(mid, hi, r);
      }
    }
  }

  /** The two subtrees of a range share no range with each other, nor with the range itself. */
  lemma RangesDisjoint(lo: nat, mid: nat, hi: nat)
    requires lo < mid < hi
    ensures Ranges(lo, mid) !! Ranges(mid, hi)
    ensures Range(lo, hi) !in Ranges(lo, mid) && Range(lo, hi) !in Ranges(mid, hi)
  {
    forall r | r in Ranges(lo, mid) ensures r.hi <= mid { RangesWithin(lo, mid, r); }
    forall r | r in Ranges(mid, hi) ensures mid <= r.lo < r.hi { RangesWithin(mid, hi, r); }
  }

  /** The ranges whose hash is a node hash, not a stored leaf hash. */
  ghost function Inner(rs: set<Range>): set<Range> {
    set r | r in rs && r.hi - r.lo > 1
  }

  lemma InnerUnion(a: set<Range>, b: set<Range>)
    requires a !! b
    ensures |Inner(a + b)| == |Inner(a)| + |Inner(b)|
  {
    assert Inner(a + b) == Inner(a) + Inner(b);
  }

  lemma InnerOne(r: Range)
    ensures |Inner({r})| == if r.hi - r.lo > 1 then 1 else 0
  {
    assert Inner({r}) == if r.hi - r.lo > 1 then {r} else {};
  }

  /** An n-leaf tree visits exactly 2n-1 ranges, n-1 of them inner nodes. */
  lemma {:induction false} RangesCount(lo: nat, hi: nat)
    requires lo < hi
    ensures |Ranges(lo, hi)| == 2 * (hi - lo) - 1
    ensures |Inner(Ranges(lo, hi))| == hi - lo - 1
    decreases hi - lo
  {
    InnerOne(Range(lo, hi));
    if hi - lo > 1 {
      var mid := Mid(lo, hi);
      var l, r, top := Ranges(lo, mid), Ranges(mid, hi), {Range(lo, hi)};
      RangesCount(lo, mid);
      RangesCount(mid, hi);
      RangesDisjoint(lo, mid, hi);
      assert Ranges(lo, hi) == top + l + r;
      InnerUnion(top, l);
      InnerUnion(top + l, r);
    }
  }

  /** A memo is sound when every entry is the uncached hash of its range. */
  ghost predicate SoundMemo(H: HashFn, hs: seq<Digest>, memo: map<Range, Digest>) {
    forall r {:trigger SoundEntry(H, hs, memo, r)} :: r in memo ==> SoundEntry(H, hs, memo, r)
  }

  ghost predicate SoundEntry(H: HashFn, hs: seq<Digest>, memo: map<Range, Digest>, r: Range)
    requires r in memo
  {
    r.lo < r.hi <= |hs| && memo[r] == Mth(H, hs, r.lo, r.hi)
  }

  /** One missing inner range: both subtrees are filled first, then one node hash is stored. */
  lemma FillStep(H: HashFn, hs: seq<Digest>, memo: map<Range, Digest>, lo: nat, mid: nat, hi: nat)
    requires lo < hi <= |hs| && hi - lo > 1 && mid == Mid(lo, hi)
    requires Range(lo, hi) !in memo
    ensures Mth(H, hs, lo, hi) == HashNode(H, Mth(H, hs, lo, mid), Mth(H, hs, mid, hi))
    ensures Fill(H, hs, memo, lo, hi)
         == Fill(H, hs, Fill(H, hs, memo, lo, mid), mid, hi)[Range(lo, hi) := Mth(H, hs, lo, hi)]
    ensures Cost(H, hs, memo, lo, hi)
         == Cost(H, hs, memo, lo, mid) + Cost(H, hs, Fill(H, hs, memo, lo, mid), mid, hi) + 1
  {
  }

  /** Storing the hash of a range keeps the memo sound. */
  lemma StoreSound(H: HashFn, hs: seq<Digest>, memo: map<Range, Digest>, lo: nat, hi: nat)
    requires SoundMemo(H, hs, memo) && lo < hi <= |hs|
    ensures SoundMemo(H, hs, memo[Range(lo, hi) := Mth(H, hs, lo, hi)])
  {
    var m := memo[Range(lo, hi) := Mth(H, hs, lo, hi)];
    forall r | r in m ensures SoundEntry(H, hs, m, r) {
      if r != Range(lo, hi) {
        assert SoundEntry(H, hs, memo, r);
      }
    }
  }

  /** What asking for the hash of [lo, hi) leaves in the memo. */
  ghost function Fill(H: HashFn, hs: seq<Digest>, memo: map<Range, Digest>, lo: nat, hi: nat): map<Range, Digest>
    requires lo < hi <= |hs|
    decreases hi - lo
  {
    if Range(lo, hi) in memo then memo
    else if hi - lo == 1 then memo[Range(lo, hi) := hs[lo]]
    else
      var mid := Mid(lo, hi);
      Fill(H, hs, Fill(H, hs, memo, lo, mid), mid, hi)[Range(lo, hi) := Mth(H, hs, lo, hi)]
  }

  /** How many node hashes asking for the hash of [lo, hi) computes. */
  ghost function Cost(H: HashFn, hs: seq<Digest>, memo: map<Range, Digest>, lo: nat, hi: nat): nat
    requires lo < hi <= |hs|
    decreases hi - lo
  {
    if Range(lo, hi) in memo || hi - lo == 1 then 0
    else
      var mid := Mid(lo, hi);
      Cost(H, hs, memo, lo, mid) + Cost(H, hs, Fill(H, hs, memo, lo, mid), mid, hi) + 1
  }

  /** A memo is closed when an entry comes with all entries below it. */
  ghost predicate ClosedMemo(memo: set<Range>) {
    forall r {:trigger Below(r)} :: r in memo ==> Below(r) <= memo
  }

  ghost function Below(r: Range): set<Range> {
    if r.lo < r.hi then Ranges(r.lo, r.hi) else {}
  }

  /** Asking for [lo, hi) adds exactly the ranges of that subtree, and keeps the memo closed. */
  lemma {:induction false} FillKeys(H: HashFn, hs: seq<Digest>, memo: map<Range, Digest>, lo: nat, hi: nat)
    requires ClosedMemo(memo.Keys) && lo < hi <= |hs|
    ensures Fill(H, hs, memo, lo, hi).Keys == memo.Keys + Ranges(lo, hi)
    ensures ClosedMemo(memo.Keys + Ranges(lo, hi))
    decreases hi - lo
  {
    ClosedUnion(memo.Keys, lo, hi);
    if Range(lo, hi) in memo {
      assert Below(Range(lo, hi)) <= memo.Keys;
    } else if hi - lo > 1 {
      var mid := Mid(lo, hi);
      FillKeys(H, hs, memo, lo, mid);
      FillKeys(H, hs, Fill(H, hs, memo, lo, mid), mid, hi);
      FillStep(H, hs, memo, lo, mid, hi);
      assert memo.Keys + Ranges(lo, mid) + Ranges(mid, hi) + {Range(lo, hi)}
          == memo.Keys + ({Range(lo, hi)} + Ranges(lo, mid) + Ranges(mid, hi));
    }
  }

  lemma ClosedUnion(memo: set<Range>, lo: nat, hi: nat)
    requires ClosedMemo(memo) && lo < hi
    ensures ClosedMemo(memo + Ranges(lo, hi))
  {
    forall r | r in memo + Ranges(lo, hi) ensures Below(r) <= memo + Ranges(lo, hi) {
      if r in memo {
        assert Below(r) <= memo;
      } else {
        RangesNested(lo, hi, r);
      }
    }
  }

  /** The cost is the number of inner ranges that were missing. */
  lemma {:induction false} CostIsMissing(H: HashFn, hs: seq<Digest>, memo: map<Range, Digest>, lo: nat, hi: nat)
    requires ClosedMemo(memo.Keys) && lo < hi <= |hs|
    ensures Cost(H, hs, memo, lo, hi) == |Inner(Ranges(lo, hi) - memo.Keys)|
    decreases hi - lo
  {
    var key := Range(lo, hi);
    if key in memo {
      assert Below(key) <= memo.Keys;
      assert Ranges(lo, hi) - memo.Keys == {};
    } else if hi - lo == 1 {
      InnerOne(key);
      assert Ranges(lo, hi) - memo.Keys == {key};
    } else {
      var mid := Mid(lo, hi);
      var l, r := Ranges(lo, mid), Ranges(mid, hi);
      CostIsMissing(H, hs, memo, lo, mid);
      FillKeys(H, hs, memo, lo, mid);
      CostIsMissing(H, hs, Fill(H, hs, memo, lo, mid), mid, hi);
      RangesDisjoint(lo, mid, hi);
      FillStep(H, hs, memo, lo, mid, hi);
      MissingSplit(memo.Keys, key, l, r);
      InnerOne(key);
    }
  }

  lemma MissingSplit(memo: set<Range>, key: Range, l: set<Range>, r: set<Range>)
    requires key !in memo && key !in l && key !in r && l !! r
    ensures |Inner({key} + l + r - memo)| == |Inner({key})| + |Inner(l - memo)| + |Inner(r - (memo + l))|
  {
    assert {key} + l + r - memo == {key} + (l - memo) + (r - (memo + l));
    InnerUnion({key} + (l - memo), r - (memo + l));
    InnerUnion({key}, l - memo);
  }

  /** Once the head has been asked for, asking for any range of the tree is free. */
  lemma FilledIsFree(H: HashFn, hs: seq<Digest>, memo: map<Range, Digest>, lo: nat, hi: nat)
    requires lo < hi <= |hs| && Ranges(lo, hi) <= memo.Keys
    ensures Fill(H, hs, memo, lo, hi) == memo && Cost(H, hs, memo, lo, hi) == 0
  {
    assert Range(lo, hi) in Ranges(lo, hi);
  }

  class MerkleTree {
    const H: HashFn
    var leafHashes: seq<Digest>
    var cache: map<Range, Digest>
    /** Counts the node hashes computed so far. */
    ghost var nodeHashes: nat

    ghost predicate Valid()
      reads this
    {
      SoundMemo(H, leafHashes, cache) && ClosedMemo(cache.Keys)
    }

    constructor (H: HashFn)
      ensures Valid() && leafHashes == [] && cache == map[] && this.H == H && nodeHashes == 0
    {
      this.H := H;
      leafHashes := [];
      cache := map[];
      nodeHashes := 0;
    }

    function Size(): nat
      reads this
    {
      |leafHashes|
    }

    method Append(leaf: Bytes) returns (idx: nat)
      modifies this
      ensures Valid()
      ensures idx == old(|leafHashes|)
      ensures leafHashes == old(leafHashes) + [HashLeaf(H, leaf)]
      ensures cache == map[] && nodeHashes == old(nodeHashes)
    {
      idx := |leafHashes|;
      leafHashes := leafHashes + [HashLeaf(H, leaf)];
      cache := map[];
    }

    /** The head; computed from an empty memo it costs n-1 node hashes and leaves 2n-1 entries. */
    method Root() returns (root: Digest)
      requires Valid()
      modifies this`cache, this`nodeHashes
      ensures Valid()
      ensures root == HeadOfHashes(H, leafHashes)
      ensures leafHashes != [] ==> cache.Keys == old(cache).Keys + Ranges(0, |leafHashes|)
      ensures old(cache) == map[] && leafHashes != [] ==>
                nodeHashes == old(nodeHashes) + |leafHashes| - 1 && |cache| == 2 * |leafHashes| - 1
    {
      if |leafHashes| == 0 {
        return H([]);
      }
      root := MthRange(0, |leafHashes|);
      FillKeys(H, leafHashes, old(cache), 0, |leafHashes|);
      if old(cache) == map[] {
        FromEmpty(H, leafHashes);
      }
    }

    method MthRange(lo: nat, hi: nat) returns (r: Digest)
      requires SoundMemo(H, leafHashes, cache)
      requires lo < hi <= |leafHashes|
      modifies this`cache, this`nodeHashes
      ensures SoundMemo(H, leafHashes, cache)
      ensures r == Mth(H, leafHashes, lo, hi)
      ensures cache == Fill(H, leafHashes, old(cache), lo, hi)
      ensures nodeHashes == old(nodeHashes) + Cost(H, leafHashes, old(cache), lo, hi)
      decreases hi - lo
    {
      var key := Range(lo, hi);
      if key in cache {
        assert SoundEntry(H, leafHashes, cache, key);
        return cache[key];
      }
      if hi - lo == 1 {
        r := leafHashes[lo];
      } else {
        var mid := Mid(lo, hi);
        var left := MthRange(lo, mid);
        var right := MthRange(mid, hi);
        r := HashNode(H, left, right);
        nodeHashes := nodeHashes + 1;
        FillStep(H, leafHashes, old(cache), lo, mid, hi);
      }
      StoreSound(H, leafHashes, cache, lo, hi);
      cache := cache[key := r];
    }

    /** The audit path; an index outside the tree is the source's IndexError. Once the head
        has been computed, no path costs a node hash until the next append. */
    method InclusionProof(leafIndex: int) returns (res: Result<seq<Digest>, string>)
      requires Valid()
      modifies this`cache, this`nodeHashes
      ensures Valid()
      ensures res.Ok? <==> 0 <= leafIndex < |leafHashes|
      ensures res.Ok? ==> res.value == Path(H, leafHashes, leafIndex, 0, |leafHashes|)
      ensures leafHashes != [] && Ranges(0, |leafHashes|) <= old(cache).Keys ==>
                nodeHashes == old(nodeHashes) && cache == old(cache)
    {
      if leafIndex < 0 || leafIndex >= |leafHashes| {
        return Err("IndexError");
      }
      var p := ProofRange(leafIndex, 0, |leafHashes|);
      return Ok(p);
    }

    method ProofRange(m: nat, lo: nat, hi: nat) returns (p: seq<Digest>)
      requires Valid()
      requires lo <= m < hi <= |leafHashes|
      modifies this`cache, this`nodeHashes
      ensures Valid()
      ensures p == Path(H, leafHashes, m, lo, hi)
      ensures Ranges(lo, hi) <= old(cache).Keys ==> nodeHashes == old(nodeHashes) && cache == old(cache)
      decreases hi - lo
    {
      if hi - lo <= 1 {
        return [];
      }
      var mid := Mid(lo, hi);
      if m < mid {
        var rest := ProofRange(m, lo, mid);
        FillKeys(H, leafHashes, cache, mid, hi);
        if Ranges(mid, hi) <= cache.Keys {
          FilledIsFree(H, leafHashes, cache, mid, hi);
        }
        var sibling := MthRange(mid, hi);
        p := rest + [sibling];
      } else {
        var rest := ProofRange(m, mid, hi);
        FillKeys(H, leafHashes, cache, lo, mid);
        if Ranges(lo, mid) <= cache.Keys {
          FilledIsFree(H, leafHashes, cache, lo, mid);
        }
        var sibling := MthRange(lo, mid);
        p := rest + [sibling];
      }
    }
  }

  /** From an empty memo the head of n leaves costs n-1 node hashes and leaves 2n-1 entries. */
  lemma {:induction false} FromEmpty(H: HashFn, hs: seq<Digest>)
    requires hs != []
    ensures Cost(H, hs, map[], 0, |hs|) == |hs| - 1
    ensures |Fill(H, hs, map[], 0, |hs|)| == 2 * |hs| - 1
  {
    var none: map<Range, Digest> := map[];
    CostIsMissing(H, hs, none, 0, |hs|);
    FillKeys(H, hs, none, 0, |hs|);
    RangesCount(0, |hs|);
    assert Ranges(0, |hs|) - none.Keys == Ranges(0, |hs|);
    assert none.Keys + Ranges(0, |hs|) == Ranges(0, |hs|);
    var full := Fill(H, hs, none, 0, |hs|);
    assert |full| == |full.Keys|;
  }
}
