/**
 The SQLite index with its transparency log (provenex/index/merkle_sqlite_index.py): the row
 tables, the persistent leaf table, the in-memory tree and the fingerprint map stay in step.
 The inherited index is a component here.
 */
module MerkleIndex {
  import opened Basics
  import opened Hashing
  import opened Merkle
  import opened InclusionProof
  import opened MerkleTheorems
  import opened Payload
  import opened IndexTables
  import opened SqliteIndex

  /** A row of the leaf table. */
  datatype LeafRow = LeafRow(fingerprint: string, leafBytes: Bytes)

  ghost predicate Distinct(log: seq<RowKey>) {
    forall i, j :: 0 <= i < j < |log| ==> log[i] != log[j]
  }

  /** The leaf for a row: its fingerprint and the exact bytes its signature covers. */
  ghost predicate LeafOf(signer: Signer, t: Tables, k: RowKey, leaf: LeafRow) {
    && k in t.rows
    && CanonicalPayload(FieldsOf(k, t.rows[k])) == Ok(leaf.leafBytes)
    && t.rows[k].signature == signer.Sign(leaf.leafBytes)
    && leaf.fingerprint == k.fingerprint
  }

  ghost function Elements(log: seq<RowKey>): set<RowKey> {
    set k | k in log
  }

  /** The numbers below n. */
  ghost function Segment(n: nat): set<int> {
    if n == 0 then {} else Segment(n - 1) + {n - 1}
  }

  lemma {:induction false} SegmentIs(n: nat)
    ensures |Segment(n)| == n
    ensures forall i :: i in Segment(n) <==> 0 <= i < n
  {
    if n == 0 {
    } else {
      SegmentIs(n - 1);
    }
  }

  lemma StoreNext(leaves: map<int, LeafRow>, n: nat, next: nat, leaf: LeafRow)
    requires leaves.Keys == Segment(n) && next == n + 1
    ensures n !in leaves
    ensures leaves[n := leaf].Keys == Segment(next)
  {
    assert n !in Segment(n) by {
      SegmentIs(n);
    }
    assert leaves[n := leaf].Keys == leaves.Keys + {n};
    assert next - 1 == n;
  }

  ghost predicate LeavesMatch(signer: Signer, t: Tables, leaves: map<int, LeafRow>, log: seq<RowKey>) {
    forall i: nat {:trigger LeafAt(signer, t, leaves, log, i)} :: i < |log| ==> LeafAt(signer, t, leaves, log, i)
  }

  ghost predicate LeafAt(signer: Signer, t: Tables, leaves: map<int, LeafRow>, log: seq<RowKey>, i: nat)
    requires i < |log|
  {
    i in leaves && LeafOf(signer, t, log[i], leaves[i])
  }

  /** The stored part of the state: leaf i belongs to the i-th row ever inserted, and every row
      has exactly one leaf. */
  ghost predicate OnDisk(signer: Signer, t: Tables, leaves: map<int, LeafRow>, log: seq<RowKey>) {
    && Sound(signer, t)
    && t.rows.Keys == Elements(log) && |Elements(log)| == |log|
    && leaves.Keys == Segment(|log|)
    && LeavesMatch(signer, t, leaves, log)
  }

  lemma {:induction false} NoRepeats(log: seq<RowKey>)
    ensures |Elements(log)| <= |log|
    ensures |Elements(log)| == |log| ==> Distinct(log)
  {
    if log == [] {
    } else {
      var before, k := log[..|log| - 1], log[|log| - 1];
      assert log == before + [k];
      ElementsExtend(before, k);
      NoRepeats(before);
      if k in Elements(before) {
        assert Elements(before) + {k} == Elements(before);
      }
    }
  }

  /** Leaves and rows are in bijection: every row has exactly one leaf and every leaf is the
      signed payload of exactly one row. */
  lemma LeavesAndRowsBijective(signer: Signer, t: Tables, leaves: map<int, LeafRow>, log: seq<RowKey>)
    requires OnDisk(signer, t, leaves, log)
    ensures |leaves| == |t.rows| && Distinct(log)
    ensures forall k :: k in t.rows ==> exists i :: 0 <= i < |log| && log[i] == k
    ensures forall i :: 0 <= i < |log| ==> i in leaves && LeafOf(signer, t, log[i], leaves[i])
    ensures forall i :: i in leaves ==> 0 <= i < |log|
  {
    NoRepeats(log);
    SegmentIs(|log|);
    assert |leaves| == |leaves.Keys| && |t.rows| == |t.rows.Keys|;
    assert forall k :: k in t.rows ==> k in Elements(log);
    forall i | 0 <= i < |log| ensures i in leaves && LeafOf(signer, t, log[i], leaves[i]) {
      assert LeafAt(signer, t, leaves, log, i);
    }
  }

  /** The latest log position of every fingerprint. */
  ghost function LastIndex(log: seq<RowKey>): map<string, nat> {
    if log == [] then map[]
    else LastIndex(log[..|log| - 1])[log[|log| - 1].fingerprint := |log| - 1]
  }

  lemma {:induction false} LastIndexIsLatest(log: seq<RowKey>, fp: string)
    ensures fp in LastIndex(log) <==> exists i :: 0 <= i < |log| && log[i].fingerprint == fp
    ensures fp in LastIndex(log) ==>
              && LastIndex(log)[fp] < |log|
              && log[LastIndex(log)[fp]].fingerprint == fp
              && forall j :: LastIndex(log)[fp] < j < |log| ==> log[j].fingerprint != fp
  {
    if log == [] {
    } else {
      var before := log[..|log| - 1];
      LastIndexIsLatest(before, fp);
      assert forall i :: 0 <= i < |before| ==> before[i] == log[i];
      if log[|log| - 1].fingerprint != fp && fp in LastIndex(log) {
        assert LastIndex(log)[fp] == LastIndex(before)[fp];
      }
    }
  }

  /** The stored payloads with index below n. */
  ghost function LeafBytesUpTo(leaves: map<int, LeafRow>, n: nat): (s: seq<Bytes>)
    ensures |s| == n
  {
    seq(n, i requires 0 <= i < n => LeafBytesAt(leaves, i))
  }

  ghost function LeafBytesAt(leaves: map<int, LeafRow>, i: nat): Bytes {
    if i in leaves then leaves[i].leafBytes else []
  }

  /** The in-memory part mirrors the stored part. */
  ghost predicate InMemory(H: HashFn, leaves: map<int, LeafRow>, log: seq<RowKey>,
                           leafHashes: seq<Digest>, leafIndexByFp: map<string, nat>)
  {
    && leafHashes == LeafHashes(H, LeafBytesUpTo(leaves, |log|))
    && leafIndexByFp == LastIndex(log)
  }

  lemma KeptLeaves(signer: Signer, t: Tables, t': Tables, leaves: map<int, LeafRow>, log: seq<RowKey>)
    requires Keeps(t, t') && LeavesMatch(signer, t, leaves, log)
    ensures LeavesMatch(signer, t', leaves, log)
  {
    forall i: nat | i < |log| ensures LeafAt(signer, t', leaves, log, i) {
      assert LeafAt(signer, t, leaves, log, i);
      assert KeepsRow(t, t', log[i]);
    }
  }

  /** Operations never change a logged row's signed fields, so its leaf stays right. */
  lemma StepOnDisk(signer: Signer, t: Tables, op: Op, leaves: map<int, LeafRow>, log: seq<RowKey>)
    requires OnDisk(signer, t, leaves, log)
    requires NewKeys(signer, op) <= t.rows.Keys
    ensures OnDisk(signer, Apply(signer, t, op), leaves, log)
  {
    StepKeeps(signer, t, op);
    KeptLeaves(signer, t, Apply(signer, t, op), leaves, log);
  }

  lemma ElementsExtend(log: seq<RowKey>, k: RowKey)
    ensures Elements(log + [k]) == Elements(log) + {k}
    ensures k !in Elements(log) ==> |Elements(log + [k])| == |Elements(log)| + 1
  {
    assert Elements(log + [k]) == Elements(log) + {k};
  }

  /** Logging the leaf of the one new row. */
  lemma {:induction false} AppendOnDisk(signer: Signer, t: Tables, t': Tables, k: RowKey,
                     leaves: map<int, LeafRow>, log: seq<RowKey>, leaf: LeafRow)
    requires OnDisk(signer, t, leaves, log)
    requires Sound(signer, t') && Keeps(t, t') && k !in t.rows && t'.rows.Keys == t.rows.Keys + {k}
    requires LeafOf(signer, t', k, leaf)
    ensures |log| !in leaves
    ensures OnDisk(signer, t', leaves[|log| := leaf], log + [k])
  {
    ElementsExtend(log, k);
    KeptLeaves(signer, t, t', leaves, log);
    StoreNext(leaves, |log|, |log + [k]|, leaf);
    AppendMatch(signer, t', k, leaves, log, leaf);
  }

  lemma AppendMatch(signer: Signer, t: Tables, k: RowKey, leaves: map<int, LeafRow>, log: seq<RowKey>, leaf: LeafRow)
    requires LeavesMatch(signer, t, leaves, log) && LeafOf(signer, t, k, leaf)
    ensures LeavesMatch(signer, t, leaves[|log| := leaf], log + [k])
  {
    var log', leaves' := log + [k], leaves[|log| := leaf];
    forall i: nat | i < |log'| ensures LeafAt(signer, t, leaves', log', i) {
      assert i < |log| ==> LeafAt(signer, t, leaves, log, i);
    }
  }

  lemma LeafBytesExtend(leaves: map<int, LeafRow>, n: nat, leaf: LeafRow)
    ensures LeafBytesUpTo(leaves[n := leaf], n + 1) == LeafBytesUpTo(leaves, n) + [leaf.leafBytes]
  {
  }

  lemma AppendInMemory(H: HashFn, leaves: map<int, LeafRow>, log: seq<RowKey>, hs: seq<Digest>,
                       m: map<string, nat>, k: RowKey, leaf: LeafRow)
    requires InMemory(H, leaves, log, hs, m)
    ensures InMemory(H, leaves[|log| := leaf], log + [k], hs + [HashLeaf(H, leaf.leafBytes)], m[k.fingerprint := |log|])
  {
    assert (log + [k])[..|log|] == log;
    LeafBytesExtend(leaves, |log|, leaf);
    assert hs + [HashLeaf(H, leaf.leafBytes)] == LeafHashes(H, LeafBytesUpTo(leaves, |log|) + [leaf.leafBytes]);
  }

  /** Logging the one new row, stored part and in-memory part. */
  lemma AppendBoth(signer: Signer, t: Tables, t': Tables, k: RowKey, leaves: map<int, LeafRow>, log: seq<RowKey>,
                   leaf: LeafRow, H: HashFn, hs: seq<Digest>, m: map<string, nat>)
    requires OnDisk(signer, t, leaves, log) && InMemory(H, leaves, log, hs, m)
    requires Sound(signer, t') && Keeps(t, t') && k !in t.rows && t'.rows.Keys == t.rows.Keys + {k}
    requires LeafOf(signer, t', k, leaf)
    ensures |hs| == |log| && |log| !in leaves
    ensures OnDisk(signer, t', leaves[|hs| := leaf], log + [k])
    ensures InMemory(H, leaves[|hs| := leaf], log + [k], hs + [HashLeaf(H, leaf.leafBytes)], m[k.fingerprint := |hs|])
  {
    AppendOnDisk(signer, t, t', k, leaves, log, leaf);
    AppendInMemory(H, leaves, log, hs, m, k, leaf);
  }

  datatype Proof = Proof(leafBytes: Bytes, leafIndex: nat, path: seq<string>)

  function HexAll(p: seq<Bytes>): (s: seq<string>)
    ensures |s| == |p|
  {
    seq(|p|, i requires 0 <= i < |p| => PrefixedHex(p[i]))
  }

  class MerkleSqliteIndex {
    const H: HashFn
    const base: SqliteProvenanceIndex
    const tree: MerkleTree
    /** The persistent leaf table, keyed by leaf index. */
    var leaves: map<int, LeafRow>
    var leafIndexByFp: map<string, nat>
    /** The rows in insertion order. */
    ghost var log: seq<RowKey>

    ghost predicate Valid()
      reads this, base, tree
    {
      && base.Valid() && tree.Valid() && tree.H == H
      && OnDisk(base.signer, base.State(), leaves, log)
      && InMemory(H, leaves, log, tree.leafHashes, leafIndexByFp)
    }

    /** The logged payloads in leaf order. */
    ghost function Leaves(): (s: seq<Bytes>)
      requires Valid()
      reads this, base, tree
      ensures |s| == |log| == |tree.leafHashes|
    {
      LeafBytesUpTo(leaves, |log|)
    }

    constructor (H: HashFn, signer: Signer)
      ensures Valid() && log == [] && base.State() == EMPTY_TABLES
      ensures fresh(base) && fresh(tree) && base.signer == signer && this.H == H
    {
      this.H := H;
      base := new SqliteProvenanceIndex(signer);
      tree := new MerkleTree(H);
      leaves := map[];
      leafIndexByFp := map[];
      log := [];
    }

    /** Opens an existing database and replays its leaf table in index order: tree and map are
        functions of what is stored. */
    constructor Open(H: HashFn, base: SqliteProvenanceIndex, leaves: map<int, LeafRow>, ghost log: seq<RowKey>)
      requires base.Valid() && OnDisk(base.signer, base.State(), leaves, log)
      ensures Valid() && fresh(tree)
      ensures this.base == base && this.H == H && this.leaves == leaves && this.log == log
    {
      this.H := H;
      this.base := base;
      this.tree := new MerkleTree(H);
      this.leaves := leaves;
      this.leafIndexByFp := map[];
      this.log := log;
      new;
      RebuildTreeFromDisk(base.State());
    }

    method RebuildTreeFromDisk(ghost t: Tables)
      requires tree.Valid() && tree.H == H && tree.leafHashes == [] && leafIndexByFp == map[]
      requires OnDisk(base.signer, t, leaves, log)
      modifies this`leafIndexByFp, tree
      ensures tree.Valid()
      ensures InMemory(H, leaves, log, tree.leafHashes, leafIndexByFp)
    {
      SegmentIs(|log|);
      assert |leaves| == |leaves.Keys|;
      var i := 0;
      while i < |leaves|
        invariant i <= |leaves|
        invariant tree.Valid()
        invariant InMemory(H, leaves, log[..i], tree.leafHashes, leafIndexByFp)
      {
        assert LeafAt(base.signer, t, leaves, log, i);
        var row := leaves[i];
        AppendInMemory(H, leaves, log[..i], tree.leafHashes, leafIndexByFp, log[i], row);
        assert log[..i + 1] == log[..i] + [log[i]] && leaves[i := row] == leaves;
        var idx := tree.Append(row.leafBytes);
        leafIndexByFp := leafIndexByFp[row.fingerprint := i];
        i := i + 1;
      }
      assert log[..|log|] == log;
    }

    /** A new row gets the next leaf; a repeated or rejected `add` leaves the log alone. */
    method Add(op: Op) returns (error: Option<AddError>)
      requires Valid() && op.Add?
      modifies this, base, tree
      ensures Valid()
      ensures base.State() == Apply(base.signer, old(base.State()), op)
      ensures error == None <==> Effective(base.signer, op)
      ensures log == if error == None && op.key !in old(base.rows) then old(log) + [op.key] else old(log)
      ensures forall i :: i in old(leaves) ==> i in leaves && leaves[i] == old(leaves)[i]
    {
      ghost var before := base.State();
      var existed := op.key in base.rows;
      error := base.Add(op);
      if error.Some? || existed {
        StepOnDisk(base.signer, before, op, leaves, log);
        return;
      }
      StepKeeps(base.signer, before, op);
      AppendLeaf(op.key, before);
    }

    /** Reads a row back and rebuilds the payload its signature covers. */
    method ReadBack(key: RowKey) returns (leaf: LeafRow)
      requires base.Valid() && key in base.rows
      ensures LeafOf(base.signer, base.State(), key, leaf)
    {
      assert SoundRow(base.signer, base.State(), key);
      leaf := LeafRow(key.fingerprint, CanonicalPayload(FieldsOf(key, base.rows[key])).value);
    }

    method AppendLeaf(key: RowKey, ghost before: Tables)
      requires tree.Valid() && tree.H == H && base.Valid()
      requires OnDisk(base.signer, before, leaves, log)
      requires InMemory(H, leaves, log, tree.leafHashes, leafIndexByFp)
      requires Keeps(before, base.State()) && key !in before.rows && base.rows.Keys == before.rows.Keys + {key}
      modifies this, tree
      ensures Valid()
      ensures log == old(log) + [key]
      ensures forall i :: i in old(leaves) ==> i in leaves && leaves[i] == old(leaves)[i]
    {
      var leaf := ReadBack(key);
      ghost var now, was := base.State(), leaves;
      AppendBoth(base.signer, before, now, key, leaves, log, leaf, H, tree.leafHashes, leafIndexByFp);
      StoreLeaf(key, leaf);
      assert base.State() == now;
      assert OnDisk(base.signer, now, leaves, log);
      assert InMemory(H, leaves, log, tree.leafHashes, leafIndexByFp);
    }

    method StoreLeaf(key: RowKey, leaf: LeafRow)
      requires tree.Valid() && tree.H == H
      modifies this, tree
      ensures base.State() == old(base.State())
      ensures tree.Valid()
      ensures tree.leafHashes == old(tree.leafHashes) + [HashLeaf(H, leaf.leafBytes)]
      ensures leaves == old(leaves)[|old(tree.leafHashes)| := leaf]
      ensures leafIndexByFp == old(leafIndexByFp)[key.fingerprint := |old(tree.leafHashes)|]
      ensures log == old(log) + [key]
    {
      var leafIndex := tree.Size();
      leaves := leaves[leafIndex := leaf];
      var idx := tree.Append(leaf.leafBytes);
      leafIndexByFp := leafIndexByFp[key.fingerprint := leafIndex];
      log := log + [key];
    }

    /** The inherited writers do not touch the log. */
    method Supersede(documentId: string, newVersion: string) returns (count: nat)
      requires Valid()
      modifies base
      ensures Valid()
      ensures base.State() == Apply(base.signer, old(base.State()), Op.Supersede(documentId, newVersion))
    {
      StepOnDisk(base.signer, base.State(), Op.Supersede(documentId, newVersion), leaves, log);
      count := base.Supersede(documentId, newVersion);
    }

    method SetAuthorization(documentId: string, authorized: bool)
      requires Valid()
      modifies base
      ensures Valid()
      ensures base.State() == Apply(base.signer, old(base.State()), Op.SetAuthorization(documentId, authorized))
    {
      StepOnDisk(base.signer, base.State(), Op.SetAuthorization(documentId, authorized), leaves, log);
      base.SetAuthorization(documentId, authorized);
    }

    function TreeSize(): nat
      reads this, tree
    {
      tree.Size()
    }

    method TreeRoot() returns (root: string)
      requires Valid()
      modifies tree
      ensures Valid()
      ensures root == PrefixedHex(Head(H, Leaves()))
    {
      var digest := tree.Root();
      root := PrefixedHex(digest);
    }

    /** A proof exists exactly for fingerprints that have a row; it is for the latest leaf of the
        fingerprint, and it verifies against the current size and head. */
    method InclusionProof(fingerprint: string) returns (res: Result<Proof, string>)
      requires Valid()
      modifies tree
      ensures Valid()
      ensures res.Ok? <==> exists k :: RowFor(base.State(), fingerprint, k)
      ensures res.Ok? ==>
                && fingerprint in LastIndex(log)
                && res.value.leafIndex == LastIndex(log)[fingerprint] < |log|
                && res.value.leafBytes == Leaves()[res.value.leafIndex]
      ensures res.Ok? ==>
                var path := Path(H, tree.leafHashes, res.value.leafIndex, 0, |tree.leafHashes|);
                && res.value.path == HexAll(path)
                && Accepts(H, res.value.leafBytes, res.value.leafIndex, TreeSize(), path, Head(H, Leaves()))
    {
      LastIndexIsLatest(log, fingerprint);
      if fingerprint !in leafIndexByFp {
        assert forall k :: RowFor(base.State(), fingerprint, k) ==> k in Elements(log);
        return Err("KeyError");
      }
      var leafIndex := leafIndexByFp[fingerprint];
      assert LeafAt(base.signer, base.State(), leaves, log, leafIndex);
      assert RowFor(base.State(), fingerprint, log[leafIndex]);
      var path := tree.InclusionProof(leafIndex);
      Completeness(H, Leaves(), leafIndex);
      res := Ok(Proof(leaves[leafIndex].leafBytes, leafIndex, HexAll(path.value)));
    }
  }

  /** Closing and reopening a database rebuilds the same tree and the same map. */
  method Reopen(index: MerkleSqliteIndex) returns (again: MerkleSqliteIndex)
    requires index.Valid()
    ensures again.Valid() && again.base == index.base && again.leaves == index.leaves
    ensures again.tree.leafHashes == index.tree.leafHashes
    ensures again.leafIndexByFp == index.leafIndexByFp
  {
    again := new MerkleSqliteIndex.Open(index.H, index.base, index.leaves, index.log);
  }
}
