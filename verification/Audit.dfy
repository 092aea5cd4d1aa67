/**
 The offline check of inclusion proofs on a receipt (provenex/cli/main.py), and what an accepted
 source says about the log it was checked against.
 */
module Audit {
  import opened Basics
  import opened Hashing
  import opened Merkle
  import opened InclusionProof
  import opened MerkleTheorems
  import opened Payload
  import opened IndexTables
  import opened SqliteIndex
  import opened MerkleIndex

  /** A number in a receipt, or something `int` does not convert. */
  datatype JsonInt = Absent | Malformed | Number(n: int)

  /** A receipt's source. `fields` is absent when a field is missing or cannot be converted. */
  datatype Source = Source(fields: Option<Fields>, leafIndex: JsonInt, inclusionProof: Option<seq<string>>)

  /** A receipt's log head; an empty root stands for a missing one, and a size that is missing or
      does not convert is none. */
  datatype LogHead = LogHead(treeSize: Option<int>, treeRoot: string)

  datatype Finding = Finding(source: nat, ok: bool)

  /** Sources without a proof or an index are skipped. */
  predicate Checked(s: Source) {
    s.inclusionProof.Some? && !s.leafIndex.Absent?
  }

  function DecodeAll(p: seq<string>): Option<seq<Bytes>> {
    if p == [] then Some([])
    else
      match (HexOf(p[0]), DecodeAll(p[1..]))
      case (Some(b), Some(rest)) => Some([b] + rest)
      case _ => None
  }

  /** The verdict on a checked source: fields, proof and root must decode, then the proof must
      verify. Any failure on the way counts against the source. */
  predicate SourceOk(H: HashFn, head: LogHead, s: Source)
    requires Checked(s)
  {
    && head.treeSize.Some? && head.treeRoot != ""
    && s.fields.Some? && s.leafIndex.Number? && CanonicalPayload(s.fields.value).Ok?
    && DecodeAll(s.inclusionProof.value).Some?
    && HexOf(head.treeRoot).Some?
    && Accepts(H, CanonicalPayload(s.fields.value).value, s.leafIndex.n, head.treeSize.value,
               DecodeAll(s.inclusionProof.value).value, HexOf(head.treeRoot).value)
  }

  method DecodeProof(p: seq<string>) returns (res: Option<seq<Bytes>>)
    ensures res == DecodeAll(p)
  {
    var acc: seq<Bytes> := [];
    assert p[0..] == p;
    for i := 0 to |p|
      invariant DecodeAll(p).Some? == DecodeAll(p[i..]).Some?
      invariant DecodeAll(p).Some? ==> DecodeAll(p).value == acc + DecodeAll(p[i..]).value
    {
      assert p[i..][0] == p[i] && p[i..][1..] == p[i + 1..];
      match HexOf(p[i]) {
        case None => return None;
        case Some(b) =>
          if DecodeAll(p[i + 1..]).Some? {
            var rest := DecodeAll(p[i + 1..]).value;
            assert acc + ([b] + rest) == acc + [b] + rest;
          }
          acc := acc + [b];
      }
    }
    assert acc + [] == acc;
    res := Some(acc);
  }

  /** A proof decodes exactly when each of its hashes does, into those hashes in order. */
  lemma {:induction false} DecodesIff(p: seq<string>)
    ensures DecodeAll(p).Some? <==> forall i :: 0 <= i < |p| ==> HexOf(p[i]).Some?
    ensures DecodeAll(p).Some? ==>
              && |DecodeAll(p).value| == |p|
              && forall i :: 0 <= i < |p| ==> HexOf(p[i]) == Some(DecodeAll(p).value[i])
  {
    if p == [] {
    } else {
      DecodesIff(p[1..]);
      assert forall i :: 1 <= i < |p| ==> p[i] == p[1..][i - 1];
    }
  }

  /** What makes a source fail before its proof is verified: no head, a field, index or size that is missing or
      does not convert, a field with a forbidden character, or a hash that does not decode. */
  predicate Unreadable(head: LogHead, s: Source) {
    || head.treeRoot == "" || head.treeSize == None || s.fields == None || !s.leafIndex.Number?
    || (s.fields.Some? && CanonicalPayload(s.fields.value).Err?)
    || HexOf(head.treeRoot) == None
    || (s.inclusionProof.Some? && exists h :: h in s.inclusionProof.value && HexOf(h) == None)
  }

  /** Of the sources with a proof and an index an unreadable one fails, and any other passes exactly when the
      verifier accepts its payload at its index with the hashes it lists. */
  lemma VerdictIs(H: HashFn, head: LogHead, s: Source)
    requires Checked(s)
    ensures Unreadable(head, s) ==> !SourceOk(H, head, s)
    ensures !Unreadable(head, s) ==>
              forall proof: seq<Bytes> ::
                |proof| == |s.inclusionProof.value|
                && (forall i :: 0 <= i < |proof| ==> HexOf(s.inclusionProof.value[i]) == Some(proof[i])) ==>
                  (SourceOk(H, head, s) <==>
                   Accepts(H, CanonicalPayload(s.fields.value).value, s.leafIndex.n, head.treeSize.value, proof,
                           HexOf(head.treeRoot).value))
  {
    var p := s.inclusionProof.value;
    DecodesIff(p);
    if !Unreadable(head, s) {
      forall proof: seq<Bytes> | |proof| == |p| && forall i :: 0 <= i < |proof| ==> HexOf(p[i]) == Some(proof[i])
        ensures proof == DecodeAll(p).value
      {
      }
    }
  }

  predicate TrueFinding(H: HashFn, head: LogHead, sources: seq<Source>, f: Finding) {
    f.source < |sources| && Checked(sources[f.source]) && f.ok == SourceOk(H, head, sources[f.source])
  }

  /** One finding per checked source, in order, and none for the others. */
  method AuditInclusionProofs(H: HashFn, head: LogHead, sources: seq<Source>) returns (out: seq<Finding>)
    ensures forall i, j :: 0 <= i < j < |out| ==> out[i].source < out[j].source
    ensures forall f :: f in out ==> TrueFinding(H, head, sources, f)
    ensures forall i :: 0 <= i < |sources| ==>
              ((exists f :: f in out && f.source == i) <==>
               sources[i].inclusionProof.Some? && sources[i].leafIndex != Absent)
  {
    out := [];
    for i := 0 to |sources|
      invariant forall a, b :: 0 <= a < b < |out| ==> out[a].source < out[b].source
      invariant forall f :: f in out ==> f.source < i && TrueFinding(H, head, sources, f)
      invariant forall k :: 0 <= k < i && Checked(sources[k]) ==> exists f :: f in out && f.source == k
    {
      if Checked(sources[i]) {
        var ok := AuditSource(H, head, sources[i]);
        ghost var before := out;
        out := out + [Finding(i, ok)];
        assert out[|before|] == Finding(i, ok);
        assert forall f :: f in before ==> f in out;
      }
    }
  }

  method AuditSource(H: HashFn, head: LogHead, s: Source) returns (ok: bool)
    requires Checked(s)
    ensures ok == SourceOk(H, head, s)
  {
    if head.treeRoot == "" || head.treeSize == None || s.fields == None || !s.leafIndex.Number? {
      return false;
    }
    var leaf := CanonicalPayload(s.fields.value);
    var proof := DecodeProof(s.inclusionProof.value);
    var root := HexOf(head.treeRoot);
    if leaf.Err? || proof == None || root == None {
      return false;
    }
    ok := VerifyInclusionProof(H, leaf.value, s.leafIndex.n, head.treeSize.value, proof.value, root.value);
  }

  // ---------------------------------------------------------------- what acceptance means

  ghost predicate AllValid(rows: seq<Fields>) {
    forall i :: 0 <= i < |rows| ==> ValidFields(rows[i])
  }

  /** The log of the payloads of these rows. */
  function PayloadLog(rows: seq<Fields>): (log: seq<Bytes>)
    requires AllValid(rows)
    ensures |log| == |rows|
  {
    seq(|rows|, i requires 0 <= i < |rows| => CanonicalPayload(rows[i]).value)
  }

  /** An accepted source has all six fields of the row at its leaf index, or its proof yields a
      hash collision. */
  lemma AcceptedSourceIsLogged(H: HashFn, head: LogHead, s: Source, rows: seq<Fields>)
    requires AllValid(rows) && head.treeSize == Some(|rows|)
    requires HexOf(head.treeRoot) == Some(Head(H, PayloadLog(rows)))
    requires Checked(s) && SourceOk(H, head, s)
    ensures 0 <= s.leafIndex.n < |rows|
    ensures s.fields == Some(rows[s.leafIndex.n])
         || IsCollision(H, InclusionCollision(H, CanonicalPayload(s.fields.value).value, PayloadLog(rows),
                                              s.leafIndex.n, DecodeAll(s.inclusionProof.value).value))
  {
    var i := s.leafIndex.n;
    Soundness(H, CanonicalPayload(s.fields.value).value, PayloadLog(rows), i, DecodeAll(s.inclusionProof.value).value);
    if CanonicalPayload(s.fields.value).value == PayloadLog(rows)[i] {
      PayloadInjective(s.fields.value, rows[i]);
    }
  }

  lemma {:induction false} DecodeEncoded(p: seq<Bytes>)
    ensures DecodeAll(HexAll(p)) == Some(p)
  {
    if p == [] {
    } else {
      PrefixedHexRoundTrip(p[0]);
      assert HexAll(p)[1..] == HexAll(p[1..]);
      DecodeEncoded(p[1..]);
      assert p == [p[0]] + p[1..];
    }
  }

  /** A receipt source for a looked-up row and a proof from the index. */
  function SourceFor(key: RowKey, row: Row, proof: Proof): Source {
    Source(Some(FieldsOf(key, row)), Number(proof.leafIndex), Some(proof.path))
  }

  /** A source that pairs a row with the proof of that row's own leaf is accepted. */
  lemma OwnProofAccepted(H: HashFn, key: RowKey, row: Row, proof: Proof, path: seq<Digest>, n: nat, root: Digest)
    requires CanonicalPayload(FieldsOf(key, row)) == Ok(proof.leafBytes)
    requires proof.path == HexAll(path) && Accepts(H, proof.leafBytes, proof.leafIndex, n, path, root)
    ensures SourceOk(H, LogHead(Some(n), PrefixedHex(root)), SourceFor(key, row, proof))
  {
    DecodeEncoded(path);
    PrefixedHexRoundTrip(root);
  }

  /** The fields of the logged rows, in leaf order. */
  ghost function LoggedFields(t: Tables, log: seq<RowKey>): (rows: seq<Fields>)
    requires Elements(log) <= t.rows.Keys
    ensures |rows| == |log|
  {
    seq(|log|, i requires 0 <= i < |log| => assert log[i] in Elements(log); FieldsOf(log[i], t.rows[log[i]]))
  }

  lemma LoggedFieldsAreLeaves(signer: Signer, t: Tables, leaves: map<int, LeafRow>, log: seq<RowKey>)
    requires OnDisk(signer, t, leaves, log)
    ensures AllValid(LoggedFields(t, log))
    ensures PayloadLog(LoggedFields(t, log)) == LeafBytesUpTo(leaves, |log|)
  {
    forall i | 0 <= i < |log|
      ensures CanonicalPayload(LoggedFields(t, log)[i]) == Ok(LeafBytesAt(leaves, i))
    {
      assert LeafAt(signer, t, leaves, log, i);
    }
  }

  /** A proof for another row's leaf is not accepted for this row, short of a collision. */
  lemma ForeignProofRejected(H: HashFn, signer: Signer, t: Tables, leaves: map<int, LeafRow>, log: seq<RowKey>,
                             key: RowKey, proof: Proof, head: LogHead)
    requires OnDisk(signer, t, leaves, log) && key in t.rows && proof.leafIndex < |log|
    requires head == LogHead(Some(|log|), PrefixedHex(Head(H, LeafBytesUpTo(leaves, |log|))))
    requires SourceOk(H, head, SourceFor(key, t.rows[key], proof))
    ensures key == log[proof.leafIndex]
         || IsCollision(H, InclusionCollision(H, CanonicalPayload(FieldsOf(key, t.rows[key])).value,
                                              LeafBytesUpTo(leaves, |log|), proof.leafIndex,
                                              DecodeAll(proof.path).value))
  {
    LoggedFieldsAreLeaves(signer, t, leaves, log);
    PrefixedHexRoundTrip(Head(H, LeafBytesUpTo(leaves, |log|)));
    AcceptedSourceIsLogged(H, head, SourceFor(key, t.rows[key], proof), LoggedFields(t, log));
  }

  /** Fills a source and a head from one index state: `lookup`, `inclusion_proof`, `tree_size`
      and `tree_root`. The audit accepts it when the looked-up row owns the fingerprint's latest
      leaf, in particular whenever the fingerprint has a single row. */
  method SourceFromIndex(index: MerkleSqliteIndex, fingerprint: string)
    returns (s: Option<Source>, head: LogHead, key: RowKey, proof: Proof)
    requires index.Valid()
    modifies index.tree
    ensures index.Valid()
    ensures s.Some? <==> exists k :: RowFor(index.base.State(), fingerprint, k)
    ensures head == LogHead(Some(|index.log|), PrefixedHex(Head(index.H, index.Leaves())))
    ensures s.Some? ==> RowFor(index.base.State(), fingerprint, key) && proof.leafIndex < |index.log|
    ensures s.Some? ==> s.value == SourceFor(key, index.base.rows[key], proof)
    ensures index.log == old(index.log) && index.leaves == old(index.leaves)
    ensures s.Some? ==> IsBest(index.base.State(), Candidates(index.base.State(), fingerprint), key)
    ensures s.Some? ==> fingerprint in LastIndex(index.log) && proof.leafIndex == LastIndex(index.log)[fingerprint]
    ensures s.Some? && key == index.log[proof.leafIndex] ==> SourceOk(index.H, head, s.value)
    ensures s.Some? && (forall k :: RowFor(index.base.State(), fingerprint, k) ==> k == key) ==>
              SourceOk(index.H, head, s.value)
  {
    var entry := index.base.Lookup(fingerprint);
    var found := index.InclusionProof(fingerprint);
    var root := index.TreeRoot();
    head := LogHead(Some(index.TreeSize()), root);
    CandidatesAreRows(index.base.signer, index.base.State(), fingerprint);
    if entry == None || found.Err? {
      return None, head, RowKey("", "", ""), Proof([], 0, []);
    }
    key, proof := entry.value.key, found.value;
    s := Some(SourceFor(key, entry.value.row, proof));
    var i := proof.leafIndex;
    assert LeafAt(index.base.signer, index.base.State(), index.leaves, index.log, i);
    LastIndexIsLatest(index.log, fingerprint);
    assert RowFor(index.base.State(), fingerprint, index.log[i]);
    if index.log[i] == key {
      ghost var path := Path(index.H, index.tree.leafHashes, i, 0, |index.tree.leafHashes|);
      OwnProofAccepted(index.H, key, entry.value.row, proof, path, index.TreeSize(), Head(index.H, index.Leaves()));
    }
  }

  /** Two documents share a fingerprint, and the one added last is superseded: every row that lookup
      may return is the first document's, and the latest leaf is the second's. */
  lemma LookupAndProofDisagree(signer: Signer, a: Op, b: Op, version: string)
    requires a.Add? && b.Add? && Effective(signer, a) && Effective(signer, b)
    requires a.key.fingerprint == b.key.fingerprint && a.key.documentId != b.key.documentId
    requires version != b.key.documentVersion
    ensures var fp, log := a.key.fingerprint, [a.key, b.key];
            var t := Apply(signer, Apply(signer, Apply(signer, EMPTY_TABLES, a), b),
                           Supersede(b.key.documentId, version));
            && (forall k :: IsBest(t, Candidates(t, fp), k) ==> k == a.key)
            && fp in LastIndex(log) && LastIndex(log)[fp] == 1 && log[1] != a.key
  {
    var one := Apply(signer, EMPTY_TABLES, a);
    var two := Apply(signer, one, b);
    var t := Apply(signer, two, Supersede(b.key.documentId, version));
    StepKeeps(signer, EMPTY_TABLES, a);
    StepKeeps(signer, one, b);
    StepKeeps(signer, two, Supersede(b.key.documentId, version));
    assert t.rows.Keys == {a.key, b.key};
    StepRow(signer, EMPTY_TABLES, a, a.key);
    StepRow(signer, one, b, a.key);
    StepRow(signer, two, Supersede(b.key.documentId, version), a.key);
    StepRow(signer, two, Supersede(b.key.documentId, version), b.key);
    assert SoundRow(signer, t, a.key);
    assert a.key in Candidates(t, a.key.fingerprint);
    LastIndexIsLatest([a.key, b.key], a.key.fingerprint);
    assert [a.key, b.key][1].fingerprint == a.key.fingerprint;
  }

  /** A new index with one row. */
  method AddFirst(H: HashFn, signer: Signer, a: Op) returns (index: MerkleSqliteIndex)
    requires a.Add? && Effective(signer, a)
    ensures fresh(index) && fresh(index.base) && fresh(index.tree) && index.Valid()
    ensures index.H == H && index.base.signer == signer && index.log == [a.key]
    ensures index.base.State() == Apply(signer, EMPTY_TABLES, a) && index.base.rows.Keys == {a.key}
  {
    index := new MerkleSqliteIndex(H, signer);
    StepKeeps(signer, EMPTY_TABLES, a);
    var error := index.Add(a);
    assert index.base.State().rows.Keys == {a.key};
  }

  /** And with a second one. */
  method AddTwo(H: HashFn, signer: Signer, a: Op, b: Op) returns (index: MerkleSqliteIndex)
    requires a.Add? && b.Add? && Effective(signer, a) && Effective(signer, b) && a.key != b.key
    ensures fresh(index) && fresh(index.base) && fresh(index.tree) && index.Valid()
    ensures index.H == H && index.base.signer == signer && index.log == [a.key, b.key]
    ensures index.base.State() == Apply(signer, Apply(signer, EMPTY_TABLES, a), b)
  {
    index := AddFirst(H, signer, a);
    var error := index.Add(b);
  }

  /** The calls that lead to such an index. */
  method SharedFingerprintIndex(H: HashFn, signer: Signer, a: Op, b: Op, version: string)
    returns (index: MerkleSqliteIndex)
    requires a.Add? && b.Add? && Effective(signer, a) && Effective(signer, b)
    requires a.key.fingerprint == b.key.fingerprint && a.key.documentId != b.key.documentId
    requires version != b.key.documentVersion
    ensures fresh(index) && fresh(index.base) && fresh(index.tree) && index.Valid()
    ensures index.H == H && index.base.signer == signer && index.log == [a.key, b.key]
    ensures forall k :: IsBest(index.base.State(), Candidates(index.base.State(), a.key.fingerprint), k) ==> k == a.key
    ensures RowFor(index.base.State(), a.key.fingerprint, a.key)
    ensures a.key.fingerprint in LastIndex(index.log) && LastIndex(index.log)[a.key.fingerprint] == 1
  {
    index := AddTwo(H, signer, a, b);
    LookupAndProofDisagree(signer, a, b, version);
    var count := index.Supersede(b.key.documentId, version);
    assert index.log[0] in Elements(index.log);
  }

  /** A row with the proof of another row's leaf fails the audit, short of a collision. */
  lemma MismatchRejected(H: HashFn, signer: Signer, t: Tables, leaves: map<int, LeafRow>, log: seq<RowKey>,
                         key: RowKey, proof: Proof, head: LogHead)
    requires OnDisk(signer, t, leaves, log) && key in t.rows && proof.leafIndex < |log|
    requires head == LogHead(Some(|log|), PrefixedHex(Head(H, LeafBytesUpTo(leaves, |log|))))
    requires key != log[proof.leafIndex]
    ensures ValidFields(FieldsOf(key, t.rows[key])) && AllValid(LoggedFields(t, log))
    ensures head == LogHead(Some(|log|), PrefixedHex(Head(H, PayloadLog(LoggedFields(t, log)))))
    ensures !SourceOk(H, head, SourceFor(key, t.rows[key], proof))
         || IsCollision(H, InclusionCollision(H, CanonicalPayload(FieldsOf(key, t.rows[key])).value,
                                              PayloadLog(LoggedFields(t, log)), proof.leafIndex,
                                              DecodeAll(proof.path).value))
  {
    assert SoundRow(signer, t, key);
    LoggedFieldsAreLeaves(signer, t, leaves, log);
    if SourceOk(H, head, SourceFor(key, t.rows[key], proof)) {
      ForeignProofRejected(H, signer, t, leaves, log, key, proof, head);
    }
  }

  /** So a source filled from such an index pairs the first document's row with the proof of the
      second's leaf, and the audit rejects it, short of a collision. */
  method MismatchedSource(H: HashFn, signer: Signer, a: Op, b: Op, version: string)
    returns (s: Option<Source>, head: LogHead, ghost rows: seq<Fields>)
    requires a.Add? && b.Add? && Effective(signer, a) && Effective(signer, b)
    requires a.key.fingerprint == b.key.fingerprint && a.key.documentId != b.key.documentId
    requires version != b.key.documentVersion
    ensures |rows| == 2 && AllValid(rows) && head == LogHead(Some(2), PrefixedHex(Head(H, PayloadLog(rows))))
    ensures s.Some? && Checked(s.value) && s.value.leafIndex == Number(1)
    ensures s.value.fields.Some? && s.value.fields.value.documentId == a.key.documentId
    ensures CanonicalPayload(s.value.fields.value).Ok?
    ensures !SourceOk(H, head, s.value)
         || IsCollision(H, InclusionCollision(H, CanonicalPayload(s.value.fields.value).value, PayloadLog(rows), 1,
                                              DecodeAll(s.value.inclusionProof.value).value))
  {
    var index := SharedFingerprintIndex(H, signer, a, b, version);
    var key, proof;
    s, head, key, proof := SourceFromIndex(index, a.key.fingerprint);
    rows := LoggedFields(index.base.State(), index.log);
    MismatchRejected(H, signer, index.base.State(), index.leaves, index.log, key, proof, head);
  }

  lemma CandidatesAreRows(signer: Signer, t: Tables, fingerprint: string)
    requires Sound(signer, t)
    ensures Candidates(t, fingerprint) == {} <==> !exists k :: RowFor(t, fingerprint, k)
  {
    forall k | RowFor(t, fingerprint, k) ensures k in Candidates(t, fingerprint) {
      assert SoundRow(signer, t, k);
    }
    forall k | k in Candidates(t, fingerprint) ensures RowFor(t, fingerprint, k) {
    }
  }
}
