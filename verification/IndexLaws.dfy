/**
 What the writing operations of the provenance index do to the two tables, column by column, and
 which row `lookup` prefers (provenex/index/sqlite_index.py). Stated in terms of the arguments and
 the tables alone.
 */
module IndexLaws {
  import opened Basics
  import opened Payload
  import opened IndexTables

  /** A character that would make the signed payload ambiguous. */
  predicate HoldsForbidden(s: string) {
    exists c :: c in ['\n', '\r', '\0'] && c in s
  }

  /** `add` rejects exactly: a fingerprint or a version that does not start with "sha256:", or a
      forbidden character in one of the four text fields. */
  lemma AddRejectedIff(signer: Signer, op: Op)
    requires op.Add?
    ensures !Effective(signer, op) <==>
              || |op.key.fingerprint| < 7 || op.key.fingerprint[..7] != "sha256:"
              || |op.key.documentVersion| < 7 || op.key.documentVersion[..7] != "sha256:"
              || HoldsForbidden(op.key.fingerprint) || HoldsForbidden(op.key.documentId)
              || HoldsForbidden(op.key.documentVersion) || HoldsForbidden(op.now)
  {
    Prefixed(op.key.fingerprint);
    Prefixed(op.key.documentVersion);
    ForbiddenIsInvalid(op.key.fingerprint);
    ForbiddenIsInvalid(op.key.documentId);
    ForbiddenIsInvalid(op.key.documentVersion);
    ForbiddenIsInvalid(op.now);
  }

  lemma Prefixed(s: string)
    ensures HasDigestPrefix(s) <==> |s| >= 7 && s[..7] == "sha256:"
  {
    if HasDigestPrefix(s) {
      assert s[..7] == "sha256:";
    }
  }

  lemma ForbiddenIsInvalid(s: string)
    ensures HoldsForbidden(s) <==> !ValidField(s)
  {
    var forbidden := ['\n', '\r', '\0'];
    assert forbidden[0] == '\n' && forbidden[1] == '\r' && forbidden[2] == '\0';
  }

  /** A rejected `add` changes nothing. */
  lemma RejectedChangesNothing(signer: Signer, t: Tables, op: Op)
    requires !Effective(signer, op)
    ensures Apply(signer, t, op) == t
  {
  }

  /** The row a new `add` stores: its own arguments, the clock reading, not superseded, and the MAC
      of the payload of exactly these six fields. */
  lemma AddStores(signer: Signer, t: Tables, op: Op)
    requires op.Add? && Effective(signer, op) && op.key !in t.rows
    ensures op.key in Apply(signer, t, op).rows
    ensures var row := Apply(signer, t, op).rows[op.key];
            && row.ingestedAt == op.now && row.chunkOffset == op.chunkOffset && row.chunkLength == op.chunkLength
            && !row.superseded
    ensures var f := Fields(op.key.fingerprint, op.key.documentId, op.key.documentVersion, op.now, op.chunkOffset,
                            op.chunkLength);
            && CanonicalPayload(f).Ok?
            && Apply(signer, t, op).rows[op.key].signature == signer.mac(signer.secret, CanonicalPayload(f).value)
  {
  }

  /** An accepted `add` gives its document the version and the flag, and touches no other document. */
  lemma AddDocuments(signer: Signer, t: Tables, op: Op, d: string)
    requires op.Add? && Effective(signer, op)
    ensures var after := Apply(signer, t, op).documents;
            && op.key.documentId in after
            && after[op.key.documentId].currentVersion == op.key.documentVersion
            && after[op.key.documentId].authorized == op.authorized
            && (d != op.key.documentId ==>
                  (d in after <==> d in t.documents) && (d in after ==> after[d] == t.documents[d]))
  {
  }

  /** Which rows an accepted `add` supersedes: those of another version of the same document, when the
      document was at another version; every other column of every stored row stays. */
  lemma AddSupersedes(signer: Signer, t: Tables, op: Op, k: RowKey)
    requires op.Add? && Effective(signer, op) && k in t.rows
    ensures k in Apply(signer, t, op).rows
    ensures var moved := && op.key.documentId in t.documents
                         && t.documents[op.key.documentId].currentVersion != op.key.documentVersion;
            var older := moved && k.documentId == op.key.documentId && k.documentVersion != op.key.documentVersion;
            var was := t.rows[k];
            Apply(signer, t, op).rows[k] ==
              Row(was.ingestedAt, was.chunkOffset, was.chunkLength, was.superseded || older, was.signature)
  {
  }

  /** `add` inserts no row but its own. */
  lemma AddInserts(signer: Signer, t: Tables, op: Op)
    requires op.Add? && Effective(signer, op)
    ensures Apply(signer, t, op).rows.Keys == t.rows.Keys + {op.key}
  {
    var d, v := op.key.documentId, op.key.documentVersion;
    assert MarkSuperseded(t.rows, d, v).Keys == t.rows.Keys;
  }

  /** `supersede` marks exactly the rows of other versions of the document and keeps their other columns. */
  lemma SupersedeRows(signer: Signer, t: Tables, d: string, v: string, k: RowKey)
    ensures k in Apply(signer, t, Supersede(d, v)).rows <==> k in t.rows
    ensures k in t.rows ==>
              var was, older := t.rows[k], k.documentId == d && k.documentVersion != v;
              Apply(signer, t, Supersede(d, v)).rows[k] ==
                Row(was.ingestedAt, was.chunkOffset, was.chunkLength, was.superseded || older, was.signature)
  {
  }

  /** It moves the version of a known document, keeps its flag, and touches and adds no other. */
  lemma SupersedeDocuments(signer: Signer, t: Tables, d: string, v: string, e: string)
    ensures var after := Apply(signer, t, Supersede(d, v)).documents;
            && (e in after <==> e in t.documents)
            && (e in t.documents ==>
                  && after[e].authorized == t.documents[e].authorized
                  && after[e].currentVersion == if e == d then v else t.documents[e].currentVersion)
  {
  }

  /** `set_authorization` changes the flag of a known document and nothing else. */
  lemma SetAuthorizationSets(signer: Signer, t: Tables, d: string, authorized: bool, e: string)
    ensures var after := Apply(signer, t, SetAuthorization(d, authorized));
            && after.rows == t.rows
            && (e in after.documents <==> e in t.documents)
            && (e in t.documents ==>
                  && after.documents[e].currentVersion == t.documents[e].currentVersion
                  && after.documents[e].authorized == if e == d then authorized else t.documents[e].authorized)
  {
  }

  /** After its document's authorization has been withdrawn a fingerprint with a single row is answered
      as unauthorized, and after it has been granted again as stale or verified. */
  lemma AuthorizationIsAnswered(signer: Signer, t: Tables, k: RowKey, authorized: bool, o: Outcome)
    requires Sound(signer, t) && k in t.rows
    requires forall x :: RowFor(t, k.fingerprint, x) ==> x == k
    requires Sound(signer, Apply(signer, t, SetAuthorization(k.documentId, authorized)))
    requires MayAnswer(signer, Apply(signer, t, SetAuthorization(k.documentId, authorized)), k.fingerprint, o)
    ensures o == if !authorized then Unauthorized else if t.rows[k].superseded then Stale else Verified
  {
    var after := Apply(signer, t, SetAuthorization(k.documentId, authorized));
    assert SoundRow(signer, t, k);
    SetAuthorizationSets(signer, t, k.documentId, authorized, k.documentId);
    assert forall x :: RowFor(after, k.fingerprint, x) ==> RowFor(t, k.fingerprint, x);
    SingleRowAnswer(signer, after, k, o);
  }

  /** Of an accepted new row of a fingerprint with no other: `verify` answers by the flag it came with. */
  lemma AddedIsAnswered(signer: Signer, t: Tables, op: Op, o: Outcome)
    requires Sound(signer, t) && op.Add? && Effective(signer, op)
    requires forall x :: !RowFor(t, op.key.fingerprint, x)
    requires Sound(signer, Apply(signer, t, op)) && MayAnswer(signer, Apply(signer, t, op), op.key.fingerprint, o)
    ensures o == if op.authorized then Verified else Unauthorized
  {
    var after := Apply(signer, t, op);
    assert !RowFor(t, op.key.fingerprint, op.key);
    AddInserts(signer, t, op);
    AddStores(signer, t, op);
    AddDocuments(signer, t, op, op.key.documentId);
    forall x | RowFor(after, op.key.fingerprint, x) ensures x == op.key {
      assert !RowFor(t, op.key.fingerprint, x);
    }
    SingleRowAnswer(signer, after, op.key, o);
  }

  // ---------------------------------------------------------------- which row lookup prefers

  /** Comes strictly before, in the order of the characters. */
  ghost predicate TextBefore(a: string, b: string) {
    exists i: nat :: && i <= |a| && i < |b| && a[..i] == b[..i] && (i == |a| || a[i] < b[i])
  }

  lemma {:induction false} TextLeqIff(a: string, b: string)
    ensures TextLeq(a, b) <==> a == b || TextBefore(a, b)
  {
    if a == "" || b == "" || a[0] != b[0] {
      if TextLeq(a, b) && a != b {
        assert a[..0] == b[..0];
      }
    } else {
      TextLeqIff(a[1..], b[1..]);
      if TextBefore(a[1..], b[1..]) {
        var s, u := a[1..], b[1..];
        var i: nat :| i <= |s| && i < |u| && s[..i] == u[..i] && (i == |s| || s[i] < u[i]);
        assert a[..i + 1] == [a[0]] + a[1..][..i] && b[..i + 1] == [b[0]] + b[1..][..i];
      }
      if TextBefore(a, b) {
        var i: nat :| i <= |a| && i < |b| && a[..i] == b[..i] && (i == |a| || a[i] < b[i]);
        assert a[1..][..i - 1] == a[..i][1..] && b[1..][..i - 1] == b[..i][1..];
      }
      assert a == [a[0]] + a[1..] && b == [b[0]] + b[1..];
    }
  }

  /** The row `lookup` returns: a superseded one only if all are, and among those of its kind none was
      ingested later. */
  lemma LookupPrefers(t: Tables, fingerprint: string, k: RowKey)
    requires IsBest(t, Candidates(t, fingerprint), k)
    ensures k in t.rows && k.fingerprint == fingerprint
    ensures forall c :: c in t.rows && c.fingerprint == fingerprint && c.documentId in t.documents ==>
              && (t.rows[k].superseded ==> t.rows[c].superseded)
              && (t.rows[k].superseded == t.rows[c].superseded ==>
                    !TextBefore(t.rows[k].ingestedAt, t.rows[c].ingestedAt))
  {
    forall c | c in t.rows && c.fingerprint == fingerprint && c.documentId in t.documents
      ensures (t.rows[k].superseded ==> t.rows[c].superseded)
      ensures t.rows[k].superseded == t.rows[c].superseded ==> !TextBefore(t.rows[k].ingestedAt, t.rows[c].ingestedAt)
    {
      assert c in Candidates(t, fingerprint);
      if t.rows[k].superseded == t.rows[c].superseded {
        NotBefore(t.rows[c].ingestedAt, t.rows[k].ingestedAt);
      }
    }
  }

  lemma {:induction false} TextAntisymmetric(a: string, b: string)
    requires TextLeq(a, b) && TextLeq(b, a)
    ensures a == b
  {
    if a == "" || b == "" {
    } else {
      TextAntisymmetric(a[1..], b[1..]);
      assert a == [a[0]] + a[1..] && b == [b[0]] + b[1..];
    }
  }

  lemma NotBefore(c: string, k: string)
    requires TextLeq(c, k)
    ensures !TextBefore(k, c)
  {
    if TextBefore(k, c) {
      BeforeDiffers(k, c);
      TextLeqIff(k, c);
      TextAntisymmetric(c, k);
    }
  }

  lemma BeforeDiffers(a: string, b: string)
    requires TextBefore(a, b)
    ensures a != b
  {
    var i: nat :| i <= |a| && i < |b| && a[..i] == b[..i] && (i == |a| || a[i] < b[i]);
  }
}
