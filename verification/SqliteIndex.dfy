/**
 The SQLite back end: the two tables as fields that each method updates statement by statement.
 Every call runs under the connection lock, so a call is one atomic step.
 */
module SqliteIndex {
  import opened Basics
  import opened Payload
  import opened IndexTables

  /** A row joined with its document's authorization, as `lookup` returns it. */
  datatype IndexEntry = IndexEntry(key: RowKey, row: Row, authorized: bool)

  class SqliteProvenanceIndex {
    const signer: Signer
    var documents: map<string, Document>
    var rows: map<RowKey, Row>

    function State(): Tables
      reads this
    {
      Tables(documents, rows)
    }

    ghost predicate Valid()
      reads this
    {
      Sound(signer, State())
    }

    constructor (signer: Signer)
      ensures this.signer == signer && State() == EMPTY_TABLES && Valid()
    {
      this.signer := signer;
      documents := map[];
      rows := map[];
    }

    /** Rejected arguments raise before the tables are touched. */
    method Add(op: Op) returns (error: Option<AddError>)
      requires Valid() && op.Add?
      modifies this
      ensures Valid()
      ensures State() == Apply(signer, old(State()), op)
      ensures error == None <==> Effective(signer, op)
      ensures error.Some? ==> NewRow(signer, op) == Err(error.value)
    {
      StepSound(signer, State(), op);
      var row;
      match NewRow(signer, op) {
        case Err(e) => return Some(e);
        case Ok(r) => row := r;
      }
      var d, v := op.key.documentId, op.key.documentVersion;
      if d !in documents {
        documents := documents[d := Document(op.authorized, v)];
      } else if documents[d].currentVersion != v {
        rows := MarkSuperseded(rows, d, v);
        documents := documents[d := Document(op.authorized, v)];
      } else {
        documents := UpdateAuthorized(documents, d, op.authorized);
      }
      rows := InsertOrIgnore(rows, op.key, row);
      error := None;
    }

    /** Reports how many rows the update matched, rows superseded before included: see
        `CountIsNewlyMarkedIff`. */
    method Supersede(documentId: string, newVersion: string) returns (count: nat)
      requires Valid()
      modifies this
      ensures Valid()
      ensures State() == Apply(signer, old(State()), Op.Supersede(documentId, newVersion))
      ensures count == |MatchedRows(old(State()), documentId, newVersion)|
    {
      StepSound(signer, State(), Op.Supersede(documentId, newVersion));
      count := |MatchedRows(State(), documentId, newVersion)|;
      rows := MarkSuperseded(rows, documentId, newVersion);
      documents := UpdateVersion(documents, documentId, newVersion);
    }

    method SetAuthorization(documentId: string, authorized: bool)
      requires Valid()
      modifies this
      ensures Valid()
      ensures State() == Apply(signer, old(State()), Op.SetAuthorization(documentId, authorized))
    {
      StepSound(signer, State(), Op.SetAuthorization(documentId, authorized));
      documents := UpdateAuthorized(documents, documentId, authorized);
    }

    /** The first row of the ordered query; which of several equal ones is the database's choice. */
    method Lookup(fingerprint: string) returns (entry: Option<IndexEntry>)
      requires Valid()
      ensures entry == None <==> Candidates(State(), fingerprint) == {}
      ensures entry.Some? ==>
                && IsBest(State(), Candidates(State(), fingerprint), entry.value.key)
                && SoundRow(signer, State(), entry.value.key)
                && entry.value.row == rows[entry.value.key]
                && entry.value.authorized == documents[entry.value.key.documentId].authorized
    {
      var among := Candidates(State(), fingerprint);
      if among == {} {
        return None;
      }
      BestExists(State(), among);
      var k :| k in among && IsBest(State(), among, k);
      assert SoundRow(signer, State(), k);
      entry := Some(IndexEntry(k, rows[k], documents[k.documentId].authorized));
    }

    /** Of the five outcomes a reachable index never reports tampering; the other four mean what
        `AnswersMean` says. */
    method Verify(fingerprint: string) returns (outcome: Outcome)
      requires Valid()
      ensures MayAnswer(signer, State(), fingerprint, outcome)
      ensures outcome != Tampered
    {
      var entry := Lookup(fingerprint);
      if entry == None {
        return Unverified;
      }
      var e := entry.value;
      var payload := CanonicalPayload(FieldsOf(e.key, e.row)).value;
      if signer.Sign(payload) != e.row.signature {
        outcome := Tampered;
      } else if !e.authorized {
        outcome := Unauthorized;
      } else if e.row.superseded {
        outcome := Stale;
      } else {
        outcome := Verified;
      }
      assert outcome == OutcomeOf(signer, State(), e.key);
    }
  }
}
