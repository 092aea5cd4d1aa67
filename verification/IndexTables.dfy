/**
 The provenance index as two tables and the operations on them, shared by the SQLite and
 Postgres back ends (provenex/index/sqlite_index.py, provenex/index/postgres_index.py), with
 what every operation keeps and what a run of operations adds up to.
 */
module IndexTables {
  import opened Basics
  import opened Payload

  datatype Document = Document(authorized: bool, currentVersion: string)

  /** The primary key of the fingerprints table. */
  datatype RowKey = RowKey(fingerprint: string, documentId: string, documentVersion: string)

  datatype Row = Row(ingestedAt: string, chunkOffset: int, chunkLength: int, superseded: bool, signature: string)

  datatype Tables = Tables(documents: map<string, Document>, rows: map<RowKey, Row>)

  const EMPTY_TABLES := Tables(map[], map[])

  /** HMAC-SHA256 as hex, from a secret and a payload; any function will do. */
  type MacFn = (Bytes, Bytes) -> string

  datatype Signer = Signer(mac: MacFn, secret: Bytes) {
    function Sign(payload: Bytes): string {
      mac(secret, payload)
    }
  }

  function FieldsOf(k: RowKey, row: Row): Fields {
    Fields(k.fingerprint, k.documentId, k.documentVersion, row.ingestedAt, row.chunkOffset, row.chunkLength)
  }

  /** One call of a writing method; `now` is the clock reading an `add` takes. */
  datatype Op =
    | Add(key: RowKey, chunkOffset: int, chunkLength: int, authorized: bool, now: string)
    | Supersede(documentId: string, newVersion: string)
    | SetAuthorization(documentId: string, authorized: bool)
  {
    /** The document whose rows the operation touches. */
    function Target(): string {
      if Add? then key.documentId else documentId
    }
  }

  datatype AddError = BadFingerprint | BadVersion | BadPayload(error: PayloadError)

  predicate HasDigestPrefix(s: string) {
    "sha256:" <= s
  }

  /** The checks `add` makes before it touches the tables; otherwise the row to insert. */
  function NewRow(signer: Signer, op: Op): Result<Row, AddError>
    requires op.Add?
  {
    if !HasDigestPrefix(op.key.fingerprint) then Err(BadFingerprint)
    else if !HasDigestPrefix(op.key.documentVersion) then Err(BadVersion)
    else
      var row := Row(op.now, op.chunkOffset, op.chunkLength, false, "");
      match CanonicalPayload(FieldsOf(op.key, row))
      case Err(e) => Err(BadPayload(e))
      case Ok(payload) => Ok(row.(signature := signer.Sign(payload)))
  }

  /** An operation that reaches the tables. */
  predicate Effective(signer: Signer, op: Op) {
    op.Add? ==> NewRow(signer, op).Ok?
  }

  // ---------------------------------------------------------------- statements

  predicate OlderRow(k: RowKey, documentId: string, version: string) {
    k.documentId == documentId && k.documentVersion != version
  }

  function MarkSuperseded(rows: map<RowKey, Row>, documentId: string, version: string): map<RowKey, Row> {
    map k | k in rows :: if OlderRow(k, documentId, version) then rows[k].(superseded := true) else rows[k]
  }

  function InsertOrIgnore(rows: map<RowKey, Row>, k: RowKey, row: Row): map<RowKey, Row> {
    if k in rows then rows else rows[k := row]
  }

  function UpdateVersion(documents: map<string, Document>, documentId: string, version: string): map<string, Document> {
    if documentId in documents then documents[documentId := documents[documentId].(currentVersion := version)]
    else documents
  }

  function UpdateAuthorized(documents: map<string, Document>, documentId: string,
                            authorized: bool): map<string, Document> {
    if documentId in documents then documents[documentId := documents[documentId].(authorized := authorized)]
    else documents
  }

  // ---------------------------------------------------------------- operations

  function ApplyAdd(t: Tables, op: Op, row: Row): Tables
    requires op.Add?
  {
    var d, v := op.key.documentId, op.key.documentVersion;
    var moved := d in t.documents && t.documents[d].currentVersion != v;
    Tables(t.documents[d := Document(op.authorized, v)],
           InsertOrIgnore(if moved then MarkSuperseded(t.rows, d, v) else t.rows, op.key, row))
  }

  /** The tables after a call; a rejected `add` changes nothing. */
  function Apply(signer: Signer, t: Tables, op: Op): Tables {
    match op
    case Add(_, _, _, _, _) =>
      (match NewRow(signer, op)
       case Err(_) => t
       case Ok(row) => ApplyAdd(t, op, row))
    case Supersede(d, v) => Tables(UpdateVersion(t.documents, d, v), MarkSuperseded(t.rows, d, v))
    case SetAuthorization(d, a) => t.(documents := UpdateAuthorized(t.documents, d, a))
  }

  function Run(signer: Signer, t: Tables, ops: seq<Op>): Tables {
    if ops == [] then t else Apply(signer, Run(signer, t, ops[..|ops| - 1]), ops[|ops| - 1])
  }

  lemma {:induction false} RunExtend(signer: Signer, t: Tables, ops: seq<Op>, op: Op)
    ensures Run(signer, t, ops + [op]) == Apply(signer, Run(signer, t, ops), op)
  {
    assert (ops + [op])[..|ops|] == ops;
  }

  // ---------------------------------------------------------------- what every operation keeps

  /** The row's document exists, its signature covers its payload, and only rows of the
      document's current version are not superseded. */
  predicate SoundRow(signer: Signer, t: Tables, k: RowKey)
    requires k in t.rows
  {
    var row := t.rows[k];
    && k.documentId in t.documents
    && (!row.superseded ==> k.documentVersion == t.documents[k.documentId].currentVersion)
    && CanonicalPayload(FieldsOf(k, row)).Ok?
    && row.signature == signer.Sign(CanonicalPayload(FieldsOf(k, row)).value)
  }

  ghost predicate Sound(signer: Signer, t: Tables) {
    forall k {:trigger SoundRow(signer, t, k)} :: k in t.rows ==> SoundRow(signer, t, k)
  }

  /** The operation moves the document of this row to another version. */
  predicate Displaces(signer: Signer, op: Op, k: RowKey) {
    match op
    case Add(key, _, _, _, _) => Effective(signer, op) && OlderRow(k, key.documentId, key.documentVersion)
    case Supersede(d, v) => OlderRow(k, d, v)
    case SetAuthorization(_, _) => false
  }

  /** What one operation does to one row: rows stay with all signed fields, a row is superseded
      exactly when it was or the operation displaces it, and a new row starts current. */
  lemma StepRow(signer: Signer, t: Tables, op: Op, k: RowKey)
    requires Sound(signer, t)
    ensures k in t.rows ==> k in Apply(signer, t, op).rows
    ensures k in t.rows ==>
              var flag := t.rows[k].superseded || Displaces(signer, op, k);
              Apply(signer, t, op).rows[k] == t.rows[k].(superseded := flag)
    ensures k in Apply(signer, t, op).rows && k !in t.rows ==>
              op.Add? && op.key == k && NewRow(signer, op) == Ok(Apply(signer, t, op).rows[k])
  {
    if k in t.rows {
      assert SoundRow(signer, t, k);
    }
  }

  lemma {:induction false} StepSound(signer: Signer, t: Tables, op: Op)
    requires Sound(signer, t)
    ensures Sound(signer, Apply(signer, t, op))
  {
    var t' := Apply(signer, t, op);
    forall k | k in t'.rows ensures SoundRow(signer, t', k) {
      StepRow(signer, t, op, k);
      if k in t.rows {
        assert SoundRow(signer, t, k);
      }
    }
  }

  /** A row keeps its signed columns and its signature. */
  ghost predicate KeepsRow(t: Tables, t': Tables, k: RowKey)
    requires k in t.rows
  {
    && k in t'.rows
    && FieldsOf(k, t'.rows[k]) == FieldsOf(k, t.rows[k])
    && t'.rows[k].signature == t.rows[k].signature
  }

  ghost predicate Keeps(t: Tables, t': Tables) {
    forall k {:trigger KeepsRow(t, t', k)} :: k in t.rows ==> KeepsRow(t, t', k)
  }

  ghost function NewKeys(signer: Signer, op: Op): set<RowKey> {
    if op.Add? && Effective(signer, op) then {op.key} else {}
  }

  /** An operation rewrites no signed column, removes no row, and adds at most its own. */
  lemma StepKeeps(signer: Signer, t: Tables, op: Op)
    requires Sound(signer, t)
    ensures Sound(signer, Apply(signer, t, op))
    ensures Keeps(t, Apply(signer, t, op))
    ensures Apply(signer, t, op).rows.Keys == t.rows.Keys + NewKeys(signer, op)
  {
    StepSound(signer, t, op);
    var t' := Apply(signer, t, op);
    forall k | k in t.rows ensures KeepsRow(t, t', k) {
      StepRow(signer, t, op, k);
    }
    forall k ensures k in t'.rows.Keys <==> k in t.rows.Keys + NewKeys(signer, op) {
      StepRow(signer, t, op, k);
    }
  }

  /** Every reachable state is sound. */
  lemma {:induction false} RunSound(signer: Signer, ops: seq<Op>)
    ensures Sound(signer, Run(signer, EMPTY_TABLES, ops))
  {
    if ops == [] {
    } else {
      RunSound(signer, ops[..|ops| - 1]);
      StepSound(signer, Run(signer, EMPTY_TABLES, ops[..|ops| - 1]), ops[|ops| - 1]);
    }
  }

  /** The i-th operation of a run displaces a row that was there at the time. */
  ghost predicate DisplacedAt(signer: Signer, ops: seq<Op>, i: int, k: RowKey) {
    0 <= i < |ops| && k in Run(signer, EMPTY_TABLES, ops[..i]).rows && Displaces(signer, ops[i], k)
  }

  /** The whole history of one flag: after any run a row is superseded exactly when some later
      operation moved its document to another version. In particular nothing resets it. */
  lemma {:induction false} SupersededHistory(signer: Signer, ops: seq<Op>, k: RowKey)
    requires k in Run(signer, EMPTY_TABLES, ops).rows
    ensures Run(signer, EMPTY_TABLES, ops).rows[k].superseded
       <==> exists i :: DisplacedAt(signer, ops, i, k)
  {
    if ops == [] {
    } else {
      var before, op := ops[..|ops| - 1], ops[|ops| - 1];
      var t := Run(signer, EMPTY_TABLES, before);
      RunSound(signer, before);
      StepRow(signer, t, op, k);
      forall i | 0 <= i < |before| ensures DisplacedAt(signer, before, i, k) == DisplacedAt(signer, ops, i, k) {
        assert before[..i] == ops[..i];
      }
      assert DisplacedAt(signer, ops, |before|, k) == (k in t.rows && Displaces(signer, op, k));
      if k in t.rows {
        SupersededHistory(signer, before, k);
      } else {
        forall i | 0 <= i < |before| ensures !DisplacedAt(signer, before, i, k) {
          if DisplacedAt(signer, before, i, k) {
            RowsPersist(signer, before, i, k);
          }
        }
      }
    }
  }

  /** A row that exists after a prefix of a run exists after the run, with the same signed fields. */
  lemma {:induction false} RowsPersist(signer: Signer, ops: seq<Op>, i: nat, k: RowKey)
    requires i <= |ops| && k in Run(signer, EMPTY_TABLES, ops[..i]).rows
    ensures var early, late := Run(signer, EMPTY_TABLES, ops[..i]), Run(signer, EMPTY_TABLES, ops);
            && k in late.rows
            && FieldsOf(k, late.rows[k]) == FieldsOf(k, early.rows[k])
            && late.rows[k].signature == early.rows[k].signature
            && (early.rows[k].superseded ==> late.rows[k].superseded)
    decreases |ops|
  {
    if i == |ops| {
      assert ops[..i] == ops;
    } else {
      var before := ops[..|ops| - 1];
      assert before[..i] == ops[..i];
      RowsPersist(signer, before, i, k);
      RunSound(signer, before);
      StepRow(signer, Run(signer, EMPTY_TABLES, before), ops[|ops| - 1], k);
    }
  }

  /** Ingesting a row makes it current exactly when it was not already there as a superseded row:
      the insert is ignored for a key that exists, and nothing clears the flag. */
  lemma IngestedRowIsCurrentIff(signer: Signer, t: Tables, op: Op)
    requires Sound(signer, t) && op.Add? && Effective(signer, op)
    ensures op.key in Apply(signer, t, op).rows
    ensures !Apply(signer, t, op).rows[op.key].superseded <==> !(op.key in t.rows && t.rows[op.key].superseded)
    ensures Apply(signer, t, op).documents[op.key.documentId] == Document(op.authorized, op.key.documentVersion)
  {
    StepRow(signer, t, op, op.key);
  }

  /** So ingesting version A, then B, then A again always leaves A's row superseded although A is
      the current version. */
  lemma ReingestedRowStaysSuperseded(signer: Signer, t: Tables, a: Op, b: Op, again: Op)
    requires Sound(signer, t) && a.Add? && b.Add? && again.Add?
    requires Effective(signer, a) && Effective(signer, b) && Effective(signer, again)
    requires OlderRow(a.key, b.key.documentId, b.key.documentVersion) && again.key == a.key
    ensures var t' := Apply(signer, Apply(signer, Apply(signer, t, a), b), again);
            && a.key in t'.rows && t'.rows[a.key].superseded
            && a.key.documentId in t'.documents
            && t'.documents[a.key.documentId].currentVersion == a.key.documentVersion
  {
    var t1 := Apply(signer, t, a);
    var t2 := Apply(signer, t1, b);
    IngestedRowIsCurrentIff(signer, t, a);
    StepSound(signer, t, a);
    StepRow(signer, t1, b, a.key);
    StepSound(signer, t1, b);
    IngestedRowIsCurrentIff(signer, t2, again);
  }

  // ---------------------------------------------------------------- what supersede counts

  /** The rows the update of `supersede` matches. */
  function MatchedRows(t: Tables, documentId: string, version: string): set<RowKey> {
    set k | k in t.rows && OlderRow(k, documentId, version)
  }

  /** The rows it marks as superseded that were not before. */
  function NewlyMarked(signer: Signer, t: Tables, documentId: string, version: string): set<RowKey> {
    set k | k in t.rows && !t.rows[k].superseded && Apply(signer, t, Supersede(documentId, version)).rows[k].superseded
  }

  /** The number of matched rows is the number of rows newly marked if and only if no matched row was
      superseded before. */
  lemma CountIsNewlyMarkedIff(signer: Signer, t: Tables, documentId: string, version: string)
    ensures NewlyMarked(signer, t, documentId, version) <= MatchedRows(t, documentId, version)
    ensures |MatchedRows(t, documentId, version)| == |NewlyMarked(signer, t, documentId, version)|
       <==> forall k :: k in MatchedRows(t, documentId, version) ==> !t.rows[k].superseded
  {
    var matched, marked := MatchedRows(t, documentId, version), NewlyMarked(signer, t, documentId, version);
    assert marked <= matched;
    assert |matched - marked| == |matched| - |marked|;
    if exists k :: k in matched && t.rows[k].superseded {
      var k :| k in matched && t.rows[k].superseded;
      assert k in matched - marked;
    } else {
      assert matched == marked;
    }
  }

  /** It is not after two versions of a document have been ingested: superseding both counts two rows
      and newly marks one. */
  lemma SupersedeCountsTwice(signer: Signer, a: Op, b: Op, version: string)
    requires a.Add? && b.Add? && Effective(signer, a) && Effective(signer, b)
    requires OlderRow(a.key, b.key.documentId, b.key.documentVersion)
    requires version != a.key.documentVersion && version != b.key.documentVersion
    ensures var t := Run(signer, EMPTY_TABLES, [a, b]);
            && MatchedRows(t, a.key.documentId, version) == {a.key, b.key} && a.key != b.key
            && NewlyMarked(signer, t, a.key.documentId, version) == {b.key}
  {
    var one := Apply(signer, EMPTY_TABLES, a);
    var two := Apply(signer, one, b);
    assert one.rows.Keys == {a.key};
    StepSound(signer, EMPTY_TABLES, a);
    StepRow(signer, one, b, a.key);
    StepKeeps(signer, one, b);
    IngestedRowIsCurrentIff(signer, one, b);
    RunOf2(signer, EMPTY_TABLES, a, b);
    var superseding := Apply(signer, two, Supersede(a.key.documentId, version));
    assert superseding.rows.Keys == two.rows.Keys;
  }

  lemma RunOf2(signer: Signer, t: Tables, a: Op, b: Op)
    ensures Run(signer, t, [a, b]) == Apply(signer, Apply(signer, t, a), b)
  {
    assert [] + [a] == [a] && [a] + [b] == [a, b];
    assert Run(signer, t, []) == t;
    RunExtend(signer, t, [], a);
    RunExtend(signer, t, [a], b);
  }

  // ---------------------------------------------------------------- lookup

  /** Text order, as the database compares time stamps. */
  predicate TextLeq(a: string, b: string) {
    a == "" || (b != "" && (a[0] < b[0] || (a[0] == b[0] && TextLeq(a[1..], b[1..]))))
  }

  lemma {:induction false} TextLeqTotal(a: string, b: string)
    ensures TextLeq(a, b) || TextLeq(b, a)
  {
    if a != "" && b != "" && a[0] == b[0] {
      TextLeqTotal(a[1..], b[1..]);
    }
  }

  lemma {:induction false} TextLeqTransitive(a: string, b: string, c: string)
    requires TextLeq(a, b) && TextLeq(b, c)
    ensures TextLeq(a, c)
  {
    if a != "" && a[0] == b[0] == c[0] {
      TextLeqTransitive(a[1..], b[1..], c[1..]);
    }
  }

  /** The joined rows that carry a fingerprint. */
  function Candidates(t: Tables, fingerprint: string): set<RowKey> {
    set k | k in t.rows && k.fingerprint == fingerprint && k.documentId in t.documents
  }

  /** `ORDER BY superseded ASC, ingested_at DESC`. */
  predicate Precedes(a: Row, b: Row) {
    if a.superseded == b.superseded then TextLeq(b.ingestedAt, a.ingestedAt) else b.superseded
  }

  /** A row the ordered query may return first; equal sort keys leave the choice open. */
  predicate IsBest(t: Tables, among: set<RowKey>, k: RowKey)
    requires among <= t.rows.Keys
  {
    k in among && forall c :: c in among ==> Precedes(t.rows[k], t.rows[c])
  }

  lemma {:induction false} BestExists(t: Tables, among: set<RowKey>)
    requires among <= t.rows.Keys && among != {}
    ensures exists k :: IsBest(t, among, k)
    decreases |among|
  {
    var x :| x in among;
    TextLeqTotal(t.rows[x].ingestedAt, t.rows[x].ingestedAt);
    if among == {x} {
      assert IsBest(t, among, x);
    } else {
      BestExists(t, among - {x});
      var b :| IsBest(t, among - {x}, b);
      TextLeqTotal(t.rows[x].ingestedAt, t.rows[b].ingestedAt);
      var best := if Precedes(t.rows[b], t.rows[x]) then b else x;
      forall c | c in among ensures Precedes(t.rows[best], t.rows[c]) {
        if best == x && c != x && t.rows[x].superseded == t.rows[b].superseded == t.rows[c].superseded {
          TextLeqTransitive(t.rows[c].ingestedAt, t.rows[b].ingestedAt, t.rows[x].ingestedAt);
        }
      }
      assert IsBest(t, among, best);
    }
  }

  // ---------------------------------------------------------------- verify

  datatype Outcome = Verified | Stale | Unauthorized | Unverified | Tampered

  /** The verdict on the row that `lookup` returned. A stored field that no longer validates
      makes the source raise; the sound states below exclude it. */
  function OutcomeOf(signer: Signer, t: Tables, k: RowKey): Outcome
    requires k in t.rows && k.documentId in t.documents && ValidFields(FieldsOf(k, t.rows[k]))
  {
    var row := t.rows[k];
    if signer.Sign(CanonicalPayload(FieldsOf(k, row)).value) != row.signature then Tampered
    else if !t.documents[k.documentId].authorized then Unauthorized
    else if row.superseded then Stale
    else Verified
  }

  /** The outcomes `verify` may give for a fingerprint in these tables. */
  ghost predicate MayAnswer(signer: Signer, t: Tables, fingerprint: string, o: Outcome)
    requires Sound(signer, t)
  {
    var among := Candidates(t, fingerprint);
    if among == {} then o == Unverified
    else exists k :: IsBest(t, among, k) && SoundRow(signer, t, k) && o == OutcomeOf(signer, t, k)
  }

  ghost predicate RowFor(t: Tables, fingerprint: string, k: RowKey) {
    k in t.rows && k.fingerprint == fingerprint
  }

  ghost predicate CurrentAuthorized(t: Tables, k: RowKey)
    requires k in t.rows
  {
    && !t.rows[k].superseded
    && k.documentId in t.documents && t.documents[k.documentId] == Document(true, k.documentVersion)
  }

  ghost predicate OfUnauthorized(t: Tables, k: RowKey) {
    k.documentId in t.documents && !t.documents[k.documentId].authorized
  }

  /** What each answer tells the caller, in every sound state. */
  lemma AnswersMean(signer: Signer, t: Tables, fingerprint: string, o: Outcome)
    requires Sound(signer, t) && MayAnswer(signer, t, fingerprint, o)
    ensures o == Unverified <==> !exists k :: RowFor(t, fingerprint, k)
    ensures o != Tampered
    ensures o == Stale ==> forall k :: RowFor(t, fingerprint, k) ==> t.rows[k].superseded
    ensures o == Verified ==> exists k :: RowFor(t, fingerprint, k) && CurrentAuthorized(t, k)
    ensures o == Unauthorized ==> exists k :: RowFor(t, fingerprint, k) && OfUnauthorized(t, k)
  {
    var among := Candidates(t, fingerprint);
    forall k | RowFor(t, fingerprint, k) ensures k in among {
      assert SoundRow(signer, t, k);
    }
    if among != {} {
      var k :| IsBest(t, among, k) && SoundRow(signer, t, k) && o == OutcomeOf(signer, t, k);
      assert RowFor(t, fingerprint, k);
    }
  }

  /** For a fingerprint with a single row the answer is determined. */
  lemma SingleRowAnswer(signer: Signer, t: Tables, k: RowKey, o: Outcome)
    requires Sound(signer, t) && k in t.rows
    requires forall x :: RowFor(t, k.fingerprint, x) ==> x == k
    requires MayAnswer(signer, t, k.fingerprint, o)
    ensures k.documentId in t.documents
    ensures o == if !t.documents[k.documentId].authorized then Unauthorized
                 else if t.rows[k].superseded then Stale else Verified
  {
    assert SoundRow(signer, t, k);
    assert forall x :: x in Candidates(t, k.fingerprint) ==> RowFor(t, k.fingerprint, x);
    assert Candidates(t, k.fingerprint) == {k};
  }

  /** Changing a signed column of a stored row is reported as tampering, unless the MAC maps the
      two different payloads to the same tag. */
  lemma ChangedRowIsTampered(signer: Signer, t: Tables, k: RowKey, forged: Row)
    requires Sound(signer, t) && k in t.rows
    requires forged.signature == t.rows[k].signature
    requires ValidFields(FieldsOf(k, forged)) && FieldsOf(k, forged) != FieldsOf(k, t.rows[k])
    ensures k.documentId in t.documents && ValidFields(FieldsOf(k, t.rows[k]))
    ensures var t' := t.(rows := t.rows[k := forged]);
            var honest := CanonicalPayload(FieldsOf(k, t.rows[k])).value;
            var changed := CanonicalPayload(FieldsOf(k, forged)).value;
            OutcomeOf(signer, t', k) == Tampered
            || (honest != changed && signer.Sign(honest) == signer.Sign(changed))
  {
    assert SoundRow(signer, t, k);
    if CanonicalPayload(FieldsOf(k, forged)) == CanonicalPayload(FieldsOf(k, t.rows[k])) {
      PayloadInjective(FieldsOf(k, forged), FieldsOf(k, t.rows[k]));
    }
  }
}
