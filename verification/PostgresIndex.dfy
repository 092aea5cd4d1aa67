/**
 The Postgres back end as a concurrent protocol (provenex/index/postgres_index.py): any number
 of transactions run their statements interleaved under READ COMMITTED, each behind a
 transaction-scoped advisory lock on the hash of its document, with writes private until commit.
 */
module PostgresIndex {
  import opened Basics
  import opened IndexTables

  /** `hashtext`: any function will do, colliding documents included. */
  type LockHash = string -> int

  /** The uncommitted writes of a transaction. */
  datatype Delta = Delta(documents: map<string, Document>, rows: map<RowKey, Row>)

  const NO_WRITES := Delta(map[], map[])

  /** Where a transaction stands between two statements. */
  datatype Pc = Idle | Locked | Selected(current: Option<string>) | Marked | Updated | Ready | Committed | Failed

  datatype Tx = Tx(op: Op, pc: Pc, writes: Delta, count: nat) {
    predicate Active() {
      !pc.Idle? && !pc.Committed? && !pc.Failed?
    }
  }

  /** The database: committed tables, lock owners, transactions, and the commit order so far. */
  datatype Db = Db(committed: Tables, locks: map<int, nat>, txs: seq<Tx>, commits: seq<nat>)

  /** A transaction takes its next step, or its connection rolls back. */
  datatype Event = Advance(tid: nat) | Abort(tid: nat)

  /** What a statement of the transaction sees: the committed rows overlaid with its own writes. */
  function View(c: Tables, w: Delta): Tables {
    Tables(c.documents + w.documents, c.rows + w.rows)
  }

  // ---------------------------------------------------------------- statements

  function Older(rows: map<RowKey, Row>, documentId: string, version: string): set<RowKey> {
    set k | k in rows && OlderRow(k, documentId, version)
  }

  /** `UPDATE fingerprints SET superseded = TRUE WHERE ...` over what the statement sees. */
  function Marks(rows: map<RowKey, Row>, documentId: string, version: string): map<RowKey, Row> {
    map k | k in Older(rows, documentId, version) :: rows[k].(superseded := true)
  }

  function WriteRows(w: Delta, rows: map<RowKey, Row>): Delta {
    w.(rows := w.rows + rows)
  }

  function WriteDocument(w: Delta, documentId: string, d: Document): Delta {
    w.(documents := w.documents[documentId := d])
  }

  function AddStatement(signer: Signer, view: Tables, tx: Tx): Tx
    requires tx.op.Add? && NewRow(signer, tx.op).Ok?
  {
    var op := tx.op;
    var d, v := op.key.documentId, op.key.documentVersion;
    match tx.pc
    case Locked => tx.(pc := Selected(if d in view.documents then Some(view.documents[d].currentVersion) else None))
    case Selected(None) =>
      if d in view.documents then tx.(pc := Updated)
      else tx.(pc := Updated, writes := WriteDocument(tx.writes, d, Document(op.authorized, v)))
    case Selected(Some(current)) =>
      if current != v then tx.(pc := Marked, writes := WriteRows(tx.writes, Marks(view.rows, d, v)))
      else if d !in view.documents then tx.(pc := Updated)
      else tx.(pc := Updated, writes := WriteDocument(tx.writes, d, view.documents[d].(authorized := op.authorized)))
    case Marked =>
      if d !in view.documents then tx.(pc := Updated)
      else tx.(pc := Updated, writes := WriteDocument(tx.writes, d, Document(op.authorized, v)))
    case Updated =>
      if op.key in view.rows then tx.(pc := Ready)
      else tx.(pc := Ready, writes := WriteRows(tx.writes, map[op.key := NewRow(signer, op).value]))
    case _ => tx
  }

  function SupersedeStatement(view: Tables, tx: Tx): Tx
    requires tx.op.Supersede?
  {
    var d, v := tx.op.documentId, tx.op.newVersion;
    match tx.pc
    case Locked => tx.(pc := Marked, writes := WriteRows(tx.writes, Marks(view.rows, d, v)),
                       count := |Older(view.rows, d, v)|)
    case Marked =>
      if d !in view.documents then tx.(pc := Ready)
      else tx.(pc := Ready, writes := WriteDocument(tx.writes, d, view.documents[d].(currentVersion := v)))
    case _ => tx
  }

  function AuthorizeStatement(view: Tables, tx: Tx): Tx
    requires tx.op.SetAuthorization?
  {
    var d := tx.op.documentId;
    match tx.pc
    case Locked =>
      if d !in view.documents then tx.(pc := Ready)
      else tx.(pc := Ready, writes := WriteDocument(tx.writes, d, view.documents[d].(authorized := tx.op.authorized)))
    case _ => tx
  }

  /** One statement between the lock and the commit. */
  function Statement(signer: Signer, c: Tables, tx: Tx): Tx
    requires Effective(signer, tx.op)
  {
    var view := View(c, tx.writes);
    match tx.op
    case Add(_, _, _, _, _) => AddStatement(signer, view, tx)
    case Supersede(_, _) => SupersedeStatement(view, tx)
    case SetAuthorization(_, _) => AuthorizeStatement(view, tx)
  }

  // ---------------------------------------------------------------- events

  function Release(locks: map<int, nat>, h: int): map<int, nat> {
    locks - {h}
  }

  function SetTx(db: Db, tid: nat, tx: Tx): Db
    requires tid < |db.txs|
  {
    db.(txs := db.txs[tid := tx])
  }

  /** A transaction waiting for a held lock does not move. */
  function Step(hash: LockHash, signer: Signer, db: Db, e: Event): Db {
    if e.tid >= |db.txs| then db
    else
      var tx := db.txs[e.tid];
      var h := hash(tx.op.Target());
      match e
      case Abort(tid) =>
        if tx.Active() then SetTx(db, tid, tx.(pc := Failed, writes := NO_WRITES)).(locks := Release(db.locks, h))
        else db
      case Advance(tid) =>
        if tx.pc.Idle? then
          if !Effective(signer, tx.op) then SetTx(db, tid, tx.(pc := Failed))
          else if h in db.locks then db
          else SetTx(db, tid, tx.(pc := Locked)).(locks := db.locks[h := tid])
        else if tx.pc.Ready? then
          Db(View(db.committed, tx.writes), Release(db.locks, h), db.txs[tid := tx.(pc := Committed)],
             db.commits + [tid])
        else if tx.Active() && Effective(signer, tx.op) then SetTx(db, tid, Statement(signer, db.committed, tx))
        else db
  }

  function Exec(hash: LockHash, signer: Signer, db: Db, events: seq<Event>): Db
    decreases |events|
  {
    if events == [] then db
    else Step(hash, signer, Exec(hash, signer, db, events[..|events| - 1]), events[|events| - 1])
  }

  function Initial(t: Tables, ops: seq<Op>): Db {
    Db(t, map[], seq(|ops|, i requires 0 <= i < |ops| => Tx(ops[i], Idle, NO_WRITES, 0)), [])
  }

  // ---------------------------------------------------------------- one document's part of the tables

  /** Everything a transaction on a document can read or write. */
  datatype Part = Part(document: Option<Document>, rows: map<RowKey, Row>)

  ghost function PartOf(c: Tables, d: string): Part {
    Part(if d in c.documents then Some(c.documents[d]) else None,
         map k | k in c.rows && k.documentId == d :: c.rows[k])
  }

  ghost predicate Moves(p: Part, version: string) {
    p.document.Some? && p.document.value.currentVersion != version
  }

  ghost function AddMarks(p: Part, op: Op): map<RowKey, Row>
    requires op.Add?
  {
    if Moves(p, op.key.documentVersion) then Marks(p.rows, op.key.documentId, op.key.documentVersion) else map[]
  }

  /** The writes an operation ends with, as a function of its document's part only. */
  ghost function FullWrites(signer: Signer, p: Part, op: Op): Delta
    requires Effective(signer, op)
  {
    match op
    case Add(key, _, _, authorized, _) =>
      Delta(map[key.documentId := Document(authorized, key.documentVersion)],
            if key in p.rows then AddMarks(p, op) else AddMarks(p, op)[key := NewRow(signer, op).value])
    case Supersede(d, v) =>
      Delta(if p.document.Some? then map[d := p.document.value.(currentVersion := v)] else map[], Marks(p.rows, d, v))
    case SetAuthorization(d, a) =>
      Delta(if p.document.Some? then map[d := p.document.value.(authorized := a)] else map[], map[])
  }

  /** What a transaction has written by each point of its run. */
  ghost predicate OnTrack(signer: Signer, p: Part, tx: Tx) {
    && Effective(signer, tx.op)
    && match tx.pc
       case Locked => tx.writes == NO_WRITES
       case Selected(current) =>
         && tx.op.Add? && tx.writes == NO_WRITES
         && current == (if p.document.Some? then Some(p.document.value.currentVersion) else None)
       case Marked =>
         (match tx.op
          case Add(key, _, _, _, _) => Moves(p, key.documentVersion) && tx.writes == Delta(map[], AddMarks(p, tx.op))
          case Supersede(d, v) => tx.writes == Delta(map[], Marks(p.rows, d, v)) && tx.count == |Older(p.rows, d, v)|
          case SetAuthorization(_, _) => false)
       case Updated =>
         && tx.op.Add?
         && tx.writes == Delta(map[tx.op.key.documentId := Document(tx.op.authorized, tx.op.key.documentVersion)],
                               AddMarks(p, tx.op))
       case Ready =>
         && tx.writes == FullWrites(signer, p, tx.op)
         && (tx.op.Supersede? ==> tx.count == |Older(p.rows, tx.op.documentId, tx.op.newVersion)|)
       case _ => true
  }

  lemma MarksLocal(c: Tables, d: string, v: string)
    ensures Older(c.rows, d, v) == Older(PartOf(c, d).rows, d, v)
    ensures Marks(c.rows, d, v) == Marks(PartOf(c, d).rows, d, v)
  {
  }

  lemma NothingWritten(c: Tables)
    ensures View(c, NO_WRITES) == c
  {
    assert c.documents + map[] == c.documents && c.rows + map[] == c.rows;
  }

  lemma {:induction false} AddOnTrack(signer: Signer, c: Tables, tx: Tx)
    requires tx.op.Add? && tx.Active() && !tx.pc.Ready?
    requires OnTrack(signer, PartOf(c, tx.op.key.documentId), tx)
    ensures OnTrack(signer, PartOf(c, tx.op.key.documentId), AddStatement(signer, View(c, tx.writes), tx))
  {
    var p, op := PartOf(c, tx.op.key.documentId), tx.op;
    var view, d := View(c, tx.writes), op.key.documentId;
    MarksLocal(c, d, op.key.documentVersion);
    if tx.pc.Updated? {
      assert op.key in view.rows <==> op.key in p.rows;
      var row := NewRow(signer, op).value;
      assert AddMarks(p, op) + map[op.key := row] == AddMarks(p, op)[op.key := row];
    } else if tx.pc.Marked? {
      assert view.documents == c.documents;
    } else {
      NothingWritten(c);
      assert map[] + Marks(view.rows, d, op.key.documentVersion) == Marks(p.rows, d, op.key.documentVersion);
    }
  }

  lemma SupersedeOnTrack(signer: Signer, c: Tables, tx: Tx)
    requires tx.op.Supersede? && tx.Active() && !tx.pc.Ready?
    requires OnTrack(signer, PartOf(c, tx.op.documentId), tx)
    ensures OnTrack(signer, PartOf(c, tx.op.documentId), SupersedeStatement(View(c, tx.writes), tx))
  {
    var p, d, v := PartOf(c, tx.op.documentId), tx.op.documentId, tx.op.newVersion;
    MarksLocal(c, d, v);
    if tx.pc.Locked? {
      NothingWritten(c);
      assert map[] + Marks(c.rows, d, v) == Marks(p.rows, d, v);
    } else {
      assert View(c, tx.writes).documents == c.documents;
    }
  }

  lemma AuthorizeOnTrack(signer: Signer, c: Tables, tx: Tx)
    requires tx.op.SetAuthorization? && tx.Active() && !tx.pc.Ready?
    requires OnTrack(signer, PartOf(c, tx.op.documentId), tx)
    ensures OnTrack(signer, PartOf(c, tx.op.documentId), AuthorizeStatement(View(c, tx.writes), tx))
  {
    NothingWritten(c);
  }

  /** Each statement keeps the transaction on track. */
  lemma {:induction false} StatementOnTrack(signer: Signer, c: Tables, tx: Tx)
    requires tx.Active() && !tx.pc.Ready? && OnTrack(signer, PartOf(c, tx.op.Target()), tx)
    ensures OnTrack(signer, PartOf(c, tx.op.Target()), Statement(signer, c, tx))
    ensures Statement(signer, c, tx).op == tx.op && Statement(signer, c, tx).Active()
  {
    match tx.op {
      case Add(_, _, _, _, _) => AddOnTrack(signer, c, tx);
      case Supersede(_, _) => SupersedeOnTrack(signer, c, tx);
      case SetAuthorization(_, _) => AuthorizeOnTrack(signer, c, tx);
    }
  }

  lemma {:induction false} AddApplies(signer: Signer, c: Tables, op: Op)
    requires op.Add? && Effective(signer, op)
    ensures View(c, FullWrites(signer, PartOf(c, op.key.documentId), op)) == Apply(signer, c, op)
  {
    var d, v, row := op.key.documentId, op.key.documentVersion, NewRow(signer, op).value;
    var p := PartOf(c, d);
    var marks := AddMarks(p, op);
    var w := FullWrites(signer, p, op);
    MarksLocal(c, d, v);
    var marked := if Moves(p, v) then MarkSuperseded(c.rows, d, v) else c.rows;
    assert c.rows + marks == marked;
    assert op.key in p.rows <==> op.key in marked;
    assert op.key !in p.rows ==> c.rows + marks[op.key := row] == (c.rows + marks)[op.key := row];
    assert c.rows + w.rows == InsertOrIgnore(marked, op.key, row);
    assert c.documents + w.documents == c.documents[d := Document(op.authorized, v)];
  }

  /** Overlaying an operation's full writes is applying the operation. */
  lemma {:induction false} FullWritesApply(signer: Signer, c: Tables, op: Op)
    requires Effective(signer, op)
    ensures View(c, FullWrites(signer, PartOf(c, op.Target()), op)) == Apply(signer, c, op)
  {
    var view, t := View(c, FullWrites(signer, PartOf(c, op.Target()), op)), Apply(signer, c, op);
    match op {
      case Add(_, _, _, _, _) => AddApplies(signer, c, op);
      case Supersede(d, v) =>
        MarksLocal(c, d, v);
        assert view.documents == t.documents;
        assert view.rows == t.rows;
      case SetAuthorization(_, _) =>
        assert view.documents == t.documents;
        assert view.rows == t.rows;
    }
  }

  /** Committing writes to one document leaves every other document's part alone. */
  lemma OtherPartsUntouched(signer: Signer, c: Tables, op: Op, d: string)
    requires Effective(signer, op) && op.Target() != d
    ensures PartOf(Apply(signer, c, op), d) == PartOf(c, d)
  {
    var c' := Apply(signer, c, op);
    assert PartOf(c', d).rows == PartOf(c, d).rows;
  }

  // ---------------------------------------------------------------- what every step keeps

  ghost predicate WithinOps(ops: seq<Op>, picks: seq<nat>) {
    forall c :: c in picks ==> c < |ops|
  }

  /** The operations in the order of their commits. */
  ghost function Pick(ops: seq<Op>, picks: seq<nat>): (picked: seq<Op>)
    requires WithinOps(ops, picks)
    ensures |picked| == |picks|
  {
    seq(|picks|, i requires 0 <= i < |picks| => assert picks[i] in picks; ops[picks[i]])
  }

  ghost function Serial(signer: Signer, t: Tables, ops: seq<Op>, commits: seq<nat>): Tables
    requires WithinOps(ops, commits)
  {
    Run(signer, t, Pick(ops, commits))
  }

  lemma SerialExtend(signer: Signer, t: Tables, ops: seq<Op>, commits: seq<nat>, tid: nat)
    requires WithinOps(ops, commits) && tid < |ops|
    ensures Serial(signer, t, ops, commits + [tid]) == Apply(signer, Serial(signer, t, ops, commits), ops[tid])
  {
    assert Pick(ops, commits + [tid]) == Pick(ops, commits) + [ops[tid]];
    RunExtend(signer, t, Pick(ops, commits), ops[tid]);
  }

  ghost predicate Holds(hash: LockHash, db: Db, i: nat)
    requires i < |db.txs|
  {
    var h := hash(db.txs[i].op.Target());
    h in db.locks && db.locks[h] == i
  }

  /** An active transaction holds its document's lock, and its writes are those its operation
      makes on the tables as committed now: nothing committed since can have touched them. */
  ghost predicate TxInv(hash: LockHash, signer: Signer, db: Db, i: nat)
    requires i < |db.txs|
  {
    var tx := db.txs[i];
    && (tx.pc.Idle? ==> tx.writes == NO_WRITES)
    && (tx.Active() ==> Holds(hash, db, i) && OnTrack(signer, PartOf(db.committed, tx.op.Target()), tx))
  }

  ghost predicate LockInv(hash: LockHash, db: Db, h: int)
    requires h in db.locks
  {
    var i := db.locks[h];
    i < |db.txs| && db.txs[i].Active() && hash(db.txs[i].op.Target()) == h
  }

  ghost predicate CommitInv(ops: seq<Op>, db: Db, i: nat)
    requires i < |db.txs| == |ops|
  {
    db.txs[i].op == ops[i] && (db.txs[i].pc.Committed? <==> i in db.commits)
  }

  /** A committed `supersede` reported the number of rows it matched in the serial run. */
  ghost predicate CountInv(signer: Signer, t: Tables, ops: seq<Op>, db: Db, j: nat)
    requires j < |db.commits| && WithinOps(ops, db.commits) && |db.txs| == |ops|
  {
    assert db.commits[j] in db.commits;
    var op := ops[db.commits[j]];
    op.Supersede? ==>
      db.txs[db.commits[j]].count == |Older(Run(signer, t, Pick(ops, db.commits)[..j]).rows, op.documentId,
                                            op.newVersion)|
  }

  ghost predicate Inv(hash: LockHash, signer: Signer, t: Tables, ops: seq<Op>, db: Db) {
    && |db.txs| == |ops|
    && WithinOps(ops, db.commits)
    && (forall i, j :: 0 <= i < j < |db.commits| ==> db.commits[i] != db.commits[j])
    && db.committed == Serial(signer, t, ops, db.commits)
    && (forall i: nat {:trigger TxInv(hash, signer, db, i)} :: i < |db.txs| ==> TxInv(hash, signer, db, i))
    && (forall h {:trigger LockInv(hash, db, h)} :: h in db.locks ==> LockInv(hash, db, h))
    && (forall i: nat {:trigger CommitInv(ops, db, i)} :: i < |db.txs| ==> CommitInv(ops, db, i))
    && (forall j: nat {:trigger CountInv(signer, t, ops, db, j)} ::
          j < |db.commits| ==> CountInv(signer, t, ops, db, j))
  }

  lemma InitialInv(hash: LockHash, signer: Signer, t: Tables, ops: seq<Op>)
    ensures Inv(hash, signer, t, ops, Initial(t, ops))
  {
    var db := Initial(t, ops);
    forall i: nat | i < |db.txs| ensures CommitInv(ops, db, i) {
    }
  }

  /** A step that commits nothing turns transaction `tid` into `tx`, which holds its lock exactly
      when it is active. */
  ghost predicate LocksFor(hash: LockHash, db: Db, tid: nat, tx: Tx, locks: map<int, nat>)
    requires tid < |db.txs|
  {
    var h := hash(tx.op.Target());
    if tx.Active() then (h in db.locks ==> db.locks[h] == tid) && locks == db.locks[h := tid]
    else locks == if db.txs[tid].Active() then Release(db.locks, h) else db.locks
  }

  lemma LocalStep(hash: LockHash, signer: Signer, t: Tables, ops: seq<Op>, db: Db, tid: nat, tx: Tx, locks: map<int,
                  nat>)
    requires Inv(hash, signer, t, ops, db) && tid < |db.txs|
    requires tx.op == db.txs[tid].op && !tx.pc.Idle? && !tx.pc.Committed? && !db.txs[tid].pc.Committed?
    requires LocksFor(hash, db, tid, tx, locks)
    requires tx.Active() ==> OnTrack(signer, PartOf(db.committed, tx.op.Target()), tx)
    ensures Inv(hash, signer, t, ops, Db(db.committed, locks, db.txs[tid := tx], db.commits))
  {
    var db' := Db(db.committed, locks, db.txs[tid := tx], db.commits);
    assert TxInv(hash, signer, db, tid) && CommitInv(ops, db, tid);
    forall i: nat | i < |db'.txs| ensures TxInv(hash, signer, db', i) {
      assert TxInv(hash, signer, db, i);
    }
    forall h | h in db'.locks ensures LockInv(hash, db', h) {
      assert h in db.locks ==> LockInv(hash, db, h);
    }
    forall i: nat | i < |db'.txs| ensures CommitInv(ops, db', i) {
      assert CommitInv(ops, db, i);
    }
    forall j: nat | j < |db'.commits| ensures CountInv(signer, t, ops, db', j) {
      assert CountInv(signer, t, ops, db, j);
      assert db.commits[j] in db.commits;
    }
  }

  lemma CommitStep(hash: LockHash, signer: Signer, t: Tables, ops: seq<Op>, db: Db, tid: nat)
    requires Inv(hash, signer, t, ops, db) && tid < |db.txs| && db.txs[tid].pc.Ready?
    ensures Inv(hash, signer, t, ops, Step(hash, signer, db, Advance(tid)))
  {
    var db', tx := Step(hash, signer, db, Advance(tid)), db.txs[tid];
    var c, op := db.committed, tx.op;
    assert TxInv(hash, signer, db, tid) && CommitInv(ops, db, tid);
    FullWritesApply(signer, c, op);
    SerialExtend(signer, t, ops, db.commits, tid);
    forall i: nat | i < |db'.txs| ensures TxInv(hash, signer, db', i) {
      assert TxInv(hash, signer, db, i);
      if i != tid && db.txs[i].Active() {
        OtherPartsUntouched(signer, c, op, db.txs[i].op.Target());
      }
    }
    forall h | h in db'.locks ensures LockInv(hash, db', h) {
      assert LockInv(hash, db, h);
    }
    forall i: nat | i < |db'.txs| ensures CommitInv(ops, db', i) {
      assert CommitInv(ops, db, i);
    }
    CommitCounts(hash, signer, t, ops, db, tid);
  }

  lemma CommitCounts(hash: LockHash, signer: Signer, t: Tables, ops: seq<Op>, db: Db, tid: nat)
    requires Inv(hash, signer, t, ops, db) && tid < |db.txs| && db.txs[tid].pc.Ready?
    ensures var db' := Step(hash, signer, db, Advance(tid));
            && WithinOps(ops, db'.commits) && |db'.txs| == |ops|
            && forall j: nat {:trigger CountInv(signer, t, ops, db', j)} ::
                 j < |db'.commits| ==> CountInv(signer, t, ops, db', j)
  {
    var db', op := Step(hash, signer, db, Advance(tid)), db.txs[tid].op;
    assert TxInv(hash, signer, db, tid) && CommitInv(ops, db, tid);
    var picked := Pick(ops, db.commits);
    assert Pick(ops, db'.commits) == picked + [op];
    forall j: nat | j < |db'.commits| ensures CountInv(signer, t, ops, db', j) {
      if j < |db.commits| {
        assert CountInv(signer, t, ops, db, j);
        assert Pick(ops, db'.commits)[..j] == picked[..j];
        assert db.commits[j] in db.commits;
      } else {
        assert Pick(ops, db'.commits)[..j] == picked;
        if op.Supersede? {
          MarksLocal(db.committed, op.documentId, op.newVersion);
        }
      }
    }
  }

  lemma StepInv(hash: LockHash, signer: Signer, t: Tables, ops: seq<Op>, db: Db, e: Event)
    requires Inv(hash, signer, t, ops, db)
    ensures Inv(hash, signer, t, ops, Step(hash, signer, db, e))
  {
    if e.tid < |db.txs| {
      var tid, tx := e.tid, db.txs[e.tid];
      var h := hash(tx.op.Target());
      assert TxInv(hash, signer, db, tid);
      if e.Abort? {
        if tx.Active() {
          LocalStep(hash, signer, t, ops, db, tid, tx.(pc := Failed, writes := NO_WRITES), Release(db.locks, h));
        }
      } else if tx.pc.Idle? {
        StartStep(hash, signer, t, ops, db, tid);
      } else if tx.pc.Ready? {
        CommitStep(hash, signer, t, ops, db, tid);
      } else if tx.Active() {
        StatementOnTrack(signer, db.committed, tx);
        assert db.locks[h := tid] == db.locks;
        LocalStep(hash, signer, t, ops, db, tid, Statement(signer, db.committed, tx), db.locks);
      }
    }
  }

  lemma StartStep(hash: LockHash, signer: Signer, t: Tables, ops: seq<Op>, db: Db, tid: nat)
    requires Inv(hash, signer, t, ops, db) && tid < |db.txs| && db.txs[tid].pc.Idle? && db.txs[tid].writes == NO_WRITES
    ensures Inv(hash, signer, t, ops, Step(hash, signer, db, Advance(tid)))
  {
    var tx := db.txs[tid];
    var h := hash(tx.op.Target());
    if !Effective(signer, tx.op) {
      LocalStep(hash, signer, t, ops, db, tid, tx.(pc := Failed), db.locks);
    } else if h !in db.locks {
      LocalStep(hash, signer, t, ops, db, tid, tx.(pc := Locked), db.locks[h := tid]);
    }
  }

  /** Every interleaving, with any transactions rolled back anywhere, keeps the invariant. */
  lemma {:induction false} ExecInv(hash: LockHash, signer: Signer, t: Tables, ops: seq<Op>, events: seq<Event>)
    ensures Inv(hash, signer, t, ops, Exec(hash, signer, Initial(t, ops), events))
  {
    if events == [] {
      InitialInv(hash, signer, t, ops);
    } else {
      var before := events[..|events| - 1];
      ExecInv(hash, signer, t, ops, before);
      StepInv(hash, signer, t, ops, Exec(hash, signer, Initial(t, ops), before), events[|events| - 1]);
    }
  }

  // ---------------------------------------------------------------- main results

  /** Serializability: after any interleaving the tables are those of running the committed
      operations one after another in commit order, every transaction commits at most once, and a
      committed `supersede` reported what it would report in that serial run. */
  lemma {:induction false} Serializability(hash: LockHash, signer: Signer, t: Tables, ops: seq<Op>, events: seq<Event>)
    ensures var db := Exec(hash, signer, Initial(t, ops), events);
            && |db.txs| == |ops| && WithinOps(ops, db.commits)
            && db.committed == Run(signer, t, Pick(ops, db.commits))
            && (forall i, j :: 0 <= i < j < |db.commits| ==> db.commits[i] != db.commits[j])
            && (forall i: nat :: i < |ops| ==> (db.txs[i].pc.Committed? <==> i in db.commits))
            && (forall j: nat {:trigger CountInv(signer, t, ops, db, j)} ::
                  j < |db.commits| ==> CountInv(signer, t, ops, db, j))
  {
    ExecInv(hash, signer, t, ops, events);
    var db := Exec(hash, signer, Initial(t, ops), events);
    forall i: nat | i < |ops| ensures db.txs[i].pc.Committed? <==> i in db.commits {
      assert CommitInv(ops, db, i);
    }
  }

  lemma {:induction false} CommitsGrow(hash: LockHash, signer: Signer, db: Db, events: seq<Event>, n: nat)
    requires n <= |events|
    ensures Exec(hash, signer, db, events[..n]).commits <= Exec(hash, signer, db, events).commits
    decreases |events|
  {
    if n == |events| {
      assert events[..n] == events;
    } else {
      var before := events[..|events| - 1];
      assert before[..n] == events[..n];
      CommitsGrow(hash, signer, db, before, n);
    }
  }

  /** A `lookup` at any moment reads the committed tables, and they are the tables of a prefix of
      the final serial run. */
  lemma ReadsSeeSerialPrefix(hash: LockHash, signer: Signer, t: Tables, ops: seq<Op>, events: seq<Event>, n: nat)
    requires n <= |events|
    ensures var early := Exec(hash, signer, Initial(t, ops), events[..n]);
            var late := Exec(hash, signer, Initial(t, ops), events);
            && WithinOps(ops, late.commits) && |early.commits| <= |late.commits|
            && early.committed == Run(signer, t, Pick(ops, late.commits)[..|early.commits|])
  {
    var early := Exec(hash, signer, Initial(t, ops), events[..n]);
    var late := Exec(hash, signer, Initial(t, ops), events);
    ExecInv(hash, signer, t, ops, events[..n]);
    ExecInv(hash, signer, t, ops, events);
    CommitsGrow(hash, signer, Initial(t, ops), events, n);
    assert Pick(ops, late.commits)[..|early.commits|] == Pick(ops, early.commits);
  }

  lemma {:induction false} RunKeepsSound(signer: Signer, t: Tables, ops: seq<Op>)
    requires Sound(signer, t)
    ensures Sound(signer, Run(signer, t, ops))
  {
    if ops == [] {
    } else {
      RunKeepsSound(signer, t, ops[..|ops| - 1]);
      StepSound(signer, Run(signer, t, ops[..|ops| - 1]), ops[|ops| - 1]);
    }
  }

  /** So whatever readers see at any moment is a sound index. */
  lemma ReadersSeeSoundTables(hash: LockHash, signer: Signer, t: Tables, ops: seq<Op>, events: seq<Event>)
    requires Sound(signer, t)
    ensures Sound(signer, Exec(hash, signer, Initial(t, ops), events).committed)
  {
    ExecInv(hash, signer, t, ops, events);
    RunKeepsSound(signer, t, Pick(ops, Exec(hash, signer, Initial(t, ops), events).commits));
  }

  predicate Finished(tx: Tx) {
    tx.pc.Committed? || tx.pc.Failed?
  }

  /** No deadlock: while some transaction is unfinished, some transaction can move. */
  lemma NoDeadlock(hash: LockHash, signer: Signer, t: Tables, ops: seq<Op>, events: seq<Event>, i: nat)
    requires i < |Exec(hash, signer, Initial(t, ops), events).txs|
    requires !Finished(Exec(hash, signer, Initial(t, ops), events).txs[i])
    ensures exists tid: nat :: CanMove(hash, signer, Exec(hash, signer, Initial(t, ops), events), tid)
  {
    var db := Exec(hash, signer, Initial(t, ops), events);
    ExecInv(hash, signer, t, ops, events);
    var h := hash(db.txs[i].op.Target());
    if db.txs[i].Active() {
      ActiveMoves(hash, signer, t, ops, db, i);
    } else if h in db.locks {
      assert LockInv(hash, db, h);
      ActiveMoves(hash, signer, t, ops, db, db.locks[h]);
    } else {
      assert CanMove(hash, signer, db, i);
    }
  }

  ghost predicate CanMove(hash: LockHash, signer: Signer, db: Db, tid: nat) {
    tid < |db.txs| && tid < |Step(hash, signer, db, Advance(tid)).txs|
    && Step(hash, signer, db, Advance(tid)).txs[tid].pc != db.txs[tid].pc
  }

  lemma ActiveMoves(hash: LockHash, signer: Signer, t: Tables, ops: seq<Op>, db: Db, i: nat)
    requires Inv(hash, signer, t, ops, db) && i < |db.txs| && db.txs[i].Active()
    ensures CanMove(hash, signer, db, i)
  {
    assert TxInv(hash, signer, db, i);
  }
}
