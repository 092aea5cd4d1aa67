/**
 The Postgres transparency log with many writers (provenex/index/merkle_postgres_index.py). An
 `add` checks whether its row exists, runs the inherited `add`, and, if it saw no row, appends a
 leaf in a transaction of its own behind one advisory lock. The inherited `add` is one step here;
 MerkleTransactions takes it apart into its statements.
 */
module MerklePostgres {
  import opened Basics
  import opened Payload
  import opened IndexTables
  import opened MerkleIndex

  datatype Pc =
    | Start
    | Checked(existed: bool)
    | Based
    | LeafLocked
    | ReadBack(leaf: LeafRow)
    | Numbered(leaf: LeafRow, index: int)
    | Logged
    | Refreshed
    | Rejected

  datatype Writer = Writer(op: Op, pc: Pc) {
    /** The row is there but this writer has yet to commit its leaf. */
    predicate OwesLeaf() {
      pc.Based? || pc.LeafLocked? || pc.ReadBack? || pc.Numbered?
    }

    predicate Locking() {
      pc.LeafLocked? || pc.ReadBack? || pc.Numbered?
    }

    predicate Finished() {
      pc.Logged? || pc.Refreshed? || pc.Rejected?
    }
  }

  /** `log` records which row each committed leaf was made for. */
  datatype Db = Db(tables: Tables, leaves: map<int, LeafRow>, log: seq<RowKey>, lock: Option<nat>, writers: seq<Writer>)

  /** A writer moves, or some other client runs `supersede` or `set_authorization`. */
  datatype Event = Advance(w: nat) | Other(op: Op)

  ghost predicate IsMax(keys: set<int>, m: int) {
    m in keys && forall x :: x in keys ==> x <= m
  }

  /** `SELECT COALESCE(MAX(leaf_index), -1) + 1`; only an empty table has no maximum. */
  ghost function NextIndex(keys: set<int>): int {
    if exists m :: IsMax(keys, m) then
      var m :| IsMax(keys, m);
      m + 1
    else 0
  }

  lemma NextAfterSegment(n: nat)
    ensures NextIndex(Segment(n)) == n
  {
    SegmentIs(n);
    if n > 0 {
      assert IsMax(Segment(n), n - 1);
    }
  }

  ghost function Move(signer: Signer, db: Db, w: nat): Db
    requires w < |db.writers| && db.writers[w].op.Add?
  {
    var op, k := db.writers[w].op, db.writers[w].op.key;
    match db.writers[w].pc
    case Start => SetPc(db, w, Checked(k in db.tables.rows))
    case Checked(existed) =>
      if !Effective(signer, op) then SetPc(db, w, Rejected)
      else SetPc(db, w, if existed then Refreshed else Based).(tables := Apply(signer, db.tables, op))
    case Based =>
      if db.lock.Some? then db else SetPc(db, w, LeafLocked).(lock := Some(w))
    case LeafLocked =>
      if k !in db.tables.rows then db
      else
        (match CanonicalPayload(FieldsOf(k, db.tables.rows[k]))
         case Err(_) => db
         case Ok(payload) => SetPc(db, w, ReadBack(LeafRow(k.fingerprint, payload))))
    case ReadBack(leaf) => SetPc(db, w, Numbered(leaf, NextIndex(db.leaves.Keys)))
    case Numbered(leaf, index) =>
      SetPc(db, w, Logged).(lock := None, leaves := db.leaves[index := leaf], log := db.log + [k])
    case _ => db
  }

  ghost function SetPc(db: Db, w: nat, pc: Pc): Db
    requires w < |db.writers|
  {
    db.(writers := db.writers[w := db.writers[w].(pc := pc)])
  }

  ghost function Step(signer: Signer, db: Db, e: Event): Db {
    match e
    case Advance(w) => if w < |db.writers| && db.writers[w].op.Add? then Move(signer, db, w) else db
    case Other(op) => if op.Add? then db else db.(tables := Apply(signer, db.tables, op))
  }

  ghost function Exec(signer: Signer, db: Db, events: seq<Event>): Db
    decreases |events|
  {
    if events == [] then db
    else Step(signer, Exec(signer, db, events[..|events| - 1]), events[|events| - 1])
  }

  // ---------------------------------------------------------------- what every step keeps

  ghost predicate WriterInv(signer: Signer, db: Db, w: nat)
    requires w < |db.writers|
  {
    var wr := db.writers[w];
    && wr.op.Add?
    && (wr.OwesLeaf() || wr.pc == Checked(true) ==> wr.op.key in db.tables.rows)
    && (wr.Locking() ==> db.lock == Some(w))
    && (wr.pc.ReadBack? || wr.pc.Numbered? ==> LeafOf(signer, db.tables, wr.op.key, wr.pc.leaf))
    && (wr.pc.Numbered? ==> wr.pc.index == |db.log|)
  }

  /** Some writer has inserted or found missing this row and still owes its leaf. */
  ghost predicate Owed(db: Db, w: nat, k: RowKey) {
    w < |db.writers| && db.writers[w].OwesLeaf() && db.writers[w].op.Add? && db.writers[w].op.key == k
  }

  ghost predicate Covered(db: Db, k: RowKey) {
    k in Elements(db.log) || exists w: nat :: Owed(db, w, k)
  }

  ghost predicate Inv(signer: Signer, db: Db) {
    && Sound(signer, db.tables)
    && db.leaves.Keys == Segment(|db.log|)
    && LeavesMatch(signer, db.tables, db.leaves, db.log)
    && (forall w: nat {:trigger WriterInv(signer, db, w)} :: w < |db.writers| ==> WriterInv(signer, db, w))
    && (forall k {:trigger Covered(db, k)} :: k in db.tables.rows ==> Covered(db, k))
  }

  /** Changing the tables under the writers: rows and signed columns stay. */
  lemma TablesChange(signer: Signer, db: Db, t: Tables, k: RowKey)
    requires Inv(signer, db) && Sound(signer, t) && Keeps(db.tables, t)
    requires t.rows.Keys <= db.tables.rows.Keys + {k}
    requires k in t.rows ==> Covered(db, k)
    ensures Inv(signer, db.(tables := t))
  {
    var db' := db.(tables := t);
    KeptLeaves(signer, db.tables, t, db.leaves, db.log);
    forall w: nat | w < |db'.writers| ensures WriterInv(signer, db', w) {
      assert WriterInv(signer, db, w);
      if db.writers[w].op.key in db.tables.rows {
        assert KeepsRow(db.tables, t, db.writers[w].op.key);
      }
    }
    forall x | x in db'.tables.rows ensures Covered(db', x) {
      assert Covered(db, x);
      if x !in Elements(db.log) {
        var w: nat :| Owed(db, w, x);
        assert Owed(db', w, x);
      }
    }
  }

  /** A change to one writer that moves neither tables nor leaves. */
  lemma WriterChange(signer: Signer, db: Db, w: nat, pc: Pc, lock: Option<nat>)
    requires Inv(signer, db) && w < |db.writers|
    requires WriterInv(signer, SetPc(db, w, pc).(lock := lock), w)
    requires db.writers[w].OwesLeaf() ==> Writer(db.writers[w].op, pc).OwesLeaf()
    requires forall v: nat :: v < |db.writers| && v != w && db.writers[v].Locking() ==> lock == db.lock
    ensures Inv(signer, SetPc(db, w, pc).(lock := lock))
  {
    var db' := SetPc(db, w, pc).(lock := lock);
    forall v: nat | v < |db'.writers| ensures WriterInv(signer, db', v) {
      assert WriterInv(signer, db, v);
    }
    forall k | k in db'.tables.rows ensures Covered(db', k) {
      assert Covered(db, k);
      if k !in Elements(db.log) {
        var v: nat :| Owed(db, v, k);
        assert Owed(db', v, k);
      }
    }
  }

  lemma CheckStep(signer: Signer, db: Db, w: nat)
    requires Inv(signer, db) && w < |db.writers| && db.writers[w].op.Add? && db.writers[w].pc.Checked?
    ensures Inv(signer, Move(signer, db, w))
  {
    var op, existed := db.writers[w].op, db.writers[w].pc.existed;
    assert WriterInv(signer, db, w);
    if !Effective(signer, op) {
      WriterChange(signer, db, w, Rejected, db.lock);
    } else {
      StepKeeps(signer, db.tables, op);
      var t := Apply(signer, db.tables, op);
      if existed {
        assert Covered(db, op.key);
        TablesChange(signer, db, t, op.key);
        WriterChange(signer, db.(tables := t), w, Refreshed, db.lock);
      } else {
        BaseStep(signer, db, w, t);
      }
    }
  }

  /** The inherited `add` of a writer that saw no row: the row is there now, and the writer owes its leaf. */
  lemma BaseStep(signer: Signer, db: Db, w: nat, t: Tables)
    requires Inv(signer, db) && w < |db.writers| && db.writers[w].op.Add? && db.writers[w].pc == Checked(false)
    requires Sound(signer, t) && Keeps(db.tables, t)
    requires t.rows.Keys == db.tables.rows.Keys + {db.writers[w].op.key}
    ensures Inv(signer, SetPc(db, w, Based).(tables := t))
  {
    var db', k := SetPc(db, w, Based).(tables := t), db.writers[w].op.key;
    KeptLeaves(signer, db.tables, t, db.leaves, db.log);
    forall v: nat | v < |db'.writers| ensures WriterInv(signer, db', v) {
      assert WriterInv(signer, db, v);
      if db.writers[v].op.key in db.tables.rows {
        assert KeepsRow(db.tables, t, db.writers[v].op.key);
      }
    }
    forall x | x in db'.tables.rows ensures Covered(db', x) {
      if x == k {
        assert Owed(db', w, k);
      } else {
        assert Covered(db, x);
        if x !in Elements(db.log) {
          var v: nat :| Owed(db, v, x);
          assert Owed(db', v, x);
        }
      }
    }
  }

  /** Committing a leaf: the index is the next free one, because the lock kept others out. */
  lemma CommitLeaf(signer: Signer, db: Db, w: nat)
    requires Inv(signer, db) && w < |db.writers| && db.writers[w].op.Add? && db.writers[w].pc.Numbered?
    ensures Inv(signer, Move(signer, db, w))
    ensures db.writers[w].pc.index == |db.log| && |db.log| !in db.leaves
  {
    var db', k, leaf := Move(signer, db, w), db.writers[w].op.key, db.writers[w].pc.leaf;
    assert WriterInv(signer, db, w);
    StoreNext(db.leaves, |db.log|, |db.log + [k]|, leaf);
    AppendMatch(signer, db.tables, k, db.leaves, db.log, leaf);
    ElementsExtend(db.log, k);
    forall v: nat | v < |db'.writers| ensures WriterInv(signer, db', v) {
      assert WriterInv(signer, db, v);
    }
    forall x | x in db'.tables.rows ensures Covered(db', x) {
      assert Covered(db, x);
      if x !in Elements(db'.log) {
        var v: nat :| Owed(db, v, x);
        assert Owed(db', v, x);
      }
    }
  }

  lemma MoveInv(signer: Signer, db: Db, w: nat)
    requires Inv(signer, db) && w < |db.writers| && db.writers[w].op.Add?
    ensures Inv(signer, Move(signer, db, w))
  {
    var k := db.writers[w].op.key;
    assert WriterInv(signer, db, w);
    forall v: nat | v < |db.writers| ensures db.writers[v].Locking() ==> db.lock == Some(v) {
      assert WriterInv(signer, db, v);
    }
    match db.writers[w].pc {
      case Start => WriterChange(signer, db, w, Checked(k in db.tables.rows), db.lock);
      case Checked(_) => CheckStep(signer, db, w);
      case Based =>
        if db.lock == None {
          WriterChange(signer, db, w, LeafLocked, Some(w));
        }
      case LeafLocked =>
        assert SoundRow(signer, db.tables, k);
        var leaf := LeafRow(k.fingerprint, CanonicalPayload(FieldsOf(k, db.tables.rows[k])).value);
        WriterChange(signer, db, w, ReadBack(leaf), db.lock);
      case ReadBack(leaf) =>
        NextAfterSegment(|db.log|);
        WriterChange(signer, db, w, Numbered(leaf, |db.log|), db.lock);
      case Numbered(_, _) => CommitLeaf(signer, db, w);
      case _ =>
    }
  }

  lemma StepInv(signer: Signer, db: Db, e: Event)
    requires Inv(signer, db)
    ensures Inv(signer, Step(signer, db, e))
  {
    match e {
      case Advance(w) =>
        if w < |db.writers| && db.writers[w].op.Add? {
          MoveInv(signer, db, w);
        }
      case Other(op) =>
        if !op.Add? {
          StepKeeps(signer, db.tables, op);
          var t := Apply(signer, db.tables, op);
          var none := RowKey("", "", "");
          if none in t.rows {
            assert Covered(db, none);
          }
          TablesChange(signer, db, t, none);
        }
    }
  }

  // ---------------------------------------------------------------- main results

  /** A log in order, and writers that have not begun. */
  ghost predicate Initial(signer: Signer, db: Db) {
    && OnDisk(signer, db.tables, db.leaves, db.log)
    && db.lock == None
    && forall w :: 0 <= w < |db.writers| ==> db.writers[w].op.Add? && db.writers[w].pc == Start
  }

  lemma InitialInv(signer: Signer, db: Db)
    requires Initial(signer, db)
    ensures Inv(signer, db)
  {
    forall k | k in db.tables.rows ensures Covered(db, k) {
      assert k in Elements(db.log);
    }
  }

  /** In every reachable state the committed leaf indices are exactly 0..N-1, and every leaf is the
      signed payload of an existing row. */
  lemma {:induction false} ExecInv(signer: Signer, db: Db, events: seq<Event>)
    requires Initial(signer, db)
    ensures Inv(signer, Exec(signer, db, events))
  {
    if events == [] {
      InitialInv(signer, db);
    } else {
      var before := events[..|events| - 1];
      ExecInv(signer, db, before);
      StepInv(signer, Exec(signer, db, before), events[|events| - 1]);
    }
  }

  ghost predicate SameLeaf(a: map<int, LeafRow>, b: map<int, LeafRow>, i: int)
    requires i in a
  {
    i in b && b[i] == a[i]
  }

  /** Committed leaves never change. */
  lemma {:induction false} LeavesStay(signer: Signer, db: Db, events: seq<Event>, n: nat, i: int)
    requires Initial(signer, db) && n <= |events|
    requires i in Exec(signer, db, events[..n]).leaves
    ensures SameLeaf(Exec(signer, db, events[..n]).leaves, Exec(signer, db, events).leaves, i)
    decreases |events|
  {
    if n == |events| {
      assert events[..n] == events;
    } else {
      var before, e := events[..|events| - 1], events[|events| - 1];
      assert before[..n] == events[..n];
      LeavesStay(signer, db, before, n, i);
      ExecInv(signer, db, before);
      var mid := Exec(signer, db, before);
      if e.Advance? && e.w < |mid.writers| && mid.writers[e.w].op.Add? && mid.writers[e.w].pc.Numbered? {
        CommitLeaf(signer, mid, e.w);
      }
    }
  }

  ghost predicate Quiescent(db: Db) {
    forall w :: 0 <= w < |db.writers| ==> db.writers[w].Finished()
  }

  lemma LoggedRowsExist(signer: Signer, db: Db)
    requires Inv(signer, db)
    ensures Elements(db.log) <= db.tables.rows.Keys
  {
    forall k | k in Elements(db.log) ensures k in db.tables.rows {
      var i: nat :| i < |db.log| && db.log[i] == k;
      assert LeafAt(signer, db.tables, db.leaves, db.log, i);
    }
  }

  /** When no writer is under way, every row has at least one leaf. */
  lemma EveryRowLogged(signer: Signer, db: Db, events: seq<Event>)
    requires Initial(signer, db) && Quiescent(Exec(signer, db, events))
    ensures var end := Exec(signer, db, events);
            Elements(end.log) == end.tables.rows.Keys
  {
    var end := Exec(signer, db, events);
    ExecInv(signer, db, events);
    LoggedRowsExist(signer, end);
    forall k | k in end.tables.rows ensures k in Elements(end.log) {
      assert Covered(end, k);
    }
  }
}
