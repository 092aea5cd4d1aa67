/**
 That the transactions of provenex/index/postgres_index.py get where they should: what waiting, rejection
 and rollback do, and that a transaction which finds its lock free commits its operation by its own steps.
 */
module PostgresLaws {
  import opened Basics
  import opened IndexTables
  import opened PostgresIndex

  /** A call with bad arguments ends without a lock; one whose lock is held waits; one whose lock is free
      takes it; and none of them touches the tables. */
  lemma Starts(hash: LockHash, signer: Signer, db: Db, tid: nat)
    requires tid < |db.txs| && db.txs[tid].pc.Idle?
    ensures var tx, h, next := db.txs[tid], hash(db.txs[tid].op.Target()), Step(hash, signer, db, Advance(tid));
            && next.committed == db.committed && next.commits == db.commits
            && (!Effective(signer, tx.op) ==> next == db.(txs := db.txs[tid := tx.(pc := Failed)]))
            && (Effective(signer, tx.op) && h in db.locks ==> next == db)
            && (Effective(signer, tx.op) && h !in db.locks ==>
                  next == db.(txs := db.txs[tid := tx.(pc := Locked)], locks := db.locks[h := tid]))
  {
  }

  /** A rollback ends the transaction, drops its writes, frees its lock and no other, and leaves the tables
      and every other transaction alone. */
  lemma RollsBack(hash: LockHash, signer: Signer, db: Db, tid: nat)
    requires tid < |db.txs| && db.txs[tid].Active()
    ensures var h, next := hash(db.txs[tid].op.Target()), Step(hash, signer, db, Abort(tid));
            && next.committed == db.committed && next.commits == db.commits
            && |next.txs| == |db.txs| && next.txs[tid].pc.Failed? && next.txs[tid].writes == Delta(map[], map[])
            && (forall i :: 0 <= i < |db.txs| && i != tid ==> next.txs[i] == db.txs[i])
            && next.locks.Keys == db.locks.Keys - {h}
            && (forall k :: k in next.locks ==> next.locks[k] == db.locks[k])
  {
  }

  /** At most how many steps are left. */
  function Left(pc: Pc): nat {
    match pc
    case Locked => 5
    case Selected(_) => 4
    case Marked => 3
    case Updated => 2
    case Ready => 1
    case _ => 0
  }

  lemma StatementAdvances(signer: Signer, c: Tables, tx: Tx)
    requires OnTrack(signer, PartOf(c, tx.op.Target()), tx) && tx.Active() && !tx.pc.Ready?
    ensures var next := Statement(signer, c, tx);
            next.op == tx.op && next.Active() && Left(next.pc) < Left(tx.pc)
  {
  }

  /** Everything but transaction `tid`, and the lock it holds, is as it was. */
  ghost predicate OnlyMoves(db: Db, next: Db, tid: nat)
    requires tid < |db.txs|
  {
    && |next.txs| == |db.txs| && next.txs[tid].op == db.txs[tid].op
    && forall i :: 0 <= i < |db.txs| && i != tid ==> next.txs[i] == db.txs[i]
  }

  /** The database after n steps of one transaction. */
  function After(hash: LockHash, signer: Signer, db: Db, tid: nat, n: nat): Db
    decreases n
  {
    if n == 0 then db else After(hash, signer, Step(hash, signer, db, Advance(tid)), tid, n - 1)
  }

  function Steps(tid: nat, n: nat): seq<Event> {
    seq(n, i => Advance(tid))
  }

  lemma {:induction false} ExecFromFront(hash: LockHash, signer: Signer, db: Db, next: Db, e: Event, rest: seq<Event>)
    requires next == Step(hash, signer, db, e)
    ensures Exec(hash, signer, db, [e] + rest) == Exec(hash, signer, next, rest)
    decreases |rest|
  {
    var all := [e] + rest;
    if rest == [] {
      assert all[..|all| - 1] == [] && all[|all| - 1] == e;
    } else {
      assert all[..|all| - 1] == [e] + rest[..|rest| - 1] && all[|all| - 1] == rest[|rest| - 1];
      ExecFromFront(hash, signer, db, next, e, rest[..|rest| - 1]);
    }
  }

  lemma {:induction false} AfterIsExec(hash: LockHash, signer: Signer, db: Db, tid: nat, n: nat)
    ensures After(hash, signer, db, tid, n) == Exec(hash, signer, db, Steps(tid, n))
    decreases n
  {
    if n == 0 {
    } else {
      var next := Step(hash, signer, db, Advance(tid));
      AfterIsExec(hash, signer, next, tid, n - 1);
      assert Steps(tid, n) == [Advance(tid)] + Steps(tid, n - 1);
      ExecFromFront(hash, signer, db, next, Advance(tid), Steps(tid, n - 1));
    }
  }

  /** What a transaction that holds its lock ends with. */
  ghost predicate Commits(hash: LockHash, signer: Signer, db: Db, end: Db, tid: nat)
    requires tid < |db.txs|
  {
    && OnlyMoves(db, end, tid) && end.txs[tid].pc.Committed?
    && end.committed == Apply(signer, db.committed, db.txs[tid].op)
    && end.commits == db.commits + [tid]
    && hash(db.txs[tid].op.Target()) !in end.locks
  }

  lemma CommitsNow(hash: LockHash, signer: Signer, t: Tables, ops: seq<Op>, db: Db, tid: nat)
    requires Inv(hash, signer, t, ops, db) && tid < |db.txs| && db.txs[tid].pc.Ready?
    ensures Commits(hash, signer, db, Step(hash, signer, db, Advance(tid)), tid)
  {
    assert TxInv(hash, signer, db, tid);
    FullWritesApply(signer, db.committed, db.txs[tid].op);
  }

  /** A statement before does not matter. */
  lemma CommitsLater(hash: LockHash, signer: Signer, db: Db, next: Db, end: Db, tid: nat)
    requires tid < |db.txs| && OnlyMoves(db, next, tid)
    requires next.committed == db.committed && next.commits == db.commits
    requires Commits(hash, signer, next, end, tid)
    ensures Commits(hash, signer, db, end, tid)
  {
  }

  /** A transaction that holds its lock commits its operation by at most five steps of its own. */
  lemma {:induction false} HolderCommits(hash: LockHash, signer: Signer, t: Tables, ops: seq<Op>, db: Db, tid: nat)
    returns (n: nat)
    requires Inv(hash, signer, t, ops, db) && tid < |db.txs| && db.txs[tid].Active()
    ensures 1 <= n <= Left(db.txs[tid].pc)
    ensures Commits(hash, signer, db, After(hash, signer, db, tid, n), tid)
    decreases Left(db.txs[tid].pc)
  {
    var next := Step(hash, signer, db, Advance(tid));
    if db.txs[tid].pc.Ready? {
      n := 1;
      CommitsNow(hash, signer, t, ops, db, tid);
      assert After(hash, signer, next, tid, 0) == next;
    } else {
      StatementStep(hash, signer, t, ops, db, tid);
      var m := HolderCommits(hash, signer, t, ops, next, tid);
      n := m + 1;
      CommitsLater(hash, signer, db, next, After(hash, signer, next, tid, m), tid);
    }
  }

  lemma StatementStep(hash: LockHash, signer: Signer, t: Tables, ops: seq<Op>, db: Db, tid: nat)
    requires Inv(hash, signer, t, ops, db) && tid < |db.txs| && db.txs[tid].Active() && !db.txs[tid].pc.Ready?
    ensures var next := Step(hash, signer, db, Advance(tid));
            && Inv(hash, signer, t, ops, next) && OnlyMoves(db, next, tid)
            && next.committed == db.committed && next.commits == db.commits && next.locks == db.locks
            && next.txs[tid].Active() && Left(next.txs[tid].pc) < Left(db.txs[tid].pc)
  {
    assert TxInv(hash, signer, db, tid);
    StatementAdvances(signer, db.committed, db.txs[tid]);
    StepInv(hash, signer, t, ops, db, Advance(tid));
  }

  /** A call with valid arguments that finds its lock free commits its operation within six steps. */
  lemma FreeCallCommits(hash: LockHash, signer: Signer, t: Tables, ops: seq<Op>, db: Db, tid: nat) returns (n: nat)
    requires Inv(hash, signer, t, ops, db) && tid < |db.txs| && db.txs[tid].pc.Idle?
    requires Effective(signer, db.txs[tid].op) && hash(db.txs[tid].op.Target()) !in db.locks
    ensures 2 <= n <= 6
    ensures Commits(hash, signer, db, Exec(hash, signer, db, Steps(tid, n)), tid)
  {
    var next := Step(hash, signer, db, Advance(tid));
    Starts(hash, signer, db, tid);
    StepInv(hash, signer, t, ops, db, Advance(tid));
    var m := HolderCommits(hash, signer, t, ops, next, tid);
    n := m + 1;
    CommitsLater(hash, signer, db, next, After(hash, signer, next, tid, m), tid);
    AfterIsExec(hash, signer, db, tid, n);
  }
}
