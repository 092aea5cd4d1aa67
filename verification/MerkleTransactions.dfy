/**
 The Postgres log with its inherited `add` taken apart into the statements of PostgresIndex: an
 `add` looks for its row, runs its transaction interleaved with all others, and appends its leaf
 once that transaction has committed. Every such run is a run of MerklePostgres, in which the
 inherited call is one step, so what is proved there holds of the statements too.
 */
module MerkleTransactions {
  import opened Basics
  import opened IndexTables
  import Base = PostgresIndex
  import Log = MerklePostgres
  import LogRaces
  import PostgresLaws
  import MerkleIndex

  /** The transactions of the two tables, and the writers of the log. Writer i runs transaction i;
      the transactions after those are calls of `supersede` and `set_authorization`. */
  datatype Db = Db(base: Base.Db, log: Log.Db)

  /** A transaction of the tables moves or rolls back, or a writer moves outside its transaction. */
  datatype Event = OnTables(e: Base.Event) | OnLog(w: nat)

  /** A transaction ends its call by committing, or by raising before its first statement. */
  predicate Ends(was: Base.Tx, now: Base.Tx) {
    (was.pc.Ready? && now.pc.Committed?) || (was.pc.Idle? && now.pc.Failed?)
  }

  /** What the end of transaction `tid` is in the coarser machine. */
  function Coarse(db: Db, tid: nat): Log.Event
    requires tid < |db.base.txs|
  {
    if tid < |db.log.writers| then Log.Advance(tid) else Log.Other(db.base.txs[tid].op)
  }

  /** A writer's transaction runs between its look and the end of the inherited call. */
  predicate InCall(db: Db, tid: nat) {
    tid < |db.log.writers| ==> db.log.writers[tid].pc.Checked?
  }

  ghost function Step(hash: Base.LockHash, signer: Signer, db: Db, e: Event): Db {
    match e
    case OnTables(be) =>
      if be.tid >= |db.base.txs| || !InCall(db, be.tid) then db
      else
        var next := Base.Step(hash, signer, db.base, be);
        var ends := be.tid < |next.txs| && Ends(db.base.txs[be.tid], next.txs[be.tid]);
        Db(next, if ends then Log.Step(signer, db.log, Coarse(db, be.tid)) else db.log)
    case OnLog(w) =>
      if w < |db.log.writers| && db.log.writers[w].pc.Checked? then db
      else db.(log := Log.Step(signer, db.log, Log.Advance(w)))
  }

  ghost function Exec(hash: Base.LockHash, signer: Signer, db: Db, events: seq<Event>): Db
    decreases |events|
  {
    if events == [] then db
    else Step(hash, signer, Exec(hash, signer, db, events[..|events| - 1]), events[|events| - 1])
  }

  /** The first transactions are the writers' adds, and no other adds. */
  ghost predicate Paired(ops: seq<Op>, writers: seq<Log.Writer>) {
    && |writers| <= |ops|
    && (forall i :: 0 <= i < |writers| ==> writers[i].op == ops[i])
    && (forall i :: 0 <= i < |ops| ==> (ops[i].Add? <==> i < |writers|))
  }

  /** Both halves see the same committed tables. */
  ghost predicate Coupled(hash: Base.LockHash, signer: Signer, t: Tables, ops: seq<Op>, db: Db) {
    && Base.Inv(hash, signer, t, ops, db.base)
    && Paired(ops, db.log.writers)
    && db.log.tables == db.base.committed
  }

  lemma CommitIsApply(hash: Base.LockHash, signer: Signer, t: Tables, ops: seq<Op>, db: Base.Db, tid: nat)
    requires Base.Inv(hash, signer, t, ops, db) && tid < |db.txs| && db.txs[tid].pc.Ready?
    ensures Effective(signer, ops[tid]) && db.txs[tid].op == ops[tid]
    ensures Base.Step(hash, signer, db, Base.Advance(tid)).committed == Apply(signer, db.committed, ops[tid])
  {
    assert Base.TxInv(hash, signer, db, tid) && Base.CommitInv(ops, db, tid);
    Base.FullWritesApply(signer, db.committed, ops[tid]);
  }

  /** Only a commit changes the committed tables, and only an add raises before its first statement. */
  lemma TablesStep(hash: Base.LockHash, signer: Signer, t: Tables, ops: seq<Op>, db: Base.Db, e: Base.Event)
    requires Base.Inv(hash, signer, t, ops, db) && e.tid < |db.txs|
    ensures var next := Base.Step(hash, signer, db, e);
            var tid := e.tid;
            && |next.txs| == |db.txs| && db.txs[tid].op == ops[tid]
            && next.committed == (if Ends(db.txs[tid], next.txs[tid]) && Effective(signer, ops[tid])
                                  then Apply(signer, db.committed, ops[tid]) else db.committed)
            && (Ends(db.txs[tid], next.txs[tid]) && !Effective(signer, ops[tid]) ==> ops[tid].Add?)
  {
    assert Base.CommitInv(ops, db, e.tid);
    if db.txs[e.tid].pc.Ready? && e.Advance? {
      CommitIsApply(hash, signer, t, ops, db, e.tid);
    }
  }

  /** The end of a call in the coarser machine: the tables take the whole call at once. */
  lemma CoarseStep(signer: Signer, db: Db, ops: seq<Op>, tid: nat)
    requires Paired(ops, db.log.writers) && InCall(db, tid) && tid < |ops| == |db.base.txs|
    requires db.base.txs[tid].op == ops[tid]
    ensures var next := Log.Step(signer, db.log, Coarse(db, tid));
            && Paired(ops, next.writers)
            && next.tables == (if Effective(signer, ops[tid]) then Apply(signer, db.log.tables, ops[tid])
                               else db.log.tables)
  {
  }

  lemma LeafStep(signer: Signer, db: Log.Db, ops: seq<Op>, w: nat)
    requires Paired(ops, db.writers) && (w < |db.writers| ==> !db.writers[w].pc.Checked?)
    ensures var next := Log.Step(signer, db, Log.Advance(w));
            Paired(ops, next.writers) && next.tables == db.tables
  {
  }

  /** One step here is one step, or none, of the coarser machine. */
  lemma StepRefines(hash: Base.LockHash, signer: Signer, t: Tables, ops: seq<Op>, db: Db, e: Event)
    returns (coarse: seq<Log.Event>)
    requires Coupled(hash, signer, t, ops, db)
    ensures Coupled(hash, signer, t, ops, Step(hash, signer, db, e))
    ensures Step(hash, signer, db, e).log == Log.Exec(signer, db.log, coarse) && |coarse| <= 1
  {
    coarse := [];
    match e {
      case OnTables(be) =>
        if be.tid < |db.base.txs| && InCall(db, be.tid) {
          var next := Base.Step(hash, signer, db.base, be);
          Base.StepInv(hash, signer, t, ops, db.base, be);
          TablesStep(hash, signer, t, ops, db.base, be);
          CoarseStep(signer, db, ops, be.tid);
          if Ends(db.base.txs[be.tid], next.txs[be.tid]) {
            coarse := [Coarse(db, be.tid)];
            OneStep(signer, db.log, coarse[0]);
          }
        }
      case OnLog(w) =>
        if !(w < |db.log.writers| && db.log.writers[w].pc.Checked?) {
          LeafStep(signer, db.log, ops, w);
          coarse := [Log.Advance(w)];
          OneStep(signer, db.log, coarse[0]);
        }
    }
  }

  lemma OneStep(signer: Signer, db: Log.Db, e: Log.Event)
    ensures Log.Exec(signer, db, [e]) == Log.Step(signer, db, e)
  {
    assert [e][..0] == [];
    assert Log.Exec(signer, db, []) == db;
  }

  lemma {:induction false} ExecAppend(signer: Signer, db: Log.Db, one: seq<Log.Event>, two: seq<Log.Event>)
    ensures Log.Exec(signer, db, one + two) == Log.Exec(signer, Log.Exec(signer, db, one), two)
    decreases |two|
  {
    if two == [] {
      assert one + two == one;
    } else {
      var before := two[..|two| - 1];
      ExecAppend(signer, db, one, before);
      assert (one + two)[..|one + two| - 1] == one + before;
    }
  }

  /** A log in order over committed tables, and calls that have not begun. */
  ghost predicate Initial(signer: Signer, ops: seq<Op>, db: Db) {
    && Log.Initial(signer, db.log)
    && Paired(ops, db.log.writers)
    && db.base == Base.Initial(db.log.tables, ops)
  }

  /** At some moment of the run two writers of one row have looked for it in vain and have not ended
      their transactions. */
  ghost predicate Races(hash: Base.LockHash, signer: Signer, db: Db, events: seq<Event>)
    decreases |events|
  {
    || LogRaces.AnyRace(signer, Exec(hash, signer, db, events).log)
    || (events != [] && Races(hash, signer, db, events[..|events| - 1]))
  }

  lemma RacesAppend(signer: Signer, db: Log.Db, one: seq<Log.Event>, two: seq<Log.Event>)
    requires |two| <= 1
    ensures LogRaces.Races(signer, db, one + two) <==>
            LogRaces.Races(signer, db, one) || LogRaces.AnyRace(signer, Log.Exec(signer, db, one + two))
  {
    if two == [] {
      assert one + two == one;
      LogRaces.RacesNow(signer, db, one);
    } else {
      LogRaces.RacesStep(signer, db, one + two);
      assert (one + two)[..|one + two| - 1] == one;
    }
  }

  /** Every run of interleaved statements is, for the log, a run in which the inherited calls happen
      at once, in the order of their commits, with the same races; and the tables are those of the
      transactions. */
  lemma {:induction false} Refines(hash: Base.LockHash, signer: Signer, ops: seq<Op>, db: Db, events: seq<Event>)
    returns (coarse: seq<Log.Event>)
    requires Initial(signer, ops, db)
    ensures Coupled(hash, signer, db.log.tables, ops, Exec(hash, signer, db, events))
    ensures Exec(hash, signer, db, events).log == Log.Exec(signer, db.log, coarse)
    ensures Races(hash, signer, db, events) <==> LogRaces.Races(signer, db.log, coarse)
    decreases |events|
  {
    if events == [] {
      Base.InitialInv(hash, signer, db.log.tables, ops);
      coarse := [];
      LogRaces.RacesNone(signer, db.log);
    } else {
      var before := events[..|events| - 1];
      var mid := Exec(hash, signer, db, before);
      var one := Refines(hash, signer, ops, db, before);
      var two := StepRefines(hash, signer, db.log.tables, ops, mid, events[|events| - 1]);
      coarse := one + two;
      ExecAppend(signer, db.log, one, two);
      RacesAppend(signer, db.log, one, two);
    }
  }

  /** Under every interleaving of statements leaf indices are exactly 0..N-1, each leaf is the signed
      payload of an existing row, and the tables are those of a serial run. */
  lemma StatementsKeepLog(hash: Base.LockHash, signer: Signer, ops: seq<Op>, db: Db, events: seq<Event>)
    requires Initial(signer, ops, db)
    ensures var end := Exec(hash, signer, db, events);
            && Log.Inv(signer, end.log)
            && Base.WithinOps(ops, end.base.commits)
            && end.log.tables == Run(signer, db.log.tables, Base.Pick(ops, end.base.commits))
  {
    var coarse := Refines(hash, signer, ops, db, events);
    Log.ExecInv(signer, db.log, coarse);
  }

  /** And when no writer is under way, rows and leaves are in bijection if and only if there was no
      race. */
  lemma StatementsLogOnceIff(hash: Base.LockHash, signer: Signer, ops: seq<Op>, db: Db, events: seq<Event>)
    requires Initial(signer, ops, db) && Log.Quiescent(Exec(hash, signer, db, events).log)
    ensures var end := Exec(hash, signer, db, events).log;
            MerkleIndex.OnDisk(signer, end.tables, end.leaves, end.log) <==> !Races(hash, signer, db, events)
  {
    var coarse := Refines(hash, signer, ops, db, events);
    LogRaces.OneLeafPerRow(signer, db.log, coarse);
  }

  // ---------------------------------------------------------------- every call gets done

  /** The database after n statements of one transaction. */
  ghost function After(hash: Base.LockHash, signer: Signer, db: Db, tid: nat, n: nat): Db
    decreases n
  {
    if n == 0 then db else After(hash, signer, Step(hash, signer, db, OnTables(Base.Advance(tid))), tid, n - 1)
  }

  function Statements(tid: nat, n: nat): seq<Event> {
    seq(n, i => OnTables(Base.Advance(tid)))
  }

  lemma {:induction false} ExecFromFront(hash: Base.LockHash, signer: Signer, db: Db, next: Db, e: Event,
                                         rest: seq<Event>)
    requires next == Step(hash, signer, db, e)
    ensures Exec(hash, signer, db, [e] + rest) == Exec(hash, signer, next, rest)
    decreases |rest|
  {
    var all := [e] + rest;
    if rest == [] {
      assert all[..|all| - 1] == [] && all[|all| - 1] == e;
    } else {
      assert all[..|all| - 1] == [e] + rest[..|rest| - 1] && all[|all| - 1] == rest[|rest| - 1];
      ExecFromFront(hash, signer, db, next, e, rest[..|rest| - 1]);
    }
  }

  lemma {:induction false} AfterIsExec(hash: Base.LockHash, signer: Signer, db: Db, tid: nat, n: nat)
    ensures After(hash, signer, db, tid, n) == Exec(hash, signer, db, Statements(tid, n))
    decreases n
  {
    if n == 0 {
    } else {
      var e := OnTables(Base.Advance(tid));
      var next := Step(hash, signer, db, e);
      AfterIsExec(hash, signer, next, tid, n - 1);
      assert Statements(tid, n) == [e] + Statements(tid, n - 1);
      ExecFromFront(hash, signer, db, next, e, Statements(tid, n - 1));
    }
  }

  /** A statement that does not end the call changes nothing in the log. */
  lemma WithinCall(hash: Base.LockHash, signer: Signer, t: Tables, ops: seq<Op>, db: Db, tid: nat)
    requires Coupled(hash, signer, t, ops, db) && tid < |db.base.txs| && InCall(db, tid)
    requires db.base.txs[tid].Active() && !db.base.txs[tid].pc.Ready?
    ensures var next := Step(hash, signer, db, OnTables(Base.Advance(tid)));
            && next.log == db.log && next.base == Base.Step(hash, signer, db.base, Base.Advance(tid))
            && |next.base.txs| == |db.base.txs| && next.base.txs[tid].op == db.base.txs[tid].op
            && next.base.txs[tid].Active()
            && PostgresLaws.Left(next.base.txs[tid].pc) < PostgresLaws.Left(db.base.txs[tid].pc)
  {
    PostgresLaws.StatementStep(hash, signer, t, ops, db.base, tid);
  }

  /** The commit ends the call. */
  lemma CommitEndsCall(hash: Base.LockHash, signer: Signer, t: Tables, ops: seq<Op>, db: Db, tid: nat)
    requires Coupled(hash, signer, t, ops, db) && tid < |db.base.txs| && InCall(db, tid)
    requires db.base.txs[tid].pc.Ready?
    ensures var next := Step(hash, signer, db, OnTables(Base.Advance(tid)));
            && next.log == Log.Step(signer, db.log, Coarse(db, tid))
            && tid < |next.base.txs| && next.base.txs[tid].pc.Committed?
  {
    PostgresLaws.CommitsNow(hash, signer, t, ops, db.base, tid);
  }

  /** A call whose transaction holds its lock runs to its end by the statements of that transaction, and its
      end is one step of the coarser machine. */
  lemma {:induction false} CallFinishes(hash: Base.LockHash, signer: Signer, t: Tables, ops: seq<Op>, db: Db, tid: nat)
    returns (n: nat)
    requires Coupled(hash, signer, t, ops, db)
    requires tid < |db.base.txs| && InCall(db, tid) && db.base.txs[tid].Active()
    ensures var end := Exec(hash, signer, db, Statements(tid, n));
            && end.log == Log.Step(signer, db.log, Coarse(db, tid))
            && tid < |end.base.txs| && end.base.txs[tid].pc.Committed?
  {
    n := CallFinishesAfter(hash, signer, t, ops, db, tid);
    AfterIsExec(hash, signer, db, tid, n);
  }

  lemma {:induction false} CallFinishesAfter(hash: Base.LockHash, signer: Signer, t: Tables, ops: seq<Op>, db: Db,
                                             tid: nat)
    returns (n: nat)
    requires Coupled(hash, signer, t, ops, db)
    requires tid < |db.base.txs| && InCall(db, tid) && db.base.txs[tid].Active()
    ensures var end := After(hash, signer, db, tid, n);
            && end.log == Log.Step(signer, db.log, Coarse(db, tid))
            && tid < |end.base.txs| && end.base.txs[tid].pc.Committed?
    decreases PostgresLaws.Left(db.base.txs[tid].pc)
  {
    var next := Step(hash, signer, db, OnTables(Base.Advance(tid)));
    if db.base.txs[tid].pc.Ready? {
      CommitEndsCall(hash, signer, t, ops, db, tid);
      n := 1;
      assert After(hash, signer, next, tid, 0) == next;
    } else {
      WithinCall(hash, signer, t, ops, db, tid);
      var coarse := StepRefines(hash, signer, t, ops, db, OnTables(Base.Advance(tid)));
      assert Coarse(next, tid) == Coarse(db, tid);
      var m := CallFinishesAfter(hash, signer, t, ops, next, tid);
      n := m + 1;
    }
  }
}
