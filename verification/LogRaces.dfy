/**
 How many leaves concurrent adds leave in the Postgres log, and exactly when every row ends up with
 one (provenex/index/merkle_postgres_index.py).
 */
module LogRaces {
  import opened Basics
  import opened IndexTables
  import opened MerkleIndex
  import opened MerklePostgres

  // ---------------------------------------------------------------- counting leaves

  /** The writers that logged a leaf for this row. */
  ghost function LoggedBy(writers: seq<Writer>, k: RowKey): set<int> {
    set w | 0 <= w < |writers| && writers[w].pc.Logged? && writers[w].op.Add? && writers[w].op.key == k
  }

  /** Where a writer's next move takes it. */
  predicate Follows(effective: bool, was: Pc, now: Pc) {
    match was
    case Start => now.Checked?
    case Checked(existed) => now == if !effective then Rejected else if existed then Refreshed else Based
    case Based => now.Based? || now.LeafLocked?
    case LeafLocked => now.LeafLocked? || now.ReadBack?
    case ReadBack(_) => now.Numbered?
    case Numbered(_, _) => now.Logged?
    case _ => now == was
  }

  /** A move changes one writer's place, and appends to the log exactly when it ends as logged. */
  lemma MoveLogs(signer: Signer, db: Db, w: nat)
    requires w < |db.writers| && db.writers[w].op.Add?
    ensures var next, wr := Move(signer, db, w), db.writers[w];
            && |next.writers| == |db.writers|
            && next.writers == db.writers[w := Writer(wr.op, next.writers[w].pc)]
            && Follows(Effective(signer, wr.op), wr.pc, next.writers[w].pc)
            && next.log == if wr.pc.Numbered? then db.log + [wr.op.key] else db.log
  {
  }

  lemma LoggedByStep(writers: seq<Writer>, w: nat, pc: Pc, k: RowKey)
    requires w < |writers| && writers[w].op.Add? && !writers[w].pc.Logged?
    ensures |LoggedBy(writers[w := writers[w].(pc := pc)], k)|
         == |LoggedBy(writers, k)| + if pc.Logged? && writers[w].op.key == k then 1 else 0
  {
    var was, now := LoggedBy(writers, k), LoggedBy(writers[w := writers[w].(pc := pc)], k);
    var more: set<int> := if pc.Logged? && writers[w].op.key == k then {w} else {};
    forall v ensures v in now <==> v in was + more {
    }
    assert now == was + more && w !in was;
  }

  /** How many leaves a row has: those it had, plus one for every writer that logged it. */
  lemma {:induction false} LoggedCount(signer: Signer, db: Db, events: seq<Event>, k: RowKey)
    requires Initial(signer, db)
    ensures var end := Exec(signer, db, events);
            multiset(end.log)[k] == multiset(db.log)[k] + |LoggedBy(end.writers, k)|
  {
    if events == [] {
      assert LoggedBy(db.writers, k) == {};
    } else {
      var before, e := events[..|events| - 1], events[|events| - 1];
      LoggedCount(signer, db, before, k);
      var mid := Exec(signer, db, before);
      if e.Advance? && e.w < |mid.writers| && mid.writers[e.w].op.Add? && !mid.writers[e.w].pc.Logged? {
        MoveLogs(signer, mid, e.w);
        LoggedByStep(mid.writers, e.w, Move(signer, mid, e.w).writers[e.w].pc, k);
      }
    }
  }

  /** The writer has looked for its row, has not seen it, and will go on to insert it. */
  ghost predicate Looking(signer: Signer, db: Db, w: nat) {
    && w < |db.writers| && db.writers[w].op.Add? && Effective(signer, db.writers[w].op)
    && db.writers[w].pc == Checked(false)
  }

  /** After n events of the run the writer has looked for its row and has not seen it. */
  ghost predicate LooksAt(signer: Signer, db: Db, events: seq<Event>, n: nat, w: nat) {
    n <= |events| && Looking(signer, Exec(signer, db, events[..n]), w)
  }

  ghost predicate Missed(signer: Signer, db: Db, events: seq<Event>, w: nat) {
    exists n: nat :: LooksAt(signer, db, events, n, w)
  }

  /** The writer is past a look that missed its row. */
  ghost predicate Beyond(signer: Signer, wr: Writer) {
    Effective(signer, wr.op) && (wr.pc == Checked(false) || wr.OwesLeaf() || wr.pc.Logged?)
  }

  /** Past the look only with valid arguments. */
  ghost predicate Sane(signer: Signer, wr: Writer) {
    wr.op.Add? && (wr.OwesLeaf() || wr.pc.Logged? ==> Effective(signer, wr.op))
  }

  lemma BeyondMove(signer: Signer, was: Writer, now: Writer)
    requires now.op == was.op && Sane(signer, was) && Follows(Effective(signer, was.op), was.pc, now.pc)
    ensures Sane(signer, now)
    ensures Beyond(signer, now) <==> Beyond(signer, was) || (Effective(signer, now.op) && now.pc == Checked(false))
  {
  }

  lemma BeyondStep(signer: Signer, db: Db, e: Event, w: nat)
    requires w < |db.writers| && Sane(signer, db.writers[w])
    ensures var next := Step(signer, db, e);
            && |next.writers| == |db.writers| && next.writers[w].op == db.writers[w].op
            && Sane(signer, next.writers[w])
            && (Beyond(signer, next.writers[w]) <==> Beyond(signer, db.writers[w]) || Looking(signer, next, w))
  {
    var next := Step(signer, db, e);
    if e.Advance? && e.w < |db.writers| && db.writers[e.w].op.Add? {
      MoveLogs(signer, db, e.w);
      if e.w == w {
        BeyondMove(signer, db.writers[w], next.writers[w]);
      }
    } else {
      assert next.writers == db.writers;
    }
  }

  lemma LooksAtStep(signer: Signer, db: Db, events: seq<Event>, n: nat, w: nat)
    requires n < |events|
    ensures LooksAt(signer, db, events, n, w) <==> LooksAt(signer, db, events[..|events| - 1], n, w)
  {
    assert events[..|events| - 1][..n] == events[..n];
  }

  lemma MissedStep(signer: Signer, db: Db, events: seq<Event>, w: nat)
    requires events != []
    ensures Missed(signer, db, events, w) <==>
            Missed(signer, db, events[..|events| - 1], w) || Looking(signer, Exec(signer, db, events), w)
  {
    var before := events[..|events| - 1];
    assert events[..|events|] == events;
    assert LooksAt(signer, db, events, |events|, w) == Looking(signer, Exec(signer, db, events), w);
    forall n: nat | n < |events| ensures LooksAt(signer, db, events, n, w) == LooksAt(signer, db, before, n, w) {
      LooksAtStep(signer, db, events, n, w);
    }
  }

  /** Being past a missed look remembers exactly that there was one. */
  lemma {:induction false} BeyondIffMissed(signer: Signer, db: Db, events: seq<Event>, w: nat)
    requires Initial(signer, db) && w < |db.writers|
    ensures var end := Exec(signer, db, events);
            && |end.writers| == |db.writers| && end.writers[w].op == db.writers[w].op
            && Sane(signer, end.writers[w])
            && (Beyond(signer, end.writers[w]) <==> Missed(signer, db, events, w))
  {
    if events == [] {
      assert forall n: nat :: !LooksAt(signer, db, events, n, w);
    } else {
      BeyondIffMissed(signer, db, events[..|events| - 1], w);
      BeyondStep(signer, Exec(signer, db, events[..|events| - 1]), events[|events| - 1], w);
      MissedStep(signer, db, events, w);
    }
  }

  /** The writers whose add of this row looked before the row was there. */
  ghost function Missers(signer: Signer, db: Db, events: seq<Event>, k: RowKey): set<int> {
    set w | 0 <= w < |db.writers| && db.writers[w].op.Add? && db.writers[w].op.key == k && Missed(signer, db, events, w)
  }

  /** How many leaves a row has when no writer is under way: those it had, plus one for every add of
      it that looked before the row was there. */
  lemma {:induction false} LeafCount(signer: Signer, db: Db, events: seq<Event>, k: RowKey)
    requires Initial(signer, db) && Quiescent(Exec(signer, db, events))
    ensures multiset(Exec(signer, db, events).log)[k] == multiset(db.log)[k] + |Missers(signer, db, events, k)|
  {
    var end := Exec(signer, db, events);
    LoggedCount(signer, db, events, k);
    SameWriters(signer, db, events);
    forall w ensures w in LoggedBy(end.writers, k) <==> w in Missers(signer, db, events, k) {
      if 0 <= w < |db.writers| {
        BeyondIffMissed(signer, db, events, w);
        assert end.writers[w].Finished();
      }
    }
    assert LoggedBy(end.writers, k) == Missers(signer, db, events, k);
  }

  lemma {:induction false} SameWriters(signer: Signer, db: Db, events: seq<Event>)
    ensures |Exec(signer, db, events).writers| == |db.writers|
  {
    if events == [] {
    } else {
      SameWriters(signer, db, events[..|events| - 1]);
    }
  }

  // ---------------------------------------------------------------- races

  /** Two writers of one row have both looked for it and have both not seen it. */
  ghost predicate Race(signer: Signer, db: Db, v: nat, w: nat) {
    && v != w && Looking(signer, db, v) && Looking(signer, db, w)
    && db.writers[v].op.key == db.writers[w].op.key
  }

  ghost predicate AnyRace(signer: Signer, db: Db) {
    exists v: nat, w: nat :: Race(signer, db, v, w)
  }

  /** There is a race after n events of the run. */
  ghost predicate RacesAt(signer: Signer, db: Db, events: seq<Event>, n: nat) {
    n <= |events| && AnyRace(signer, Exec(signer, db, events[..n]))
  }

  ghost predicate Races(signer: Signer, db: Db, events: seq<Event>) {
    exists n: nat :: RacesAt(signer, db, events, n)
  }

  lemma RacesStep(signer: Signer, db: Db, events: seq<Event>)
    requires events != []
    ensures Races(signer, db, events) <==>
            Races(signer, db, events[..|events| - 1]) || AnyRace(signer, Exec(signer, db, events))
  {
    var before := events[..|events| - 1];
    assert events[..|events|] == events;
    assert RacesAt(signer, db, events, |events|) == AnyRace(signer, Exec(signer, db, events));
    forall n: nat | n < |events| ensures RacesAt(signer, db, events, n) == RacesAt(signer, db, before, n) {
      RacesAtStep(signer, db, events, n);
    }
  }

  lemma RacesAtStep(signer: Signer, db: Db, events: seq<Event>, n: nat)
    requires n < |events|
    ensures RacesAt(signer, db, events, n) <==> RacesAt(signer, db, events[..|events| - 1], n)
  {
    assert events[..|events| - 1][..n] == events[..n];
  }

  lemma RacesNone(signer: Signer, db: Db)
    ensures Races(signer, db, []) <==> AnyRace(signer, db)
  {
    assert Exec(signer, db, []) == db;
    assert RacesAt(signer, db, [], 0) == AnyRace(signer, db);
  }

  /** A writer that owes a leaf is the first to log its row, and a row still looked for is not there. */
  ghost predicate SingleAt(signer: Signer, db: Db, w: nat)
    requires w < |db.writers| && db.writers[w].op.Add?
  {
    && (db.writers[w].OwesLeaf() ==> db.writers[w].op.key !in Elements(db.log))
    && (Looking(signer, db, w) ==> db.writers[w].op.key !in db.tables.rows)
  }

  /** Two writers do not owe a leaf of the same row. */
  ghost predicate Apart(db: Db, v: nat, w: nat) {
    v < |db.writers| && w < |db.writers| && v != w && db.writers[v].OwesLeaf() && db.writers[w].OwesLeaf() ==>
      db.writers[v].op.Add? && db.writers[w].op.Add? && db.writers[v].op.key != db.writers[w].op.key
  }

  ghost predicate SingleInv(signer: Signer, db: Db) {
    && |Elements(db.log)| == |db.log|
    && (forall w: nat {:trigger SingleAt(signer, db, w)} ::
          w < |db.writers| && db.writers[w].op.Add? ==> SingleAt(signer, db, w))
    && (forall v: nat, w: nat {:trigger Apart(db, v, w)} :: Apart(db, v, w))
  }

  /** One writer moves, perhaps together with inserting rows; the log stays. */
  lemma SingleChange(signer: Signer, db: Db, next: Db, w: nat, pc: Pc, added: set<RowKey>)
    requires SingleInv(signer, db) && w < |db.writers| && db.writers[w].op.Add?
    requires next.log == db.log && next.writers == db.writers[w := Writer(db.writers[w].op, pc)]
    requires next.tables.rows.Keys == db.tables.rows.Keys + added
    requires forall v: nat :: v != w && Looking(signer, db, v) ==> db.writers[v].op.key !in added
    requires pc == Checked(false) ==> db.writers[w].op.key !in next.tables.rows
    requires Writer(db.writers[w].op, pc).OwesLeaf() && !db.writers[w].OwesLeaf() ==> Sole(db, w)
    ensures SingleInv(signer, next)
  {
    assert SingleAt(signer, db, w);
    forall v: nat | v < |next.writers| && next.writers[v].op.Add? ensures SingleAt(signer, next, v) {
      if v != w {
        assert SingleAt(signer, db, v);
        assert Looking(signer, next, v) ==> Looking(signer, db, v);
      }
    }
    forall u: nat, v: nat ensures Apart(next, u, v) {
      assert Apart(db, u, v);
    }
  }

  /** Nobody has logged or owes a leaf of this writer's row. */
  ghost predicate Sole(db: Db, w: nat)
    requires w < |db.writers| && db.writers[w].op.Add?
  {
    && db.writers[w].op.key !in Elements(db.log)
    && forall v: nat :: v < |db.writers| && v != w && db.writers[v].OwesLeaf() ==>
         db.writers[v].op.Add? && db.writers[v].op.key != db.writers[w].op.key
  }

  lemma LookingIsSole(signer: Signer, db: Db, w: nat)
    requires Inv(signer, db) && SingleInv(signer, db) && Looking(signer, db, w)
    ensures Sole(db, w)
  {
    LoggedRowsExist(signer, db);
    assert SingleAt(signer, db, w);
    forall v: nat | v < |db.writers| && v != w && db.writers[v].OwesLeaf()
      ensures db.writers[v].op.Add? && db.writers[v].op.key != db.writers[w].op.key
    {
      assert WriterInv(signer, db, v);
    }
  }

  /** The inherited add inserts the row exactly when its arguments pass and it was not seen. */
  lemma CheckInserts(signer: Signer, db: Db, w: nat)
    requires Inv(signer, db) && w < |db.writers| && db.writers[w].op.Add? && db.writers[w].pc.Checked?
    ensures var next, k := Move(signer, db, w), db.writers[w].op.key;
            && next.log == db.log
            && next.writers == db.writers[w := Writer(db.writers[w].op, next.writers[w].pc)]
            && next.tables.rows.Keys == db.tables.rows.Keys + (if Looking(signer, db, w) then {k} else {})
            && !next.writers[w].pc.Checked?
            && (next.writers[w].OwesLeaf() ==> Looking(signer, db, w))
  {
    StepKeeps(signer, db.tables, db.writers[w].op);
    assert WriterInv(signer, db, w);
  }

  lemma SingleCheck(signer: Signer, db: Db, w: nat)
    requires Inv(signer, db) && SingleInv(signer, db) && !AnyRace(signer, db)
    requires w < |db.writers| && db.writers[w].op.Add? && db.writers[w].pc.Checked?
    ensures SingleInv(signer, Move(signer, db, w))
  {
    var next, k := Move(signer, db, w), db.writers[w].op.key;
    CheckInserts(signer, db, w);
    if Looking(signer, db, w) {
      LookingIsSole(signer, db, w);
      forall v: nat | v != w && Looking(signer, db, v) ensures db.writers[v].op.key != k {
        assert !Race(signer, db, v, w);
      }
      SingleChange(signer, db, next, w, next.writers[w].pc, {k});
    } else {
      SingleChange(signer, db, next, w, next.writers[w].pc, {});
    }
  }

  lemma SingleCommit(signer: Signer, db: Db, w: nat)
    requires Inv(signer, db) && SingleInv(signer, db)
    requires w < |db.writers| && db.writers[w].op.Add? && db.writers[w].pc.Numbered?
    ensures SingleInv(signer, Move(signer, db, w))
  {
    var next, k := Move(signer, db, w), db.writers[w].op.key;
    assert SingleAt(signer, db, w);
    ElementsExtend(db.log, k);
    forall v: nat | v < |next.writers| && next.writers[v].op.Add? ensures SingleAt(signer, next, v) {
      assert SingleAt(signer, db, v) && Apart(db, v, w);
    }
    forall u: nat, v: nat ensures Apart(next, u, v) {
      assert Apart(db, u, v);
    }
  }

  /** The other moves change one writer's place and neither rows nor log. */
  lemma SingleElsewhere(signer: Signer, db: Db, w: nat)
    requires Inv(signer, db) && SingleInv(signer, db)
    requires w < |db.writers| && db.writers[w].op.Add? && !db.writers[w].pc.Checked? && !db.writers[w].pc.Numbered?
    ensures SingleInv(signer, Move(signer, db, w))
  {
    var next := Move(signer, db, w);
    MoveLogs(signer, db, w);
    LookSees(signer, db, w);
    SingleChange(signer, db, next, w, next.writers[w].pc, {});
  }

  lemma LookSees(signer: Signer, db: Db, w: nat)
    requires w < |db.writers| && db.writers[w].op.Add? && !db.writers[w].pc.Checked?
    ensures Move(signer, db, w).tables == db.tables
    ensures Move(signer, db, w).writers[w].pc == Checked(false) ==> db.writers[w].op.key !in db.tables.rows
  {
  }

  lemma SingleStep(signer: Signer, db: Db, e: Event)
    requires Inv(signer, db) && SingleInv(signer, db) && !AnyRace(signer, db)
    ensures SingleInv(signer, Step(signer, db, e))
  {
    match e {
      case Other(op) =>
        if !op.Add? {
          StepKeeps(signer, db.tables, op);
          var next := Step(signer, db, e);
          forall v: nat | v < |next.writers| && next.writers[v].op.Add? ensures SingleAt(signer, next, v) {
            assert SingleAt(signer, db, v);
          }
          forall u: nat, v: nat ensures Apart(next, u, v) {
            assert Apart(db, u, v);
          }
        }
      case Advance(w) =>
        if w < |db.writers| && db.writers[w].op.Add? {
          if db.writers[w].pc.Checked? {
            SingleCheck(signer, db, w);
          } else if db.writers[w].pc.Numbered? {
            SingleCommit(signer, db, w);
          } else {
            SingleElsewhere(signer, db, w);
          }
        }
    }
  }

  lemma RacesNow(signer: Signer, db: Db, events: seq<Event>)
    ensures AnyRace(signer, Exec(signer, db, events)) ==> Races(signer, db, events)
  {
    assert events[..|events|] == events;
    assert RacesAt(signer, db, events, |events|) == AnyRace(signer, Exec(signer, db, events));
  }

  lemma {:induction false} RaceFreeExec(signer: Signer, db: Db, events: seq<Event>)
    requires Initial(signer, db) && !Races(signer, db, events)
    ensures SingleInv(signer, Exec(signer, db, events))
  {
    if events == [] {
      assert Exec(signer, db, events) == db;
    } else {
      var before := events[..|events| - 1];
      var mid := Exec(signer, db, before);
      RacesStep(signer, db, events);
      RacesNow(signer, db, before);
      RaceFreeExec(signer, db, before);
      ExecInv(signer, db, before);
      SingleStep(signer, mid, events[|events| - 1]);
    }
  }

  lemma {:induction false} CountInDistinct(log: seq<RowKey>, k: RowKey)
    requires Distinct(log)
    ensures multiset(log)[k] <= 1
  {
    if log == [] {
    } else {
      var before, last := log[..|log| - 1], log[|log| - 1];
      assert log == before + [last];
      CountInDistinct(before, k);
      if last == k {
        assert forall i :: 0 <= i < |before| ==> before[i] == log[i] && log[i] != log[|log| - 1];
        assert k !in before;
      }
    }
  }

  lemma RacersMiss(signer: Signer, db: Db, events: seq<Event>, n: nat, w: nat)
    requires Initial(signer, db) && LooksAt(signer, db, events, n, w)
    ensures w < |db.writers| && db.writers[w].op.Add?
    ensures db.writers[w].op.key == Exec(signer, db, events[..n]).writers[w].op.key
    ensures w in Missers(signer, db, events, db.writers[w].op.key)
  {
    SameWriters(signer, db, events[..n]);
    BeyondIffMissed(signer, db, events[..n], w);
    assert Missed(signer, db, events, w);
  }

  /** Both parties of a race log the row. */
  lemma RaceLogsTwice(signer: Signer, db: Db, events: seq<Event>)
    requires Initial(signer, db) && Quiescent(Exec(signer, db, events)) && Races(signer, db, events)
    ensures !Distinct(Exec(signer, db, events).log)
  {
    var n: nat :| RacesAt(signer, db, events, n);
    var v: nat, w: nat :| Race(signer, Exec(signer, db, events[..n]), v, w);
    RacersMiss(signer, db, events, n, v);
    RacersMiss(signer, db, events, n, w);
    var k := db.writers[v].op.key;
    LeafCount(signer, db, events, k);
    TwoAtLeast(Missers(signer, db, events, k), v, w);
    if Distinct(Exec(signer, db, events).log) {
      CountInDistinct(Exec(signer, db, events).log, k);
    }
  }

  lemma TwoAtLeast(s: set<int>, v: int, w: int)
    requires v in s && w in s && v != w
    ensures |s| >= 2
  {
    assert w in s - {v};
    assert |s - {v} - {w}| == |s| - 2;
  }

  /** When no writer is under way, rows and leaves are in bijection if and only if there was no moment
      at which two adds of one row had both looked for it in vain. */
  lemma {:induction false} OneLeafPerRow(signer: Signer, db: Db, events: seq<Event>)
    requires Initial(signer, db) && Quiescent(Exec(signer, db, events))
    ensures var end := Exec(signer, db, events);
            OnDisk(signer, end.tables, end.leaves, end.log) <==> !Races(signer, db, events)
  {
    if Races(signer, db, events) {
      RaceBreaksBijection(signer, db, events);
    } else {
      RaceFreeIsBijective(signer, db, events);
    }
  }

  lemma RaceBreaksBijection(signer: Signer, db: Db, events: seq<Event>)
    requires Initial(signer, db) && Quiescent(Exec(signer, db, events)) && Races(signer, db, events)
    ensures var end := Exec(signer, db, events);
            !OnDisk(signer, end.tables, end.leaves, end.log)
  {
    var end := Exec(signer, db, events);
    RaceLogsTwice(signer, db, events);
    if OnDisk(signer, end.tables, end.leaves, end.log) {
      LeavesAndRowsBijective(signer, end.tables, end.leaves, end.log);
    }
  }

  lemma RaceFreeIsBijective(signer: Signer, db: Db, events: seq<Event>)
    requires Initial(signer, db) && Quiescent(Exec(signer, db, events)) && !Races(signer, db, events)
    ensures var end := Exec(signer, db, events);
            OnDisk(signer, end.tables, end.leaves, end.log)
  {
    ExecInv(signer, db, events);
    RaceFreeExec(signer, db, events);
    EveryRowLogged(signer, db, events);
  }

  predicate UnderWay(wr: Writer) {
    !wr.pc.Start? && !wr.Finished()
  }

  /** At every moment of the run at most one writer is under way. */
  ghost predicate OneAtATime(signer: Signer, db: Db, events: seq<Event>) {
    forall n: nat {:trigger events[..n]} :: n <= |events| ==> AtMostOne(Exec(signer, db, events[..n]))
  }

  ghost predicate AtMostOne(db: Db) {
    forall v, w :: 0 <= v < |db.writers| && 0 <= w < |db.writers| && v != w ==>
      !UnderWay(db.writers[v]) || !UnderWay(db.writers[w])
  }

  lemma NoRaceAmongOne(signer: Signer, db: Db)
    requires AtMostOne(db)
    ensures !AnyRace(signer, db)
  {
  }

  /** With a single writer at a time every row has exactly one leaf. */
  lemma SingleWriterLogsOnce(signer: Signer, db: Db, events: seq<Event>)
    requires Initial(signer, db) && Quiescent(Exec(signer, db, events)) && OneAtATime(signer, db, events)
    ensures var end := Exec(signer, db, events);
            OnDisk(signer, end.tables, end.leaves, end.log)
  {
    forall n: nat | n <= |events| ensures !RacesAt(signer, db, events, n) {
      assert AtMostOne(Exec(signer, db, events[..n]));
      NoRaceAmongOne(signer, Exec(signer, db, events[..n]));
    }
    OneLeafPerRow(signer, db, events);
  }

  // ---------------------------------------------------------------- a race

  /** One more move at the end of a run. */
  lemma MoveNext(signer: Signer, start: Db, events: seq<Event>, w: nat) returns (more: seq<Event>, next: Db)
    requires var db := Exec(signer, start, events);
             Inv(signer, db) && w < |db.writers| && db.writers[w].op.Add?
    ensures next == Exec(signer, start, more) == Move(signer, Exec(signer, start, events), w) && Inv(signer, next)
  {
    more := events + [Advance(w)];
    assert more[..|events|] == events;
    next := Exec(signer, start, more);
    MoveInv(signer, Exec(signer, start, events), w);
  }

  ghost predicate LoggedNext(db: Db, next: Db, w: nat)
    requires w < |db.writers| && db.writers[w].op.Add?
  {
    && next.lock == None
    && next.writers == db.writers[w := Writer(db.writers[w].op, Logged)]
    && next.log == db.log + [db.writers[w].op.key]
  }

  /** A writer that owes a leaf and finds the lock free logs it in four moves. */
  lemma LogsItsLeaf(signer: Signer, start: Db, events: seq<Event>, w: nat) returns (more: seq<Event>, next: Db)
    requires var db := Exec(signer, start, events);
             && Inv(signer, db) && w < |db.writers| && db.writers[w].op.Add?
             && db.writers[w].pc == Based && db.lock == None
    ensures next == Exec(signer, start, more) && Inv(signer, next)
    ensures LoggedNext(Exec(signer, start, events), next, w)
  {
    var db0 := Exec(signer, start, events);
    var k, ws := db0.writers[w].op.key, db0.writers;
    assert WriterInv(signer, db0, w);
    assert SoundRow(signer, db0.tables, k);
    var e1, db1 := MoveNext(signer, start, events, w);
    assert db1 == SetPc(db0, w, LeafLocked).(lock := Some(w));
    var e2, db2 := MoveNext(signer, start, e1, w);
    assert db2.writers[w].pc.ReadBack? && db2.writers == ws[w := db2.writers[w]] && db2.log == db0.log;
    var e3, db3 := MoveNext(signer, start, e2, w);
    assert db3.writers[w].pc.Numbered? && db3.writers == ws[w := db3.writers[w]] && db3.log == db0.log;
    more, next := MoveNext(signer, start, e3, w);
  }

  ghost function TwoAdds(op: Op): Db {
    Db(EMPTY_TABLES, map[], [], None, [Writer(op, Start), Writer(op, Start)])
  }

  /** Both adds look for the row before either has written it. */
  lemma BothLookFirst(signer: Signer, op: Op) returns (events: seq<Event>, db: Db)
    requires op.Add? && Effective(signer, op)
    ensures db == Exec(signer, TwoAdds(op), events) && Inv(signer, db)
    ensures db.writers == [Writer(op, Checked(false)), Writer(op, Checked(false))] && db.lock == None && db.log == []
  {
    InitialInv(signer, TwoAdds(op));
    var e1, db1 := MoveNext(signer, TwoAdds(op), [], 0);
    assert db1.writers == [Writer(op, Checked(false)), Writer(op, Start)];
    events, db := MoveNext(signer, TwoAdds(op), e1, 1);
  }

  /** Then both insert it, or find it inserted. */
  lemma BothInsert(signer: Signer, op: Op) returns (events: seq<Event>, db: Db)
    requires op.Add? && Effective(signer, op)
    ensures db == Exec(signer, TwoAdds(op), events) && Inv(signer, db)
    ensures db.writers == [Writer(op, Based), Writer(op, Based)] && db.lock == None && db.log == []
  {
    var e2, db2 := BothLookFirst(signer, op);
    var e3, db3 := MoveNext(signer, TwoAdds(op), e2, 0);
    assert db3.writers == [Writer(op, Based), Writer(op, Checked(false))];
    events, db := MoveNext(signer, TwoAdds(op), e3, 1);
  }

  /** Two overlapping adds of one new row log it twice. */
  lemma RacingAddsLogTwice(signer: Signer, op: Op) returns (events: seq<Event>)
    requires op.Add? && Effective(signer, op)
    ensures Initial(signer, TwoAdds(op))
    ensures Quiescent(Exec(signer, TwoAdds(op), events))
    ensures Exec(signer, TwoAdds(op), events).log == [op.key, op.key]
  {
    var e4, db4 := BothInsert(signer, op);
    var e5, db5 := LogsItsLeaf(signer, TwoAdds(op), e4, 0);
    var e6, db6 := LogsItsLeaf(signer, TwoAdds(op), e5, 1);
    events := e6;
  }
}
