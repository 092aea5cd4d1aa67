/**
 A CrewAI session as the producer of a trajectory (provenex/integrations/crewai/session.py), with
 the emitting half of `verify_chunks` (provenex/core/verify.py) and `admission_check`
 (provenex/tool_call/admission.py), and the proof that the auditor accepts every run of it.
 Receipt ids, drawn at random by the source, are parameters.
 */
module Session {
  import opened Basics
  import opened DagSearch
  import opened Trajectory

  /** The context `verify_chunks` writes on its receipt: overrides for this emission only. */
  function VerifyContext(cursor: TrajectoryContext, kind: Option<string>, agent: Option<string>,
                         session: Option<string>): TrajectoryContext
  {
    if kind == None && agent == None && session == None then cursor
    else cursor.(stepKind := OrElse(kind, cursor.stepKind), agentId := OrElse(agent, cursor.agentId),
                 sessionId := OrElse(session, cursor.sessionId))
  }

  /** The context `admission_check` writes: the step kind defaults to "tool_call". */
  function AdmissionContext(cursor: TrajectoryContext, kind: Option<string>, agent: Option<string>,
                            session: Option<string>): TrajectoryContext
  {
    var own := if cursor.stepKind.Some? && cursor.stepKind.value != "" then cursor.stepKind else Some("tool_call");
    cursor.(stepKind := OrElse(kind, own), agentId := OrElse(agent, cursor.agentId),
            sessionId := OrElse(session, cursor.sessionId))
  }

  /** The cursor both calls hand back: a step further, with the new receipt as its parent. */
  function AfterEmission(cursor: TrajectoryContext, receiptId: Id, agent: Option<string>,
                         session: Option<string>): TrajectoryContext {
    cursor.NextStep([receiptId], None, OrElse(agent, cursor.agentId), OrElse(session, cursor.sessionId))
  }

  datatype SessionState = SessionState(cursor: TrajectoryContext, receipts: seq<Receipt>, agentId: Option<string>)

  datatype SessionOp =
    | VerifyChunks(kind: string, agent: Option<string>, freshId: Id)
    | AdmissionCheck(kind: string, agent: Option<string>, requestSession: Option<string>, freshId: Id)
    | Advance(parents: Option<seq<Receipt>>, stepKind: Option<string>, agent: Option<string>)

  function Ids(rs: seq<Receipt>): (ids: seq<Id>)
    ensures |ids| == |rs|
  {
    seq(|rs|, i requires 0 <= i < |rs| => rs[i].receiptId)
  }

  function Do(s: SessionState, op: SessionOp): SessionState {
    match op
    case VerifyChunks(kind, agent, id) =>
      var who := OrElse(agent, s.agentId);
      s.(cursor := AfterEmission(s.cursor, id, who, None),
         receipts := s.receipts + [Receipt(id, Some(VerifyContext(s.cursor, Some(kind), who, None)))])
    case AdmissionCheck(kind, agent, session, id) =>
      var who := OrElse(agent, s.agentId);
      s.(cursor := AfterEmission(s.cursor, id, who, session),
         receipts := s.receipts + [Receipt(id, Some(AdmissionContext(s.cursor, Some(kind), who, session)))])
    case Advance(parents, kind, agent) =>
      var ps := if parents == None then s.cursor.parentStepIds else Ids(parents.value);
      s.(cursor := s.cursor.NextStep(ps, kind, agent, None))
  }

  /** Fresh ids, and explicit parents taken from this session. */
  ghost predicate Allowed(s: SessionState, op: SessionOp) {
    match op
    case VerifyChunks(_, _, id) => !KnownId(s.receipts, id)
    case AdmissionCheck(_, _, _, id) => !KnownId(s.receipts, id)
    case Advance(parents, _, _) => parents.Some? ==> forall p :: p in parents.value ==> p in s.receipts
  }

  function Start(freshTrajectoryId: string, now: string, agent: Option<string>): SessionState {
    SessionState(StartTrajectory(freshTrajectoryId, now, agent), [], agent)
  }

  // ---------------------------------------------------------------- what every step keeps

  /** The id belongs to a receipt of an earlier step. */
  ghost predicate Earlier(rs: seq<Receipt>, p: Id, step: nat) {
    exists r :: r in rs && r.receiptId == p && r.trajectory.Some? && r.trajectory.value.stepIndex < step
  }

  ghost predicate AllEarlier(rs: seq<Receipt>, ps: seq<Id>, step: nat) {
    forall p :: p in ps ==> Earlier(rs, p, step)
  }

  ghost predicate ReceiptOk(s: SessionState, r: Receipt) {
    && r.trajectory.Some?
    && r.trajectory.value.trajectoryId == s.cursor.trajectoryId
    && r.trajectory.value.stepIndex < s.cursor.stepIndex
    && AllEarlier(s.receipts, r.trajectory.value.parentStepIds, r.trajectory.value.stepIndex)
  }

  ghost predicate DistinctIds(rs: seq<Receipt>) {
    forall i, j :: 0 <= i < j < |rs| ==> rs[i].receiptId != rs[j].receiptId
  }

  ghost predicate SessionOk(s: SessionState) {
    && DistinctIds(s.receipts)
    && (forall r {:trigger ReceiptOk(s, r)} :: r in s.receipts ==> ReceiptOk(s, r))
    && AllEarlier(s.receipts, s.cursor.parentStepIds, s.cursor.stepIndex)
  }

  lemma EarlierGrows(rs: seq<Receipt>, more: seq<Receipt>, ps: seq<Id>, step: nat, later: nat)
    requires AllEarlier(rs, ps, step) && rs <= more && step <= later
    ensures AllEarlier(more, ps, later)
  {
    forall p | p in ps ensures Earlier(more, p, later) {
      assert Earlier(rs, p, step);
      var r :| r in rs && r.receiptId == p && r.trajectory.Some? && r.trajectory.value.stepIndex < step;
      assert r in more;
    }
  }

  /** Emitting a receipt that carries the cursor's position and advancing past it. */
  lemma EmitKeeps(s: SessionState, r: Receipt, next: TrajectoryContext)
    requires SessionOk(s) && !KnownId(s.receipts, r.receiptId) && r.trajectory.Some?
    requires var c := r.trajectory.value;
             && c.trajectoryId == s.cursor.trajectoryId && c.stepIndex == s.cursor.stepIndex
             && c.parentStepIds == s.cursor.parentStepIds
    requires next.trajectoryId == s.cursor.trajectoryId && next.stepIndex == s.cursor.stepIndex + 1
    requires next.parentStepIds == [r.receiptId]
    ensures SessionOk(SessionState(next, s.receipts + [r], s.agentId))
  {
    var s' := SessionState(next, s.receipts + [r], s.agentId);
    assert r in s'.receipts;
    EarlierGrows(s.receipts, s'.receipts, s.cursor.parentStepIds, s.cursor.stepIndex, s.cursor.stepIndex);
    forall x | x in s'.receipts ensures ReceiptOk(s', x) {
      if x in s.receipts {
        assert ReceiptOk(s, x);
        EarlierGrows(s.receipts, s'.receipts, x.trajectory.value.parentStepIds, x.trajectory.value.stepIndex,
                     x.trajectory.value.stepIndex);
      }
    }
    assert Earlier(s'.receipts, r.receiptId, next.stepIndex);
    forall i | 0 <= i < |s.receipts| ensures s.receipts[i].receiptId != r.receiptId {
      assert s.receipts[i] in s.receipts;
    }
  }

  lemma AdvanceKeeps(s: SessionState, next: TrajectoryContext)
    requires SessionOk(s)
    requires next.trajectoryId == s.cursor.trajectoryId && next.stepIndex == s.cursor.stepIndex + 1
    requires AllEarlier(s.receipts, next.parentStepIds, next.stepIndex)
    ensures SessionOk(s.(cursor := next))
  {
    var s' := s.(cursor := next);
    forall x | x in s'.receipts ensures ReceiptOk(s', x) {
      assert ReceiptOk(s, x);
    }
  }

  lemma StepKeeps(s: SessionState, op: SessionOp)
    requires SessionOk(s) && Allowed(s, op)
    ensures SessionOk(Do(s, op))
  {
    var next := Do(s, op).cursor;
    match op {
      case VerifyChunks(_, _, _) =>
        EmitKeeps(s, Do(s, op).receipts[|s.receipts|], next);
      case AdmissionCheck(_, _, _, _) =>
        EmitKeeps(s, Do(s, op).receipts[|s.receipts|], next);
      case Advance(parents, _, _) =>
        if parents == None {
          EarlierGrows(s.receipts, s.receipts, next.parentStepIds, s.cursor.stepIndex, next.stepIndex);
        } else {
          forall p | p in next.parentStepIds ensures Earlier(s.receipts, p, next.stepIndex) {
            var i :| 0 <= i < |parents.value| && parents.value[i].receiptId == p;
            assert parents.value[i] in parents.value;
            assert ReceiptOk(s, parents.value[i]);
          }
        }
        AdvanceKeeps(s, next);
    }
  }

  function RunSession(s: SessionState, ops: seq<SessionOp>): SessionState {
    if ops == [] then s else Do(RunSession(s, ops[..|ops| - 1]), ops[|ops| - 1])
  }

  ghost predicate AllAllowed(s: SessionState, ops: seq<SessionOp>) {
    ops != [] ==> AllAllowed(s, ops[..|ops| - 1]) && Allowed(RunSession(s, ops[..|ops| - 1]), ops[|ops| - 1])
  }

  lemma {:induction false} RunKeeps(s: SessionState, ops: seq<SessionOp>)
    requires SessionOk(s) && AllAllowed(s, ops)
    ensures SessionOk(RunSession(s, ops))
    decreases |ops|
  {
    if ops == [] {
    } else {
      RunKeeps(s, ops[..|ops| - 1]);
      StepKeeps(RunSession(s, ops[..|ops| - 1]), ops[|ops| - 1]);
    }
  }

  // ---------------------------------------------------------------- the auditor accepts the session

  /** Step indices by receipt id, as a ranking of the parent graph. */
  ghost function StepIndices(rs: seq<Receipt>): map<Id, nat>
    requires AllTraced(rs)
  {
    if rs == [] then map[]
    else StepIndices(rs[..|rs| - 1])[rs[|rs| - 1].receiptId := rs[|rs| - 1].trajectory.value.stepIndex]
  }

  /** With distinct ids every receipt keeps its own parents and step index. */
  lemma {:induction false} OwnEntry(rs: seq<Receipt>, r: Receipt)
    requires AllTraced(rs) && DistinctIds(rs) && r in rs
    ensures r.receiptId in ById(rs) && ById(rs)[r.receiptId] == r.trajectory.value.parentStepIds
    ensures r.receiptId in StepIndices(rs) && StepIndices(rs)[r.receiptId] == r.trajectory.value.stepIndex
  {
    var before, last := rs[..|rs| - 1], rs[|rs| - 1];
    if r != last {
      assert rs == before + [last];
      assert r in before;
      OwnEntry(before, r);
      var i :| 0 <= i < |before| && before[i] == r;
      assert rs[i].receiptId != last.receiptId;
    }
  }

  lemma {:induction false} SameIds(rs: seq<Receipt>)
    requires AllTraced(rs)
    ensures StepIndices(rs).Keys == ById(rs).Keys
  {
    if rs == [] {
    } else {
      SameIds(rs[..|rs| - 1]);
    }
  }

  lemma StepIndicesRank(s: SessionState)
    requires SessionOk(s) && AllTraced(s.receipts)
    ensures Ranks(ById(s.receipts), StepIndices(s.receipts))
  {
    var rs := s.receipts;
    var g, rank := ById(rs), StepIndices(rs);
    SameIds(rs);
    forall a, b | Edge(g, a, b) ensures rank[b] < rank[a] {
      ByIdFrom(rs, a);
      var r :| r in rs && r.receiptId == a;
      OwnEntry(rs, r);
      assert ReceiptOk(s, r);
      assert Earlier(rs, b, r.trajectory.value.stepIndex);
      var parent :| parent in rs && parent.receiptId == b && parent.trajectory.Some?
                    && parent.trajectory.value.stepIndex < r.trajectory.value.stepIndex;
      OwnEntry(rs, parent);
    }
  }

  /** Every session state that has emitted a receipt passes all five checks of the audit. */
  lemma SessionPassesAudit(s: SessionState)
    requires SessionOk(s) && s.receipts != []
    ensures AllTraced(s.receipts) && SharedId(s.receipts) && NoDangling(s.receipts)
    ensures !HasCycle(ById(s.receipts)) && HasRoot(s.receipts)
  {
    forall r | r in s.receipts ensures r.trajectory.Some? && r.trajectory.value.trajectoryId == s.cursor.trajectoryId {
      assert ReceiptOk(s, r);
    }
    forall r, p | r in s.receipts && p in r.trajectory.value.parentStepIds ensures KnownId(s.receipts, p) {
      assert ReceiptOk(s, r);
      assert Earlier(s.receipts, p, r.trajectory.value.stepIndex);
    }
    StepIndicesRank(s);
    RankedHasNoCycle(ById(s.receipts), StepIndices(s.receipts));
    EveryReceiptReachesRoot(s.receipts, StepIndices(s.receipts));
  }

  /** The whole run: any mix of calls with fresh ids and parents from the session itself. */
  lemma {:induction false} EveryRunPassesAudit(trajectoryId: string, now: string, agent: Option<string>,
                                               ops: seq<SessionOp>)
    requires AllAllowed(Start(trajectoryId, now, agent), ops)
    requires RunSession(Start(trajectoryId, now, agent), ops).receipts != []
    ensures var rs := RunSession(Start(trajectoryId, now, agent), ops).receipts;
            && AllTraced(rs) && SharedId(rs) && NoDangling(rs) && !HasCycle(ById(rs)) && HasRoot(rs)
            && forall r :: r in rs ==> AllEarlier(rs, r.trajectory.value.parentStepIds, r.trajectory.value.stepIndex)
  {
    var s := RunSession(Start(trajectoryId, now, agent), ops);
    RunKeeps(Start(trajectoryId, now, agent), ops);
    SessionPassesAudit(s);
    forall r | r in s.receipts ensures AllEarlier(s.receipts, r.trajectory.value.parentStepIds,
                                                  r.trajectory.value.stepIndex) {
      assert ReceiptOk(s, r);
    }
  }

  // ---------------------------------------------------------------- the session object

  class CrewSession {
    const agentId: Option<string>
    var trajectory: TrajectoryContext
    var receipts: seq<Receipt>

    function State(): SessionState
      reads this
    {
      SessionState(trajectory, receipts, agentId)
    }

    ghost predicate Valid()
      reads this
    {
      SessionOk(State())
    }

    constructor (freshTrajectoryId: string, now: string, agent: Option<string>)
      ensures Valid() && State() == Start(freshTrajectoryId, now, agent)
    {
      agentId := agent;
      trajectory := StartTrajectory(freshTrajectoryId, now, agent);
      receipts := [];
    }

    method VerifyChunks(kind: string, agent: Option<string>, freshId: Id) returns (receipt: Receipt)
      requires Valid() && !KnownId(receipts, freshId)
      modifies this
      ensures Valid() && State() == Do(old(State()), SessionOp.VerifyChunks(kind, agent, freshId))
      ensures receipts == old(receipts) + [receipt]
    {
      StepKeeps(State(), SessionOp.VerifyChunks(kind, agent, freshId));
      var who := OrElse(agent, agentId);
      receipt := Receipt(freshId, Some(VerifyContext(trajectory, Some(kind), who, None)));
      trajectory := AfterEmission(trajectory, receipt.receiptId, who, None);
      receipts := receipts + [receipt];
    }

    method AdmissionCheck(kind: string, agent: Option<string>, requestSession: Option<string>, freshId: Id)
      returns (receipt: Receipt)
      requires Valid() && !KnownId(receipts, freshId)
      modifies this
      ensures Valid() && State() == Do(old(State()), SessionOp.AdmissionCheck(kind, agent, requestSession, freshId))
      ensures receipts == old(receipts) + [receipt]
    {
      StepKeeps(State(), SessionOp.AdmissionCheck(kind, agent, requestSession, freshId));
      var who := OrElse(agent, agentId);
      receipt := Receipt(freshId, Some(AdmissionContext(trajectory, Some(kind), who, requestSession)));
      trajectory := AfterEmission(trajectory, receipt.receiptId, who, requestSession);
      receipts := receipts + [receipt];
    }

    /** Moves the cursor without a receipt: by default the parents carry over. */
    method Advance(parents: Option<seq<Receipt>>, kind: Option<string>, agent: Option<string>)
      requires Valid() && (parents.Some? ==> forall p :: p in parents.value ==> p in receipts)
      modifies this
      ensures Valid() && State() == Do(old(State()), SessionOp.Advance(parents, kind, agent))
    {
      StepKeeps(State(), SessionOp.Advance(parents, kind, agent));
      if parents == None {
        trajectory := trajectory.NextStep(trajectory.parentStepIds, kind, agent, None);
      } else {
        trajectory := trajectory.NextStep(Ids(parents.value), kind, agent, None);
      }
    }

    /** Auditing a session that has emitted anything succeeds. */
    method Audit() returns (res: AuditResult)
      requires Valid()
      ensures receipts != [] ==> res.ok && res.trajectoryId == Some(trajectory.trajectoryId)
      ensures receipts == [] ==> !res.ok
    {
      ghost var rank;
      if receipts != [] {
        SessionPassesAudit(State());
        assert ReceiptOk(State(), receipts[0]);
      }
      res, rank := AuditTrajectoryDag(receipts);
    }
  }
}
