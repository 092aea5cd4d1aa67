/**
 What each session call writes on its receipt and leaves in the cursor, field by field
 (provenex/integrations/crewai/session.py, provenex/core/verify.py, provenex/tool_call/admission.py,
 provenex/core/trajectory.py).
 */
module SessionLaws {
  import opened Basics
  import opened Trajectory
  import opened Session

  /** A session starts at step 0 of a new trajectory, without parents, receipts, kind or session id. */
  lemma StartsAtRoot(id: string, now: string, agent: Option<string>)
    ensures Start(id, now, agent) ==
              SessionState(TrajectoryContext(id, 0, now, [], None, agent, None), [], agent)
  {
  }

  /** The agent a call is ascribed to: its own, or the session's, or the cursor's. */
  function Agent(s: SessionState, own: Option<string>): Option<string> {
    if own.Some? then own else if s.agentId.Some? then s.agentId else s.cursor.agentId
  }

  /** `verify_chunks` appends one receipt with the cursor's trajectory, step, start and parents, the call's
      kind and agent and the cursor's session id; the cursor moves one step past it, keeps agent and
      session, and forgets the kind. */
  lemma VerifyChunksWrites(s: SessionState, kind: string, agent: Option<string>, id: string)
    ensures var t, c, who := Do(s, VerifyChunks(kind, agent, id)), s.cursor, Agent(s, agent);
            && t.agentId == s.agentId
            && t.receipts == s.receipts +
                 [Receipt(id, Some(TrajectoryContext(c.trajectoryId, c.stepIndex, c.startedAt, c.parentStepIds,
                                                     Some(kind), who, c.sessionId)))]
            && t.cursor == TrajectoryContext(c.trajectoryId, c.stepIndex + 1, c.startedAt, [id], None, who, c.sessionId)
  {
  }

  /** `admission_check` does the same, and the request's session id goes before the cursor's, on the receipt
      and from then on. */
  lemma AdmissionCheckWrites(s: SessionState, kind: string, agent: Option<string>, request: Option<string>, id: string)
    ensures var t, c, who := Do(s, AdmissionCheck(kind, agent, request, id)), s.cursor, Agent(s, agent);
            var session := if request.Some? then request else c.sessionId;
            && t.agentId == s.agentId
            && t.receipts == s.receipts +
                 [Receipt(id, Some(TrajectoryContext(c.trajectoryId, c.stepIndex, c.startedAt, c.parentStepIds,
                                                     Some(kind), who, session)))]
            && t.cursor == TrajectoryContext(c.trajectoryId, c.stepIndex + 1, c.startedAt, [id], None, who, session)
  {
  }

  /** Without a kind of its own an admission is of the cursor's kind, or of kind "tool_call" where that is
      absent or empty; a verification is of the cursor's. */
  lemma KindDefaults(cursor: TrajectoryContext, agent: Option<string>, session: Option<string>)
    ensures AdmissionContext(cursor, None, agent, session).stepKind ==
              if cursor.stepKind == None || cursor.stepKind == Some("") then Some("tool_call") else cursor.stepKind
    ensures VerifyContext(cursor, None, agent, session).stepKind == cursor.stepKind
  {
  }

  /** `advance` emits nothing, moves one step on, and takes the given parents, or else keeps the cursor's; the
      kind is the given one or none, and the agent the given one or the cursor's. */
  lemma AdvanceMoves(s: SessionState, parents: Option<seq<Receipt>>, kind: Option<string>, agent: Option<string>)
    ensures var t, c := Do(s, Advance(parents, kind, agent)), s.cursor;
            && t.receipts == s.receipts && t.agentId == s.agentId
            && t.cursor.trajectoryId == c.trajectoryId && t.cursor.stepIndex == c.stepIndex + 1
            && t.cursor.startedAt == c.startedAt && t.cursor.sessionId == c.sessionId && t.cursor.stepKind == kind
            && t.cursor.agentId == (if agent.Some? then agent else c.agentId)
            && (parents == None ==> t.cursor.parentStepIds == c.parentStepIds)
            && (parents.Some? ==>
                  && |t.cursor.parentStepIds| == |parents.value|
                  && forall i :: 0 <= i < |parents.value| ==> t.cursor.parentStepIds[i] == parents.value[i].receiptId)
  {
  }
}
