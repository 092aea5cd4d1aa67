/**
 Trajectory cursors and the trajectory-level audit (provenex/core/trajectory.py).
 */
module Trajectory {
  import opened Basics
  import opened DagSearch

  /** The frozen per-step record. */
  datatype TrajectoryContext = TrajectoryContext(
    trajectoryId: string,
    stepIndex: nat,
    startedAt: string,
    parentStepIds: seq<Id>,
    stepKind: Option<string>,
    agentId: Option<string>,
    sessionId: Option<string>)
  {
    /** A successor step: one index further, with exactly the given parents. */
    function NextStep(parents: seq<Id>, kind: Option<string>, agent: Option<string>,
                      session: Option<string>): TrajectoryContext {
      TrajectoryContext(trajectoryId, stepIndex + 1, startedAt, parents, kind,
                        OrElse(agent, agentId), OrElse(session, sessionId))
    }
  }

  function OrElse<T>(a: Option<T>, b: Option<T>): Option<T> {
    if a.Some? then a else b
  }

  function StartTrajectory(freshId: string, now: string, agent: Option<string>): TrajectoryContext {
    TrajectoryContext(freshId, 0, now, [], None, agent, None)
  }

  /** What the audit reads of a receipt. */
  datatype Receipt = Receipt(receiptId: Id, trajectory: Option<TrajectoryContext>)

  ghost predicate AllTraced(rs: seq<Receipt>) {
    forall r :: r in rs ==> r.trajectory.Some?
  }

  ghost predicate SharedId(rs: seq<Receipt>)
    requires AllTraced(rs)
  {
    && rs != []
    && forall r, s :: r in rs && s in rs ==> r.trajectory.value.trajectoryId == s.trajectory.value.trajectoryId
  }

  ghost predicate KnownId(rs: seq<Receipt>, id: Id) {
    exists r :: r in rs && r.receiptId == id
  }

  ghost predicate NoDangling(rs: seq<Receipt>)
    requires AllTraced(rs)
  {
    forall r, p :: r in rs && p in r.trajectory.value.parentStepIds ==> KnownId(rs, p)
  }

  ghost predicate HasRoot(rs: seq<Receipt>)
    requires AllTraced(rs)
  {
    exists r :: r in rs && r.trajectory.value.parentStepIds == []
  }

  /** `by_id`: of several receipts with one id the last counts. */
  function ById(rs: seq<Receipt>): Graph
    requires AllTraced(rs)
  {
    if rs == [] then map[]
    else
      var last := rs[|rs| - 1];
      ById(rs[..|rs| - 1])[last.receiptId := last.trajectory.value.parentStepIds]
  }

  lemma {:induction false} ByIdFrom(rs: seq<Receipt>, id: Id)
    requires AllTraced(rs)
    ensures id in ById(rs) <==> KnownId(rs, id)
    ensures id in ById(rs) ==>
              exists r :: r in rs && r.receiptId == id && r.trajectory.value.parentStepIds == ById(rs)[id]
  {
    if rs == [] {
    } else {
      var before, last := rs[..|rs| - 1], rs[|rs| - 1];
      assert rs == before + [last];
      ByIdFrom(before, id);
      assert forall r :: r in rs <==> r in before || r == last;
      assert last in rs;
    }
  }

  /** Of several receipts with one id the index holds the last one's parents. */
  lemma {:induction false} ByIdLast(rs: seq<Receipt>, i: nat)
    requires AllTraced(rs) && i < |rs| && forall j :: i < j < |rs| ==> rs[j].receiptId != rs[i].receiptId
    ensures rs[i].receiptId in ById(rs) && ById(rs)[rs[i].receiptId] == rs[i].trajectory.value.parentStepIds
    decreases |rs|
  {
    if i == |rs| - 1 {
    } else {
      var before := rs[..|rs| - 1];
      assert before[i] == rs[i] && forall j :: 0 <= j < |before| ==> before[j] == rs[j];
      ByIdLast(before, i);
    }
  }

  datatype Check = Check(name: string, ok: bool)

  datatype AuditResult = AuditResult(ok: bool, trajectoryId: Option<string>, receiptCount: nat, checks: seq<Check>)

  // ---------------------------------------------------------------- roots

  /** Every parent a known receipt lists is known. */
  ghost predicate Closed(g: Graph) {
    forall a, b {:trigger g[a], b in g} :: a in g && b in g[a] ==> b in g
  }

  ghost predicate RootWalk(g: Graph, x: Id, p: seq<Id>) {
    IsWalk(g, p) && p[0] == x && p[|p| - 1] in g && g[p[|p| - 1]] == []
  }

  ghost predicate ReachesRoot(g: Graph, x: Id) {
    exists p :: RootWalk(g, x, p)
  }

  lemma {:induction false} RankedReachesRoot(g: Graph, rank: map<Id, nat>, x: Id)
    requires Ranks(g, rank) && Closed(g) && x in g
    ensures ReachesRoot(g, x)
    decreases rank[x]
  {
    if g[x] == [] {
      assert RootWalk(g, x, [x]);
    } else {
      var b := g[x][0];
      assert Edge(g, x, b);
      RankedReachesRoot(g, rank, b);
      var p :| RootWalk(g, b, p);
      Prepend(g, x, p);
      assert RootWalk(g, x, [x] + p);
    }
  }

  lemma ClosedById(rs: seq<Receipt>)
    requires AllTraced(rs) && NoDangling(rs)
    ensures Closed(ById(rs))
  {
    var g := ById(rs);
    forall a, b | a in g && b in g[a] ensures b in g {
      ByIdFrom(rs, a);
      ByIdFrom(rs, b);
    }
  }

  /** With no dangling parent and a topological order, every receipt of a non-empty set reaches a
      root by following parents, so the set has one. */
  lemma EveryReceiptReachesRoot(rs: seq<Receipt>, rank: map<Id, nat>)
    requires AllTraced(rs) && rs != [] && NoDangling(rs) && Ranks(ById(rs), rank)
    ensures forall id :: KnownId(rs, id) ==> ReachesRoot(ById(rs), id)
    ensures HasRoot(rs)
  {
    var g := ById(rs);
    ClosedById(rs);
    forall id | KnownId(rs, id) ensures ReachesRoot(g, id) {
      ByIdFrom(rs, id);
      RankedReachesRoot(g, rank, id);
    }
    assert rs[0] in rs;
    assert KnownId(rs, rs[0].receiptId);
    assert ReachesRoot(g, rs[0].receiptId);
    var p :| RootWalk(g, rs[0].receiptId, p);
    ByIdFrom(rs, p[|p| - 1]);
  }

  // ---------------------------------------------------------------- the audit

  method IndexById(rs: seq<Receipt>) returns (g: Graph, order: seq<Id>)
    requires AllTraced(rs)
    ensures g == ById(rs)
    ensures forall x :: x in order <==> x in g
  {
    g, order := map[], [];
    assert rs[..0] == [];
    for i := 0 to |rs|
      invariant g == ById(rs[..i])
      invariant forall x :: x in order <==> x in g
    {
      var r := rs[i];
      assert r in rs;
      if r.receiptId !in g {
        order := order + [r.receiptId];
      }
      g := g[r.receiptId := r.trajectory.value.parentStepIds];
      assert rs[..i + 1][..i] == rs[..i];
    }
    assert rs[..|rs|] == rs;
  }

  /** The listed parents that are no receipt, each with the receipt that lists it. */
  function MissingParents(g: Graph, id: Id, ps: seq<Id>): seq<(Id, Id)> {
    if ps == [] then []
    else
      var last := ps[|ps| - 1];
      MissingParents(g, id, ps[..|ps| - 1]) + (if last in g then [] else [(id, last)])
  }

  function Dangling(g: Graph, rs: seq<Receipt>): seq<(Id, Id)>
    requires AllTraced(rs)
  {
    if rs == [] then []
    else
      var last := rs[|rs| - 1];
      Dangling(g, rs[..|rs| - 1]) + MissingParents(g, last.receiptId, last.trajectory.value.parentStepIds)
  }

  lemma {:induction false} NoMissing(g: Graph, id: Id, ps: seq<Id>)
    ensures MissingParents(g, id, ps) == [] <==> forall p :: p in ps ==> p in g
  {
    if ps == [] {
    } else {
      var before, last := ps[..|ps| - 1], ps[|ps| - 1];
      NoMissing(g, id, before);
      assert ps == before + [last];
    }
  }

  ghost predicate ParentsIn(g: Graph, r: Receipt) {
    r.trajectory.Some? ==> forall p :: p in r.trajectory.value.parentStepIds ==> p in g
  }

  lemma {:induction false} NoneDangle(g: Graph, rs: seq<Receipt>)
    requires AllTraced(rs)
    ensures Dangling(g, rs) == [] <==> forall r :: r in rs ==> ParentsIn(g, r)
  {
    if rs == [] {
    } else {
      var before, last := rs[..|rs| - 1], rs[|rs| - 1];
      assert rs == before + [last];
      assert forall r :: r in rs <==> r in before || r == last;
      NoneDangle(g, before);
      NoMissing(g, last.receiptId, last.trajectory.value.parentStepIds);
      assert ParentsIn(g, last) <==> MissingParents(g, last.receiptId, last.trajectory.value.parentStepIds) == [];
    }
  }

  /** Nothing dangles exactly when every listed parent is a receipt of the set. */
  lemma NoDanglingIff(rs: seq<Receipt>)
    requires AllTraced(rs)
    ensures Dangling(ById(rs), rs) == [] <==> NoDangling(rs)
  {
    NoneDangle(ById(rs), rs);
    forall p ensures p in ById(rs) <==> KnownId(rs, p) {
      ByIdFrom(rs, p);
    }
    if NoDangling(rs) {
      forall r | r in rs ensures ParentsIn(ById(rs), r) {
      }
    }
    if Dangling(ById(rs), rs) == [] {
      forall r, p | r in rs && p in r.trajectory.value.parentStepIds ensures KnownId(rs, p) {
        assert ParentsIn(ById(rs), r);
      }
    }
  }

  /** The loops that collect dangling references, in order of receipts and then of parents. */
  method FindDangling(rs: seq<Receipt>, g: Graph) returns (dangling: seq<(Id, Id)>)
    requires AllTraced(rs)
    ensures dangling == Dangling(g, rs)
  {
    dangling := [];
    assert rs[..0] == [];
    for i := 0 to |rs|
      invariant dangling == Dangling(g, rs[..i])
    {
      assert rs[i] in rs;
      assert rs[..i + 1][..i] == rs[..i];
      var more := DanglingOf(g, rs[i].receiptId, rs[i].trajectory.value.parentStepIds);
      dangling := dangling + more;
    }
    assert rs[..|rs|] == rs;
  }

  /** The inner loop over one receipt's parents. */
  method DanglingOf(g: Graph, id: Id, ps: seq<Id>) returns (dangling: seq<(Id, Id)>)
    ensures dangling == MissingParents(g, id, ps)
  {
    dangling := [];
    assert ps[..0] == [];
    for j := 0 to |ps|
      invariant dangling == MissingParents(g, id, ps[..j])
    {
      assert ps[..j + 1][..j] == ps[..j];
      if ps[j] !in g {
        dangling := dangling + [(id, ps[j])];
      }
    }
    assert ps[..|ps|] == ps;
  }

  lemma SingleId(rs: seq<Receipt>, ids: set<string>)
    requires AllTraced(rs) && ids == set r | r in rs :: r.trajectory.value.trajectoryId
    ensures |ids| == 1 <==> SharedId(rs)
  {
    if rs != [] {
      var id := rs[0].trajectory.value.trajectoryId;
      assert rs[0] in rs && id in ids;
      if SharedId(rs) {
        assert ids == {id};
      } else {
        var r, s :| r in rs && s in rs && r.trajectory.value.trajectoryId != s.trajectory.value.trajectoryId;
        var two := {r.trajectory.value.trajectoryId, s.trajectory.value.trajectoryId};
        assert two <= ids;
        assert |ids - two| + |two| == |ids|;
      }
    }
  }

  /** The five checks, in order, stopping after a failure of the first or the second. When the
      parent and cycle checks pass, `rank` is a topological order and the root check passes too. */
  method AuditTrajectoryDag(rs: seq<Receipt>) returns (res: AuditResult, ghost rank: map<Id, nat>)
    ensures res.receiptCount == |rs|
    ensures !AllTraced(rs) ==>
              res == AuditResult(false, None, |rs|, [Check("has_trajectory_block", false)])
    ensures AllTraced(rs) && !SharedId(rs) ==>
              res == AuditResult(false, None, |rs|,
                                 [Check("has_trajectory_block", true), Check("shared_trajectory_id", false)])
    ensures AllTraced(rs) && SharedId(rs) ==>
              && res.ok == (NoDangling(rs) && !HasCycle(ById(rs)) && HasRoot(rs))
              && res.trajectoryId == Some(rs[0].trajectory.value.trajectoryId)
              && res.checks == [Check("has_trajectory_block", true), Check("shared_trajectory_id", true),
                                Check("no_dangling_parents", NoDangling(rs)), Check("dag_acyclic", !HasCycle(ById(rs))),
                                Check("has_root_step", HasRoot(rs))]
              && (!HasCycle(ById(rs)) ==> Ranks(ById(rs), rank))
              && (NoDangling(rs) && !HasCycle(ById(rs)) ==> HasRoot(rs))
  {
    rank := map[];
    if exists i :: 0 <= i < |rs| && rs[i].trajectory == None {
      return AuditResult(false, None, |rs|, [Check("has_trajectory_block", false)]), rank;
    }
    var ids := set r | r in rs :: r.trajectory.value.trajectoryId;
    SingleId(rs, ids);
    if |ids| != 1 {
      var checks := [Check("has_trajectory_block", true), Check("shared_trajectory_id", false)];
      return AuditResult(false, None, |rs|, checks), rank;
    }
    var g, order := IndexById(rs);
    var dangling := FindDangling(rs, g);
    NoDanglingIff(rs);
    var cycle;
    cycle, rank := FindCycle(g, order);
    var hasRoot := exists i :: 0 <= i < |rs| && rs[i].trajectory.value.parentStepIds == [];
    assert hasRoot <==> HasRoot(rs);
    if dangling == [] && cycle == None {
      EveryReceiptReachesRoot(rs, rank);
    }
    res := AuditResult(dangling == [] && cycle == None && hasRoot, Some(rs[0].trajectory.value.trajectoryId), |rs|,
                       [Check("has_trajectory_block", true), Check("shared_trajectory_id", true),
                        Check("no_dangling_parents", dangling == []), Check("dag_acyclic", cycle == None),
                        Check("has_root_step", hasRoot)]);
  }
}
