/**
 The three-colour depth-first search of `audit_trajectory_dag` (provenex/core/trajectory.py): an
 explicit stack of nodes with partly consumed parent iterators. It is exact: it reports a cycle
 if and only if the parent graph, restricted to known ids, has one.
 */
module DagSearch {
  import opened Basics

  type Id = string
  /** The parents each known receipt lists; listed ids need not be known. */
  type Graph = map<Id, seq<Id>>

  predicate Edge(g: Graph, a: Id, b: Id) {
    a in g && b in g && b in g[a]
  }

  /** A walk from child to parent. */
  ghost predicate IsWalk(g: Graph, p: seq<Id>) {
    p != [] && forall i {:trigger p[i]} :: 0 <= i < |p| - 1 ==> Edge(g, p[i], p[i + 1])
  }

  ghost predicate IsCycle(g: Graph, p: seq<Id>) {
    IsWalk(g, p) && |p| > 1 && p[0] == p[|p| - 1]
  }

  ghost predicate HasCycle(g: Graph) {
    exists p :: IsCycle(g, p)
  }

  /** A numbering in which every known parent comes before its child. */
  ghost predicate Ranks(g: Graph, rank: map<Id, nat>) {
    && rank.Keys == g.Keys
    && forall a, b {:trigger Edge(g, a, b)} :: Edge(g, a, b) ==> rank[b] < rank[a]
  }

  lemma {:induction false} RankFalls(g: Graph, rank: map<Id, nat>, p: seq<Id>)
    requires Ranks(g, rank) && IsWalk(g, p) && |p| > 1
    ensures p[0] in rank && p[|p| - 1] in rank && rank[p[|p| - 1]] < rank[p[0]]
  {
    assert Edge(g, p[0], p[0 + 1]);
    if |p| > 2 {
      var rest := p[1..];
      forall i {:trigger rest[i]} | 0 <= i < |rest| - 1 ensures Edge(g, rest[i], rest[i + 1]) {
        assert Edge(g, p[i + 1], p[i + 1 + 1]);
      }
      RankFalls(g, rank, rest);
    }
  }

  lemma RankedHasNoCycle(g: Graph, rank: map<Id, nat>)
    requires Ranks(g, rank)
    ensures !HasCycle(g)
  {
    forall p | IsCycle(g, p) ensures false {
      RankFalls(g, rank, p);
    }
  }

  /** Listing other unknown parents, or the known ones in another order, changes nothing. */
  lemma SameEdgesSameVerdict(g: Graph, h: Graph)
    requires forall a, b :: Edge(g, a, b) <==> Edge(h, a, b)
    ensures HasCycle(g) <==> HasCycle(h)
  {
    if HasCycle(g) {
      var p :| IsCycle(g, p);
      assert IsCycle(h, p);
    }
    if HasCycle(h) {
      var p :| IsCycle(h, p);
      assert IsCycle(g, p);
    }
  }

  // ---------------------------------------------------------------- the search state

  datatype Color = White | Gray | Black

  /** A node and how many of its parents its iterator has yielded. */
  datatype Frame = Frame(node: Id, next: nat)

  /** How many of the yielded parents are done with: in a lower frame the last one is above it. */
  ghost function Settled(stack: seq<Frame>, i: nat): int
    requires i < |stack|
  {
    if i + 1 < |stack| then stack[i].next - 1 else stack[i].next
  }

  ghost predicate DoneWith(g: Graph, color: map<Id, Color>, x: Id) {
    x in g ==> x in color && color[x] == Black
  }

  ghost predicate FrameOk(g: Graph, color: map<Id, Color>, stack: seq<Frame>, depth: map<Id, int>, i: nat)
    requires i < |stack|
  {
    var f := stack[i];
    && f.node in g && f.node in color && color[f.node] == Gray
    && f.node in depth && depth[f.node] == i
    && f.next <= |g[f.node]|
    && (i + 1 < |stack| ==> f.next > 0 && g[f.node][f.next - 1] == stack[i + 1].node)
    && forall j {:trigger g[f.node][j]} :: 0 <= j < Settled(stack, i) ==> DoneWith(g, color, g[f.node][j])
  }

  ghost predicate OnStack(stack: seq<Frame>, depth: map<Id, int>, x: Id) {
    x in depth && 0 <= depth[x] < |stack| && stack[depth[x]].node == x
  }

  ghost predicate Finished(g: Graph, rank: map<Id, nat>, x: Id) {
    x in g && x in rank && rank[x] < |rank| && forall b :: Edge(g, x, b) ==> b in rank && rank[b] < rank[x]
  }

  ghost predicate NodeOk(g: Graph, color: map<Id, Color>, stack: seq<Frame>, depth: map<Id, int>, rank: map<Id, nat>,
                         x: Id)
    requires x in color
  {
    match color[x]
    case White => x !in rank
    case Gray => x !in rank && OnStack(stack, depth, x)
    case Black => Finished(g, rank, x)
  }

  ghost predicate Searching(g: Graph, color: map<Id, Color>, stack: seq<Frame>, depth: map<Id, int>,
                            rank: map<Id, nat>)
  {
    && color.Keys == g.Keys
    && rank.Keys <= g.Keys
    && (forall i: nat {:trigger FrameOk(g, color, stack, depth, i)} ::
          i < |stack| ==> FrameOk(g, color, stack, depth, i))
    && (forall x {:trigger NodeOk(g, color, stack, depth, rank, x)} ::
          x in color ==> NodeOk(g, color, stack, depth, rank, x))
  }

  /** The top frame's iterator yields a parent that needs no visit. */
  lemma SkipKeeps(g: Graph, color: map<Id, Color>, stack: seq<Frame>, depth: map<Id, int>, rank: map<Id, nat>)
    requires Searching(g, color, stack, depth, rank) && stack != []
    requires var f := stack[|stack| - 1];
             f.node in g && f.next < |g[f.node]| && DoneWith(g, color, g[f.node][f.next])
    ensures var f := stack[|stack| - 1];
            Searching(g, color, stack[|stack| - 1 := Frame(f.node, f.next + 1)], depth, rank)
  {
    var n := |stack| - 1;
    var stack' := stack[n := Frame(stack[n].node, stack[n].next + 1)];
    forall i: nat | i < |stack'| ensures FrameOk(g, color, stack', depth, i) {
      assert FrameOk(g, color, stack, depth, i);
    }
    forall x | x in color ensures NodeOk(g, color, stack', depth, rank, x) {
      assert NodeOk(g, color, stack, depth, rank, x);
    }
  }

  /** The iterator yields an unvisited known parent: it goes on the stack. */
  lemma PushKeeps(g: Graph, color: map<Id, Color>, stack: seq<Frame>, depth: map<Id, int>, rank: map<Id, nat>)
    requires Searching(g, color, stack, depth, rank) && stack != []
    requires var f := stack[|stack| - 1];
             f.node in g && f.next < |g[f.node]|
             && var p := g[f.node][f.next]; p in color && color[p] == White
    ensures var f := stack[|stack| - 1];
            var p := g[f.node][f.next];
            Searching(g, color[p := Gray], stack[|stack| - 1 := Frame(f.node, f.next + 1)] + [Frame(p, 0)],
                      depth[p := |stack|], rank)
  {
    var n := |stack| - 1;
    var f := stack[n];
    var p := g[f.node][f.next];
    var color', depth' := color[p := Gray], depth[p := |stack|];
    var stack' := stack[n := Frame(f.node, f.next + 1)] + [Frame(p, 0)];
    forall i: nat | i < |stack'| ensures FrameOk(g, color', stack', depth', i) {
      if i < |stack| {
        assert FrameOk(g, color, stack, depth, i);
      }
    }
    forall x | x in color' ensures NodeOk(g, color', stack', depth', rank, x) {
      assert NodeOk(g, color, stack, depth, rank, x);
    }
  }

  lemma StartKeeps(g: Graph, color: map<Id, Color>, depth: map<Id, int>, rank: map<Id, nat>, start: Id)
    requires Searching(g, color, [], depth, rank) && start in color && color[start] == White
    ensures Searching(g, color[start := Gray], [Frame(start, 0)], depth[start := 0], rank)
  {
    var color', stack', depth' := color[start := Gray], [Frame(start, 0)], depth[start := 0];
    forall x | x in color' ensures NodeOk(g, color', stack', depth', rank, x) {
      assert NodeOk(g, color, [], depth, rank, x);
    }
  }

  /** The iterator is exhausted: the node is finished and ranks above all its known parents. */
  lemma PopKeeps(g: Graph, color: map<Id, Color>, stack: seq<Frame>, depth: map<Id, int>, rank: map<Id, nat>)
    requires Searching(g, color, stack, depth, rank) && stack != []
    requires var f := stack[|stack| - 1]; f.node in g && f.next == |g[f.node]|
    ensures var f := stack[|stack| - 1];
            f.node !in rank
            && Searching(g, color[f.node := Black], stack[..|stack| - 1], depth, rank[f.node := |rank|])
  {
    var n := |stack| - 1;
    var node := stack[n].node;
    assert FrameOk(g, color, stack, depth, n) && NodeOk(g, color, stack, depth, rank, node);
    var color', stack', rank' := color[node := Black], stack[..n], rank[node := |rank|];
    FinishNode(g, color, stack, depth, rank);
    forall i: nat | i < |stack'| ensures FrameOk(g, color', stack', depth, i) {
      assert FrameOk(g, color, stack, depth, i);
    }
    forall x | x in color' ensures NodeOk(g, color', stack', depth, rank', x) {
      assert NodeOk(g, color, stack, depth, rank, x);
    }
  }

  lemma FinishNode(g: Graph, color: map<Id, Color>, stack: seq<Frame>, depth: map<Id, int>, rank: map<Id, nat>)
    requires Searching(g, color, stack, depth, rank) && stack != []
    requires var f := stack[|stack| - 1]; f.node in g && f.next == |g[f.node]| && f.node !in rank
    ensures var node := stack[|stack| - 1].node; Finished(g, rank[node := |rank|], node)
  {
    var n := |stack| - 1;
    var node := stack[n].node;
    assert FrameOk(g, color, stack, depth, n);
    forall b | Edge(g, node, b) ensures b in rank && rank[b] < |rank| {
      var j :| 0 <= j < |g[node]| && g[node][j] == b;
      assert DoneWith(g, color, g[node][j]);
      assert NodeOk(g, color, stack, depth, rank, b);
    }
  }

  lemma Prepend(g: Graph, a: Id, p: seq<Id>)
    requires IsWalk(g, p) && Edge(g, a, p[0])
    ensures IsWalk(g, [a] + p)
  {
    var q := [a] + p;
    forall i {:trigger q[i]} | 0 <= i < |q| - 1 ensures Edge(g, q[i], q[i + 1]) {
      if i > 0 {
        assert q[i] == p[i - 1] && q[i + 1] == p[i - 1 + 1];
      }
    }
  }

  /** The frames from m upward, and then the parent the top frame yields, are a walk. */
  lemma {:induction false} StackWalk(g: Graph, color: map<Id, Color>, stack: seq<Frame>, depth: map<Id, int>,
                                     rank: map<Id, nat>, m: nat, p: Id) returns (walk: seq<Id>)
    requires Searching(g, color, stack, depth, rank) && m < |stack|
    requires Edge(g, stack[|stack| - 1].node, p)
    ensures IsWalk(g, walk) && |walk| > 1 && walk[0] == stack[m].node && walk[|walk| - 1] == p
    decreases |stack| - m
  {
    if m == |stack| - 1 {
      walk := [stack[m].node, p];
    } else {
      var rest := StackWalk(g, color, stack, depth, rank, m + 1, p);
      assert FrameOk(g, color, stack, depth, m) && FrameOk(g, color, stack, depth, m + 1);
      Prepend(g, stack[m].node, rest);
      walk := [stack[m].node] + rest;
    }
  }

  /** A grey parent is on the stack, and the frames from it to the top close a cycle. */
  lemma GrayClosesCycle(g: Graph, color: map<Id, Color>, stack: seq<Frame>, depth: map<Id, int>, rank: map<Id, nat>)
    returns (cycle: seq<Id>)
    requires Searching(g, color, stack, depth, rank) && stack != []
    requires var f := stack[|stack| - 1];
             f.node in g && f.next < |g[f.node]|
             && var p := g[f.node][f.next]; p in color && color[p] == Gray
    ensures var f := stack[|stack| - 1];
            IsCycle(g, cycle) && cycle[0] == g[f.node][f.next]
  {
    var f := stack[|stack| - 1];
    var p := g[f.node][f.next];
    assert NodeOk(g, color, stack, depth, rank, p);
    cycle := StackWalk(g, color, stack, depth, rank, depth[p], p);
  }

  // ---------------------------------------------------------------- the search

  ghost function Whites(color: map<Id, Color>): set<Id> {
    set x | x in color && color[x] == White
  }

  ghost function Left(g: Graph, stack: seq<Frame>): int {
    if stack == [] || stack[|stack| - 1].node !in g then 0
    else |g[stack[|stack| - 1].node]| - stack[|stack| - 1].next
  }

  ghost predicate BlackStays(color: map<Id, Color>, later: map<Id, Color>) {
    forall x :: x in color && color[x] == Black ==> x in later && later[x] == Black
  }

  ghost predicate OnCycle(g: Graph, x: Id) {
    exists p :: IsCycle(g, p) && p[0] == x
  }

  /** The inner loop: everything reachable from an unvisited start, or a cycle on the way. */
  method Explore(g: Graph, start: Id, color0: map<Id, Color>, ghost depth0: map<Id, int>, ghost rank0: map<Id, nat>)
    returns (cycle: Option<Id>, color: map<Id, Color>, ghost depth: map<Id, int>, ghost rank: map<Id, nat>)
    requires Searching(g, color0, [], depth0, rank0) && start in color0 && color0[start] == White
    ensures cycle.Some? ==> OnCycle(g, cycle.value)
    ensures cycle == None ==> Searching(g, color, [], depth, rank)
    ensures cycle == None ==> start in color && color[start] == Black && BlackStays(color0, color)
  {
    cycle := None;
    StartKeeps(g, color0, depth0, rank0, start);
    var stack := [Frame(start, 0)];
    color, depth, rank := color0[start := Gray], depth0[start := 0], rank0;
    while stack != []
      invariant Searching(g, color, stack, depth, rank)
      invariant BlackStays(color0, color)
      invariant start in color && if stack == [] then color[start] == Black else stack[0].node == start
      decreases Whites(color), |stack|, Left(g, stack)
    {
      var top := stack[|stack| - 1];
      assert FrameOk(g, color, stack, depth, |stack| - 1);
      if top.next == |g[top.node]| {
        PopKeeps(g, color, stack, depth, rank);
        rank := rank[top.node := |rank|];
        assert Whites(color[top.node := Black]) == Whites(color);
        color, stack := color[top.node := Black], stack[..|stack| - 1];
      } else {
        var p := g[top.node][top.next];
        if p !in color {
          SkipKeeps(g, color, stack, depth, rank);
          stack := stack[|stack| - 1 := Frame(top.node, top.next + 1)];
        } else if color[p] == Gray {
          ghost var closed := GrayClosesCycle(g, color, stack, depth, rank);
          return Some(p), color, depth, rank;
        } else if color[p] == White {
          PushKeeps(g, color, stack, depth, rank);
          depth := depth[p := |stack|];
          assert Whites(color[p := Gray]) == Whites(color) - {p} && p in Whites(color);
          color, stack := color[p := Gray], stack[|stack| - 1 := Frame(top.node, top.next + 1)] + [Frame(p, 0)];
        } else {
          SkipKeeps(g, color, stack, depth, rank);
          stack := stack[|stack| - 1 := Frame(top.node, top.next + 1)];
        }
      }
    }
  }

  lemma AllBlackRanks(g: Graph, color: map<Id, Color>, depth: map<Id, int>, rank: map<Id, nat>)
    requires Searching(g, color, [], depth, rank) && forall x :: x in color ==> color[x] == Black
    ensures Ranks(g, rank)
  {
    forall x | x in g ensures x in rank {
      assert NodeOk(g, color, [], depth, rank, x);
    }
    forall a, b | Edge(g, a, b) ensures a in rank && b in rank && rank[b] < rank[a] {
      assert NodeOk(g, color, [], depth, rank, a);
    }
  }

  lemma AllWhite(g: Graph)
    ensures Searching(g, map x | x in g :: White, [], map[], map[])
  {
    var color: map<Id, Color> := map x | x in g :: White;
    forall x | x in color ensures NodeOk(g, color, [], map[], map[], x) {
    }
  }

  /** The search visits ids in `order`, whichever that is, and is exact. */
  method FindCycle(g: Graph, order: seq<Id>) returns (cycle: Option<Id>, ghost rank: map<Id, nat>)
    requires forall x :: x in order <==> x in g
    ensures cycle.Some? <==> HasCycle(g)
    ensures cycle.Some? ==> OnCycle(g, cycle.value)
    ensures cycle == None ==> Ranks(g, rank)
  {
    var color: map<Id, Color> := map x | x in g :: White;
    ghost var depth: map<Id, int> := map[];
    rank := map[];
    AllWhite(g);
    for i := 0 to |order|
      invariant Searching(g, color, [], depth, rank)
      invariant forall k :: 0 <= k < i ==> order[k] in color && color[order[k]] == Black
    {
      if color[order[i]] == White {
        cycle, color, depth, rank := Explore(g, order[i], color, depth, rank);
        if cycle.Some? {
          return;
        }
      } else {
        assert NodeOk(g, color, [], depth, rank, order[i]);
      }
    }
    cycle := None;
    AllBlackRanks(g, color, depth, rank);
    RankedHasNoCycle(g, rank);
  }
}
