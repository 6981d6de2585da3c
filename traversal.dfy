/** Traversals of graph_builder.py: the bounded breadth-first expansion
    `get_nodes_within_hops` and `find_shortest_path`. Both are specified by `Reach`,
    the nodes at most k steps away. */
module Traversal {
  import opened Wrappers
  import opened GraphModel

  /** The nodes one step away from some node of `s` along `d`: the union of the
      neighbour sets of the members of `s`. */
  function Expand(g: Graph, s: set<NodeId>, d: Direction): (r: set<NodeId>)
    ensures r <= g.attrs.Keys
  {
    set m | m in g.attrs && exists x :: x in s && x in g.attrs && Adjacent(g, x, m, d)
  }

  /** The nodes at most `k` steps away from `c` along `d`; empty for an unknown `c`. */
  function Reach(g: Graph, c: NodeId, k: nat, d: Direction): (r: set<NodeId>)
    ensures r <= g.attrs.Keys
    ensures c in g.attrs <==> c in r
    ensures c !in g.attrs ==> r == {}
  {
    if c !in g.attrs then {}
    else if k == 0 then {c}
    else Reach(g, c, k - 1, d) + Expand(g, Reach(g, c, k - 1, d), d)
  }

  /** The number of rounds `range(max_hops)` runs: none for a negative bound. */
  function Rounds(maxHops: int): nat
  {
    if maxHops < 0 then 0 else maxHops
  }

  /** The set `get_nodes_within_hops(center, max_hops, direction)` returns. */
  function WithinHops(g: Graph, center: NodeId, maxHops: int, d: Direction): set<NodeId>
  {
    Reach(g, center, Rounds(maxHops), d)
  }

  /** The nodes first reached in round `k`: the layer the loop expands next. */
  function Frontier(g: Graph, c: NodeId, k: nat, d: Direction): set<NodeId>
  {
    if k == 0 then Reach(g, c, 0, d) else Reach(g, c, k, d) - Reach(g, c, k - 1, d)
  }

  lemma ExpandUnion(g: Graph, a: set<NodeId>, b: set<NodeId>, d: Direction)
    ensures Expand(g, a + b, d) == Expand(g, a, d) + Expand(g, b, d)
  {
  }

  /** Expanding the whole ball adds nothing new beyond what expanding its last layer
      adds: the loop may look at the current layer only. */
  lemma FrontierSuffices(g: Graph, c: NodeId, k: nat, d: Direction)
    ensures Expand(g, Reach(g, c, k, d), d) - Reach(g, c, k, d) == Expand(g, Frontier(g, c, k, d), d) - Reach(g, c, k, d)
  {
    if k > 0 && c in g.attrs {
      var prev := Reach(g, c, k - 1, d);
      assert Reach(g, c, k, d) == prev + Frontier(g, c, k, d);
      ExpandUnion(g, prev, Frontier(g, c, k, d), d);
    }
  }

  lemma {:induction false} ReachMonotone(g: Graph, c: NodeId, j: nat, k: nat, d: Direction)
    requires j <= k
    ensures Reach(g, c, j, d) <= Reach(g, c, k, d)
    decreases k - j
  {
    if j < k {
      ReachMonotone(g, c, j, k - 1, d);
    }
  }

  /** Once a round adds nothing, no later round does. */
  lemma {:induction false} ReachStable(g: Graph, c: NodeId, i: nat, k: nat, d: Direction)
    requires i <= k
    requires Reach(g, c, i + 1, d) == Reach(g, c, i, d)
    ensures Reach(g, c, k, d) == Reach(g, c, i, d)
    decreases k - i
  {
    if i < k {
      ReachStable(g, c, i, k - 1, d);
    }
  }

  lemma SubsetCardinality(a: set<NodeId>, b: set<NodeId>)
    requires a <= b
    ensures |a| <= |b|
    ensures a != b ==> |a| < |b|
  {
    assert b == a + (b - a);
    if a != b {
      var x :| x in b - a;
    }
  }

  /** Round `i + 1` adds nothing to round `i`. */
  ghost predicate Settled(g: Graph, c: NodeId, i: nat, d: Direction)
  {
    Reach(g, c, i + 1, d) == Reach(g, c, i, d)
  }

  /** Either some round before `m` added nothing, or round `m` holds at least
      `m + 1` nodes. */
  lemma {:induction false} ReachGrowth(g: Graph, c: NodeId, m: nat, d: Direction)
    requires c in g.attrs
    ensures (exists i :: 0 <= i < m && Settled(g, c, i, d)) || m + 1 <= |Reach(g, c, m, d)|
  {
    if m > 0 {
      ReachGrowth(g, c, m - 1, d);
      if Settled(g, c, m - 1, d) {
        assert 0 <= m - 1 < m && Settled(g, c, m - 1, d);
      } else if exists i :: 0 <= i < m - 1 && Settled(g, c, i, d) {
        var i :| 0 <= i < m - 1 && Settled(g, c, i, d);
        assert 0 <= i < m;
      } else {
        var prev, cur := Reach(g, c, m - 1, d), Reach(g, c, m, d);
        ReachMonotone(g, c, m - 1, m, d);
        assert prev != cur;
        SubsetCardinality(prev, cur);
      }
    }
  }

  /** No node is more than `|nodes|` steps away: the ball stops growing by then. */
  lemma ReachBounded(g: Graph, c: NodeId, k: nat, d: Direction)
    requires Valid(g)
    ensures Reach(g, c, k, d) <= Reach(g, c, |g.nodes|, d)
  {
    var n := |g.nodes|;
    if k <= n {
      ReachMonotone(g, c, k, n, d);
    } else if c in g.attrs {
      ReachGrowth(g, c, n, d);
      NodeCount(g);
      SubsetCardinality(Reach(g, c, n, d), g.attrs.Keys);
      var i :| 0 <= i < n && Settled(g, c, i, d);
      ReachStable(g, c, i, k, d);
      ReachStable(g, c, i, n, d);
    }
  }

  /** Adding one node to a set adds its neighbours to the expansion. */
  lemma ExpandAddOne(g: Graph, a: set<NodeId>, x: NodeId, d: Direction)
    requires Valid(g)
    ensures Expand(g, a + {x}, d) == Expand(g, a, d) + Neighbors(g, x, d)
  {
    ExpandUnion(g, a, {x}, d);
  }

  /** The inner loop of `get_nodes_within_hops`: the neighbours of the nodes of
      `layer` not yet visited. */
  method ExpandLayer(g: Graph, layer: set<NodeId>, visited: set<NodeId>, d: Direction) returns (next: set<NodeId>)
    requires Valid(g)
    ensures next == Expand(g, layer, d) - visited
  {
    next := {};
    var rest := layer;
    while rest != {}
      invariant rest <= layer
      invariant next == Expand(g, layer - rest, d) - visited
      decreases rest
    {
      var x :| x in rest;
      ExpandAddOne(g, layer - rest, x, d);
      assert layer - (rest - {x}) == (layer - rest) + {x};
      next := next + (Neighbors(g, x, d) - visited);
      rest := rest - {x};
    }
    assert layer - rest == layer;
  }

  /** Round `i + 1` adds to round `i` exactly the new neighbours of the last layer,
      and those form the next layer. */
  lemma NextRound(g: Graph, c: NodeId, i: nat, d: Direction)
    ensures Reach(g, c, i + 1, d) == Reach(g, c, i, d) + (Expand(g, Frontier(g, c, i, d), d) - Reach(g, c, i, d))
    ensures Frontier(g, c, i + 1, d) == Expand(g, Frontier(g, c, i, d), d) - Reach(g, c, i, d)
  {
    FrontierSuffices(g, c, i, d);
    var ball := Reach(g, c, i, d);
    if c in g.attrs {
      assert Reach(g, c, i + 1, d) == ball + Expand(g, ball, d);
      assert ball + Expand(g, ball, d) == ball + (Expand(g, ball, d) - ball);
    }
  }

  /** A layer with no new neighbours means no later round adds anything. */
  lemma EarlyStop(g: Graph, c: NodeId, i: nat, n: nat, d: Direction)
    requires i <= n
    requires Expand(g, Frontier(g, c, i, d), d) - Reach(g, c, i, d) == {}
    ensures Reach(g, c, n, d) == Reach(g, c, i, d)
  {
    NextRound(g, c, i, d);
    var ball := Reach(g, c, i, d);
    assert Reach(g, c, i + 1, d) == ball + {};
    ReachStable(g, c, i, n, d);
  }

  /** `get_nodes_within_hops`: breadth-first expansion, one layer per round, stopping
      early once a round finds nothing new. The result is the full ball whatever the
      early stop: every node at most `max_hops` steps from the center. */
  method NodesWithinHops(g: Graph, center: NodeId, maxHops: int, d: Direction) returns (visited: set<NodeId>)
    requires Valid(g)
    ensures visited == WithinHops(g, center, maxHops, d)
  {
    if center !in g.attrs {
      return {};
    }
    visited := {center};
    var current := {center};
    var i := 0;
    while i < maxHops
      invariant i <= Rounds(maxHops)
      invariant visited == Reach(g, center, i, d)
      invariant current == Frontier(g, center, i, d)
    {
      var next := ExpandLayer(g, current, visited, d);
      NextRound(g, center, i, d);
      if next == {} {
        EarlyStop(g, center, i, Rounds(maxHops), d);
        return;
      }
      visited := visited + next;
      current := next;
      i := i + 1;
    }
  }

  /** Round 0 is the center alone, so `max_hops = 0` gives exactly {center}. */
  lemma WithinZeroHops(g: Graph, center: NodeId, d: Direction)
    requires center in g.attrs
    ensures WithinHops(g, center, 0, d) == {center}
  {
  }

  /** A larger hop bound never loses a node. */
  lemma WithinHopsMonotone(g: Graph, center: NodeId, h1: int, h2: int, d: Direction)
    requires h1 <= h2
    ensures WithinHops(g, center, h1, d) <= WithinHops(g, center, h2, d)
  {
    ReachMonotone(g, center, Rounds(h1), Rounds(h2), d);
  }

  /** `p` is a walk along `d`: nodes of the graph, each adjacent to the one before. */
  ghost predicate IsWalk(g: Graph, p: seq<NodeId>, d: Direction)
  {
    && (forall i :: 0 <= i < |p| ==> p[i] in g.attrs)
    && (forall i :: 0 <= i < |p| - 1 ==> Adjacent(g, p[i], p[i + 1], d))
  }

  /** A walk extended by a node adjacent to its last one is still a walk. */
  lemma WalkSnoc(g: Graph, p: seq<NodeId>, m: NodeId, d: Direction)
    requires IsWalk(g, p, d) && 1 <= |p| && m in g.attrs && Adjacent(g, p[|p| - 1], m, d)
    ensures IsWalk(g, p + [m], d)
  {
    var q := p + [m];
    forall i | 0 <= i < |q| - 1 ensures Adjacent(g, q[i], q[i + 1], d) {
      if i < |p| - 1 {
        assert q[i] == p[i] && q[i + 1] == p[i + 1];
      }
    }
  }

  /** `p` is a directed path from `s` to `t`. */
  ghost predicate IsPath(g: Graph, p: seq<NodeId>, s: NodeId, t: NodeId)
  {
    1 <= |p| && p[0] == s && p[|p| - 1] == t && IsWalk(g, p, Out)
  }

  /** A walk of `|p| - 1` steps from `c` ends inside round `|p| - 1`. */
  lemma {:induction false} WalkInReach(g: Graph, c: NodeId, p: seq<NodeId>, d: Direction)
    requires 1 <= |p| && p[0] == c && IsWalk(g, p, d)
    ensures p[|p| - 1] in Reach(g, c, |p| - 1, d)
  {
    if 1 < |p| {
      var init := p[..|p| - 1];
      assert IsWalk(g, init, d);
      WalkInReach(g, c, init, d);
      var x, m := p[|p| - 2], p[|p| - 1];
      assert Adjacent(g, x, m, d);
    }
  }

  /** A node is within `max_hops` of a known center exactly when a walk of at most
      `max_hops` steps along `d` leads to it from the center. */
  lemma WithinHopsIffWalk(g: Graph, center: NodeId, maxHops: int, d: Direction, m: NodeId)
    requires Valid(g) && center in g.attrs
    ensures m in WithinHops(g, center, maxHops, d) <==>
      exists p :: 1 <= |p| <= Rounds(maxHops) + 1 && p[0] == center && p[|p| - 1] == m && IsWalk(g, p, d)
  {
    if m in WithinHops(g, center, maxHops, d) {
      var p := WalkTo(g, center, m, Rounds(maxHops), d);
    }
    if exists p :: 1 <= |p| <= Rounds(maxHops) + 1 && p[0] == center && p[|p| - 1] == m && IsWalk(g, p, d) {
      var p :| 1 <= |p| <= Rounds(maxHops) + 1 && p[0] == center && p[|p| - 1] == m && IsWalk(g, p, d);
      WalkInReach(g, center, p, d);
      ReachMonotone(g, center, |p| - 1, Rounds(maxHops), d);
    }
  }

  /** Every node of the graph is listed in its node order. */
  ghost predicate NodesListed(g: Graph)
  {
    forall n :: n in g.attrs ==> n in g.nodes
  }

  /** `t` lies within `k` steps of `s` along `d`. */
  predicate InRound(g: Graph, s: NodeId, t: NodeId, k: nat, d: Direction)
  {
    t in Reach(g, s, k, d)
  }

  /** The first node, in node order from index `i`, that is in `s` and one step
      before `t` along `d`. */
  function PredecessorIn(g: Graph, s: set<NodeId>, t: NodeId, d: Direction, i: nat): (x: NodeId)
    requires i <= |g.nodes|
    requires exists j :: i <= j < |g.nodes| && g.nodes[j] in s && Adjacent(g, g.nodes[j], t, d)
    ensures x in s && x in g.nodes && Adjacent(g, x, t, d)
    decreases |g.nodes| - i
  {
    if g.nodes[i] in s && Adjacent(g, g.nodes[i], t, d) then g.nodes[i] else PredecessorIn(g, s, t, d, i + 1)
  }

  /** The node a node first reached in round `k` is reached from: the first one in
      node order of round `k - 1` one step before it. */
  function Predecessor(g: Graph, c: NodeId, t: NodeId, k: nat, d: Direction): (x: NodeId)
    requires NodesListed(g)
    requires 0 < k && InRound(g, c, t, k, d) && !InRound(g, c, t, k - 1, d)
    ensures InRound(g, c, x, k - 1, d) && Adjacent(g, x, t, d)
  {
    var prev := Reach(g, c, k - 1, d);
    assert t in Expand(g, prev, d);
    var w :| w in prev && w in g.attrs && Adjacent(g, w, t, d);
    assert w in g.nodes;
    var j :| 0 <= j < |g.nodes| && g.nodes[j] == w;
    PredecessorIn(g, prev, t, d, 0)
  }

  /** A walk of at most `k` steps from `c` to a node `t` of round `k`, walking back
      through predecessors of earlier rounds. */
  function WalkTo(g: Graph, c: NodeId, t: NodeId, k: nat, d: Direction): (p: seq<NodeId>)
    requires NodesListed(g)
    requires InRound(g, c, t, k, d)
    ensures 1 <= |p| <= k + 1 && p[0] == c && p[|p| - 1] == t && IsWalk(g, p, d)
    decreases k
  {
    if k == 0 then [c]
    else if InRound(g, c, t, k - 1, d) then WalkTo(g, c, t, k - 1, d)
    else
      var x := Predecessor(g, c, t, k, d);
      var p := WalkTo(g, c, x, k - 1, d);
      WalkSnoc(g, p, t, d);
      p + [t]
  }

  /** The least round, from `k` on and at most `|nodes|`, that contains `t`. */
  function Depth(g: Graph, s: NodeId, t: NodeId, k: nat): (r: Option<nat>)
    ensures r.Some? ==> k <= r.value && InRound(g, s, t, r.value, Out)
    ensures r.Some? ==> forall j :: k <= j < r.value ==> !InRound(g, s, t, j, Out)
    ensures r.None? ==> forall j :: k <= j <= |g.nodes| ==> !InRound(g, s, t, j, Out)
    decreases |g.nodes| - k
  {
    if InRound(g, s, t, k, Out) then Some(k)
    else if k >= |g.nodes| then None
    else Depth(g, s, t, k + 1)
  }

  /** No path from `s` to `t` has fewer than `k + 1` nodes when `t` is in no round below `k`. */
  lemma NoShorterPath(g: Graph, s: NodeId, t: NodeId, k: nat)
    requires forall j :: 0 <= j < k ==> !InRound(g, s, t, j, Out)
    ensures forall p :: IsPath(g, p, s, t) ==> k + 1 <= |p|
  {
    forall p | IsPath(g, p, s, t) ensures k + 1 <= |p| {
      WalkInReach(g, s, p, Out);
      assert InRound(g, s, t, |p| - 1, Out);
    }
  }

  /** A node in no round up to `|nodes|` is not reachable at all. */
  lemma Unreachable(g: Graph, s: NodeId, t: NodeId)
    requires Valid(g) && !InRound(g, s, t, |g.nodes|, Out)
    ensures forall p :: !IsPath(g, p, s, t)
  {
    forall p | IsPath(g, p, s, t) ensures false {
      WalkInReach(g, s, p, Out);
      ReachBounded(g, s, |p| - 1, Out);
    }
  }

  /** Both ends of a path are nodes of the graph. */
  lemma PathEndpoints(g: Graph, s: NodeId, t: NodeId)
    ensures forall p :: IsPath(g, p, s, t) ==> s in g.attrs && t in g.attrs
  {
    forall p | IsPath(g, p, s, t) ensures s in g.attrs && t in g.attrs {
      assert p[0] in g.attrs && p[|p| - 1] in g.attrs;
    }
  }

  /** `find_shortest_path`: no path when an endpoint is not a node or `t` cannot be
      reached; otherwise a path from `s` to `t` along edges with no shorter one. */
  function ShortestPath(g: Graph, s: NodeId, t: NodeId): (r: Option<seq<NodeId>>)
    requires Valid(g)
    ensures r.None? <==> forall p :: !IsPath(g, p, s, t)
    ensures r.Some? ==> IsPath(g, r.value, s, t)
    ensures r.Some? ==> forall p :: IsPath(g, p, s, t) ==> |r.value| <= |p|
  {
    if s !in g.attrs || t !in g.attrs then
      PathEndpoints(g, s, t);
      None
    else
      match Depth(g, s, t, 0)
      case None =>
        assert !InRound(g, s, t, |g.nodes|, Out);
        Unreachable(g, s, t);
        None
      case Some(k) =>
        NoShorterPath(g, s, t, k);
        var p := WalkTo(g, s, t, k, Out);
        assert IsPath(g, p, s, t);
        Some(p)
  }
}
