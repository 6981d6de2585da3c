/** analyzer.py: `GraphAnalyzer`. The combinatorial checks (hotspots, leaf and root
    classes, namespace coupling, community grouping, top-N selection) are modelled
    exactly; PageRank, betweenness, Louvain and `np.percentile` are library
    algorithms and enter as given functions whose only known properties are stated
    in `GraphAnalyzer.Valid`. */
module Analyzer {
  import opened Wrappers
  import opened GraphModel
  import opened Ranking

  /** The default `alpha` of `calculate_pagerank`. */
  const DefaultAlpha: real := 0.85
  /** The default `resolution` of `detect_communities`. */
  const DefaultResolution: real := 1.0
  /** The message of the `ValueError` numpy raises for a percentile outside [0, 100]. */
  const PercentileRangeError: string := "Percentiles must be in the range [0, 100]"

  // ---------------------------------------------------------------------------
  // Scores

  /** `scores.items()` of a dictionary built over the graph's nodes: the pairs in
      node order. */
  function ItemsOf(nodes: seq<NodeId>, scores: map<NodeId, real>): (r: seq<Scored>)
    ensures (forall n :: n in nodes ==> n in scores) ==>
      |r| == |nodes| && forall i :: 0 <= i < |r| ==> r[i] == (nodes[i], scores[nodes[i]])
  {
    if nodes == [] then []
    else
      var init, last := nodes[..|nodes| - 1], nodes[|nodes| - 1];
      assert forall n :: n in init ==> n in nodes;
      ItemsOf(init, scores) + (if last in scores then [(last, scores[last])] else [])
  }

  /** `nx.degree_centrality`: the degree divided by `|nodes| - 1`, or 1 for every
      node of a graph with at most one node. */
  function DegreeCentrality(g: Graph): (r: map<NodeId, real>)
    requires Valid(g)
    ensures r.Keys == g.attrs.Keys
  {
    var size := |g.nodes|;
    map n | n in g.attrs :: if size <= 1 then 1.0 else Degree(g, n) as real / (size - 1) as real
  }

  lemma DivisionMonotone(x: real, y: real, d: real)
    requires d > 0.0
    ensures x / d <= y / d <==> x <= y
  {
    var qx, qy := x / d, y / d;
    assert x == qx * d && y == qy * d;
    if qx <= qy {
      assert (qy - qx) * d >= 0.0;
    } else {
      assert (qx - qy) * d > 0.0;
    }
  }

  /** Degree centrality ranks nodes exactly as their degrees do. */
  lemma DegreeCentralityOrdersByDegree(g: Graph, a: NodeId, b: NodeId)
    requires Valid(g) && a in g.attrs && b in g.attrs
    ensures var c := DegreeCentrality(g);
      |g.nodes| > 1 ==> (c[a] <= c[b] <==> Degree(g, a) <= Degree(g, b))
    ensures 0.0 <= DegreeCentrality(g)[a]
  {
    var size := |g.nodes|;
    if size > 1 {
      var d := (size - 1) as real;
      var x, y := Degree(g, a) as real, Degree(g, b) as real;
      assert DegreeCentrality(g)[a] == x / d && DegreeCentrality(g)[b] == y / d;
      DivisionMonotone(x, y, d);
      DivisionMonotone(0.0, x, d);
      assert 0.0 / d == 0.0;
    } else {
      assert DegreeCentrality(g)[a] == 1.0;
    }
  }

  /** `dict(graph.in_degree())`. */
  function InDegreeScores(g: Graph): (r: map<NodeId, real>)
    requires Valid(g)
    ensures r.Keys == g.attrs.Keys
  {
    map n | n in g.attrs :: InDegree(g, n) as real
  }

  /** `dict(graph.out_degree())`. */
  function OutDegreeScores(g: Graph): (r: map<NodeId, real>)
    requires Valid(g)
    ensures r.Keys == g.attrs.Keys
  {
    map n | n in g.attrs :: OutDegree(g, n) as real
  }

  /** The five metric names `get_top_nodes_by_metric` accepts. */
  predicate KnownMetric(metric: string)
  {
    metric in {"pagerank", "betweenness", "degree", "in_degree", "out_degree"}
  }

  // ---------------------------------------------------------------------------
  // Hotspots, leaf and root classes

  /** The nodes `find_hotspots(min_degree, min_complexity)` returns. */
  function Hotspots(g: Graph, minDegree: int, minComplexity: int): set<NodeId>
    requires Valid(g)
  {
    set n | n in g.attrs && Degree(g, n) >= minDegree && g.attrs[n].complexity >= minComplexity
  }

  /** `find_leaf_classes`: the classes with no outgoing edge. */
  function LeafClasses(g: Graph): (r: set<NodeId>)
    requires Valid(g)
    ensures forall n :: n in r <==> n in g.attrs && forall m :: (n, m) !in g.edgeAttrs
  {
    var r := set n | n in g.attrs && OutDegree(g, n) == 0;
    forall n | n in g.attrs ensures OutDegree(g, n) == 0 <==> forall m :: (n, m) !in g.edgeAttrs {
      if exists m :: (n, m) in g.edgeAttrs {
        var m :| (n, m) in g.edgeAttrs;
        assert m in Neighbors(g, n, Out);
      }
    }
    r
  }

  /** `find_root_classes`: the classes with no incoming edge. */
  function RootClasses(g: Graph): (r: set<NodeId>)
    requires Valid(g)
    ensures forall n :: n in r <==> n in g.attrs && forall m :: (m, n) !in g.edgeAttrs
  {
    var r := set n | n in g.attrs && InDegree(g, n) == 0;
    forall n | n in g.attrs ensures InDegree(g, n) == 0 <==> forall m :: (m, n) !in g.edgeAttrs {
      if exists m :: (m, n) in g.edgeAttrs {
        var m :| (m, n) in g.edgeAttrs;
        assert m in Neighbors(g, n, In);
      }
    }
    r
  }

  // ---------------------------------------------------------------------------
  // God classes

  /** `[attrs.get("complexity", 0) for _, attrs in graph.nodes(data=True)]`. */
  function Complexities(g: Graph): (r: seq<int>)
    requires Valid(g)
    ensures |r| == |g.nodes|
    ensures forall i :: 0 <= i < |r| ==> r[i] == g.attrs[g.nodes[i]].complexity
  {
    seq(|g.nodes|, i requires 0 <= i < |g.nodes| => g.attrs[g.nodes[i]].complexity)
  }

  /** The largest element of a non-empty list. */
  function MaxOf(xs: seq<int>): (m: int)
    requires |xs| > 0
    ensures m in xs && forall x :: x in xs ==> x <= m
  {
    if |xs| == 1 then xs[0]
    else
      var m := MaxOf(xs[1..]);
      assert forall x :: x in xs ==> x == xs[0] || x in xs[1..];
      if xs[0] >= m then xs[0] else m
  }

  /** The smallest element of a non-empty list. */
  function MinOf(xs: seq<int>): (m: int)
    requires |xs| > 0
    ensures m in xs && forall x :: x in xs ==> m <= x
  {
    if |xs| == 1 then xs[0]
    else
      var m := MinOf(xs[1..]);
      assert forall x :: x in xs ==> x == xs[0] || x in xs[1..];
      if xs[0] <= m then xs[0] else m
  }

  /** What is known of `np.percentile(xs, q)`: for `q` in [0, 100] it lies between
      the smallest and the largest element. */
  ghost predicate PercentileBounded(percentile: (seq<int>, real) -> real)
  {
    forall xs, q :: |xs| > 0 && 0.0 <= q <= 100.0 ==> MinOf(xs) as real <= percentile(xs, q) <= MaxOf(xs) as real
  }

  /** The result of `find_god_classes(threshold_percentile)`. */
  function GodClasses(g: Graph, percentile: (seq<int>, real) -> real, q: real): Result<set<NodeId>>
    requires Valid(g)
  {
    if |g.nodes| == 0 then Success({})
    else if !(0.0 <= q <= 100.0) then Failure(PercentileRangeError)
    else
      var threshold := percentile(Complexities(g), q);
      Success(set n | n in g.attrs && g.attrs[n].complexity as real >= threshold)
  }

  /** An empty graph has no god classes whatever the percentile; otherwise an
      out-of-range percentile fails, and a valid one selects exactly the nodes at or
      above the threshold, which include a node of maximal complexity. */
  lemma GodClassesSelect(g: Graph, percentile: (seq<int>, real) -> real, q: real)
    requires Valid(g) && PercentileBounded(percentile)
    ensures |g.nodes| == 0 ==> GodClasses(g, percentile, q) == Success({})
    ensures |g.nodes| > 0 && !(0.0 <= q <= 100.0) ==> GodClasses(g, percentile, q) == Failure(PercentileRangeError)
    ensures |g.nodes| > 0 && 0.0 <= q <= 100.0 ==>
      var r := GodClasses(g, percentile, q);
      && r.Success?
      && r.value != {}
      && forall n :: n in r.value <==> n in g.attrs && g.attrs[n].complexity as real >= percentile(Complexities(g), q)
  {
    if |g.nodes| > 0 && 0.0 <= q <= 100.0 {
      var cs := Complexities(g);
      var top := MaxOf(cs);
      var i :| 0 <= i < |cs| && cs[i] == top;
      var n := g.nodes[i];
      assert n in g.attrs;
      assert percentile(cs, q) <= top as real;
      assert n in GodClasses(g, percentile, q).value;
    }
  }

  // ---------------------------------------------------------------------------
  // Namespace coupling

  /** `graph.nodes[n].get("namespace", "")`. */
  function NamespaceOf(g: Graph, n: NodeId): string
  {
    if n in g.attrs then g.attrs[n].namespace else ""
  }

  /** The namespaces of the graph's nodes: the keys of the coupling report. */
  function Namespaces(g: Graph): set<string>
  {
    set n | n in g.attrs :: g.attrs[n].namespace
  }

  /** The nodes of namespace `ns`. */
  function MembersOf(g: Graph, ns: string): set<NodeId>
  {
    set n | n in g.attrs && g.attrs[n].namespace == ns
  }

  /** An edge whose endpoints share a namespace. */
  predicate Internal(g: Graph, e: Edge)
  {
    NamespaceOf(g, e.0) == NamespaceOf(g, e.1)
  }

  /** The edges of `es` inside namespace `ns`. */
  function InternalCount(g: Graph, es: seq<Edge>, ns: string): nat
  {
    if es == [] then 0
    else
      var e := es[|es| - 1];
      InternalCount(g, es[..|es| - 1], ns) + (if Internal(g, e) && NamespaceOf(g, e.0) == ns then 1 else 0)
  }

  /** The edges of `es` that leave namespace `ns` plus those that enter it. */
  function ExternalCount(g: Graph, es: seq<Edge>, ns: string): nat
  {
    if es == [] then 0
    else
      var e := es[|es| - 1];
      ExternalCount(g, es[..|es| - 1], ns)
        + (if !Internal(g, e) && NamespaceOf(g, e.0) == ns then 1 else 0)
        + (if !Internal(g, e) && NamespaceOf(g, e.1) == ns then 1 else 0)
  }

  /** One entry of `analyze_namespace_coupling`. */
  datatype NamespaceStats = NamespaceStats(nodeCount: nat, internalEdges: nat, externalEdges: nat, cohesion: real, coupling: real)

  /** The entry of namespace `ns`: `internal / total` when there are edges, and
      `external / node_count` when there are nodes, 0 otherwise. */
  function StatsFor(g: Graph, ns: string): NamespaceStats
  {
    Summary(|MembersOf(g, ns)|, InternalCount(g, g.edges, ns), ExternalCount(g, g.edges, ns))
  }

  /** The entry built from a namespace's counters. */
  function Summary(nodeCount: nat, internal: nat, external: nat): NamespaceStats
  {
    var total := internal + external;
    NamespaceStats(
      nodeCount, internal, external,
      if total > 0 then internal as real / total as real else 0.0,
      if nodeCount > 0 then external as real / nodeCount as real else 0.0)
  }

  lemma RatioInUnit(a: nat, b: nat)
    requires a <= b && 0 < b
    ensures 0.0 <= a as real / b as real <= 1.0
  {
    DivisionMonotone(a as real, b as real, b as real);
    assert b as real / b as real == 1.0;
  }

  lemma StatsBounds(g: Graph, ns: string)
    requires ns in Namespaces(g)
    ensures var st := StatsFor(g, ns);
      && st.nodeCount >= 1
      && 0.0 <= st.cohesion <= 1.0
      && (st.internalEdges + st.externalEdges == 0 ==> st.cohesion == 0.0)
  {
    var n :| n in g.attrs && g.attrs[n].namespace == ns;
    assert n in MembersOf(g, ns);
    var st := StatsFor(g, ns);
    var total := st.internalEdges + st.externalEdges;
    if total > 0 {
      RatioInUnit(st.internalEdges, total);
    }
  }

  /** The dictionary `analyze_namespace_coupling` returns. */
  function CouplingReport(g: Graph): (r: map<string, NamespaceStats>)
    ensures r.Keys == Namespaces(g)
    ensures forall ns :: ns in r ==>
      && r[ns].nodeCount >= 1
      && 0.0 <= r[ns].cohesion <= 1.0
      && (r[ns].internalEdges + r[ns].externalEdges == 0 ==> r[ns].cohesion == 0.0)
  {
    var r := map ns | ns in Namespaces(g) :: StatsFor(g, ns);
    forall ns | ns in r
      ensures r[ns].nodeCount >= 1 && 0.0 <= r[ns].cohesion <= 1.0
    {
      StatsBounds(g, ns);
    }
    r
  }

  /** The sum of `internal_edges` over the namespaces `nss`. */
  function SumInternal(r: map<string, NamespaceStats>, nss: seq<string>): nat
    requires forall ns :: ns in nss ==> ns in r
  {
    if nss == [] then 0 else r[nss[0]].internalEdges + SumInternal(r, nss[1..])
  }

  /** The sum of `external_edges` over the namespaces `nss`. */
  function SumExternal(r: map<string, NamespaceStats>, nss: seq<string>): nat
    requires forall ns :: ns in nss ==> ns in r
  {
    if nss == [] then 0 else r[nss[0]].externalEdges + SumExternal(r, nss[1..])
  }

  /** The sum of the internal counts over `nss` for the edges `es`. */
  function InternalTotal(g: Graph, es: seq<Edge>, nss: seq<string>): nat
  {
    if nss == [] then 0 else InternalCount(g, es, nss[0]) + InternalTotal(g, es, nss[1..])
  }

  /** The sum of the external counts over `nss` for the edges `es`. */
  function ExternalTotal(g: Graph, es: seq<Edge>, nss: seq<string>): nat
  {
    if nss == [] then 0 else ExternalCount(g, es, nss[0]) + ExternalTotal(g, es, nss[1..])
  }

  /** One more edge adds one to the internal total of the namespaces when it is
      internal and its namespace is listed. */
  lemma {:induction false} InternalTotalSnoc(g: Graph, es: seq<Edge>, e: Edge, nss: seq<string>)
    requires Distinct(nss)
    ensures InternalTotal(g, es + [e], nss) ==
      InternalTotal(g, es, nss) + (if Internal(g, e) && NamespaceOf(g, e.0) in nss then 1 else 0)
  {
    assert (es + [e])[..|es|] == es;
    if nss != [] {
      assert Distinct(nss[1..]);
      InternalTotalSnoc(g, es, e, nss[1..]);
      assert nss == [nss[0]] + nss[1..];
      if NamespaceOf(g, e.0) == nss[0] {
        assert NamespaceOf(g, e.0) !in nss[1..];
      }
    }
  }

  /** One more edge adds one to the external total for each listed endpoint
      namespace when it crosses namespaces. */
  lemma {:induction false} ExternalTotalSnoc(g: Graph, es: seq<Edge>, e: Edge, nss: seq<string>)
    requires Distinct(nss)
    ensures ExternalTotal(g, es + [e], nss) ==
      ExternalTotal(g, es, nss)
        + (if !Internal(g, e) && NamespaceOf(g, e.0) in nss then 1 else 0)
        + (if !Internal(g, e) && NamespaceOf(g, e.1) in nss then 1 else 0)
  {
    assert (es + [e])[..|es|] == es;
    if nss != [] {
      assert Distinct(nss[1..]);
      ExternalTotalSnoc(g, es, e, nss[1..]);
      assert nss == [nss[0]] + nss[1..];
      if NamespaceOf(g, e.0) == nss[0] {
        assert NamespaceOf(g, e.0) !in nss[1..];
      }
      if NamespaceOf(g, e.1) == nss[0] {
        assert NamespaceOf(g, e.1) !in nss[1..];
      }
    }
  }

  lemma {:induction false} TotalsOfNoEdges(g: Graph, nss: seq<string>)
    ensures InternalTotal(g, [], nss) == 0 && ExternalTotal(g, [], nss) == 0
  {
    if nss != [] {
      TotalsOfNoEdges(g, nss[1..]);
    }
  }

  /** Every edge is counted twice over all namespaces: twice as internal, or once
      out of its source's namespace and once into its target's. */
  lemma {:induction false} EdgesCountedTwice(g: Graph, es: seq<Edge>, nss: seq<string>)
    requires Distinct(nss)
    requires forall e :: e in es ==> NamespaceOf(g, e.0) in nss && NamespaceOf(g, e.1) in nss
    ensures 2 * InternalTotal(g, es, nss) + ExternalTotal(g, es, nss) == 2 * |es|
  {
    if es != [] {
      var init, e := es[..|es| - 1], es[|es| - 1];
      assert es == init + [e];
      assert e in es;
      assert forall x :: x in init ==> x in es;
      EdgesCountedTwice(g, init, nss);
      InternalTotalSnoc(g, init, e, nss);
      ExternalTotalSnoc(g, init, e, nss);
    } else {
      TotalsOfNoEdges(g, nss);
    }
  }

  lemma {:induction false} ReportSums(g: Graph, nss: seq<string>)
    requires forall ns :: ns in nss ==> ns in Namespaces(g)
    ensures SumInternal(CouplingReport(g), nss) == InternalTotal(g, g.edges, nss)
    ensures SumExternal(CouplingReport(g), nss) == ExternalTotal(g, g.edges, nss)
  {
    if nss != [] {
      ReportSums(g, nss[1..]);
    }
  }

  /** Over all reported namespaces, the internal edges plus half the external
      edges add up to the number of edges. */
  lemma CouplingCountsEveryEdge(g: Graph, nss: seq<string>)
    requires Valid(g)
    requires Distinct(nss) && forall ns :: ns in nss <==> ns in CouplingReport(g)
    ensures 2 * SumInternal(CouplingReport(g), nss) + SumExternal(CouplingReport(g), nss) == 2 * |g.edges|
  {
    forall e | e in g.edges ensures NamespaceOf(g, e.0) in nss && NamespaceOf(g, e.1) in nss {
      assert e in g.edgeAttrs;
      assert g.attrs[e.0].namespace in Namespaces(g);
      assert g.attrs[e.1].namespace in Namespaces(g);
    }
    EdgesCountedTwice(g, g.edges, nss);
    ReportSums(g, nss);
  }

  // ---------------------------------------------------------------------------
  // Communities

  /** The community ids a partition assigns to the nodes of `ks`. */
  function IdsOf(c: map<NodeId, int>, ks: set<NodeId>): set<int>
    requires ks <= c.Keys
  {
    set n | n in ks :: c[n]
  }

  /** The groups `community_map` holds after adding the nodes of `ks`: each id
      used by a node of `ks` maps to the nodes of `ks` that carry it. */
  function GroupOf(c: map<NodeId, int>, ks: set<NodeId>): (r: map<int, set<NodeId>>)
    requires ks <= c.Keys
    ensures r.Keys == IdsOf(c, ks)
  {
    map k | k in IdsOf(c, ks) :: set n | n in ks && c[n] == k
  }

  /** `dict(community_map)` for the whole partition: the groups are non-empty,
      every node sits in the group of its own id and in no other. */
  function GroupByCommunity(c: map<NodeId, int>): (r: map<int, set<NodeId>>)
    ensures forall k :: k in r ==> r[k] != {}
    ensures forall n :: n in c ==> c[n] in r && n in r[c[n]]
    ensures forall k, n :: k in r && n in r[k] ==> n in c && c[n] == k
  {
    var r := GroupOf(c, c.Keys);
    forall k | k in r ensures r[k] != {} {
      var n :| n in c && c[n] == k;
      assert n in r[k];
    }
    r
  }

  /** Adding one node to the groups puts it in the group of its id, creating the
      group when the id is new, as `community_map[comm_id].add(node_id)` does. */
  lemma GroupOfAdd(c: map<NodeId, int>, ks: set<NodeId>, n: NodeId)
    requires ks <= c.Keys && n in c && n !in ks
    ensures var before := GroupOf(c, ks);
      GroupOf(c, ks + {n}) == before[c[n] := (if c[n] in before then before[c[n]] else {}) + {n}]
  {
    var before, after := GroupOf(c, ks), GroupOf(c, ks + {n});
    var expected := before[c[n] := (if c[n] in before then before[c[n]] else {}) + {n}];
    assert IdsOf(c, ks + {n}) == IdsOf(c, ks) + {c[n]};
    forall k | k in after ensures after[k] == expected[k] {
      if k == c[n] && c[n] !in before {
        assert forall m :: m in ks ==> c[m] != k;
      }
    }
  }

  /** The number of communities `len(set(communities.values()))`: the ids used. */
  function CommunityCount(c: map<NodeId, int>): nat
  {
    |IdsOf(c, c.Keys)|
  }

  /** No set of nodes uses more community ids than it has nodes. */
  lemma {:induction false} IdsAtMostNodes(c: map<NodeId, int>, ks: set<NodeId>)
    requires ks <= c.Keys
    ensures |IdsOf(c, ks)| <= |ks|
    decreases ks
  {
    if ks != {} {
      var n :| n in ks;
      IdsAtMostNodes(c, ks - {n});
      assert IdsOf(c, ks) == IdsOf(c, ks - {n}) + {c[n]};
    }
  }

  /** There are never more communities than nodes, and a non-empty partition has
      at least one community. */
  lemma CommunityCountBounds(c: map<NodeId, int>)
    ensures CommunityCount(c) <= |c.Keys|
    ensures |c.Keys| > 0 ==> CommunityCount(c) > 0
  {
    IdsAtMostNodes(c, c.Keys);
    if |c.Keys| > 0 {
      var n :| n in c;
      assert c[n] in IdsOf(c, c.Keys);
    }
  }

  /** Raising either hotspot threshold can only shrink the set of hotspots. */
  lemma HotspotsAntitone(g: Graph, minDegree: int, minComplexity: int, minDegree': int, minComplexity': int)
    requires Valid(g) && minDegree <= minDegree' && minComplexity <= minComplexity'
    ensures Hotspots(g, minDegree', minComplexity') <= Hotspots(g, minDegree, minComplexity)
  {
  }

  /** With a positive degree threshold every hotspot has a neighbour. */
  lemma HotspotsAreConnected(g: Graph, minDegree: int, minComplexity: int, n: NodeId)
    requires Valid(g) && 1 <= minDegree && n in Hotspots(g, minDegree, minComplexity)
    ensures Neighbors(g, n, Both) != {}
  {
    NeighborsBoth(g, n);
    if Neighbors(g, n, In) == {} {
      assert |Neighbors(g, n, Out)| >= 1;
    }
  }

  /** The grouping loop of `get_community_members`: each node is added to the set
      of its community id, the set being created on first use. */
  method GroupMembers(communities: map<NodeId, int>) returns (communityMap: map<int, set<NodeId>>)
    ensures communityMap == GroupByCommunity(communities)
  {
    communityMap := map[];
    var rest := communities.Keys;
    while rest != {}
      invariant rest <= communities.Keys
      invariant communityMap == GroupOf(communities, communities.Keys - rest)
      decreases rest
    {
      var n :| n in rest;
      GroupOfAdd(communities, communities.Keys - rest, n);
      assert communities.Keys - (rest - {n}) == (communities.Keys - rest) + {n};
      var k := communities[n];
      communityMap := communityMap[k := (if k in communityMap then communityMap[k] else {}) + {n}];
      rest := rest - {n};
    }
    assert communities.Keys - rest == communities.Keys;
  }

  /** The selection loop of `find_god_classes`: the nodes whose complexity reaches
      `threshold`. */
  method ComplexAtLeast(g: Graph, threshold: real) returns (selected: set<NodeId>)
    requires Valid(g)
    ensures selected == set n | n in g.attrs && g.attrs[n].complexity as real >= threshold
  {
    selected := {};
    var i := 0;
    while i < |g.nodes|
      invariant 0 <= i <= |g.nodes|
      invariant selected == set n | n in g.nodes[..i] && g.attrs[n].complexity as real >= threshold
    {
      var n := g.nodes[i];
      assert g.nodes[..i + 1] == g.nodes[..i] + [n];
      if g.attrs[n].complexity as real >= threshold {
        selected := selected + {n};
      }
      i := i + 1;
    }
    assert g.nodes[..i] == g.nodes;
  }

  /** The namespaces of the nodes `ids`. */
  function NamespacesAmong(g: Graph, ids: seq<NodeId>): set<string>
  {
    set n | n in ids :: NamespaceOf(g, n)
  }

  /** The nodes of `ids` in namespace `ns`. */
  function MembersAmong(g: Graph, ids: seq<NodeId>, ns: string): set<NodeId>
  {
    set n | n in ids && NamespaceOf(g, n) == ns
  }

  lemma AmongSnoc(g: Graph, ids: seq<NodeId>, n: NodeId)
    ensures NamespacesAmong(g, ids + [n]) == NamespacesAmong(g, ids) + {NamespaceOf(g, n)}
    ensures forall ns :: MembersAmong(g, ids + [n], ns) == MembersAmong(g, ids, ns) + (if NamespaceOf(g, n) == ns then {n} else {})
  {
  }

  /** The counters after the node loop has seen `ids`. */
  function MemberTallies(g: Graph, ids: seq<NodeId>): (r: map<string, NamespaceTally>)
    ensures r.Keys == NamespacesAmong(g, ids)
    ensures forall ns :: ns in r ==> r[ns] == NamespaceTally(MembersAmong(g, ids, ns), 0, 0, 0)
  {
    map ns | ns in NamespacesAmong(g, ids) :: NamespaceTally(MembersAmong(g, ids, ns), 0, 0, 0)
  }

  /** The node loop's step: node `n` joins the counter of its namespace, which
      starts empty when `n` is the first node seen there. */
  lemma MemberTalliesSnoc(g: Graph, ids: seq<NodeId>, n: NodeId)
    ensures var t, ns := MemberTallies(g, ids), NamespaceOf(g, n);
      MemberTallies(g, ids + [n]) == t[ns := NamespaceTally((if ns in t then t[ns].members else {}) + {n}, 0, 0, 0)]
  {
    var t, ns := MemberTallies(g, ids), NamespaceOf(g, n);
    var after := MemberTallies(g, ids + [n]);
    var expected := t[ns := NamespaceTally((if ns in t then t[ns].members else {}) + {n}, 0, 0, 0)];
    MemberTalliesSnocValues(g, ids, n);
    assert after.Keys == expected.Keys;
  }

  lemma MemberTalliesSnocValues(g: Graph, ids: seq<NodeId>, n: NodeId)
    ensures var t, ns := MemberTallies(g, ids), NamespaceOf(g, n);
      var after := MemberTallies(g, ids + [n]);
      && after.Keys == t.Keys + {ns}
      && (forall m :: m in after && m != ns ==> after[m] == t[m])
      && ns in after && after[ns].members == (if ns in t then t[ns].members else {}) + {n}
  {
    AmongSnoc(g, ids, n);
    var t, ns := MemberTallies(g, ids), NamespaceOf(g, n);
    if ns !in t {
      assert MembersAmong(g, ids, ns) == {};
    }
  }

  lemma AmongAll(g: Graph)
    requires Valid(g)
    ensures NamespacesAmong(g, g.nodes) == Namespaces(g)
    ensures forall ns :: MembersAmong(g, g.nodes, ns) == MembersOf(g, ns)
  {
  }

  /** One more edge changes the counts of a namespace by what that edge adds. */
  lemma CountsSnoc(g: Graph, es: seq<Edge>, e: Edge, ns: string)
    ensures InternalCount(g, es + [e], ns) == InternalCount(g, es, ns) + (if Internal(g, e) && NamespaceOf(g, e.0) == ns then 1 else 0)
    ensures ExternalCount(g, es + [e], ns) == ExternalCount(g, es, ns)
      + (if !Internal(g, e) && NamespaceOf(g, e.0) == ns then 1 else 0)
      + (if !Internal(g, e) && NamespaceOf(g, e.1) == ns then 1 else 0)
  {
    assert (es + [e])[..|es|] == es;
  }

  /** The node loop of `analyze_namespace_coupling`: a counter per namespace met,
      holding that namespace's nodes. */
  method CollectMembers(g: Graph) returns (tallies: map<string, NamespaceTally>)
    requires Valid(g)
    ensures tallies.Keys == Namespaces(g)
    ensures forall ns :: ns in tallies ==> tallies[ns] == NamespaceTally(MembersOf(g, ns), 0, 0, 0)
  {
    tallies := map[];
    var i := 0;
    while i < |g.nodes|
      invariant 0 <= i <= |g.nodes|
      invariant tallies == MemberTallies(g, g.nodes[..i])
    {
      var n := g.nodes[i];
      assert g.nodes[..i + 1] == g.nodes[..i] + [n];
      MemberTalliesSnoc(g, g.nodes[..i], n);
      var ns := NamespaceOf(g, n);
      var members := if ns in tallies then tallies[ns].members else {};
      tallies := tallies[ns := NamespaceTally(members + {n}, 0, 0, 0)];
      i := i + 1;
    }
    assert g.nodes[..i] == g.nodes;
    AmongAll(g);
  }

  /** The edge loop of `analyze_namespace_coupling`: an edge inside a namespace
      adds to its internal count, any other edge to the outgoing count of its
      source's namespace and the incoming count of its target's. */
  method CountEdges(g: Graph, start: map<string, NamespaceTally>) returns (tallies: map<string, NamespaceTally>)
    requires Valid(g)
    requires start.Keys == Namespaces(g)
    requires forall ns :: ns in start ==> start[ns] == NamespaceTally(MembersOf(g, ns), 0, 0, 0)
    ensures Tallied(g, tallies, g.edges)
  {
    tallies := start;
    var j := 0;
    assert Tallied(g, tallies, g.edges[..0]);
    while j < |g.edges|
      invariant 0 <= j <= |g.edges|
      invariant Tallied(g, tallies, g.edges[..j])
    {
      var e := g.edges[j];
      assert g.edges[..j + 1] == g.edges[..j] + [e];
      assert e in g.edgeAttrs;
      TallyEdge(g, tallies, g.edges[..j], e);
      tallies := CountEdge(tallies, NamespaceOf(g, e.0), NamespaceOf(g, e.1));
      j := j + 1;
    }
    assert g.edges[..j] == g.edges;
  }

  /** The counters after the edges `es`: one per namespace of the graph, holding
      its members, the edges of `es` inside it and those crossing its border. */
  ghost predicate Tallied(g: Graph, tallies: map<string, NamespaceTally>, es: seq<Edge>)
  {
    && tallies.Keys == Namespaces(g)
    && forall ns :: ns in tallies ==>
      && tallies[ns].members == MembersOf(g, ns)
      && tallies[ns].internalEdges == InternalCount(g, es, ns)
      && tallies[ns].externalOut + tallies[ns].externalIn == ExternalCount(g, es, ns)
  }

  /** The counter update for one edge: internal to its source's namespace, or
      outgoing there and incoming at its target's namespace. */
  function CountEdge(tallies: map<string, NamespaceTally>, sourceNs: string, targetNs: string): (r: map<string, NamespaceTally>)
    requires sourceNs in tallies && targetNs in tallies
    ensures r.Keys == tallies.Keys
  {
    var t := tallies[sourceNs];
    if sourceNs == targetNs then tallies[sourceNs := t.(internalEdges := t.internalEdges + 1)]
    else
      var next := tallies[sourceNs := t.(externalOut := t.externalOut + 1)];
      var u := next[targetNs];
      next[targetNs := u.(externalIn := u.externalIn + 1)]
  }

  /** Counting one more edge keeps the counters right. */
  lemma TallyEdge(g: Graph, tallies: map<string, NamespaceTally>, es: seq<Edge>, e: Edge)
    requires Valid(g) && e.0 in g.attrs && e.1 in g.attrs
    requires Tallied(g, tallies, es)
    ensures NamespaceOf(g, e.0) in tallies && NamespaceOf(g, e.1) in tallies
    ensures Tallied(g, CountEdge(tallies, NamespaceOf(g, e.0), NamespaceOf(g, e.1)), es + [e])
  {
    var sourceNs, targetNs := NamespaceOf(g, e.0), NamespaceOf(g, e.1);
    assert sourceNs in Namespaces(g) && targetNs in Namespaces(g);
    var r := CountEdge(tallies, sourceNs, targetNs);
    forall ns | ns in r
      ensures r[ns].members == MembersOf(g, ns)
      ensures r[ns].internalEdges == InternalCount(g, es + [e], ns)
      ensures r[ns].externalOut + r[ns].externalIn == ExternalCount(g, es + [e], ns)
    {
      CountsSnoc(g, es, e, ns);
    }
  }

  /** The aggregation loop of `analyze_namespace_coupling`: one report entry per
      counter. */
  method Summarize(g: Graph, tallies: map<string, NamespaceTally>) returns (result: map<string, NamespaceStats>)
    requires Tallied(g, tallies, g.edges)
    ensures result == CouplingReport(g)
  {
    result := map[];
    var rest := tallies.Keys;
    while rest != {}
      invariant rest <= tallies.Keys
      invariant result.Keys == tallies.Keys - rest
      invariant forall ns :: ns in result ==> result[ns] == StatsFor(g, ns)
      decreases rest
    {
      var ns :| ns in rest;
      var stats := tallies[ns];
      result := result[ns := Summary(|stats.members|, stats.internalEdges, stats.externalOut + stats.externalIn)];
      rest := rest - {ns};
    }
    var report := CouplingReport(g);
    assert result.Keys == report.Keys;
    assert forall ns :: ns in result ==> result[ns] == report[ns];
  }

  lemma SubsetSize<T>(a: set<T>, b: set<T>)
    requires a <= b
    ensures |a| <= |b|
  {
    assert b == a + (b - a);
  }

  /** The top-N list of a score dictionary over the nodes has the slice's length,
      non-increasing scores, and pairs each node with its own score. */
  lemma RankedNodes(g: Graph, scores: map<NodeId, real>, topN: int)
    requires Valid(g) && scores.Keys == g.attrs.Keys
    ensures var r := TopN(ItemsOf(g.nodes, scores), topN);
      && |r| == SliceLength(|g.nodes|, topN)
      && NonIncreasing(r)
      && forall x :: x in r ==> x.0 in g.attrs && x.1 == scores[x.0]
  {
    var items := ItemsOf(g.nodes, scores);
    var r := TopN(items, topN);
    TopNShape(items, topN);
    forall x | x in r ensures x.0 in g.attrs && x.1 == scores[x.0] {
      assert x in multiset(items);
      var i :| 0 <= i < |items| && items[i] == x;
      assert g.nodes[i] in g.nodes;
    }
  }

  // ---------------------------------------------------------------------------
  // The analyzer

  /** The per-namespace counters `analyze_namespace_coupling` accumulates. */
  datatype NamespaceTally = NamespaceTally(members: set<NodeId>, internalEdges: nat, externalOut: nat, externalIn: nat)

  /** One entry of `top_important_nodes` or `top_connected_nodes`. */
  datatype RankedNode = RankedNode(id: NodeId, name: string, score: real)

  /** The dictionary `get_analysis_summary` returns. */
  datatype AnalysisSummary = AnalysisSummary(
    totalNodes: nat,
    totalEdges: nat,
    communitiesCount: nat,
    hotspotsCount: nat,
    leafClassesCount: nat,
    rootClassesCount: nat,
    topImportant: seq<RankedNode>,
    topConnected: seq<RankedNode>)

  /** `graph.nodes[n].get("name", "")` for each entry of a top-N list. */
  function Named(g: Graph, top: seq<Scored>): (r: seq<RankedNode>)
    ensures |r| == |top|
    ensures forall i :: 0 <= i < |r| ==> r[i].id == top[i].0 && r[i].score == top[i].1
  {
    if top == [] then []
    else [RankedNode(top[0].0, if top[0].0 in g.attrs then g.attrs[top[0].0].name else "", top[0].1)] + Named(g, top[1..])
  }

  /** The report of `get_analysis_summary` for a graph, its PageRank scores and
      its partition: the counts, and the five best nodes by PageRank and by
      degree centrality. */
  function SummaryOf(g: Graph, pagerank: map<NodeId, real>, communities: map<NodeId, int>): AnalysisSummary
    requires Valid(g)
  {
    AnalysisSummary(
      |g.nodes|, |g.edges|, CommunityCount(communities), |Hotspots(g, DefaultMinDegree, DefaultMinComplexity)|,
      |LeafClasses(g)|, |RootClasses(g)|,
      Named(g, TopN(ItemsOf(g.nodes, pagerank), 5)), Named(g, TopN(ItemsOf(g.nodes, DegreeCentrality(g)), 5)))
  }

  /** For a partition of the graph's nodes and scores for every node, the summary
      counts at most as many communities and hotspots as there are nodes, and both
      top lists hold the five best nodes or all nodes when there are fewer. */
  lemma SummaryOfBounds(g: Graph, pagerank: map<NodeId, real>, communities: map<NodeId, int>)
    requires Valid(g) && communities.Keys == g.attrs.Keys && g.attrs.Keys <= pagerank.Keys
    ensures var sm := SummaryOf(g, pagerank, communities);
      && sm.communitiesCount <= sm.totalNodes
      && sm.hotspotsCount <= sm.totalNodes
      && |sm.topImportant| == |sm.topConnected| == if |g.nodes| < 5 then |g.nodes| else 5
  {
    NodeCount(g);
    CommunityCountBounds(communities);
    var hotspots := Hotspots(g, DefaultMinDegree, DefaultMinComplexity);
    SubsetSize(hotspots, g.attrs.Keys);
    TopNShape(ItemsOf(g.nodes, pagerank), 5);
    TopNShape(ItemsOf(g.nodes, DegreeCentrality(g)), 5);
  }

  /** The default thresholds of `find_hotspots`. */
  const DefaultMinDegree: int := 5
  const DefaultMinComplexity: int := 10
  /** The default `threshold_percentile` of `find_god_classes`. */
  const DefaultGodPercentile: real := 90.0

  /** `GraphAnalyzer`: a graph plus lazily filled caches for PageRank, betweenness
      and the Louvain partition. The library algorithms are the given functions
      `pagerankOf` (by `alpha`; it may fail to converge), `betweennessOf`,
      `louvainOf` (by `resolution`) and `percentileOf`. */
  class GraphAnalyzer {
    const graph: Graph
    const pagerankOf: real -> Result<map<NodeId, real>>
    const betweennessOf: map<NodeId, real>
    const louvainOf: real -> map<NodeId, int>
    const percentileOf: (seq<int>, real) -> real
    var pagerankCache: Option<map<NodeId, real>>
    var betweennessCache: Option<map<NodeId, real>>
    var communitiesCache: Option<map<NodeId, int>>

    /** The graph is valid, every score map and partition covers exactly the
        graph's nodes, the percentile lies between the extremes, and a filled
        cache holds what its algorithm computes. */
    ghost predicate Valid()
      reads this
    {
      && GraphModel.Valid(graph)
      && (forall a :: pagerankOf(a).Success? ==> pagerankOf(a).value.Keys == graph.attrs.Keys)
      && betweennessOf.Keys == graph.attrs.Keys
      && (forall res :: louvainOf(res).Keys == graph.attrs.Keys)
      && PercentileBounded(percentileOf)
      && (pagerankCache.Some? ==> pagerankCache.value.Keys == graph.attrs.Keys)
      && (betweennessCache.Some? ==> betweennessCache.value == betweennessOf)
      && (communitiesCache.Some? ==> communitiesCache.value.Keys == graph.attrs.Keys)
    }

    /** `__init__`: all three caches start empty. */
    constructor (graph: Graph, pagerankOf: real -> Result<map<NodeId, real>>, betweennessOf: map<NodeId, real>,
                 louvainOf: real -> map<NodeId, int>, percentileOf: (seq<int>, real) -> real)
      requires GraphModel.Valid(graph)
      requires forall a :: pagerankOf(a).Success? ==> pagerankOf(a).value.Keys == graph.attrs.Keys
      requires betweennessOf.Keys == graph.attrs.Keys
      requires forall res :: louvainOf(res).Keys == graph.attrs.Keys
      requires PercentileBounded(percentileOf)
      ensures Valid()
      ensures this.graph == graph && this.pagerankOf == pagerankOf && this.betweennessOf == betweennessOf
      ensures this.louvainOf == louvainOf && this.percentileOf == percentileOf
      ensures pagerankCache == None && betweennessCache == None && communitiesCache == None
    {
      this.graph := graph;
      this.pagerankOf := pagerankOf;
      this.betweennessOf := betweennessOf;
      this.louvainOf := louvainOf;
      this.percentileOf := percentileOf;
      pagerankCache := None;
      betweennessCache := None;
      communitiesCache := None;
    }

    /** `calculate_pagerank(alpha)`: the cached scores when present (whatever
        `alpha`), otherwise the algorithm's, which are cached when it converges. */
    method CalculatePagerank(alpha: real) returns (r: Result<map<NodeId, real>>)
      requires Valid()
      modifies this
      ensures Valid()
      ensures r == if old(pagerankCache).Some? then Success(old(pagerankCache).value) else pagerankOf(alpha)
      ensures r.Success? ==> r.value.Keys == graph.attrs.Keys
      ensures pagerankCache == if r.Success? then Some(r.value) else old(pagerankCache)
      ensures betweennessCache == old(betweennessCache) && communitiesCache == old(communitiesCache)
    {
      if pagerankCache.None? {
        r := pagerankOf(alpha);
        if r.Success? {
          pagerankCache := Some(r.value);
        }
      } else {
        r := Success(pagerankCache.value);
      }
    }

    /** `calculate_betweenness_centrality`: fills the cache on first use. */
    method CalculateBetweenness() returns (r: map<NodeId, real>)
      requires Valid()
      modifies this
      ensures Valid()
      ensures r == betweennessOf && r.Keys == graph.attrs.Keys
      ensures betweennessCache == Some(betweennessOf)
      ensures pagerankCache == old(pagerankCache) && communitiesCache == old(communitiesCache)
    {
      if betweennessCache.None? {
        betweennessCache := Some(betweennessOf);
      }
      r := betweennessCache.value;
    }

    /** `calculate_degree_centrality`: never cached. */
    method CalculateDegreeCentrality() returns (r: map<NodeId, real>)
      requires Valid()
      ensures r == DegreeCentrality(graph)
      ensures forall a, b :: a in r && b in r && |graph.nodes| > 1 ==> (r[a] <= r[b] <==> Degree(graph, a) <= Degree(graph, b))
      ensures forall a :: a in r ==> 0.0 <= r[a]
    {
      r := DegreeCentrality(graph);
      forall a, b | a in r && b in r
        ensures |graph.nodes| > 1 ==> (r[a] <= r[b] <==> Degree(graph, a) <= Degree(graph, b))
        ensures 0.0 <= r[a]
      {
        DegreeCentralityOrdersByDegree(graph, a, b);
      }
    }

    /** The score dictionary `get_top_nodes_by_metric(metric)` ranks in the
        current state, or the error it raises. */
    function MetricScores(metric: string): (r: Result<map<NodeId, real>>)
      reads this
      requires Valid()
      ensures r.Success? <==> KnownMetric(metric) && (metric == "pagerank" ==> pagerankCache.Some? || pagerankOf(DefaultAlpha).Success?)
      ensures r.Success? ==> r.value.Keys == graph.attrs.Keys
      ensures !KnownMetric(metric) ==> r == Failure("Unknown metric: " + metric)
    {
      if metric == "pagerank" then
        (if pagerankCache.Some? then Success(pagerankCache.value) else pagerankOf(DefaultAlpha))
      else if metric == "betweenness" then Success(betweennessOf)
      else if metric == "degree" then Success(DegreeCentrality(graph))
      else if metric == "in_degree" then Success(InDegreeScores(graph))
      else if metric == "out_degree" then Success(OutDegreeScores(graph))
      else Failure("Unknown metric: " + metric)
    }

    /** `get_top_nodes_by_metric(metric, top_n)`: the metric's `(node, score)`
        pairs in node order, stably sorted by descending score and cut by
        `[:top_n]`; an unknown metric raises `ValueError`. */
    method GetTopNodesByMetric(metric: string, topN: int) returns (r: Result<seq<Scored>>)
      requires Valid()
      modifies this
      ensures Valid()
      ensures var s := old(MetricScores(metric));
        r == if s.Success? then Success(TopN(ItemsOf(graph.nodes, s.value), topN)) else Failure(s.error)
      ensures r.Success? ==>
        && |r.value| == SliceLength(|graph.nodes|, topN)
        && NonIncreasing(r.value)
        && forall x :: x in r.value ==> x.0 in graph.attrs && x.1 == old(MetricScores(metric)).value[x.0]
      ensures metric != "pagerank" || old(pagerankCache).Some? ==> pagerankCache == old(pagerankCache)
      ensures metric == "pagerank" && old(pagerankCache).None? ==>
        pagerankCache == if r.Success? then Some(pagerankOf(DefaultAlpha).value) else None
      ensures betweennessCache == if metric == "betweenness" then Some(betweennessOf) else old(betweennessCache)
      ensures communitiesCache == old(communitiesCache)
    {
      ghost var expected := MetricScores(metric);
      var scores: map<NodeId, real>;
      if metric == "pagerank" {
        var pr := CalculatePagerank(DefaultAlpha);
        if pr.Failure? {
          return Failure(pr.error);
        }
        scores := pr.value;
      } else if metric == "betweenness" {
        scores := CalculateBetweenness();
      } else if metric == "degree" {
        scores := CalculateDegreeCentrality();
      } else if metric == "in_degree" {
        scores := InDegreeScores(graph);
      } else if metric == "out_degree" {
        scores := OutDegreeScores(graph);
      } else {
        return Failure("Unknown metric: " + metric);
      }
      assert expected == Success(scores);
      r := Success(TopN(ItemsOf(graph.nodes, scores), topN));
      RankedNodes(graph, scores, topN);
    }

    /** `detect_communities(resolution)`: the cached partition when present
        (whatever `resolution`), otherwise the Louvain partition, now cached. */
    method DetectCommunities(resolution: real) returns (r: map<NodeId, int>)
      requires Valid()
      modifies this
      ensures Valid()
      ensures r == if old(communitiesCache).Some? then old(communitiesCache).value else louvainOf(resolution)
      ensures r.Keys == graph.attrs.Keys
      ensures communitiesCache == Some(r)
      ensures pagerankCache == old(pagerankCache) && betweennessCache == old(betweennessCache)
    {
      if communitiesCache.None? {
        communitiesCache := Some(louvainOf(resolution));
      }
      r := communitiesCache.value;
    }

    /** `get_community_members(community_id)`: groups the partition by id; for a
        given id only its group, empty when no node carries it. */
    method GetCommunityMembers(communityId: Option<int>) returns (r: map<int, set<NodeId>>)
      requires Valid()
      modifies this
      ensures Valid()
      ensures communitiesCache == Some(if old(communitiesCache).Some? then old(communitiesCache).value else louvainOf(DefaultResolution))
      ensures pagerankCache == old(pagerankCache) && betweennessCache == old(betweennessCache)
      ensures var groups := GroupByCommunity(communitiesCache.value);
        r == if communityId.None? then groups
             else map[communityId.value := if communityId.value in groups then groups[communityId.value] else {}]
    {
      var communities := DetectCommunities(DefaultResolution);
      var communityMap := GroupMembers(communities);
      if communityId.Some? {
        var id := communityId.value;
        r := map[id := if id in communityMap then communityMap[id] else {}];
      } else {
        r := communityMap;
      }
    }

    /** `find_hotspots(min_degree, min_complexity)`: one pass over the nodes. */
    method FindHotspots(minDegree: int, minComplexity: int) returns (hotspots: set<NodeId>)
      requires Valid()
      ensures hotspots == Hotspots(graph, minDegree, minComplexity)
    {
      hotspots := {};
      var i := 0;
      while i < |graph.nodes|
        invariant 0 <= i <= |graph.nodes|
        invariant hotspots == set n | n in graph.nodes[..i] && Degree(graph, n) >= minDegree && graph.attrs[n].complexity >= minComplexity
      {
        var n := graph.nodes[i];
        assert graph.nodes[..i + 1] == graph.nodes[..i] + [n];
        if Degree(graph, n) >= minDegree && graph.attrs[n].complexity >= minComplexity {
          hotspots := hotspots + {n};
        }
        i := i + 1;
      }
      assert graph.nodes[..i] == graph.nodes;
    }

    /** `find_god_classes(threshold_percentile)`: no god classes in an empty graph,
        otherwise the nodes at or above the percentile of the complexities. */
    method FindGodClasses(thresholdPercentile: real) returns (r: Result<set<NodeId>>)
      requires Valid()
      ensures r == GodClasses(graph, percentileOf, thresholdPercentile)
    {
      var complexities := Complexities(graph);
      if |complexities| == 0 {
        return Success({});
      }
      if !(0.0 <= thresholdPercentile <= 100.0) {
        return Failure(PercentileRangeError);
      }
      var threshold := percentileOf(complexities, thresholdPercentile);
      var godClasses := ComplexAtLeast(graph, threshold);
      r := Success(godClasses);
    }

    /** `analyze_namespace_coupling`: collects the members of each namespace,
        counts each edge as internal or as outgoing and incoming, then turns the
        counters into the report. */
    method AnalyzeNamespaceCoupling() returns (result: map<string, NamespaceStats>)
      requires Valid()
      ensures result == CouplingReport(graph)
    {
      var tallies := CollectMembers(graph);
      tallies := CountEdges(graph, tallies);
      result := Summarize(graph, tallies);
    }

    /** `get_analysis_summary`: PageRank (whose failure propagates), the
        partition, the default hotspots, leaf and root classes, and the five
        best nodes by PageRank and by degree centrality with their names. */
    method GetAnalysisSummary() returns (r: Result<AnalysisSummary>)
      requires Valid()
      modifies this
      ensures Valid()
      ensures r.Failure? <==> old(pagerankCache).None? && pagerankOf(DefaultAlpha).Failure?
      ensures r.Failure? ==> r.error == pagerankOf(DefaultAlpha).error && pagerankCache == None
      ensures r.Failure? ==> communitiesCache == old(communitiesCache)
      ensures r.Success? ==> pagerankCache.Some? && communitiesCache.Some?
      ensures r.Success? ==> r.value == SummaryOf(graph, pagerankCache.value, communitiesCache.value)
      ensures r.Success? ==> pagerankCache == if old(pagerankCache).Some? then old(pagerankCache) else Some(pagerankOf(DefaultAlpha).value)
      ensures r.Success? ==> communitiesCache == if old(communitiesCache).Some? then old(communitiesCache) else Some(louvainOf(DefaultResolution))
      ensures betweennessCache == old(betweennessCache)
    {
      var pagerank := CalculatePagerank(DefaultAlpha);
      if pagerank.Failure? {
        return Failure(pagerank.error);
      }
      var communities := DetectCommunities(DefaultResolution);
      var hotspots := FindHotspots(DefaultMinDegree, DefaultMinComplexity);
      var topImportant := GetTopNodesByMetric("pagerank", 5);
      var topConnected := GetTopNodesByMetric("degree", 5);
      r := Success(AnalysisSummary(
        |graph.nodes|, |graph.edges|, CommunityCount(communities), |hotspots|,
        |LeafClasses(graph)|, |RootClasses(graph)|,
        Named(graph, topImportant.value), Named(graph, topConnected.value)));
    }
  }
}
