/** The graph model of graph_builder.py: a directed graph with at most one edge per
    ordered pair, built from the element and relationship records of a structural
    export, with the queries the analyzer and the view filter rely on. */
module GraphModel {
  import opened Wrappers

  type NodeId = string

  /** The node attributes the core reads (name, full_name, namespace, complexity). */
  datatype NodeAttrs = NodeAttrs(name: string, fullName: string, namespace: string, complexity: int)

  /** The edge attributes: the relationship kind, its label and access qualifier, and
      the coupling weight derived from the kind. */
  datatype EdgeAttrs = EdgeAttrs(kind: string, edgeLabel: string, access: string, weight: real)

  /** An element record (a class, interface, struct, ...) of the structural export. */
  datatype Element = Element(id: NodeId, name: string, fullName: string, namespace: string, complexity: int)
  {
    function Attrs(): NodeAttrs { NodeAttrs(name, fullName, namespace, complexity) }
  }

  /** A relationship record: a directed dependency from `source` to `destination`. */
  datatype Relationship = Relationship(source: NodeId, destination: NodeId, kind: string, edgeLabel: string, access: string)
  {
    function Pair(): Edge { (source, destination) }

    /** The attributes `add_edge` stores for this relationship, weight included. */
    function Attrs(): EdgeAttrs { EdgeAttrs(kind, edgeLabel, access, RelationshipWeight(kind)) }
  }

  /** An ordered pair (source, target). */
  type Edge = (NodeId, NodeId)

  /** The directed graph: node ids in insertion order with their attributes, and the
      ordered pairs that carry an edge, in the order each pair was first added, with
      the attributes of the last edge added for that pair. */
  datatype Graph = Graph(
    nodes: seq<NodeId>,
    attrs: map<NodeId, NodeAttrs>,
    edges: seq<Edge>,
    edgeAttrs: map<Edge, EdgeAttrs>)

  /** Edge direction for neighbour queries and traversals. */
  datatype Direction = In | Out | Both

  /** The source's direction strings: "in", "out", and anything else means both. */
  function ParseDirection(s: string): Direction
  {
    if s == "in" then In else if s == "out" then Out else Both
  }

  predicate Distinct<T(==)>(s: seq<T>)
  {
    forall i, j :: 0 <= i < j < |s| ==> s[i] != s[j]
  }

  /** The invariant of the graph: no node or pair twice, the sequences and the
      attribute maps agree, and every edge endpoint is a node. */
  ghost predicate Valid(g: Graph)
  {
    && Distinct(g.nodes)
    && (forall n :: n in g.nodes <==> n in g.attrs)
    && Distinct(g.edges)
    && (forall e :: e in g.edges <==> e in g.edgeAttrs)
    && (forall e :: e in g.edgeAttrs ==> e.0 in g.attrs && e.1 in g.attrs)
  }

  function EmptyGraph(): (g: Graph)
    ensures Valid(g) && g.nodes == [] && g.edges == []
  {
    Graph([], map[], [], map[])
  }

  /** The coupling weight of a relationship kind (stronger coupling, higher weight);
      every kind outside the table weighs 1.0. */
  function RelationshipWeight(kind: string): (w: real)
    ensures kind == "extension" ==> w == 2.0
    ensures kind == "composition" ==> w == 1.8
    ensures kind == "aggregation" ==> w == 1.5
    ensures kind == "association" ==> w == 1.2
    ensures kind == "dependency" ==> w == 0.8
    ensures kind !in {"extension", "composition", "aggregation", "association", "dependency"} ==> w == 1.0
    ensures 0.8 <= w <= 2.0
  {
    match kind
    case "extension" => 2.0
    case "composition" => 1.8
    case "aggregation" => 1.5
    case "association" => 1.2
    case "dependency" => 0.8
    case _ => 1.0
  }

  /** `add_node`: a new id is appended to the node order; a known id keeps its place
      and gets the new attributes. */
  function AddNode(g: Graph, e: Element): Graph
  {
    if e.id in g.attrs then g.(attrs := g.attrs[e.id := e.Attrs()])
    else g.(nodes := g.nodes + [e.id], attrs := g.attrs[e.id := e.Attrs()])
  }

  /** `add_edge` with the derived weight: a new pair is appended to the edge order; an
      existing pair keeps its place and its attributes are overwritten. */
  function AddEdge(g: Graph, r: Relationship): Graph
  {
    var a := r.Attrs();
    if r.Pair() in g.edgeAttrs then g.(edgeAttrs := g.edgeAttrs[r.Pair() := a])
    else g.(edges := g.edges + [r.Pair()], edgeAttrs := g.edgeAttrs[r.Pair() := a])
  }

  /** The node loop of `_build_graph`, one element after the other. */
  function AddNodes(g: Graph, els: seq<Element>): Graph
  {
    if els == [] then g else AddNode(AddNodes(g, els[..|els| - 1]), els[|els| - 1])
  }

  /** The edge loop of `_build_graph`: a relationship is added only when both of its
      endpoints are already nodes. */
  function AddEdges(g: Graph, rels: seq<Relationship>): Graph
  {
    if rels == [] then g
    else
      var h := AddEdges(g, rels[..|rels| - 1]);
      var r := rels[|rels| - 1];
      if r.source in h.attrs && r.destination in h.attrs then AddEdge(h, r) else h
  }

  /** The graph `_build_graph` produces. */
  function Build(els: seq<Element>, rels: seq<Relationship>): Graph
  {
    AddEdges(AddNodes(EmptyGraph(), els), rels)
  }

  /** `_build_graph`: add every element as a node, then every relationship whose
      endpoints are both nodes as a weighted edge. */
  method BuildGraph(els: seq<Element>, rels: seq<Relationship>) returns (g: Graph)
    ensures g == Build(els, rels)
    ensures Valid(g)
    ensures forall n :: n in g.attrs <==> exists i :: 0 <= i < |els| && els[i].id == n
    ensures forall e :: e in g.edgeAttrs <==>
      e.0 in g.attrs && e.1 in g.attrs && exists i :: 0 <= i < |rels| && rels[i].Pair() == e
  {
    g := EmptyGraph();
    var i := 0;
    while i < |els|
      invariant 0 <= i <= |els|
      invariant g == AddNodes(EmptyGraph(), els[..i])
    {
      assert els[..i + 1][..i] == els[..i];
      g := AddNode(g, els[i]);
      i := i + 1;
    }
    assert els[..i] == els;
    var nodesOnly := g;
    var j := 0;
    while j < |rels|
      invariant 0 <= j <= |rels|
      invariant g == AddEdges(nodesOnly, rels[..j])
    {
      assert rels[..j + 1][..j] == rels[..j];
      var r := rels[j];
      if r.source in g.attrs && r.destination in g.attrs {
        g := AddEdge(g, r);
      }
      j := j + 1;
    }
    assert rels[..j] == rels;
    BuildNodes(els, rels);
    BuildEdges(els, rels);
  }

  lemma {:induction false} AddNodesValid(g: Graph, els: seq<Element>)
    requires Valid(g) && g.edges == []
    ensures Valid(AddNodes(g, els)) && AddNodes(g, els).edges == []
    ensures AddNodes(g, els).edgeAttrs == g.edgeAttrs
    ensures forall n :: n in AddNodes(g, els).attrs <==> n in g.attrs || exists i :: 0 <= i < |els| && els[i].id == n
  {
    if els != [] {
      var init := els[..|els| - 1];
      AddNodesValid(g, init);
      var h := AddNodes(g, init);
      var e := els[|els| - 1];
      forall n | n in AddNodes(g, els).attrs
        ensures n in g.attrs || exists i :: 0 <= i < |els| && els[i].id == n
      {
        if n != e.id {
          assert n in h.attrs;
          if n !in g.attrs {
            var i :| 0 <= i < |init| && init[i].id == n;
            assert els[i].id == n;
          }
        }
      }
      forall n | exists i :: 0 <= i < |els| && els[i].id == n
        ensures n in AddNodes(g, els).attrs
      {
        var i :| 0 <= i < |els| && els[i].id == n;
        if i < |init| { assert init[i].id == n; }
      }
    }
  }

  lemma AddEdgeValid(g: Graph, r: Relationship)
    requires Valid(g) && r.source in g.attrs && r.destination in g.attrs
    ensures Valid(AddEdge(g, r))
    ensures AddEdge(g, r).nodes == g.nodes && AddEdge(g, r).attrs == g.attrs
    ensures AddEdge(g, r).edgeAttrs.Keys == g.edgeAttrs.Keys + {r.Pair()}
  {
    if r.Pair() !in g.edgeAttrs {
      DistinctAppend(g.edges, r.Pair());
    }
  }

  /** Appending a new element keeps a sequence free of repetitions. */
  lemma DistinctAppend<T>(s: seq<T>, x: T)
    requires Distinct(s) && x !in s
    ensures Distinct(s + [x])
  {
    var t := s + [x];
    forall i, j | 0 <= i < j < |t| ensures t[i] != t[j] {
      assert t[i] == s[i];
    }
  }

  /** Some relationship of `rels` joins the pair `e`. */
  predicate Listed(rels: seq<Relationship>, e: Edge)
  {
    exists i :: 0 <= i < |rels| && rels[i].Pair() == e
  }

  lemma ListedSnoc(rels: seq<Relationship>, e: Edge)
    requires rels != []
    ensures Listed(rels, e) <==> Listed(rels[..|rels| - 1], e) || rels[|rels| - 1].Pair() == e
  {
    var init := rels[..|rels| - 1];
    if Listed(rels, e) && rels[|rels| - 1].Pair() != e {
      var i :| 0 <= i < |rels| && rels[i].Pair() == e;
      assert init[i].Pair() == e;
    }
    if Listed(init, e) {
      var i :| 0 <= i < |init| && init[i].Pair() == e;
      assert rels[i].Pair() == e;
    }
  }

  /** The edge loop never changes the nodes, keeps the invariant, and adds exactly the
      pairs of the relationships whose endpoints are nodes. */
  lemma {:induction false} AddEdgesValid(g: Graph, rels: seq<Relationship>)
    requires Valid(g)
    ensures Valid(AddEdges(g, rels))
    ensures AddEdges(g, rels).nodes == g.nodes && AddEdges(g, rels).attrs == g.attrs
    ensures forall e :: e in AddEdges(g, rels).edgeAttrs <==>
      e in g.edgeAttrs || (e.0 in g.attrs && e.1 in g.attrs && Listed(rels, e))
  {
    if rels != [] {
      var init := rels[..|rels| - 1];
      AddEdgesValid(g, init);
      var h := AddEdges(g, init);
      var r := rels[|rels| - 1];
      var res := AddEdges(g, rels);
      if r.source in h.attrs && r.destination in h.attrs {
        AddEdgeValid(h, r);
        assert res.edgeAttrs.Keys == h.edgeAttrs.Keys + {r.Pair()};
      } else {
        assert res == h;
      }
      forall e
        ensures e in res.edgeAttrs <==> e in g.edgeAttrs || (e.0 in g.attrs && e.1 in g.attrs && Listed(rels, e))
      {
        ListedSnoc(rels, e);
      }
    }
  }

  /** The nodes of the built graph are exactly the element ids; each carries the
      attributes of the last element with that id (a later record overwrites). */
  lemma BuildNodes(els: seq<Element>, rels: seq<Relationship>)
    ensures Valid(Build(els, rels))
    ensures forall n :: n in Build(els, rels).attrs <==> exists i :: 0 <= i < |els| && els[i].id == n
    ensures forall n :: n in Build(els, rels).attrs ==>
      exists i :: LastWithId(els, i, n) && Build(els, rels).attrs[n] == els[i].Attrs()
  {
    AddNodesValid(EmptyGraph(), els);
    AddEdgesValid(AddNodes(EmptyGraph(), els), rels);
    LastWriteWins(EmptyGraph(), els);
  }

  /** `els[i]` is the last element with id `n`. */
  predicate LastWithId(els: seq<Element>, i: int, n: NodeId)
  {
    0 <= i < |els| && els[i].id == n && forall j :: i < j < |els| ==> els[j].id != n
  }

  lemma {:induction false} LastWriteWins(g: Graph, els: seq<Element>)
    ensures forall n :: n in AddNodes(g, els).attrs && n !in g.attrs ==>
      exists i :: LastWithId(els, i, n) && AddNodes(g, els).attrs[n] == els[i].Attrs()
  {
    if els != [] {
      var init := els[..|els| - 1];
      LastWriteWins(g, init);
      var e := els[|els| - 1];
      forall n | n in AddNodes(g, els).attrs && n !in g.attrs
        ensures exists i :: LastWithId(els, i, n) && AddNodes(g, els).attrs[n] == els[i].Attrs()
      {
        if n == e.id {
          assert LastWithId(els, |els| - 1, n);
        } else {
          var i :| LastWithId(init, i, n) && AddNodes(g, init).attrs[n] == init[i].Attrs();
          assert els[i] == init[i];
          forall j | i < j < |els| ensures els[j].id != n {
            if j < |init| { assert els[j] == init[j]; }
          }
          assert LastWithId(els, i, n);
        }
      }
    }
  }

  /** The edges of the built graph are exactly the pairs of the relationships whose
      endpoints are both element ids: every other relationship is dropped. */
  lemma BuildEdges(els: seq<Element>, rels: seq<Relationship>)
    ensures forall e :: e in Build(els, rels).edgeAttrs <==>
      e.0 in Build(els, rels).attrs && e.1 in Build(els, rels).attrs &&
      exists i :: 0 <= i < |rels| && rels[i].Pair() == e
  {
    AddNodesValid(EmptyGraph(), els);
    AddEdgesValid(AddNodes(EmptyGraph(), els), rels);
  }

  /** `rels[i]` is the last relationship from `e.0` to `e.1`. */
  predicate LastWithPair(rels: seq<Relationship>, i: int, e: Edge)
  {
    0 <= i < |rels| && rels[i].Pair() == e && forall j :: i < j < |rels| ==> rels[j].Pair() != e
  }

  lemma AddEdgesKeepsValid(g: Graph, rels: seq<Relationship>)
    requires Valid(g)
    ensures Valid(AddEdges(g, rels)) && AddEdges(g, rels).attrs == g.attrs
  {
    AddEdgesValid(g, rels);
  }

  /** The relationship whose attributes edge `e` carries: the last one listed for it. */
  lemma {:induction false} LastEdgeWins(g: Graph, rels: seq<Relationship>, e: Edge) returns (i: int)
    requires Valid(g) && e in AddEdges(g, rels).edgeAttrs && e !in g.edgeAttrs
    ensures LastWithPair(rels, i, e) && AddEdges(g, rels).edgeAttrs[e] == rels[i].Attrs()
  {
    var init := rels[..|rels| - 1];
    AddEdgesKeepsValid(g, init);
    var h := AddEdges(g, init);
    var r := rels[|rels| - 1];
    var res := AddEdges(g, rels);
    if r.source in h.attrs && r.destination in h.attrs {
      assert res.edgeAttrs == h.edgeAttrs[r.Pair() := r.Attrs()];
      if e == r.Pair() {
        i := |rels| - 1;
        return;
      }
    } else {
      assert res == h;
      assert e.0 in h.attrs && e.1 in h.attrs;
    }
    assert r.Pair() != e;
    i := LastEdgeWins(g, init, e);
    assert rels[i] == init[i];
    forall j | i < j < |rels| ensures rels[j].Pair() != e {
      if j < |init| {
        assert rels[j] == init[j];
      } else {
        assert j == |init|;
      }
    }
  }

  /** Every edge of the built graph carries the kind, label and access of the last
      relationship listed between its two ends, with that kind's coupling weight: a
      later relationship for the same pair overwrites an earlier one. */
  lemma BuildEdgeAttrs(els: seq<Element>, rels: seq<Relationship>)
    ensures forall e :: e in Build(els, rels).edgeAttrs ==>
      exists i :: LastWithPair(rels, i, e) &&
        Build(els, rels).edgeAttrs[e] == EdgeAttrs(rels[i].kind, rels[i].edgeLabel, rels[i].access, RelationshipWeight(rels[i].kind))
  {
    var g := AddNodes(EmptyGraph(), els);
    AddNodesValid(EmptyGraph(), els);
    forall e | e in Build(els, rels).edgeAttrs
      ensures exists i :: LastWithPair(rels, i, e) &&
                          Build(els, rels).edgeAttrs[e] == EdgeAttrs(rels[i].kind, rels[i].edgeLabel, rels[i].access, RelationshipWeight(rels[i].kind))
    {
      var i := LastEdgeWins(g, rels, e);
    }
  }

  lemma {:induction false} DanglingSkipped(g: Graph, before: seq<Relationship>, r: Relationship, after: seq<Relationship>)
    requires Valid(g) && (r.source !in g.attrs || r.destination !in g.attrs)
    ensures AddEdges(g, before + [r] + after) == AddEdges(g, before + after)
  {
    if after == [] {
      AddEdgesValid(g, before);
      assert (before + [r])[..|before|] == before;
      assert before + [r] + after == before + [r];
      assert before + after == before;
    } else {
      DanglingSkipped(g, before, r, after[..|after| - 1]);
      assert (before + [r] + after)[..|before + [r] + after| - 1] == before + [r] + after[..|after| - 1];
      assert (before + after)[..|before + after| - 1] == before + after[..|after| - 1];
    }
  }

  /** A relationship with an endpoint that is not an element leaves the built graph
      exactly as it is without that relationship, wherever it stands in the list. */
  lemma DanglingRelationshipDropped(els: seq<Element>, before: seq<Relationship>, r: Relationship, after: seq<Relationship>)
    requires (forall i :: 0 <= i < |els| ==> els[i].id != r.source) || (forall i :: 0 <= i < |els| ==> els[i].id != r.destination)
    ensures Build(els, before + [r] + after) == Build(els, before + after)
  {
    AddNodesValid(EmptyGraph(), els);
    DanglingSkipped(AddNodes(EmptyGraph(), els), before, r, after);
  }

  /** `m` is a neighbour of `n` along `d`: a predecessor for `In`, a successor for
      `Out`, either for `Both`. */
  predicate Adjacent(g: Graph, n: NodeId, m: NodeId, d: Direction)
  {
    (d != Out && (m, n) in g.edgeAttrs) || (d != In && (n, m) in g.edgeAttrs)
  }

  /** `get_neighbors`: the empty set for an unknown node; otherwise the nodes joined
      to `n` by an edge in the given direction. */
  function Neighbors(g: Graph, n: NodeId, d: Direction): (r: set<NodeId>)
    requires Valid(g)
    ensures forall m :: m in r <==> n in g.attrs && Adjacent(g, n, m, d)
    ensures r <= g.attrs.Keys
  {
    if n !in g.attrs then {} else set m | m in g.nodes && Adjacent(g, n, m, d)
  }

  /** The "both" neighbours are the union of the predecessors and the successors. */
  lemma NeighborsBoth(g: Graph, n: NodeId)
    requires Valid(g)
    ensures Neighbors(g, n, Both) == Neighbors(g, n, In) + Neighbors(g, n, Out)
  {
  }

  /** `get_in_degree`: the number of predecessors, 0 for an unknown node. */
  function InDegree(g: Graph, n: NodeId): (k: nat)
    requires Valid(g)
    ensures n !in g.attrs ==> k == 0
  {
    |Neighbors(g, n, In)|
  }

  /** `get_out_degree`: the number of successors, 0 for an unknown node. */
  function OutDegree(g: Graph, n: NodeId): (k: nat)
    requires Valid(g)
    ensures n !in g.attrs ==> k == 0
  {
    |Neighbors(g, n, Out)|
  }

  /** The total degree `graph.degree(n)`: a self-loop counts once each way. */
  function Degree(g: Graph, n: NodeId): nat
    requires Valid(g)
  {
    InDegree(g, n) + OutDegree(g, n)
  }

  /** The number of edges in `es` that end at `n`. */
  function CountInto(es: seq<Edge>, n: NodeId): nat
  {
    if es == [] then 0 else CountInto(es[..|es| - 1], n) + (if es[|es| - 1].1 == n then 1 else 0)
  }

  /** The number of edges in `es` that start at `n`. */
  function CountFrom(es: seq<Edge>, n: NodeId): nat
  {
    if es == [] then 0 else CountFrom(es[..|es| - 1], n) + (if es[|es| - 1].0 == n then 1 else 0)
  }

  /** The sources of the edges of `es` that end at `n`. */
  function SourcesOf(es: seq<Edge>, n: NodeId): set<NodeId>
  {
    set e | e in es && e.1 == n :: e.0
  }

  /** The targets of the edges of `es` that start at `n`. */
  function TargetsOf(es: seq<Edge>, n: NodeId): set<NodeId>
  {
    set e | e in es && e.0 == n :: e.1
  }

  lemma SourcesSnoc(init: seq<Edge>, x: Edge, n: NodeId)
    ensures SourcesOf(init + [x], n) == SourcesOf(init, n) + (if x.1 == n then {x.0} else {})
  {
    forall e | e in init + [x] ensures e in init || e == x {
    }
  }

  lemma TargetsSnoc(init: seq<Edge>, x: Edge, n: NodeId)
    ensures TargetsOf(init + [x], n) == TargetsOf(init, n) + (if x.0 == n then {x.1} else {})
  {
    forall e | e in init + [x] ensures e in init || e == x {
    }
  }

  /** A sequence without repetitions splits into a shorter one without
      repetitions and a last element that is not in it. */
  lemma DistinctSnoc<T>(s: seq<T>)
    requires Distinct(s) && s != []
    ensures Distinct(s[..|s| - 1]) && s[|s| - 1] !in s[..|s| - 1] && s == s[..|s| - 1] + [s[|s| - 1]]
  {
    var init := s[..|s| - 1];
    forall k | 0 <= k < |init| ensures init[k] != s[|s| - 1] {
      assert init[k] == s[k];
    }
  }

  lemma {:induction false} SourcesInto(es: seq<Edge>, n: NodeId)
    requires Distinct(es)
    ensures |SourcesOf(es, n)| == CountInto(es, n)
  {
    if es != [] {
      var init, x := es[..|es| - 1], es[|es| - 1];
      DistinctSnoc(es);
      SourcesInto(init, n);
      SourcesSnoc(init, x, n);
      if x.1 == n {
        forall e | e in init && e.1 == n ensures e.0 != x.0 { }
      }
    }
  }

  lemma {:induction false} TargetsFrom(es: seq<Edge>, n: NodeId)
    requires Distinct(es)
    ensures |TargetsOf(es, n)| == CountFrom(es, n)
  {
    if es != [] {
      var init, x := es[..|es| - 1], es[|es| - 1];
      DistinctSnoc(es);
      TargetsFrom(init, n);
      TargetsSnoc(init, x, n);
      if x.0 == n {
        forall e | e in init && e.0 == n ensures e.1 != x.1 { }
      }
    }
  }

  /** In- and out-degree of a node count its incoming and outgoing edges. */
  lemma DegreesCountEdges(g: Graph, n: NodeId)
    requires Valid(g) && n in g.attrs
    ensures InDegree(g, n) == CountInto(g.edges, n)
    ensures OutDegree(g, n) == CountFrom(g.edges, n)
  {
    SourcesInto(g.edges, n);
    TargetsFrom(g.edges, n);
    assert Neighbors(g, n, In) == SourcesOf(g.edges, n) by {
      forall m | m in Neighbors(g, n, In) ensures m in SourcesOf(g.edges, n) {
        assert (m, n) in g.edges;
      }
    }
    assert Neighbors(g, n, Out) == TargetsOf(g.edges, n) by {
      forall m | m in Neighbors(g, n, Out) ensures m in TargetsOf(g.edges, n) {
        assert (n, m) in g.edges;
      }
    }
  }

  /** The elements of `xs` that satisfy `keep`, in their order. */
  function Filter<T(==,!new)>(xs: seq<T>, keep: T -> bool): (r: seq<T>)
    ensures forall x :: x in r <==> x in xs && keep(x)
    ensures Distinct(xs) ==> Distinct(r)
    ensures |r| <= |xs|
  {
    if xs == [] then []
    else
      var init := Filter(xs[..|xs| - 1], keep);
      var x := xs[|xs| - 1];
      assert forall y :: y in xs[..|xs| - 1] ==> y in xs;
      if keep(x) then init + [x] else init
  }

  /** `get_subgraph_by_nodes`: the subgraph induced by the ids of `s` that are nodes;
      its edges are exactly the edges with both endpoints among them. */
  function Subgraph(g: Graph, s: set<NodeId>): (r: Graph)
    requires Valid(g)
    ensures Valid(r)
    ensures r.attrs.Keys == s * g.attrs.Keys
    ensures forall n :: n in r.attrs ==> r.attrs[n] == g.attrs[n]
    ensures forall e :: e in r.edgeAttrs <==> e in g.edgeAttrs && e.0 in s && e.1 in s
    ensures forall e :: e in r.edgeAttrs ==> r.edgeAttrs[e] == g.edgeAttrs[e]
  {
    var nodes := Filter(g.nodes, n => n in s);
    var attrs := map n | n in g.attrs && n in s :: g.attrs[n];
    var edges := Filter(g.edges, (e: Edge) => e.0 in s && e.1 in s);
    var edgeAttrs := map e | e in g.edgeAttrs && e.0 in s && e.1 in s :: g.edgeAttrs[e];
    assert forall n :: n in nodes <==> n in attrs;
    assert forall e :: e in edges <==> e in edgeAttrs;
    assert forall e :: e in edgeAttrs ==> e.0 in attrs && e.1 in attrs;
    Graph(nodes, attrs, edges, edgeAttrs)
  }

  /** The nodes whose namespace string starts with `pattern` (a plain string prefix). */
  function NamespaceMembers(g: Graph, pattern: string): (r: set<NodeId>)
    requires Valid(g)
    ensures forall n :: n in r <==> n in g.attrs && pattern <= g.attrs[n].namespace
  {
    set n | n in g.nodes && pattern <= g.attrs[n].namespace
  }

  /** `get_nodes_by_namespace`: scan the nodes and keep those whose namespace starts
      with `pattern`. */
  method NodesByNamespace(g: Graph, pattern: string) returns (matching: set<NodeId>)
    requires Valid(g)
    ensures matching == NamespaceMembers(g, pattern)
  {
    matching := {};
    var i := 0;
    while i < |g.nodes|
      invariant 0 <= i <= |g.nodes|
      invariant matching == set n | n in g.nodes[..i] && pattern <= g.attrs[n].namespace
    {
      var n := g.nodes[i];
      assert g.nodes[..i + 1] == g.nodes[..i] + [n];
      if pattern <= g.attrs[n].namespace {
        matching := matching + {n};
      }
      i := i + 1;
    }
    assert g.nodes[..i] == g.nodes;
  }

  /** The prefix test is not segment-aware: "app::core" also selects "app::core2". */
  lemma NamespacePrefixIsLoose(g: Graph, n: NodeId)
    requires Valid(g) && n in g.attrs && g.attrs[n].namespace == "app::core2"
    ensures n in NamespaceMembers(g, "app::core")
  {
  }

  /** The empty pattern selects every node. */
  lemma EmptyPatternSelectsAll(g: Graph)
    requires Valid(g)
    ensures NamespaceMembers(g, "") == g.attrs.Keys
  {
  }

  /** The ids of a duplicate-free sequence are as many as its elements. */
  lemma {:induction false} DistinctCardinality<T>(s: seq<T>)
    requires Distinct(s)
    ensures |set x | x in s| == |s|
  {
    if s != [] {
      var init := s[..|s| - 1];
      DistinctCardinality(init);
      assert (set x | x in s) == (set x | x in init) + {s[|s| - 1]};
    }
  }

  /** A valid graph has as many distinct node ids as entries in its node order. */
  lemma NodeCount(g: Graph)
    requires Valid(g)
    ensures |g.attrs.Keys| == |g.nodes|
  {
    DistinctCardinality(g.nodes);
    assert g.attrs.Keys == set x | x in g.nodes;
  }

  /** The integer counts of `get_statistics`. */
  datatype GraphStatistics = GraphStatistics(nodeCount: nat, edgeCount: nat)

  /** `get_statistics` (counts only): the number of distinct nodes and of edges. */
  function Statistics(g: Graph): (s: GraphStatistics)
    requires Valid(g)
    ensures s.nodeCount == |g.attrs.Keys|
    ensures s.edgeCount == |g.edgeAttrs.Keys|
  {
    NodeCount(g);
    DistinctCardinality(g.edges);
    assert g.edgeAttrs.Keys == set x | x in g.edges;
    GraphStatistics(|g.nodes|, |g.edges|)
  }
}
