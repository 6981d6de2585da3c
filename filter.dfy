/** filter.py: `DiagramFilter`, a store of named views (sets of node ids) filled
    by the view-creation strategies. Each strategy is specified by a function over
    the graph (and, where it asks the analyzer, over the analyzer's state); the
    store keeps only ids of graph nodes. */
module ViewFilter {
  import opened Wrappers
  import opened Text
  import opened GraphModel
  import opened Traversal
  import opened Ranking
  import opened Analyzer

  /** `ViewStrategy`, in declaration order. */
  datatype ViewStrategy = Context | Namespace | Community | Hotspot | Importance | Layer
  {
    /** The enum member's value. */
    function Value(): string
    {
      match this
      case Context => "context"
      case Namespace => "namespace"
      case Community => "community"
      case Hotspot => "hotspot"
      case Importance => "importance"
      case Layer => "layer"
    }
  }

  /** `list(ViewStrategy)`. */
  const AllStrategies: seq<ViewStrategy> := [Context, Namespace, Community, Hotspot, Importance, Layer]

  /** The default arguments of the creation methods. */
  const DefaultMaxHops: int := 2
  const DefaultDirection: string := "both"
  const DefaultMinNodes: int := 2
  const DefaultMinCommunitySize: int := 3
  const DefaultTopN: int := 20
  const DefaultMetric: string := "pagerank"
  const DefaultExpandHops: int := 1
  /** The `top_n` `auto_create_views` passes to `create_importance_view`. */
  const AutoTopN: int := 15

  // ---------------------------------------------------------------------------
  // Looking a class up by name

  /** The node is called `name`, by its short or its qualified name. */
  predicate NameMatches(g: Graph, n: NodeId, name: string)
    requires n in g.attrs
  {
    g.attrs[n].name == name || g.attrs[n].fullName == name
  }

  /** The first id of `ids` whose node is called `name`. */
  function FirstMatch(g: Graph, ids: seq<NodeId>, name: string): (r: Option<NodeId>)
    requires forall n :: n in ids ==> n in g.attrs
    ensures r.None? <==> forall i :: 0 <= i < |ids| ==> !NameMatches(g, ids[i], name)
    ensures r.Some? ==> exists i :: (0 <= i < |ids| && ids[i] == r.value && NameMatches(g, ids[i], name) &&
      forall j :: 0 <= j < i ==> !NameMatches(g, ids[j], name))
  {
    if ids == [] then None
    else if NameMatches(g, ids[0], name) then Some(ids[0])
    else
      assert forall n :: n in ids[1..] ==> n in ids;
      var r := FirstMatch(g, ids[1..], name);
      assert forall i :: 1 <= i < |ids| ==> ids[i] == ids[1..][i - 1];
      if r.Some? then
        var i :| 0 <= i < |ids[1..]| && ids[1..][i] == r.value && NameMatches(g, ids[1..][i], name) &&
          forall j :: 0 <= j < i ==> !NameMatches(g, ids[1..][j], name);
        assert ids[i + 1] == r.value;
        r
      else r
  }

  /** Python's `if not node_id`: no match, or a match whose id is the empty string. */
  predicate Resolved(id: Option<NodeId>)
  {
    id.Some? && id.value != ""
  }

  // ---------------------------------------------------------------------------
  // View contents

  /** A seed set together with every node joined to a seed by an edge either way. */
  function WithNeighbors(g: Graph, seeds: set<NodeId>): (r: set<NodeId>)
    requires Valid(g)
    ensures forall m :: m in r <==> m in seeds || exists n :: n in seeds && m in Neighbors(g, n, Both)
    ensures seeds <= g.attrs.Keys ==> r <= g.attrs.Keys
  {
    seeds + Expand(g, seeds, Both)
  }

  /** The seed set, extended by its neighbours when `includeNeighbors` holds. */
  function Extended(g: Graph, seeds: set<NodeId>, includeNeighbors: bool): set<NodeId>
    requires Valid(g)
  {
    if includeNeighbors then WithNeighbors(g, seeds) else seeds
  }

  /** The neighbour loop of the hotspot, importance and god-class views: each seed
      adds its `get_neighbors(node)` (both directions). */
  method ExtendWithNeighbors(g: Graph, seeds: set<NodeId>) returns (extended: set<NodeId>)
    requires Valid(g)
    ensures extended == WithNeighbors(g, seeds)
  {
    extended := seeds;
    var rest := seeds;
    while rest != {}
      invariant rest <= seeds
      invariant extended == seeds + Expand(g, seeds - rest, Both)
      decreases rest
    {
      var node :| node in rest;
      ExpandAddOne(g, seeds - rest, node, Both);
      assert seeds - (rest - {node}) == (seeds - rest) + {node};
      extended := extended + Neighbors(g, node, Both);
      rest := rest - {node};
    }
    assert seeds - rest == seeds;
  }

  /** The ids of a top-N list: `{node_id for node_id, _ in top_nodes}`. */
  function TopIds(top: seq<Scored>): (r: set<NodeId>)
    ensures forall n :: n in r <==> exists i :: 0 <= i < |top| && top[i].0 == n
  {
    set x | x in top :: x.0
  }

  /** The union of the `expand_hops` balls (both directions) around the nodes of `ps`. */
  function PathBalls(g: Graph, ps: seq<NodeId>, hops: int): set<NodeId>
  {
    if ps == [] then {} else PathBalls(g, ps[..|ps| - 1], hops) + WithinHops(g, ps[|ps| - 1], hops, Both)
  }

  /** A node is in the balls of `ps` exactly when it is within `hops` of one of them. */
  lemma {:induction false} PathBallsMembers(g: Graph, ps: seq<NodeId>, hops: int, m: NodeId)
    ensures m in PathBalls(g, ps, hops) <==> exists i :: 0 <= i < |ps| && m in WithinHops(g, ps[i], hops, Both)
  {
    if ps != [] {
      var init := ps[..|ps| - 1];
      PathBallsMembers(g, init, hops, m);
      if exists i :: 0 <= i < |ps| && m in WithinHops(g, ps[i], hops, Both) {
        var i :| 0 <= i < |ps| && m in WithinHops(g, ps[i], hops, Both);
        if i < |init| {
          assert init[i] == ps[i];
        }
      }
      if exists i :: 0 <= i < |init| && m in WithinHops(g, init[i], hops, Both) {
        var i :| 0 <= i < |init| && m in WithinHops(g, init[i], hops, Both);
        assert ps[i] == init[i];
      }
    }
  }

  /** The balls around graph nodes hold only graph nodes. */
  lemma {:induction false} PathBallsInGraph(g: Graph, ps: seq<NodeId>, hops: int)
    ensures PathBalls(g, ps, hops) <= g.attrs.Keys
  {
    if ps != [] {
      PathBallsInGraph(g, ps[..|ps| - 1], hops);
    }
  }

  /** The nodes of the dependency-chain view: the path, and for a positive
      `expand_hops` the balls around its nodes. */
  function PathView(g: Graph, path: seq<NodeId>, hops: int): set<NodeId>
  {
    (set n | n in path) + (if hops > 0 then PathBalls(g, path, hops) else {})
  }

  /** The expansion loop of `create_dependency_chain_view`. */
  method ExpandPath(g: Graph, path: seq<NodeId>, hops: int) returns (nodes: set<NodeId>)
    requires Valid(g)
    ensures nodes == PathView(g, path, hops)
  {
    nodes := set n | n in path;
    if hops > 0 {
      var i := 0;
      while i < |path|
        invariant 0 <= i <= |path|
        invariant nodes == (set n | n in path) + PathBalls(g, path[..i], hops)
      {
        assert path[..i + 1][..i] == path[..i];
        var ball := NodesWithinHops(g, path[i], hops, Both);
        nodes := nodes + ball;
        i := i + 1;
      }
      assert path[..i] == path;
    }
  }

  /** The name of the dependency-chain view. */
  function DependencyViewName(startClass: string, endClass: string): string
  {
    "dependency_" + startClass + "_to_" + endClass
  }

  /** The set `create_dependency_chain_view` returns: none when either name is not
      resolved or there is no path, otherwise the view around a shortest path. */
  function ChainView(g: Graph, startClass: string, endClass: string, hops: int): Option<set<NodeId>>
    requires Valid(g)
  {
    var startId, endId := FirstMatch(g, g.nodes, startClass), FirstMatch(g, g.nodes, endClass);
    if !Resolved(startId) || !Resolved(endId) then None
    else
      match ShortestPath(g, startId.value, endId.value)
      case None => None
      case Some(path) => Some(PathView(g, path, hops))
  }

  /** The view around a path of graph nodes holds only graph nodes, every node of
      the path and, for a positive `hops`, every node within `hops` of one of them. */
  lemma PathViewShape(g: Graph, p: seq<NodeId>, hops: int)
    requires forall i :: 0 <= i < |p| ==> p[i] in g.attrs
    ensures PathView(g, p, hops) <= g.attrs.Keys
    ensures forall i :: 0 <= i < |p| ==> p[i] in PathView(g, p, hops)
    ensures forall i, m :: 0 <= i < |p| && hops > 0 && m in WithinHops(g, p[i], hops, Both) ==> m in PathView(g, p, hops)
  {
    PathBallsInGraph(g, p, hops);
    forall i, m | 0 <= i < |p| && hops > 0 && m in WithinHops(g, p[i], hops, Both) ensures m in PathView(g, p, hops) {
      PathBallsMembers(g, p, hops, m);
    }
  }

  /** `view` holds a shortest path from `s` to `t` and, for a positive `hops`,
      every node within `hops` of a node of that path. */
  ghost predicate AroundShortestPath(g: Graph, s: NodeId, t: NodeId, hops: int, view: set<NodeId>)
  {
    exists p :: (IsPath(g, p, s, t)
      && (forall q :: IsPath(g, q, s, t) ==> |p| <= |q|)
      && (forall i :: 0 <= i < |p| ==> p[i] in view)
      && (forall i, m :: 0 <= i < |p| && hops > 0 && m in WithinHops(g, p[i], hops, Both) ==> m in view))
  }

  /** The chain view exists exactly when both names resolve and a path joins them;
      it then holds only graph nodes, a shortest such path and, for a positive
      `expand_hops`, every node within that many hops of a path node. */
  lemma ChainViewShape(g: Graph, startClass: string, endClass: string, hops: int)
    requires Valid(g)
    ensures var startId, endId := FirstMatch(g, g.nodes, startClass), FirstMatch(g, g.nodes, endClass);
      var r := ChainView(g, startClass, endClass, hops);
      && (r.Some? <==> Resolved(startId) && Resolved(endId) && exists p :: IsPath(g, p, startId.value, endId.value))
      && (r.Some? ==> r.value <= g.attrs.Keys && AroundShortestPath(g, startId.value, endId.value, hops, r.value))
  {
    var startId, endId := FirstMatch(g, g.nodes, startClass), FirstMatch(g, g.nodes, endClass);
    if Resolved(startId) && Resolved(endId) {
      var sp := ShortestPath(g, startId.value, endId.value);
      if sp.Some? {
        PathViewShape(g, sp.value, hops);
      }
    }
  }

  // ---------------------------------------------------------------------------
  // Named view families

  /** `f"namespace_{ns.replace('::', '_')}"`. */
  function NamespaceViewName(ns: string): string
  {
    "namespace_" + ReplaceSeparator(ns)
  }

  /** The views `create_namespace_views` creates for the namespaces `nss`, in order,
      so that a later namespace whose name collides overwrites an earlier one. */
  function NamespaceViews(g: Graph, nss: seq<string>, minNodes: int): (r: map<string, set<NodeId>>)
    requires Valid(g)
    ensures forall k :: k in r ==> "namespace_" <= k && r[k] <= g.attrs.Keys
  {
    if nss == [] then map[]
    else
      var prev := NamespaceViews(g, nss[..|nss| - 1], minNodes);
      var ns := nss[|nss| - 1];
      var nodes := NamespaceMembers(g, ns);
      if |nodes| >= minNodes then prev[NamespaceViewName(ns) := nodes] else prev
  }

  /** The `i`-th namespace writes view `k` and no later namespace overwrites it. */
  predicate LastWriter(g: Graph, nss: seq<string>, minNodes: int, k: string, i: int)
    requires Valid(g)
  {
    && 0 <= i < |nss|
    && k == NamespaceViewName(nss[i])
    && |NamespaceMembers(g, nss[i])| >= minNodes
    && forall j :: i < j < |nss| && |NamespaceMembers(g, nss[j])| >= minNodes ==> NamespaceViewName(nss[j]) != k
  }

  /** Every namespace with at least `min_nodes` matching nodes gets a view. */
  lemma {:induction false} NamespaceViewsCover(g: Graph, nss: seq<string>, minNodes: int)
    requires Valid(g)
    ensures forall i :: 0 <= i < |nss| && |NamespaceMembers(g, nss[i])| >= minNodes ==>
      NamespaceViewName(nss[i]) in NamespaceViews(g, nss, minNodes)
  {
    if nss != [] {
      var init := nss[..|nss| - 1];
      NamespaceViewsCover(g, init, minNodes);
      forall i | 0 <= i < |init| ensures init[i] == nss[i] { }
    }
  }

  /** A namespace that writes view `k` and is followed by one more namespace that
      does not write `k` is still the last writer of `k`. */
  lemma LastWriterSnoc(g: Graph, nss: seq<string>, minNodes: int, k: string, i: int)
    requires Valid(g) && nss != []
    requires LastWriter(g, nss[..|nss| - 1], minNodes, k, i)
    requires |NamespaceMembers(g, nss[|nss| - 1])| >= minNodes ==> NamespaceViewName(nss[|nss| - 1]) != k
    ensures LastWriter(g, nss, minNodes, k, i)
  {
    var init := nss[..|nss| - 1];
    assert nss[i] == init[i];
    forall j | i < j < |nss| && |NamespaceMembers(g, nss[j])| >= minNodes ensures NamespaceViewName(nss[j]) != k {
      if j < |init| {
        assert nss[j] == init[j];
      }
    }
  }

  /** Each view of `views` is named after a namespace of `nss` with at least
      `min_nodes` matching nodes and holds the nodes of the last such namespace of
      that name. */
  ghost predicate WrittenByLast(g: Graph, nss: seq<string>, minNodes: int, views: map<string, set<NodeId>>)
    requires Valid(g)
  {
    forall k :: k in views ==> exists i :: LastWriter(g, nss, minNodes, k, i) && views[k] == NamespaceMembers(g, nss[i])
  }

  /** Every view `create_namespace_views` keeps comes from the last namespace
      that writes it. */
  lemma {:induction false} NamespaceViewsLastWriter(g: Graph, nss: seq<string>, minNodes: int)
    requires Valid(g)
    ensures WrittenByLast(g, nss, minNodes, NamespaceViews(g, nss, minNodes))
  {
    if nss != [] {
      var init, ns := nss[..|nss| - 1], nss[|nss| - 1];
      var prev, r := NamespaceViews(g, init, minNodes), NamespaceViews(g, nss, minNodes);
      NamespaceViewsLastWriter(g, init, minNodes);
      assert WrittenByLast(g, init, minNodes, prev);
      forall k | k in r ensures exists i :: LastWriter(g, nss, minNodes, k, i) && r[k] == NamespaceMembers(g, nss[i]) {
        if |NamespaceMembers(g, ns)| >= minNodes && k == NamespaceViewName(ns) {
          assert LastWriter(g, nss, minNodes, k, |nss| - 1);
        } else {
          assert k in prev && r[k] == prev[k];
          var i :| LastWriter(g, init, minNodes, k, i) && prev[k] == NamespaceMembers(g, init[i]);
          LastWriterSnoc(g, nss, minNodes, k, i);
          assert nss[i] == init[i];
        }
      }
    }
  }

  /** Namespaces that differ only in "::" against "_" share a view name. */
  lemma NamespaceViewNamesCollide()
    ensures NamespaceViewName("a::b") == NamespaceViewName("a_b")
  {
    assert "a::b"[1..] == "::b" && "::b"[2..] == "b";
    assert "a_b"[1..] == "_b" && "_b"[1..] == "b";
  }

  /** The loop of `create_namespace_views`, over the namespaces in order. */
  method SelectNamespaceViews(g: Graph, nss: seq<string>, minNodes: int) returns (created: map<string, set<NodeId>>)
    requires Valid(g)
    ensures created == NamespaceViews(g, nss, minNodes)
  {
    created := map[];
    var i := 0;
    while i < |nss|
      invariant 0 <= i <= |nss|
      invariant created == NamespaceViews(g, nss[..i], minNodes)
    {
      assert nss[..i + 1][..i] == nss[..i];
      var nodes := NodesByNamespace(g, nss[i]);
      if |nodes| >= minNodes {
        created := created[NamespaceViewName(nss[i]) := nodes];
      }
      i := i + 1;
    }
    assert nss[..i] == nss;
  }

  /** `f"community_{comm_id}"`. */
  function CommunityViewName(id: int): string
  {
    "community_" + IntToString(id)
  }

  lemma CommunityViewNameInjective(a: int, b: int)
    requires CommunityViewName(a) == CommunityViewName(b)
    ensures a == b
  {
    assert IntToString(a) == CommunityViewName(a)[10..] == CommunityViewName(b)[10..] == IntToString(b);
    IntToStringInjective(a, b);
  }

  /** The views for the communities among `ids` with at least `minSize` members. */
  function CommunityViewsOf(groups: map<int, set<NodeId>>, ids: set<int>, minSize: int): (r: map<string, set<NodeId>>)
    requires ids <= groups.Keys
  {
    var chosen := set k | k in ids && |groups[k]| >= minSize;
    forall a, b | a in chosen && b in chosen && CommunityViewName(a) == CommunityViewName(b) ensures a == b {
      CommunityViewNameInjective(a, b);
    }
    map k | k in chosen :: CommunityViewName(k) := groups[k]
  }

  /** The views `create_community_views` creates from the member groups. */
  function CommunityViews(groups: map<int, set<NodeId>>, minSize: int): map<string, set<NodeId>>
  {
    CommunityViewsOf(groups, groups.Keys, minSize)
  }

  /** Exactly the communities with at least `minSize` members get a view, holding
      their members, and the views carry only community names. */
  lemma CommunityViewsSelect(groups: map<int, set<NodeId>>, minSize: int)
    ensures var r := CommunityViews(groups, minSize);
      && (forall k :: k in groups ==> (CommunityViewName(k) in r <==> |groups[k]| >= minSize))
      && (forall k :: k in groups && |groups[k]| >= minSize ==> r[CommunityViewName(k)] == groups[k])
      && (forall name :: name in r ==> exists k :: k in groups && name == CommunityViewName(k))
  {
    var r := CommunityViews(groups, minSize);
    forall k | k in groups && CommunityViewName(k) in r ensures |groups[k]| >= minSize {
      var k' :| k' in groups && |groups[k']| >= minSize && CommunityViewName(k') == CommunityViewName(k);
      CommunityViewNameInjective(k, k');
    }
    forall k | k in groups && |groups[k]| >= minSize ensures r[CommunityViewName(k)] == groups[k] {
      var k' :| k' in groups && |groups[k']| >= minSize && CommunityViewName(k') == CommunityViewName(k) &&
        r[CommunityViewName(k)] == groups[k'];
      CommunityViewNameInjective(k, k');
    }
  }

  /** Adding community `k` to the ids considered adds its view when it is large
      enough and changes nothing else. */
  lemma CommunityViewsAdd(groups: map<int, set<NodeId>>, ids: set<int>, k: int, minSize: int)
    requires ids <= groups.Keys && k in groups && k !in ids
    ensures var before := CommunityViewsOf(groups, ids, minSize);
      CommunityViewsOf(groups, ids + {k}, minSize) ==
        if |groups[k]| >= minSize then before[CommunityViewName(k) := groups[k]] else before
  {
    CommunityViewsAddFrom(groups, ids, k, minSize);
    CommunityViewsAddTo(groups, ids, k, minSize);
  }

  lemma CommunityViewsAddFrom(groups: map<int, set<NodeId>>, ids: set<int>, k: int, minSize: int)
    requires ids <= groups.Keys && k in groups && k !in ids
    ensures var before, after := CommunityViewsOf(groups, ids, minSize), CommunityViewsOf(groups, ids + {k}, minSize);
      var expected := if |groups[k]| >= minSize then before[CommunityViewName(k) := groups[k]] else before;
      forall name :: name in after ==> name in expected && after[name] == expected[name]
  {
    var before, after := CommunityViewsOf(groups, ids, minSize), CommunityViewsOf(groups, ids + {k}, minSize);
    var expected := if |groups[k]| >= minSize then before[CommunityViewName(k) := groups[k]] else before;
    forall name | name in after ensures name in expected && after[name] == expected[name] {
      var k' :| k' in ids + {k} && |groups[k']| >= minSize && CommunityViewName(k') == name && after[name] == groups[k'];
      if k' != k && |groups[k]| >= minSize && name == CommunityViewName(k) {
        CommunityViewNameInjective(k, k');
      }
    }
  }

  lemma CommunityViewsAddTo(groups: map<int, set<NodeId>>, ids: set<int>, k: int, minSize: int)
    requires ids <= groups.Keys && k in groups && k !in ids
    ensures var before, after := CommunityViewsOf(groups, ids, minSize), CommunityViewsOf(groups, ids + {k}, minSize);
      (|groups[k]| >= minSize ==> CommunityViewName(k) in after) && (forall name :: name in before ==> name in after)
  {
    var before, after := CommunityViewsOf(groups, ids, minSize), CommunityViewsOf(groups, ids + {k}, minSize);
    forall name | name in before ensures name in after {
      var k' :| k' in ids && |groups[k']| >= minSize && CommunityViewName(k') == name;
      assert k' in ids + {k};
    }
  }

  /** The loop of `create_community_views` over the items of the member groups. */
  method SelectCommunityViews(groups: map<int, set<NodeId>>, minSize: int) returns (created: map<string, set<NodeId>>)
    ensures created == CommunityViews(groups, minSize)
  {
    created := map[];
    var rest := groups.Items;
    ghost var done: set<int> := {};
    while rest != {}
      invariant done <= groups.Keys
      invariant forall item :: item in rest <==> item in groups.Items && item.0 !in done
      invariant created == CommunityViewsOf(groups, done, minSize)
      decreases rest
    {
      var item :| item in rest;
      var (id, members) := item;
      assert item in groups.Items;
      CommunityViewsAdd(groups, done, id, minSize);
      if |members| >= minSize {
        created := created[CommunityViewName(id) := members];
      }
      rest := rest - {item};
      done := done + {id};
    }
    forall id | id in groups ensures id in done {
      assert (id, groups[id]) in groups.Items;
    }
  }

  /** `f"layer_{layer_name}"`. */
  function LayerViewName(layer: string): string
  {
    "layer_" + layer
  }

  lemma LayerViewNameInjective(a: string, b: string)
    requires LayerViewName(a) == LayerViewName(b)
    ensures a == b
  {
    assert a == LayerViewName(a)[6..] == LayerViewName(b)[6..] == b;
  }

  /** The views for the layers among `layers` whose pattern selects some node. */
  function LayerViewsOf(g: Graph, patterns: map<string, string>, layers: set<string>): map<string, set<NodeId>>
    requires Valid(g) && layers <= patterns.Keys
  {
    var chosen := set l | l in layers && NamespaceMembers(g, patterns[l]) != {};
    forall a, b | a in chosen && b in chosen && LayerViewName(a) == LayerViewName(b) ensures a == b {
      LayerViewNameInjective(a, b);
    }
    map l | l in chosen :: LayerViewName(l) := NamespaceMembers(g, patterns[l])
  }

  /** The views `create_layer_views(layer_patterns)` creates. */
  function LayerViews(g: Graph, patterns: map<string, string>): map<string, set<NodeId>>
    requires Valid(g)
  {
    LayerViewsOf(g, patterns, patterns.Keys)
  }

  /** A layer gets a view exactly when its pattern selects a node, and the view
      holds the nodes its pattern selects. */
  lemma LayerViewsSelect(g: Graph, patterns: map<string, string>)
    requires Valid(g)
    ensures forall l :: l in patterns ==>
      (LayerViewName(l) in LayerViews(g, patterns) <==> NamespaceMembers(g, patterns[l]) != {})
    ensures forall l :: l in patterns && NamespaceMembers(g, patterns[l]) != {} ==>
      LayerViews(g, patterns)[LayerViewName(l)] == NamespaceMembers(g, patterns[l])
    ensures forall name :: name in LayerViews(g, patterns) ==>
      LayerViews(g, patterns)[name] != {} && LayerViews(g, patterns)[name] <= g.attrs.Keys
  {
    var r := LayerViews(g, patterns);
    forall l | l in patterns && LayerViewName(l) in r ensures NamespaceMembers(g, patterns[l]) != {} {
      var l' :| l' in patterns && NamespaceMembers(g, patterns[l']) != {} && LayerViewName(l') == LayerViewName(l);
      LayerViewNameInjective(l, l');
    }
    forall l | l in patterns && NamespaceMembers(g, patterns[l]) != {}
      ensures r[LayerViewName(l)] == NamespaceMembers(g, patterns[l])
    {
      var l' :| l' in patterns && NamespaceMembers(g, patterns[l']) != {} && LayerViewName(l') == LayerViewName(l) &&
        r[LayerViewName(l)] == NamespaceMembers(g, patterns[l']);
      LayerViewNameInjective(l, l');
    }
    forall name | name in r ensures r[name] != {} && r[name] <= g.attrs.Keys {
      var l :| l in patterns && NamespaceMembers(g, patterns[l]) != {} && LayerViewName(l) == name &&
        r[name] == NamespaceMembers(g, patterns[l]);
    }
  }

  /** Adding layer `l` to the layers considered adds its view when its pattern
      selects some node and changes nothing else. */
  lemma LayerViewsAdd(g: Graph, patterns: map<string, string>, layers: set<string>, l: string)
    requires Valid(g) && layers <= patterns.Keys && l in patterns && l !in layers
    ensures var before := LayerViewsOf(g, patterns, layers);
      var nodes := NamespaceMembers(g, patterns[l]);
      LayerViewsOf(g, patterns, layers + {l}) == if nodes != {} then before[LayerViewName(l) := nodes] else before
  {
    LayerViewsAddFrom(g, patterns, layers, l);
    LayerViewsAddTo(g, patterns, layers, l);
  }

  lemma LayerViewsAddFrom(g: Graph, patterns: map<string, string>, layers: set<string>, l: string)
    requires Valid(g) && layers <= patterns.Keys && l in patterns && l !in layers
    ensures var before, after := LayerViewsOf(g, patterns, layers), LayerViewsOf(g, patterns, layers + {l});
      var nodes := NamespaceMembers(g, patterns[l]);
      var expected := if nodes != {} then before[LayerViewName(l) := nodes] else before;
      forall name :: name in after ==> name in expected && after[name] == expected[name]
  {
    var before, after := LayerViewsOf(g, patterns, layers), LayerViewsOf(g, patterns, layers + {l});
    var nodes := NamespaceMembers(g, patterns[l]);
    var expected := if nodes != {} then before[LayerViewName(l) := nodes] else before;
    forall name | name in after ensures name in expected && after[name] == expected[name] {
      var l' :| l' in layers + {l} && NamespaceMembers(g, patterns[l']) != {} && LayerViewName(l') == name &&
        after[name] == NamespaceMembers(g, patterns[l']);
      if l' != l && nodes != {} && name == LayerViewName(l) {
        LayerViewNameInjective(l, l');
      }
    }
  }

  lemma LayerViewsAddTo(g: Graph, patterns: map<string, string>, layers: set<string>, l: string)
    requires Valid(g) && layers <= patterns.Keys && l in patterns && l !in layers
    ensures var before, after := LayerViewsOf(g, patterns, layers), LayerViewsOf(g, patterns, layers + {l});
      (NamespaceMembers(g, patterns[l]) != {} ==> LayerViewName(l) in after) && (forall name :: name in before ==> name in after)
  {
    var before, after := LayerViewsOf(g, patterns, layers), LayerViewsOf(g, patterns, layers + {l});
    forall name | name in before ensures name in after {
      var l' :| l' in layers && NamespaceMembers(g, patterns[l']) != {} && LayerViewName(l') == name;
      assert l' in layers + {l};
    }
  }

  /** The loop of `create_layer_views` over the layer patterns. */
  method SelectLayerViews(g: Graph, patterns: map<string, string>) returns (created: map<string, set<NodeId>>)
    requires Valid(g)
    ensures created == LayerViews(g, patterns)
  {
    created := map[];
    var rest := patterns.Keys;
    while rest != {}
      invariant rest <= patterns.Keys
      invariant created == LayerViewsOf(g, patterns, patterns.Keys - rest)
      decreases rest
    {
      var l :| l in rest;
      LayerViewsAdd(g, patterns, patterns.Keys - rest, l);
      assert patterns.Keys - (rest - {l}) == (patterns.Keys - rest) + {l};
      var nodes := NodesByNamespace(g, patterns[l]);
      if nodes != {} {
        created := created[LayerViewName(l) := nodes];
      }
      rest := rest - {l};
    }
    assert patterns.Keys - rest == patterns.Keys;
  }

  /** The name of a context view: the given one, or `context_<name>_h<hops>`. */
  function ContextViewName(centerClassName: string, maxHops: int, viewName: Option<string>): string
  {
    if viewName.Some? then viewName.value else "context_" + centerClassName + "_h" + IntToString(maxHops)
  }

  /** `f"importance_{metric}_top{top_n}"`. */
  function ImportanceViewName(metric: string, topN: int): string
  {
    "importance_" + metric + "_top" + IntToString(topN)
  }

  /** The hotspot view `auto_create_views` asks for: default thresholds, with
      neighbours. */
  function AutoHotspotView(g: Graph): set<NodeId>
    requires Valid(g)
  {
    WithNeighbors(g, Hotspots(g, DefaultMinDegree, DefaultMinComplexity))
  }

  /** `get_view_statistics`'s entry for one node of the view. */
  datatype NodeSummary = NodeSummary(id: NodeId, name: string, fullName: string)

  /** The counts of `get_view_statistics`. */
  datatype ViewStatistics = ViewStatistics(viewName: string, nodeCount: nat, edgeCount: nat, nodes: set<NodeSummary>)

  // ---------------------------------------------------------------------------
  // The filter

  /** `DiagramFilter`: the graph, the analyzer over the same graph, the namespace
      list of the diagram data, and the store of views. */
  class DiagramFilter {
    const namespaces: seq<string>
    const graph: Graph
    const analyzer: GraphAnalyzer
    var views: map<string, set<NodeId>>

    /** The graph and the analyzer are valid and the analyzer works on this graph,
        and every stored view holds only ids of graph nodes. */
    ghost predicate Valid()
      reads this, analyzer
    {
      && GraphModel.Valid(graph)
      && analyzer.Valid()
      && analyzer.graph == graph
      && forall k :: k in views ==> views[k] <= graph.attrs.Keys
    }

    /** `__init__`: no views yet. */
    constructor (namespaces: seq<string>, graph: Graph, analyzer: GraphAnalyzer)
      requires analyzer.Valid() && analyzer.graph == graph
      ensures Valid()
      ensures this.namespaces == namespaces && this.graph == graph && this.analyzer == analyzer
      ensures views == map[]
    {
      this.namespaces := namespaces;
      this.graph := graph;
      this.analyzer := analyzer;
      views := map[];
    }

    /** `_find_node_id_by_name`: the first node, in node order, called `className`. */
    method FindNodeIdByName(className: string) returns (r: Option<NodeId>)
      requires Valid()
      ensures r == FirstMatch(graph, graph.nodes, className)
    {
      var i := 0;
      while i < |graph.nodes|
        invariant 0 <= i <= |graph.nodes|
        invariant forall n :: n in graph.nodes[i..] ==> n in graph.attrs
        invariant FirstMatch(graph, graph.nodes, className) == FirstMatch(graph, graph.nodes[i..], className)
      {
        var n := graph.nodes[i];
        assert graph.nodes[i..][1..] == graph.nodes[i + 1..];
        if graph.attrs[n].name == className || graph.attrs[n].fullName == className {
          return Some(n);
        }
        i := i + 1;
      }
      return None;
    }

    /** `create_context_view`: the ball around the first class of that name, stored
        under the given or the generated name; an unknown class raises. */
    method CreateContextView(centerClassName: string, maxHops: int, direction: string, viewName: Option<string>)
      returns (r: Result<set<NodeId>>)
      requires Valid()
      modifies this
      ensures Valid()
      ensures var center := FirstMatch(graph, graph.nodes, centerClassName);
        && (!Resolved(center) ==> r == Failure("Class not found: " + centerClassName) && views == old(views))
        && (Resolved(center) ==>
          && r == Success(WithinHops(graph, center.value, maxHops, ParseDirection(direction)))
          && center.value in r.value
          && views == old(views)[ContextViewName(centerClassName, maxHops, viewName) := r.value])
    {
      var centerId := FindNodeIdByName(centerClassName);
      if !Resolved(centerId) {
        return Failure("Class not found: " + centerClassName);
      }
      var nodes := NodesWithinHops(graph, centerId.value, maxHops, ParseDirection(direction));
      views := views[ContextViewName(centerClassName, maxHops, viewName) := nodes];
      r := Success(nodes);
    }

    /** `create_namespace_views`: for the given namespaces, or those of the diagram
        data, a view of the prefix-matching nodes when there are at least
        `min_nodes` of them. */
    method CreateNamespaceViews(namespaceList: Option<seq<string>>, minNodes: int) returns (created: map<string, set<NodeId>>)
      requires Valid()
      modifies this
      ensures Valid()
      ensures created == NamespaceViews(graph, if namespaceList.Some? then namespaceList.value else namespaces, minNodes)
      ensures views == old(views) + created
    {
      var nss := if namespaceList.Some? then namespaceList.value else namespaces;
      created := SelectNamespaceViews(graph, nss, minNodes);
      views := views + created;
    }

    /** `create_community_views`: detects communities with `resolution` (the cached
        partition wins), then stores the groups of at least `min_community_size`. */
    method CreateCommunityViews(minCommunitySize: int, resolution: real) returns (created: map<string, set<NodeId>>)
      requires Valid()
      modifies this, analyzer
      ensures Valid()
      ensures analyzer.communitiesCache ==
        Some(if old(analyzer.communitiesCache).Some? then old(analyzer.communitiesCache).value else analyzer.louvainOf(resolution))
      ensures analyzer.pagerankCache == old(analyzer.pagerankCache)
      ensures analyzer.betweennessCache == old(analyzer.betweennessCache)
      ensures created == CommunityViews(GroupByCommunity(analyzer.communitiesCache.value), minCommunitySize)
      ensures views == old(views) + created
    {
      var communities := analyzer.DetectCommunities(resolution);
      var communityMembers := analyzer.GetCommunityMembers(None);
      created := SelectCommunityViews(communityMembers, minCommunitySize);
      CommunityViewsSelect(communityMembers, minCommunitySize);
      views := views + created;
    }

    /** `create_hotspot_view`: the hotspots, with their neighbours when asked,
        stored under "hotspot" even when empty. */
    method CreateHotspotView(minDegree: int, minComplexity: int, includeNeighbors: bool) returns (hotspots: set<NodeId>)
      requires Valid()
      modifies this
      ensures Valid()
      ensures hotspots == Extended(graph, Hotspots(graph, minDegree, minComplexity), includeNeighbors)
      ensures views == old(views)["hotspot" := hotspots]
    {
      hotspots := analyzer.FindHotspots(minDegree, minComplexity);
      if includeNeighbors {
        hotspots := ExtendWithNeighbors(graph, hotspots);
      }
      views := views["hotspot" := hotspots];
    }

    /** `create_importance_view`: the ids of the top-N list, with their neighbours
        when asked, stored under `importance_<metric>_top<n>`; a failing ranking
        stores nothing. */
    method CreateImportanceView(topN: int, metric: string, includeNeighbors: bool) returns (r: Result<set<NodeId>>)
      requires Valid()
      modifies this, analyzer
      ensures Valid()
      ensures analyzer.communitiesCache == old(analyzer.communitiesCache)
      ensures var scores := old(analyzer.MetricScores(metric));
        && (scores.Failure? ==> r == Failure(scores.error) && views == old(views))
        && (scores.Success? ==>
          && r == Success(Extended(graph, TopIds(TopN(ItemsOf(graph.nodes, scores.value), topN)), includeNeighbors))
          && views == old(views)[ImportanceViewName(metric, topN) := r.value])
      ensures metric != "pagerank" || old(analyzer.pagerankCache).Some? ==> analyzer.pagerankCache == old(analyzer.pagerankCache)
      ensures metric == "pagerank" && old(analyzer.pagerankCache).None? ==>
        analyzer.pagerankCache == if r.Success? then Some(analyzer.pagerankOf(DefaultAlpha).value) else None
      ensures analyzer.betweennessCache ==
        if metric == "betweenness" then Some(analyzer.betweennessOf) else old(analyzer.betweennessCache)
    {
      var topNodes := analyzer.GetTopNodesByMetric(metric, topN);
      if topNodes.Failure? {
        return Failure(topNodes.error);
      }
      var importantNodes := TopIds(topNodes.value);
      if includeNeighbors {
        importantNodes := ExtendWithNeighbors(graph, importantNodes);
      }
      views := views[ImportanceViewName(metric, topN) := importantNodes];
      r := Success(importantNodes);
    }

    /** `create_layer_views`: a view per layer whose pattern selects some node. */
    method CreateLayerViews(layerPatterns: map<string, string>) returns (created: map<string, set<NodeId>>)
      requires Valid()
      modifies this
      ensures Valid()
      ensures created == LayerViews(graph, layerPatterns)
      ensures views == old(views) + created
    {
      created := SelectLayerViews(graph, layerPatterns);
      LayerViewsSelect(graph, layerPatterns);
      views := views + created;
    }

    /** `create_dependency_chain_view`: a shortest path between the two classes and
        the balls around its nodes, stored under `dependency_<start>_to_<end>`. */
    method CreateDependencyChainView(startClass: string, endClass: string, expandHops: int) returns (r: Option<set<NodeId>>)
      requires Valid()
      modifies this
      ensures Valid()
      ensures r == ChainView(graph, startClass, endClass, expandHops)
      ensures r.None? ==> views == old(views)
      ensures r.Some? ==> views == old(views)[DependencyViewName(startClass, endClass) := r.value]
    {
      var startId := FindNodeIdByName(startClass);
      var endId := FindNodeIdByName(endClass);
      if !Resolved(startId) || !Resolved(endId) {
        return None;
      }
      var path := ShortestPath(graph, startId.value, endId.value);
      if path.None? {
        return None;
      }
      var nodes := ExpandPath(graph, path.value, expandHops);
      ChainViewShape(graph, startClass, endClass, expandHops);
      views := views[DependencyViewName(startClass, endClass) := nodes];
      r := Some(nodes);
    }

    /** `create_god_class_view`: the god classes, with their neighbours when asked,
        stored under "god_classes"; an out-of-range percentile stores nothing. */
    method CreateGodClassView(thresholdPercentile: real, includeNeighbors: bool) returns (r: Result<set<NodeId>>)
      requires Valid()
      modifies this
      ensures Valid()
      ensures var god := GodClasses(graph, analyzer.percentileOf, thresholdPercentile);
        && (god.Failure? ==> r == Failure(god.error) && views == old(views))
        && (god.Success? ==>
          && r == Success(Extended(graph, god.value, includeNeighbors))
          && views == old(views)["god_classes" := r.value])
    {
      var godClasses := analyzer.FindGodClasses(thresholdPercentile);
      if godClasses.Failure? {
        return Failure(godClasses.error);
      }
      var nodes := godClasses.value;
      if includeNeighbors {
        nodes := ExtendWithNeighbors(graph, nodes);
      }
      views := views["god_classes" := nodes];
      r := Success(nodes);
    }

    /** `get_view`: the stored view, or nothing for an unknown name. */
    function GetView(viewName: string): (r: Option<set<NodeId>>)
      reads this
      ensures r.Some? <==> viewName in views
      ensures r.Some? ==> r.value == views[viewName]
    {
      if viewName in views then Some(views[viewName]) else None
    }

    /** `get_view_statistics`: nothing for an unknown or empty view; otherwise its
        size, the edges among its nodes, and each node's names. */
    function GetViewStatistics(viewName: string): (r: Option<ViewStatistics>)
      reads this, analyzer
      requires Valid()
      ensures r.None? <==> viewName !in views || views[viewName] == {}
      ensures r.Some? ==>
        && r.value.nodeCount == |views[viewName]| >= 1
        && r.value.edgeCount == |Subgraph(graph, views[viewName]).edgeAttrs.Keys|
        && (forall e :: e in Subgraph(graph, views[viewName]).edgeAttrs ==> e.0 in views[viewName] && e.1 in views[viewName])
    {
      if viewName !in views || views[viewName] == {} then None
      else
        var nodes := views[viewName];
        var sub := Subgraph(graph, nodes);
        Some(ViewStatistics(
          viewName, |nodes|, Statistics(sub).edgeCount,
          set n | n in nodes :: NodeSummary(n, graph.attrs[n].name, graph.attrs[n].fullName)))
    }

    /** The partition the community strategy groups: the cached one, or the
        Louvain partition at the default resolution. */
    ghost function AutoPartition(): map<NodeId, int>
      reads analyzer
    {
      if analyzer.communitiesCache.Some? then analyzer.communitiesCache.value else analyzer.louvainOf(DefaultResolution)
    }

    /** What each strategy of `auto_create_views` would compute in the current
        state. */
    ghost function AutoInputsNow(): (r: AutoInputs)
      reads analyzer
      requires GraphModel.Valid(graph) && analyzer.Valid() && analyzer.graph == graph
      ensures r.Named()
    {
      InputsOf(graph, namespaces, AutoPartition(), analyzer.MetricScores(DefaultMetric))
    }

    /** The namespace strategy: `create_namespace_views()` and its views. */
    method NamespaceStep(ghost inputs: AutoInputs) returns (made: map<string, set<NodeId>>)
      requires Valid() && inputs.nsViews == NamespaceViews(graph, namespaces, DefaultMinNodes)
      modifies this
      ensures Valid()
      ensures AutoPartition() == old(AutoPartition()) && analyzer.MetricScores(DefaultMetric) == old(analyzer.MetricScores(DefaultMetric))
      ensures made == StepViews(Namespace, inputs) && views == old(views) + StepStore(Namespace, inputs)
      ensures analyzer.communitiesCache == old(analyzer.communitiesCache) && analyzer.pagerankCache == old(analyzer.pagerankCache)
      ensures analyzer.betweennessCache == old(analyzer.betweennessCache)
    {
      StepCases(inputs);
      made := CreateNamespaceViews(None, DefaultMinNodes);
    }

    /** The community strategy: `create_community_views()` and its views; the
        partition is now cached. */
    method CommunityStep(ghost inputs: AutoInputs) returns (made: map<string, set<NodeId>>)
      requires Valid() && inputs.commViews == CommunityViews(GroupByCommunity(AutoPartition()), DefaultMinCommunitySize)
      modifies this, analyzer
      ensures Valid()
      ensures AutoPartition() == old(AutoPartition()) && analyzer.MetricScores(DefaultMetric) == old(analyzer.MetricScores(DefaultMetric))
      ensures made == StepViews(Community, inputs) && views == old(views) + StepStore(Community, inputs)
      ensures analyzer.communitiesCache == Some(old(AutoPartition()))
      ensures analyzer.pagerankCache == old(analyzer.pagerankCache) && analyzer.betweennessCache == old(analyzer.betweennessCache)
    {
      CommunityCase(inputs);
      made := CreateCommunityViews(DefaultMinCommunitySize, DefaultResolution);
      PartitionCached();
    }

    /** Once the partition is cached, it is the one the strategies use. */
    lemma PartitionCached()
      requires analyzer.communitiesCache.Some?
      ensures AutoPartition() == analyzer.communitiesCache.value
    {
    }

    /** The hotspot strategy: `create_hotspot_view()`, returned when not empty. */
    method HotspotStep(ghost inputs: AutoInputs) returns (made: map<string, set<NodeId>>)
      requires Valid() && inputs.hot == AutoHotspotView(graph)
      modifies this
      ensures Valid()
      ensures AutoPartition() == old(AutoPartition()) && analyzer.MetricScores(DefaultMetric) == old(analyzer.MetricScores(DefaultMetric))
      ensures made == StepViews(Hotspot, inputs) && views == old(views) + StepStore(Hotspot, inputs)
      ensures analyzer.communitiesCache == old(analyzer.communitiesCache) && analyzer.pagerankCache == old(analyzer.pagerankCache)
      ensures analyzer.betweennessCache == old(analyzer.betweennessCache)
    {
      StepCases(inputs);
      var nodes := CreateHotspotView(DefaultMinDegree, DefaultMinComplexity, true);
      assert nodes == inputs.hot;
      made := if nodes != {} then map["hotspot" := nodes] else map[];
      UpdateIsUnion(old(views), "hotspot", nodes);
    }

    /** The importance strategy: `create_importance_view(top_n=15)`, returned as
        "importance_top15" when it gives nodes; a failing ranking adds nothing. The
        PageRank scores are now cached when they were computed. */
    method ImportanceStep(ghost inputs: AutoInputs) returns (made: map<string, set<NodeId>>)
      requires Valid() && inputs.imp == ImportanceOf(graph, analyzer.MetricScores(DefaultMetric))
      modifies this, analyzer
      ensures Valid()
      ensures AutoPartition() == old(AutoPartition()) && analyzer.MetricScores(DefaultMetric) == old(analyzer.MetricScores(DefaultMetric))
      ensures made == StepViews(Importance, inputs) && views == old(views) + StepStore(Importance, inputs)
      ensures var scores := old(analyzer.MetricScores(DefaultMetric));
        analyzer.pagerankCache == if old(analyzer.pagerankCache).None? && scores.Success? then Some(scores.value) else old(analyzer.pagerankCache)
      ensures analyzer.communitiesCache == old(analyzer.communitiesCache) && analyzer.betweennessCache == old(analyzer.betweennessCache)
    {
      StepCases(inputs);
      var nodes := CreateImportanceView(AutoTopN, DefaultMetric, true);
      made := if nodes.Success? && nodes.value != {} then map["importance_top15" := nodes.value] else map[];
      if nodes.Success? {
        UpdateIsUnion(old(views), ImportanceViewName(DefaultMetric, AutoTopN), nodes.value);
      }
    }

    /** One strategy of `auto_create_views`, given what the strategies compute in
        this state: it returns `StepViews`, stores `StepStore`, and caches the
        partition (community) or the PageRank scores (importance); context and
        layer do nothing. */
    method AutoStep(strategy: ViewStrategy, ghost inputs: AutoInputs) returns (made: map<string, set<NodeId>>)
      requires Valid()
      requires inputs.nsViews == NamespaceViews(graph, namespaces, DefaultMinNodes) && inputs.hot == AutoHotspotView(graph)
      requires inputs.commViews == CommunityViews(GroupByCommunity(AutoPartition()), DefaultMinCommunitySize)
      requires inputs.imp == ImportanceOf(graph, analyzer.MetricScores(DefaultMetric))
      modifies this, analyzer
      ensures Valid()
      ensures made == StepViews(strategy, inputs) && views == old(views) + StepStore(strategy, inputs)
      ensures analyzer.communitiesCache == if strategy == Community then Some(old(AutoPartition())) else old(analyzer.communitiesCache)
      ensures var scores := old(analyzer.MetricScores(DefaultMetric));
        analyzer.pagerankCache ==
          if strategy == Importance && old(analyzer.pagerankCache).None? && scores.Success? then Some(scores.value) else old(analyzer.pagerankCache)
      ensures analyzer.betweennessCache == old(analyzer.betweennessCache)
      ensures AutoPartition() == old(AutoPartition()) && analyzer.MetricScores(DefaultMetric) == old(analyzer.MetricScores(DefaultMetric))
    {
      StepCases(inputs);
      match strategy
      case Namespace => made := NamespaceStep(inputs);
      case Community => made := CommunityStep(inputs);
      case Hotspot => made := HotspotStep(inputs);
      case Importance => made := ImportanceStep(inputs);
      case Context =>
        made := map[];
        UnionEmpty(views);
      case Layer =>
        made := map[];
        UnionEmpty(views);
    }

    /** `auto_create_views`: runs the namespace, community, hotspot and importance
        strategies that are asked for (all by default), keeps going when one fails,
        and returns the views each created; context and layer views need arguments
        and are skipped. The result and the store are the closed forms
        `Gathered`, whatever the order of the strategies. */
    method AutoCreateViews(strategies: Option<seq<ViewStrategy>>) returns (created: map<string, set<NodeId>>)
      requires Valid()
      modifies this, analyzer
      ensures Valid()
      ensures var list := if strategies.Some? then strategies.value else AllStrategies;
        && created == Gathered(list, ResultOf(old(AutoInputsNow())))
        && views == old(views) + Gathered(list, StoreOf(old(AutoInputsNow())))
        && analyzer.communitiesCache == (if Community in list then Some(old(AutoPartition())) else old(analyzer.communitiesCache))
        && analyzer.betweennessCache == old(analyzer.betweennessCache)
    {
      var list := if strategies.Some? then strategies.value else AllStrategies;
      ghost var inputs := AutoInputsNow();
      ghost var partition := AutoPartition();
      ghost var scores := analyzer.MetricScores(DefaultMetric);
      ghost var store := views;
      assert inputs == InputsOf(graph, namespaces, partition, scores);
      InputsApart(inputs);
      created := map[];
      var i := 0;
      ghost var ran: seq<ViewStrategy> := [];
      while i < |list|
        invariant 0 <= i <= |list| && ran == list[..i]
        invariant Valid()
        invariant created == Gathered(ran, ResultOf(inputs))
        invariant views == store + Gathered(ran, StoreOf(inputs))
        invariant AutoPartition() == partition && analyzer.MetricScores(DefaultMetric) == scores
        invariant analyzer.betweennessCache == old(analyzer.betweennessCache)
        invariant analyzer.communitiesCache == if Community in ran then Some(partition) else old(analyzer.communitiesCache)
      {
        var made := AutoStep(list[i], inputs);
        GatheredAfter(store, ran, list[i], inputs, created, made, views);
        SnocSlice(list, i);
        created := created + made;
        ran := ran + [list[i]];
        i := i + 1;
      }
      SnocSlice(list, i);
    }
  }

  /** The inputs of `auto_create_views` for a graph, its namespaces, the partition
      the community strategy groups and the scores the importance strategy ranks. */
  function InputsOf(g: Graph, namespaces: seq<string>, partition: map<NodeId, int>,
                    scores: Result<map<NodeId, real>>): (r: AutoInputs)
    requires Valid(g)
    ensures r.Named()
  {
    CommunityViewsPrefixed(GroupByCommunity(partition), DefaultMinCommunitySize);
    AutoInputs(
      NamespaceViews(g, namespaces, DefaultMinNodes),
      CommunityViews(GroupByCommunity(partition), DefaultMinCommunitySize),
      AutoHotspotView(g),
      ImportanceOf(g, scores))
  }

  /** The nodes the importance strategy selects from `scores`: the top
      `AutoTopN` ids with their neighbours; nothing when the ranking failed. */
  function ImportanceOf(g: Graph, scores: Result<map<NodeId, real>>): Option<set<NodeId>>
    requires Valid(g)
  {
    if scores.Success? then Some(Extended(g, TopIds(TopN(ItemsOf(g.nodes, scores.value), AutoTopN)), true)) else None
  }

  /** What the strategies of `auto_create_views` compute: the namespace views, the
      community views, the hotspot view, and the importance view (none when the
      ranking fails). */
  datatype AutoInputs = AutoInputs(
    nsViews: map<string, set<NodeId>>,
    commViews: map<string, set<NodeId>>,
    hot: set<NodeId>,
    imp: Option<set<NodeId>>)
  {
    /** Namespace views carry namespace names and community views community
        names. */
    ghost predicate Named()
    {
      && (forall k :: k in nsViews ==> "namespace_" <= k)
      && (forall k :: k in commViews ==> "community_" <= k)
    }
  }

  /** The views one strategy adds to the result of `auto_create_views`: every
      namespace view, every community view, the hotspot view when it is not empty,
      the importance view as "importance_top15" when it exists and is not empty;
      context and layer add nothing. */
  function StepViews(strategy: ViewStrategy, inputs: AutoInputs): map<string, set<NodeId>>
  {
    match strategy
    case Namespace => inputs.nsViews
    case Community => inputs.commViews
    case Hotspot => if inputs.hot != {} then map["hotspot" := inputs.hot] else map[]
    case Importance =>
      if inputs.imp.Some? && inputs.imp.value != {} then map["importance_top15" := inputs.imp.value] else map[]
    case Context => map[]
    case Layer => map[]
  }

  /** The views one strategy puts in the store: those the `create_*` method stores,
      "hotspot" even when empty, the importance view under its long name whenever
      the ranking succeeds. */
  function StepStore(strategy: ViewStrategy, inputs: AutoInputs): map<string, set<NodeId>>
  {
    match strategy
    case Namespace => inputs.nsViews
    case Community => inputs.commViews
    case Hotspot => map["hotspot" := inputs.hot]
    case Importance =>
      if inputs.imp.Some? then map[ImportanceViewName(DefaultMetric, AutoTopN) := inputs.imp.value] else map[]
    case Context => map[]
    case Layer => map[]
  }

  /** `StepViews` and `StepStore` strategy by strategy. */
  lemma StepCases(inputs: AutoInputs)
    ensures StepViews(Namespace, inputs) == inputs.nsViews == StepStore(Namespace, inputs)
    ensures StepViews(Community, inputs) == inputs.commViews == StepStore(Community, inputs)
    ensures StepViews(Hotspot, inputs) == if inputs.hot != {} then map["hotspot" := inputs.hot] else map[]
    ensures StepStore(Hotspot, inputs) == map["hotspot" := inputs.hot]
    ensures StepViews(Importance, inputs) ==
      if inputs.imp.Some? && inputs.imp.value != {} then map["importance_top15" := inputs.imp.value] else map[]
    ensures StepStore(Importance, inputs) ==
      if inputs.imp.Some? then map[ImportanceViewName(DefaultMetric, AutoTopN) := inputs.imp.value] else map[]
    ensures StepViews(Context, inputs) == map[] == StepStore(Context, inputs)
    ensures StepViews(Layer, inputs) == map[] == StepStore(Layer, inputs)
  {
  }

  /** `StepViews` and `StepStore` of the community strategy alone. */
  lemma CommunityCase(inputs: AutoInputs)
    ensures StepViews(Community, inputs) == inputs.commViews == StepStore(Community, inputs)
  {
  }

  function ResultOf(inputs: AutoInputs): ViewStrategy -> map<string, set<NodeId>>
  {
    s => StepViews(s, inputs)
  }

  function StoreOf(inputs: AutoInputs): ViewStrategy -> map<string, set<NodeId>>
  {
    s => StepStore(s, inputs)
  }

  /** The strategy a view name belongs to, by its fixed name or its prefix. */
  function KeyKind(k: string): Option<ViewStrategy>
  {
    if k == "hotspot" then Some(Hotspot)
    else if "importance_" <= k then Some(Importance)
    else if "namespace_" <= k then Some(Namespace)
    else if "community_" <= k then Some(Community)
    else None
  }

  /** Every view of `f(s)` carries a name of strategy `s`, so no two strategies
      share a name and context and layer contribute nothing. */
  ghost predicate Apart(f: ViewStrategy -> map<string, set<NodeId>>)
  {
    forall s, k :: k in f(s) ==> KeyKind(k) == Some(s)
  }

  /** The views of the strategies in `ran`, each strategy counted once. */
  function Gathered(ran: seq<ViewStrategy>, f: ViewStrategy -> map<string, set<NodeId>>): map<string, set<NodeId>>
  {
    (if Namespace in ran then f(Namespace) else map[])
    + (if Community in ran then f(Community) else map[])
    + (if Hotspot in ran then f(Hotspot) else map[])
    + (if Importance in ran then f(Importance) else map[])
  }

  /** A name is gathered exactly when its strategy ran and produced it. */
  lemma GatheredAt(ran: seq<ViewStrategy>, f: ViewStrategy -> map<string, set<NodeId>>, k: string)
    requires Apart(f)
    ensures k in Gathered(ran, f) <==> KeyKind(k).Some? && KeyKind(k).value in ran && k in f(KeyKind(k).value)
    ensures k in Gathered(ran, f) ==> Gathered(ran, f)[k] == f(KeyKind(k).value)[k]
  {
    if k in f(Namespace) { assert KeyKind(k) == Some(Namespace); }
    if k in f(Community) { assert KeyKind(k) == Some(Community); }
    if k in f(Hotspot) { assert KeyKind(k) == Some(Hotspot); }
    if k in f(Importance) { assert KeyKind(k) == Some(Importance); }
  }

  /** Running one more strategy adds its views to what was gathered: the loop of
      `auto_create_views` builds the closed form. */
  lemma GatheredStep(ran: seq<ViewStrategy>, s: ViewStrategy, f: ViewStrategy -> map<string, set<NodeId>>)
    requires Apart(f)
    ensures Gathered(ran + [s], f) == Gathered(ran, f) + f(s)
  {
    var after, step := Gathered(ran + [s], f), Gathered(ran, f) + f(s);
    forall k
      ensures k in after <==> k in step
      ensures k in after ==> after[k] == step[k]
    {
      GatheredAt(ran + [s], f, k);
      GatheredAt(ran, f, k);
      if k in f(s) { assert KeyKind(k) == Some(s); }
    }
  }

  /** The names of the inputs keep the strategies apart, in the result and in the
      store. */
  lemma InputsApart(inputs: AutoInputs)
    requires inputs.Named()
    ensures Apart(ResultOf(inputs)) && Apart(StoreOf(inputs))
  {
    forall s, k | k in ResultOf(inputs)(s) || k in StoreOf(inputs)(s)
      ensures KeyKind(k) == Some(s)
    {
      match s
      case Namespace => assert k[0] == 'n';
      case Community => assert k[0] == 'c';
      case Hotspot =>
      case Importance =>
        var long := ImportanceViewName(DefaultMetric, AutoTopN);
        assert long == "importance_" + DefaultMetric + "_top" + IntToString(AutoTopN);
        assert "importance_" <= long;
      case Context =>
      case Layer =>
    }
  }

  /** What `auto_create_views` returns after the strategies `ran` holds only
      namespace and community views, "hotspot" and "importance_top15", and
      nothing when only context and layer ran. */
  lemma AutoViewsKeys(ran: seq<ViewStrategy>, inputs: AutoInputs)
    requires inputs.Named()
    ensures var r := Gathered(ran, ResultOf(inputs));
      && (forall k :: k in r ==> k in inputs.nsViews || k in inputs.commViews || k == "hotspot" || k == "importance_top15")
      && ((forall s :: s in ran ==> s == Context || s == Layer) ==> r == map[])
  {
    var f := ResultOf(inputs);
    InputsApart(inputs);
    forall k | k in Gathered(ran, f)
      ensures k in inputs.nsViews || k in inputs.commViews || k == "hotspot" || k == "importance_top15"
    {
      GatheredAt(ran, f, k);
    }
  }

  /** The result holds "hotspot" exactly when that strategy ran and found nodes,
      and then it maps it to them. */
  lemma AutoViewsHotspot(ran: seq<ViewStrategy>, inputs: AutoInputs)
    requires inputs.Named()
    ensures var r := Gathered(ran, ResultOf(inputs));
      && ("hotspot" in r <==> Hotspot in ran && inputs.hot != {})
      && ("hotspot" in r ==> r["hotspot"] == inputs.hot)
  {
    InputsApart(inputs);
    GatheredAt(ran, ResultOf(inputs), "hotspot");
  }

  /** The result holds "importance_top15" exactly when that strategy ran and its
      ranking gave nodes, and then it maps it to them. */
  lemma AutoViewsImportance(ran: seq<ViewStrategy>, inputs: AutoInputs)
    requires inputs.Named()
    ensures var r := Gathered(ran, ResultOf(inputs));
      && ("importance_top15" in r <==> Importance in ran && inputs.imp.Some? && inputs.imp.value != {})
      && ("importance_top15" in r ==> r["importance_top15"] == inputs.imp.value)
  {
    InputsApart(inputs);
    GatheredAt(ran, ResultOf(inputs), "importance_top15");
  }

  /** Once the namespace or the community strategy ran, the result holds every
      view it made. */
  lemma AutoViewsCover(ran: seq<ViewStrategy>, inputs: AutoInputs)
    requires inputs.Named()
    ensures var r := Gathered(ran, ResultOf(inputs));
      && (Namespace in ran ==> forall k :: k in inputs.nsViews ==> k in r && r[k] == inputs.nsViews[k])
      && (Community in ran ==> forall k :: k in inputs.commViews ==> k in r && r[k] == inputs.commViews[k])
  {
    var f := ResultOf(inputs);
    var r := Gathered(ran, f);
    InputsApart(inputs);
    forall k | Namespace in ran && k in inputs.nsViews ensures k in r && r[k] == inputs.nsViews[k] {
      GatheredAt(ran, f, k);
    }
    forall k | Community in ran && k in inputs.commViews ensures k in r && r[k] == inputs.commViews[k] {
      GatheredAt(ran, f, k);
    }
  }

  /** One more strategy in the loop of `auto_create_views`: the result and the
      store grow to the closed forms for one more strategy. */
  lemma GatheredAfter(store: map<string, set<NodeId>>, ran: seq<ViewStrategy>, s: ViewStrategy, inputs: AutoInputs,
                      created: map<string, set<NodeId>>, made: map<string, set<NodeId>>, views: map<string, set<NodeId>>)
    requires inputs.Named()
    requires made == StepViews(s, inputs) && created == Gathered(ran, ResultOf(inputs))
    requires views == store + Gathered(ran, StoreOf(inputs)) + StepStore(s, inputs)
    ensures created + made == Gathered(ran + [s], ResultOf(inputs))
    ensures views == store + Gathered(ran + [s], StoreOf(inputs))
  {
    InputsApart(inputs);
    GatheredStep(ran, s, ResultOf(inputs));
    GatheredStep(ran, s, StoreOf(inputs));
    UnionAssoc(store, Gathered(ran, StoreOf(inputs)), StepStore(s, inputs));
    assert StoreOf(inputs)(s) == StepStore(s, inputs);
  }

  /** A slice one longer is the slice and the next element; the full slice is the
      sequence. */
  lemma SnocSlice(list: seq<ViewStrategy>, i: int)
    requires 0 <= i <= |list|
    ensures i < |list| ==> list[..i + 1] == list[..i] + [list[i]]
    ensures list[..|list|] == list
  {
  }

  /** Adding stores one after the other is adding their union. */
  lemma UnionAssoc(a: map<string, set<NodeId>>, b: map<string, set<NodeId>>, c: map<string, set<NodeId>>)
    ensures a + b + c == a + (b + c)
  {
    var l, r := a + b + c, a + (b + c);
    assert l.Keys == r.Keys;
    forall k | k in l ensures l[k] == r[k] {
    }
  }

  /** Adding an empty store changes nothing. */
  lemma UnionEmpty(m: map<string, set<NodeId>>)
    ensures m + map[] == m
  {
    assert (m + map[]).Keys == m.Keys;
  }

  /** Storing one view is adding a one-view store. */
  lemma UpdateIsUnion(m: map<string, set<NodeId>>, k: string, v: set<NodeId>)
    ensures m[k := v] == m + map[k := v]
  {
    var a, b := m[k := v], m + map[k := v];
    assert a.Keys == b.Keys;
    forall x | x in a ensures a[x] == b[x] {
    }
  }

  /** Community views carry names starting with "community_". */
  lemma CommunityViewsPrefixed(groups: map<int, set<NodeId>>, minSize: int)
    ensures forall k :: k in CommunityViews(groups, minSize) ==> "community_" <= k
  {
    forall k | k in CommunityViews(groups, minSize) ensures "community_" <= k {
      var id :| id in groups && |groups[id]| >= minSize && k == CommunityViewName(id);
    }
  }
}
