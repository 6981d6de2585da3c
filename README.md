# uml_analyzer core, modelled in Dafny

This is a model of the analysis core of `uml_analyzer`. The core does four things:

- It turns the class elements and relationships of a parsed UML class diagram into a directed graph.
- It analyses that graph: centrality rankings, Louvain communities, hotspots, god classes, leaf and root classes, and namespace coupling.
- It carves named *views* (node sets) out of the graph by several strategies.
- It parses sequence-diagram JSON into participants and a flattened message list, and renders it as PlantUML.

Modules:

- `GraphModel` (`graph.dfy`): the graph as a value. It holds the node ids in insertion order, the node attributes, the edge list in insertion order and the edge attributes, so `add_node`/`add_edge` overwriting an existing key is explicit. This module also covers graph construction, neighbours, degrees, subgraphs, namespace selection and statistics.
- `Traversal` (`traversal.dfy`): the breadth-first `get_nodes_within_hops` as a loop, proved against a round-by-round reachability function. It also holds the shortest path (fewest nodes) between two nodes.
- `Ranking` (`ranking.dfy`): the stable descending sort by score and the `[:top_n]` slice used by `get_top_nodes_by_metric`.
- `Analyzer` (`analyzer.dfy`): `GraphAnalyzer`, a class with the graph and its three lazily filled caches. It comes with pure specifications of every analysis.
- `ViewFilter` (`filter.dfy`): `DiagramFilter`, a class whose `views` dictionary the `create_*` methods update. It comes with pure specifications of each view family.
- `SequenceParser` (`sequence.dfy`): the sequence-diagram data, the parser (a class holding the last parsed data) and the PlantUML generator.
- `Text` (`text.dfy`) and `Wrappers` (`wrappers.dfy`): number-to-text conversion, `replace('::', '_')`, `"\n".join`, string prefixes, and `Option`/`Result`.

Library algorithms are not re-implemented; they are parameters of the analyzer. These are NetworkX PageRank and betweenness, python-louvain `best_partition` and `numpy.percentile`. The model proves what the core does with their results.

## Model

| member | source | states |
|---|---|---|
| GraphModel.EmptyGraph | graph_builder.py:16 | a fresh graph is well formed and has no nodes and no edges |
| GraphModel.RelationshipWeight | graph_builder.py:55-64 | the weight for each of the five relationship types and 1.0 for any other; every weight lies in [0.8, 2.0] |
| GraphModel.BuildGraph | graph_builder.py:20-53 | the built graph is well formed; its nodes are exactly the element ids; its edges are exactly the listed relationships whose two ends are element ids |
| GraphModel.LastEdgeWins | graph_builder.py:45-53 | an edge added by the relationships carries the kind, label, access and table weight of the last relationship joining that pair |
| GraphModel.BuildEdgeAttrs | graph_builder.py:38-53 | every edge of the built graph carries the kind, label, access and table weight of the last listed relationship joining its two ends, so a later `add_edge` overwrites an earlier one |
| GraphModel.AddNodesValid | graph_builder.py:23-37 | adding elements keeps the graph well formed and adds exactly their ids as nodes |
| GraphModel.AddEdgeValid | graph_builder.py:45-53 | adding an edge between known nodes keeps one edge per ordered pair and adds exactly that pair |
| GraphModel.AddEdgesValid | graph_builder.py:40-53 | adding relationships keeps the nodes and adds exactly the pairs whose ends are both nodes |
| GraphModel.BuildNodes | graph_builder.py:23-37 | node set of the built graph is the element id set; each node carries some element's attributes |
| GraphModel.LastWriteWins | graph_builder.py:23-37 | for a duplicated id, the node keeps the attributes of the last element with that id |
| GraphModel.BuildEdges | graph_builder.py:40-53 | an ordered pair is an edge iff some relationship joins it and both ends are element ids |
| GraphModel.DanglingSkipped | graph_builder.py:40-41 | a relationship with an unknown end changes nothing, wherever it occurs in the list |
| GraphModel.DanglingRelationshipDropped | graph_builder.py:40-41 | removing a relationship whose end is not an element id leaves the built graph unchanged |
| GraphModel.Neighbors | graph_builder.py:66-80 | a node is a neighbour iff it is adjacent in the requested direction; an unknown node has none |
| GraphModel.NeighborsBoth | graph_builder.py:79-80 | the "both" neighbours are the union of the predecessors and the successors |
| GraphModel.InDegree | graph_builder.py:141-143 | an unknown node has in-degree 0 |
| GraphModel.OutDegree | graph_builder.py:145-147 | an unknown node has out-degree 0 |
| GraphModel.SourcesInto | graph_builder.py:141-143 | over distinct edges, the number of distinct predecessors equals the number of edges into the node |
| GraphModel.TargetsFrom | graph_builder.py:145-147 | over distinct edges, the number of distinct successors equals the number of edges out of the node |
| GraphModel.DegreesCountEdges | graph_builder.py:141-147 | in-degree and out-degree count the edges into and out of the node |
| GraphModel.Subgraph | graph_builder.py:82-86 | the induced subgraph keeps exactly the chosen known nodes and the edges between them, with their attributes |
| GraphModel.NamespaceMembers | graph_builder.py:119-128 | a node is selected iff its namespace starts with the pattern |
| GraphModel.NodesByNamespace | graph_builder.py:119-128 | the loop over nodes returns exactly the prefix-matching nodes |
| GraphModel.NamespacePrefixIsLoose | graph_builder.py:125 | pattern "app::core" also selects nodes in namespace "app::core2" |
| GraphModel.EmptyPatternSelectsAll | graph_builder.py:125 | the empty pattern selects every node |
| GraphModel.NodeCount | graph_builder.py:158-159 | the number of node keys equals the length of the node list |
| GraphModel.Statistics | graph_builder.py:155-159 | node and edge counts are the numbers of node and edge keys |
| Traversal.Reach | graph_builder.py:99-117 | nodes reached after k rounds are graph nodes and contain the centre iff it is a node; an unknown centre reaches nothing |
| Traversal.FrontierSuffices | graph_builder.py:107-109 | expanding only the last layer finds the same new nodes as expanding everything visited |
| Traversal.ReachMonotone | graph_builder.py:102-117 | more rounds never reach fewer nodes |
| Traversal.ReachStable | graph_builder.py:111-112 | once a round adds nothing, no later round adds anything |
| Traversal.ReachGrowth | graph_builder.py:102-117 | each round before settling adds at least one node |
| Traversal.ReachBounded | graph_builder.py:105-117 | any number of rounds reaches no more than as many rounds as there are nodes |
| Traversal.ExpandLayer | graph_builder.py:106-109 | one layer's expansion is the unvisited neighbours of the layer |
| Traversal.NextRound | graph_builder.py:106-115 | a round adds exactly the unvisited neighbours of the current frontier, which become the next frontier |
| Traversal.EarlyStop | graph_builder.py:111-112 | leaving the loop on an empty next layer gives the same set as running all rounds |
| Traversal.NodesWithinHops | graph_builder.py:88-117 | the BFS loop returns exactly the nodes reached within `max_hops` rounds |
| Traversal.WithinZeroHops | graph_builder.py:99-105 | with zero hops only the centre is returned |
| Traversal.WithinHopsMonotone | graph_builder.py:105 | a larger hop limit never yields fewer nodes |
| Traversal.WalkInReach | graph_builder.py:105-109 | the end of a walk of length k from the centre is reached within k rounds |
| Traversal.WithinHopsIffWalk | graph_builder.py:102-117 | a node is returned iff a walk of at most `max_hops` steps leads to it from the centre |
| Traversal.WalkTo | graph_builder.py:105-109 | a node reached within k rounds has a walk of at most k steps from the centre |
| Traversal.Depth | graph_builder.py:134-139 | the first round in which the target is reached, or none within the node count |
| Traversal.NoShorterPath | graph_builder.py:137 | if the target is not reached before round k, every path has at least k + 1 nodes |
| Traversal.Unreachable | graph_builder.py:138-139 | if the target is not reached within node-count rounds, no path exists |
| Traversal.PathEndpoints | graph_builder.py:138-139 | a path exists only between graph nodes |
| Traversal.ShortestPath | graph_builder.py:134-139 | none iff no path exists; otherwise a path from source to target no longer than any other |
| Ranking.Insert | analyzer.py:71 | inserting into a ranking lengthens it by one |
| Ranking.InsertPermutes | analyzer.py:71 | insertion adds exactly the new item |
| Ranking.InsertMembers | analyzer.py:71 | the items after insertion are the old ones and the new one |
| Ranking.InsertSorted | analyzer.py:71 | insertion keeps scores non-increasing |
| Ranking.InsertStable | analyzer.py:71 | insertion places a new item after the equal-score items already there |
| Ranking.SortDescending | analyzer.py:71 | the sort keeps the number of items |
| Ranking.SortPermutes | analyzer.py:71 | the sort is a permutation of its input |
| Ranking.SortSorted | analyzer.py:71 | the sorted scores are non-increasing |
| Ranking.SortStable | analyzer.py:71 | items with equal scores keep their input order |
| Ranking.SliceLength | analyzer.py:72 | the length of `[:top_n]`, negative `top_n` counting from the end, never exceeds the list |
| Ranking.Slice | analyzer.py:72 | `[:top_n]` is a prefix of the list, of the length `SliceLength` gives |
| Ranking.SliceCases | analyzer.py:72 | a non-negative `top_n` keeps the first `top_n` items (all when fewer); a negative one drops that many items from the end, and the kept and dropped parts make up the list |
| Ranking.TopNShape | analyzer.py:71-72 | the top-N list has min(top_n, count) entries, is drawn from the items and has non-increasing scores |
| Ranking.TopNMaximal | analyzer.py:71-72 | no item left out scores higher than an item kept |
| Ranking.TopNTiesInOrder | analyzer.py:71-72 | kept items of equal score appear in input order |
| Analyzer.ItemsOf | analyzer.py:64-71 | `scores.items()` pairs each node, in node order, with its score |
| Analyzer.DegreeCentrality | analyzer.py:40-45 | one centrality per graph node |
| Analyzer.DegreeCentralityOrdersByDegree | analyzer.py:40-45 | centrality is non-negative and, beyond one node, orders nodes exactly as their degrees do |
| Analyzer.InDegreeScores | analyzer.py:63-64 | one in-degree score per graph node |
| Analyzer.OutDegreeScores | analyzer.py:65-66 | one out-degree score per graph node |
| Analyzer.LeafClasses | analyzer.py:147-149 | a node is a leaf iff it has no outgoing edge |
| Analyzer.RootClasses | analyzer.py:151-153 | a node is a root iff it has no incoming edge |
| Analyzer.Complexities | analyzer.py:128-131 | the complexity list follows node order |
| Analyzer.MaxOf | analyzer.py:128-138 | the largest complexity, which the percentile cannot exceed |
| Analyzer.MinOf | analyzer.py:128-138 | the smallest complexity, which the percentile cannot undercut |
| Analyzer.GodClassesSelect | analyzer.py:124-145 | an empty graph gives no god classes; a percentile outside [0, 100] is the numpy error; otherwise exactly the nodes at or above the percentile, never none |
| Analyzer.RatioInUnit | analyzer.py:192 | an internal share of a positive total lies in [0, 1] |
| Analyzer.StatsBounds | analyzer.py:180-196 | every namespace has a member and a cohesion in [0, 1], 0 when it has no edges |
| Analyzer.CouplingReport | analyzer.py:155-196 | one entry per namespace, each with at least one node and cohesion in [0, 1] |
| Analyzer.InternalTotalSnoc | analyzer.py:174-178 | one more edge adds one internal edge to the namespace holding both ends, if there is one |
| Analyzer.ExternalTotalSnoc | analyzer.py:174-178 | one more crossing edge counts once for each of the two namespaces |
| Analyzer.EdgesCountedTwice | analyzer.py:169-178 | twice the internal counts plus the crossing counts equal twice the number of edges |
| Analyzer.ReportSums | analyzer.py:180-196 | the report's per-namespace totals are the edge counts |
| Analyzer.CouplingCountsEveryEdge | analyzer.py:169-196 | over all namespaces, every edge is counted once as internal or once on each side as external |
| Analyzer.GroupOf | analyzer.py:96-98 | the grouped community ids are those of the grouped nodes |
| Analyzer.GroupByCommunity | analyzer.py:95-103 | every node sits in the group of its community and only there; no group is empty |
| Analyzer.GroupOfAdd | analyzer.py:97-98 | adding one node changes only its own community's group |
| Analyzer.IdsAtMostNodes | analyzer.py:210 | there are no more community ids than nodes |
| Analyzer.CommunityCountBounds | analyzer.py:210 | the community count is at most the node count, and positive for a non-empty partition |
| Analyzer.HotspotsAntitone | analyzer.py:116-120 | raising either threshold never adds hotspots |
| Analyzer.HotspotsAreConnected | analyzer.py:116-120 | with a degree threshold of at least 1, every hotspot has a neighbour |
| Analyzer.GroupMembers | analyzer.py:95-98 | the `defaultdict(set)` loop builds exactly the community grouping |
| Analyzer.ComplexAtLeast | analyzer.py:140-145 | the loop returns exactly the nodes whose complexity reaches the threshold |
| Analyzer.AmongSnoc | analyzer.py:164-167 | one more node adds its namespace and joins that namespace's members |
| Analyzer.MemberTallies | analyzer.py:164-167 | after a prefix of nodes, one counter per namespace seen, holding its members so far |
| Analyzer.MemberTalliesSnoc | analyzer.py:165-167 | one more node adds it to its namespace's counter and leaves the others |
| Analyzer.MemberTalliesSnocValues | analyzer.py:165-167 | the counter values after one more node |
| Analyzer.AmongAll | analyzer.py:164-167 | after all nodes, the namespaces and members are the graph's |
| Analyzer.CountsSnoc | analyzer.py:170-178 | one more edge adds one to the internal count of its namespace when internal; the crossing count is unchanged |
| Analyzer.CollectMembers | analyzer.py:164-167 | the node loop makes one zeroed counter per namespace with its members |
| Analyzer.CountEdges | analyzer.py:169-178 | the edge loop leaves each namespace's internal and crossing counts equal to its edges |
| Analyzer.CountEdge | analyzer.py:170-178 | one edge's counter update keeps the set of namespaces |
| Analyzer.TallyEdge | analyzer.py:170-178 | one edge's counter update keeps every counter equal to its specification |
| Analyzer.Summarize | analyzer.py:180-196 | the final loop produces exactly the coupling report |
| Analyzer.RankedNodes | analyzer.py:57-72 | the ranked list of the graph's scores has the slice length, non-increasing scores and only graph nodes with their own scores |
| Analyzer.Named | analyzer.py:214-229 | each summary entry keeps the id and score of its top-N item |
| Analyzer.SummaryOfBounds | analyzer.py:198-230 | communities and hotspots are at most the node count; each top list has min(5, nodes) entries |
| Analyzer.GraphAnalyzer.constructor | analyzer.py:16-20 | the analyzer holds the graph with all three caches empty |
| Analyzer.GraphAnalyzer.CalculatePagerank | analyzer.py:22-29 | a cached result is returned; otherwise the computation is stored on success and the failure is passed on; other caches are unchanged |
| Analyzer.GraphAnalyzer.CalculateBetweenness | analyzer.py:31-38 | betweenness has one score per node and is cached; other caches are unchanged |
| Analyzer.GraphAnalyzer.CalculateDegreeCentrality | analyzer.py:40-45 | the result orders nodes by degree and is non-negative |
| Analyzer.GraphAnalyzer.MetricScores | analyzer.py:57-68 | succeeds iff the metric is known and PageRank, if asked for, is available; an unknown metric gives "Unknown metric: ..." |
| Analyzer.GraphAnalyzer.GetTopNodesByMetric | analyzer.py:47-72 | the top-N of the metric's scores, or its error; the list has the slice length and non-increasing scores; only the metric's own cache may change |
| Analyzer.GraphAnalyzer.DetectCommunities | analyzer.py:74-86 | the cached partition, otherwise a fresh one, which is then cached; it covers every node |
| Analyzer.GraphAnalyzer.GetCommunityMembers | analyzer.py:88-103 | all groups, or the requested group (empty when unknown); the partition is cached |
| Analyzer.GraphAnalyzer.FindHotspots | analyzer.py:105-122 | exactly the nodes meeting both degree and complexity thresholds |
| Analyzer.GraphAnalyzer.FindGodClasses | analyzer.py:124-145 | the god-class selection, including the empty-graph and percentile-range cases |
| Analyzer.GraphAnalyzer.AnalyzeNamespaceCoupling | analyzer.py:155-196 | the three loops produce exactly the coupling report |
| Analyzer.GraphAnalyzer.GetAnalysisSummary | analyzer.py:198-230 | fails exactly when PageRank is uncached and fails, and then leaves every cache as it was; otherwise the summary of the cached PageRank and partition, which are now cached, with the betweenness cache untouched |
| ViewFilter.FirstMatch | filter.py:264-269 | none iff no node matches by name or full name; otherwise the first matching node |
| ViewFilter.WithNeighbors | filter.py:145-150 | the seeds plus every neighbour in either direction; graph nodes stay graph nodes |
| ViewFilter.ExtendWithNeighbors | filter.py:145-150 | the loop returns the seeds and all their neighbours |
| ViewFilter.TopIds | filter.py:172 | the ids of the top-N entries |
| ViewFilter.PathBallsMembers | filter.py:235-238 | a node is in the expansion iff it is within the hop limit of some path node |
| ViewFilter.PathBallsInGraph | filter.py:235-238 | the expansion holds only graph nodes |
| ViewFilter.ExpandPath | filter.py:234-238 | the loop returns the path nodes plus their hop neighbourhoods |
| ViewFilter.PathViewShape | filter.py:234-238 | the chain view holds the path and, for positive hops, every node within that many hops of it, and only graph nodes |
| ViewFilter.ChainViewShape | filter.py:208-243 | a chain view exists iff both names resolve and a path joins them; it then surrounds a shortest path |
| ViewFilter.NamespaceViews | filter.py:88-102 | every namespace view is named "namespace_..." and holds graph nodes |
| ViewFilter.NamespaceViewsCover | filter.py:93-100 | each namespace with at least `min_nodes` members has a view under its name |
| ViewFilter.LastWriterSnoc | filter.py:93-100 | a later namespace under another name does not disturb an earlier view |
| ViewFilter.NamespaceViewsLastWriter | filter.py:93-100 | each view holds the members of the last large-enough namespace with that name |
| ViewFilter.NamespaceViewNamesCollide | filter.py:98 | "a::b" and "a_b" share a view name, so one overwrites the other |
| ViewFilter.SelectNamespaceViews | filter.py:91-102 | the loop creates exactly the namespace views |
| ViewFilter.CommunityViewNameInjective | filter.py:123 | distinct community ids give distinct view names |
| ViewFilter.CommunityViewsSelect | filter.py:119-127 | a community has a view iff it has at least `min_community_size` members, and the view is its members |
| ViewFilter.CommunityViewsAdd | filter.py:121-125 | one more community adds at most its own view |
| ViewFilter.CommunityViewsAddFrom | filter.py:121-125 | one more community keeps the earlier views |
| ViewFilter.CommunityViewsAddTo | filter.py:121-125 | one more community adds only its own name |
| ViewFilter.SelectCommunityViews | filter.py:119-127 | the loop creates exactly the community views |
| ViewFilter.LayerViewNameInjective | filter.py:202 | distinct layers give distinct view names |
| ViewFilter.LayerViewsSelect | filter.py:197-206 | a layer has a view iff its pattern selects a node, and the view is those nodes |
| ViewFilter.LayerViewsAdd | filter.py:199-204 | one more layer adds at most its own view |
| ViewFilter.LayerViewsAddFrom | filter.py:199-204 | one more layer keeps the earlier views |
| ViewFilter.LayerViewsAddTo | filter.py:199-204 | one more layer adds only its own name |
| ViewFilter.SelectLayerViews | filter.py:197-206 | the loop creates exactly the layer views |
| ViewFilter.DiagramFilter.constructor | filter.py:29-38 | the filter starts with no views |
| ViewFilter.DiagramFilter.FindNodeIdByName | filter.py:264-269 | the first node matching by name or full name |
| ViewFilter.DiagramFilter.CreateContextView | filter.py:40-74 | unknown class: the error and no change; otherwise the centre's hop neighbourhood, stored under the view name |
| ViewFilter.DiagramFilter.CreateNamespaceViews | filter.py:76-102 | the namespace views of the given or diagram namespaces, added to the store |
| ViewFilter.DiagramFilter.CreateCommunityViews | filter.py:104-127 | the community views of the cached or fresh partition, added to the store; the partition becomes cached and the PageRank and betweenness caches are untouched |
| ViewFilter.DiagramFilter.CreateHotspotView | filter.py:129-155 | the hotspots, optionally with neighbours, stored as "hotspot" |
| ViewFilter.DiagramFilter.CreateImportanceView | filter.py:157-184 | the metric's top-N ids, optionally with neighbours, stored under "importance_{metric}_top{n}"; an unknown metric is passed on with no change; the PageRank and betweenness caches are filled exactly as the ranking of that metric fills them, and the partition cache is untouched |
| ViewFilter.DiagramFilter.CreateLayerViews | filter.py:186-206 | the layer views, added to the store |
| ViewFilter.DiagramFilter.CreateDependencyChainView | filter.py:208-243 | the chain view when it exists, stored under "dependency_{a}_to_{b}"; otherwise nothing changes |
| ViewFilter.DiagramFilter.CreateGodClassView | filter.py:245-262 | the god classes, optionally with neighbours, stored as "god_classes"; a percentile error is passed on with no change |
| ViewFilter.DiagramFilter.GetView | filter.py:271-273 | the stored view iff the name is known |
| ViewFilter.DiagramFilter.GetViewStatistics | filter.py:279-300 | none for an unknown or empty view; otherwise its size and the edges inside it |
| ViewFilter.DiagramFilter.NamespaceStep | filter.py:319-321 | the namespace strategy returns and stores exactly the namespace views and touches no cache |
| ViewFilter.DiagramFilter.CommunityStep | filter.py:323-325 | the community strategy returns and stores exactly the community views of the partition, which becomes cached; the other caches are untouched |
| ViewFilter.DiagramFilter.HotspotStep | filter.py:327-330 | the hotspot strategy stores "hotspot" and returns it exactly when hotspots exist; no cache changes |
| ViewFilter.DiagramFilter.ImportanceStep | filter.py:332-335 | the importance strategy stores the top-15 view when the PageRank ranking succeeds and returns it as "importance_top15" exactly when it is not empty; PageRank becomes cached when it was computed |
| ViewFilter.DiagramFilter.AutoStep | filter.py:317-337 | one strategy returns `StepViews` and stores `StepStore` of what it computes in the current state; community caches the partition, importance the PageRank scores; context and layer do nothing; the partition and the scores the later strategies use stay the same |
| ViewFilter.DiagramFilter.AutoCreateViews | filter.py:302-342 | over the given strategies (all by default), the result and the added store are the union of what each strategy computes in the starting state, whatever the order; the partition is cached iff the community strategy ran; the betweenness cache is untouched |
| ViewFilter.GatheredStep | filter.py:317-335 | running one more strategy adds its views to what the strategies before it gathered |
| ViewFilter.StepCases | filter.py:317-337 | what each strategy returns and stores: the namespace or community views; "hotspot" when not empty; "importance_top15" when the ranking succeeded and is not empty; nothing for context and layer |
| ViewFilter.AutoViewsKeys | filter.py:315-342 | the result holds only namespace and community view names, "hotspot" and "importance_top15", and is empty when only context and layer ran |
| ViewFilter.AutoViewsHotspot | filter.py:327-330 | the result holds "hotspot" iff that strategy ran and found hotspots, and then maps it to them |
| ViewFilter.AutoViewsImportance | filter.py:332-335 | the result holds "importance_top15" iff that strategy ran, the ranking succeeded and gave nodes, and then maps it to them |
| ViewFilter.AutoViewsCover | filter.py:319-325 | once the namespace or community strategy ran, the result holds every view it made, with its nodes |
| ViewFilter.CommunityViewsPrefixed | filter.py:123 | every community view name starts with "community_" |
| Text.NatToString | filter.py:123 | decimal digits, one digit exactly below ten |
| Text.NatToStringValue | filter.py:123 | the decimal text of n reads back as n |
| Text.IntToString | filter.py:71 | a leading minus exactly for negative numbers |
| Text.IntToStringValue | filter.py:71 | the signed decimal text of i reads back as i |
| Text.NatToStringInjective | filter.py:123 | distinct naturals have distinct decimal texts |
| Text.IntToStringInjective | filter.py:123 | distinct integers have distinct decimal texts |
| Text.ReplaceSeparator | filter.py:98 | no "::" survives the replacement; only the empty text maps to the empty text |
| Text.ReplaceSeparatorKeeps | filter.py:98 | a text without "::" is unchanged |
| Text.ReplaceSeparatorAtSeparator | filter.py:98 | a leading "::" becomes "_" and the rest is replaced in turn |
| Text.ReplaceSeparatorOther | filter.py:98 | a leading character that does not start "::" is kept and the rest is replaced in turn |
| Text.JoinBounds | sequence_parser.py:238 | the joined text starts with the first line and ends with the last |
| Text.Take | sequence_parser.py:242 | `[:k]` is a prefix of length min(k, length) |
| SequenceParser.Participant.FullNameQualifies | sequence_parser.py:22-26 | the full name ends with the name and equals it iff there is no non-empty namespace |
| SequenceParser.MessageOf | sequence_parser.py:141-151 | a call or return message whose missing ids and name become empty |
| SequenceParser.Nodes | sequence_parser.py:152-162 | the pre-order walk of an item starts with the item |
| SequenceParser.MessagesOfSelect | sequence_parser.py:141-151 | one message per call or return node and none from any other node |
| SequenceParser.MessagesOfAppend | sequence_parser.py:153-162 | the messages of two node lists one after the other are those of the first list followed by those of the second |
| SequenceParser.ExtractIsPreorder | sequence_parser.py:135-164 | extraction lists the messages of the pre-order walk: own first, then messages, if, else, case and loop blocks |
| SequenceParser.ExtractAllIsPreorder | sequence_parser.py:153-162 | the same for a list of items |
| SequenceParser.ExtractCounts | sequence_parser.py:135-164 | one message per call or return item of the subtree, and the item's own message comes first |
| SequenceParser.ExtractAllCounts | sequence_parser.py:108-111 | one message per call or return item of all sequences |
| SequenceParser.ParseParticipant | sequence_parser.py:125-133 | missing id and name become "", missing type becomes "class"; display name and namespace pass through |
| SequenceParser.ParseParticipants | sequence_parser.py:104-106 | one participant per raw entry |
| SequenceParser.KeyOrder | sequence_parser.py:104-106 | the dictionary's keys: each id once, in order of first appearance |
| SequenceParser.KeyOrderOfDistinct | sequence_parser.py:104-106 | with distinct ids, the key order is the input order |
| SequenceParser.Table | sequence_parser.py:104-106 | an entry per id, each stored under its own id |
| SequenceParser.TableLastWins | sequence_parser.py:104-106 | a repeated id keeps the last participant with that id |
| SequenceParser.SequenceDiagramData.ParticipantCountIsOrder | sequence_parser.py:63-65 | the participant count is the number of distinct ids |
| SequenceParser.SequenceDiagramData.FindNamedFirst | sequence_parser.py:71-76 | searching from a position finds nobody iff nobody from there on matches by name or full name, and otherwise the first who does |
| SequenceParser.SequenceDiagramData.GetParticipantByName | sequence_parser.py:71-76 | none iff nobody matches; otherwise the first match in insertion order |
| SequenceParser.SequenceDiagramData.GetCallsFrom | sequence_parser.py:78-80 | exactly the messages sent by the participant |
| SequenceParser.SequenceDiagramData.GetCallsTo | sequence_parser.py:82-84 | exactly the messages received by the participant |
| SequenceParser.SentBy | sequence_parser.py:78-80 | the messages from an id, in order |
| SequenceParser.ReceivedBy | sequence_parser.py:82-84 | the messages to an id, in order |
| SequenceParser.SentByConcat | sequence_parser.py:78-80 | selection commutes with concatenation |
| SequenceParser.ReceivedByConcat | sequence_parser.py:82-84 | selection commutes with concatenation |
| SequenceParser.Parser.constructor | sequence_parser.py:90-91 | a fresh parser has no data and no statistics |
| SequenceParser.Parser.ParseDict | sequence_parser.py:100-123 | stores well-formed data: participants keyed by id in first-seen order with the last entry winning, messages in pre-order, default type "sequence"; statistics count the distinct ids and the message items |
| SequenceParser.Parser.IndexParticipants | sequence_parser.py:104-106 | the participant loop yields the id-keyed dict and its first-seen key order |
| SequenceParser.Parser.CollectMessages | sequence_parser.py:108-111 | the sequence loop yields the pre-order messages of every top-level sequence, in order |
| SequenceParser.Parser.ExtractMessages | sequence_parser.py:135-164 | appends the pre-order messages of an item to the accumulator |
| SequenceParser.Parser.ExtractBlock | sequence_parser.py:153-162 | appends the pre-order messages of every item of a block |
| SequenceParser.Parser.GetStatistics | sequence_parser.py:166-179 | none before parsing; otherwise the participant and message counts of the data |
| SequenceParser.Alias | sequence_parser.py:240-242 | "P_" followed by the first 16 characters of the id |
| SequenceParser.AliasInjective | sequence_parser.py:240-242 | ids of at most 16 characters get distinct aliases |
| SequenceParser.AliasTruncates | sequence_parser.py:240-242 | ids sharing their first 16 characters share an alias |
| SequenceParser.MessageLineShape | sequence_parser.py:224-231 | the arrow starts at the sender's alias (the receiver's for a return) and ends with ": " and the name |
| SequenceParser.DeclarationLines | sequence_parser.py:209-217 | without a filter, one line per participant; with one, no more |
| SequenceParser.DeclarationLinesSelect | sequence_parser.py:209-217 | a participant is declared iff there is no filter or the filter names it |
| SequenceParser.MessageLines | sequence_parser.py:221-232 | without a filter, one line per message; with one, no more |
| SequenceParser.MessageLinesSelect | sequence_parser.py:221-232 | a message is drawn iff there is no filter or the filter names both ends |
| SequenceParser.PumlLayout | sequence_parser.py:202-238 | the text opens with "@startuml" and closes with "@enduml"; its line count is 6 plus title, declaration and message lines |
| SequenceParser.Generator.constructor | sequence_parser.py:185-186 | the generator holds the diagram data |
| SequenceParser.Generator.DeclareParticipants | sequence_parser.py:209-217 | the participant loop appends exactly the declaration lines |
| SequenceParser.Generator.DrawMessages | sequence_parser.py:221-232 | the message loop appends exactly the arrow lines |
| SequenceParser.Generator.GeneratePuml | sequence_parser.py:188-238 | the loops produce the newline-joined header, declarations, messages and footer |

## Left out

- PageRank, betweenness centrality, Louvain community detection and `numpy.percentile` are library algorithms. The model takes them as given functions. It requires only that each covers every node and that the percentile lies between the smallest and largest value.
- The graph's density, average degrees and DAG check, and `find_strongly_connected_components`, call into NetworkX; they are left out.
- `get_node_attributes` is a plain dictionary copy of one node's attributes. The model reads `attrs` directly.
- `export_to_graphml`, `parse_file`, `save_puml`, the `__main__` blocks and the print in `auto_create_views` are file or console I/O and are left out.
- `main.py` and `__init__.py` are not part of this model.
- The class-diagram parser and `parser.py`/`generator.py` are not part of this model. The builder takes lists of elements and relationships, and the filter takes the diagram's namespaces as a list.
- Scores and weights are exact reals, not floating point.
- `sorted` is modelled as a stable insertion sort, which agrees with Python's stable sort.
- When several shortest paths exist, the model chooses one; the library's choice among equal-length paths is not modelled.
- Sets are Dafny sets, so the iteration order of Python sets (for example in `get_community_members`) does not matter to the model.
- Views are stored as values. Aliasing between a returned set and the stored view is not modelled. `get_all_views` returns a copy of the store, which is the value `views` itself, so it has no separate member.
- `_extract_messages` is modelled as returning the extended accumulator rather than appending to a shared list.
- CalculatePagerank: once a result is cached, a different `alpha` is ignored, as in the source. DetectCommunities likewise ignores `resolution` once a partition is cached.
- Exceptions (an unknown metric, a percentile out of range, a non-converging PageRank) are `Result` failures carrying the message.
- GeneratePuml: `max_depth` is accepted but unused, as in the source.
- JSON values are simplified. Ids, names, kinds, scopes and return types are strings. Metadata and source locations are string maps.
- The `Activity` dataclass is never used by the core, and `Message.__repr__` is debugging output; both are left out.
- In `generate_puml`, both branches of the `p_type` choice give "participant", so the model writes that keyword directly instead of modelling the choice.
- ViewFilter.DiagramFilter.AutoCreateViews: the PageRank cache after the whole run is not stated; AutoStep and ImportanceStep state it for each strategy, and the scores the strategies rank are stated unchanged throughout.
- Complexity scores are integers in the model (the `complexity` field of `GraphModel.Element`). The builder copies it unchanged and the analyzer only compares it with a threshold, but a fractional complexity cannot be written.
