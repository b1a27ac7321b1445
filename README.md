# Keyword co-occurrence graph and its metrics, in Dafny

This project models two connected pieces of a social-media keyword study.

- **The co-occurrence builder** (`build_graph` in `src/main.py`).
  - Search hits (records of post text and keyword) are grouped by post text.
  - Every listed keyword becomes a node, counting the distinct posts it tags.
  - Two listed keywords that tag a common post are joined by an undirected edge. Its weight is the number of such posts.
  - `clean_text` is the quote clean-up applied to post texts.
- **The metrics engine** (`GraphMetrics` in `src/graph_metrics.py`).
  - It is built once from an adjacency matrix.
  - It decides whether the graph is directed (the matrix is not symmetric) and weighted (some value is neither 0 nor 1).
  - It answers read-only queries:
    - structural variables: V, E, n, m;
    - per-node degree and strength;
    - global measures: density, hop-count diameter and average path length over the graph or its largest (strongly) connected component, the community-detection outcome with its fall-back, and average degree and strength;
    - a report of all three.

Files and modules:

- `wrappers.dfy`: `Option` and `Result`.
- `sums.dfy`: finite sums and maxima over `0..n-1`.
- `adjacency.dfy` (`AdjacencyMatrix`): the graph a matrix denotes.
  - graph-type tests;
  - edge inventory;
  - degree and strength;
  - the handshake identities.
- `reachability.dfy` (`Reachability`):
  - hop balls and hop distance inside a node set;
  - reachability, components, connectivity;
  - the proof that a component is internally connected.
- `traversal.dfy` (`Traversal`): the loop-based algorithms, each proved against the functions above.
  - breadth-first search on an `array<int>` distance table;
  - component sets and the largest component;
  - diameter and distance totals;
  - bounds on diameter and average path length.
- `graph_metrics.dfy` (`Metrics`):
  - the `GraphMetrics` class, whose fields are set once by its constructor, and its queries;
  - density, averages and the global measures;
  - their properties.
- `cooccurrence.dfy` (`Cooccurrence`):
  - `CleanText`;
  - the record-level definitions of posts, counts and co-occurrences;
  - the imperative builder;
  - the hand-off of its matrix to `GraphMetrics`, where it is always undirected (`src/main.py:314-315`).

Modelling choices:

- Symmetry is exact equality with the transpose.
- The edge list E is built row by row: the upper triangle with the diagonal when undirected, full rows when directed. That is the order in which the graph library lists the edges of a graph built from a matrix.
- Ratios (density, averages, average path length) are exact `real`s.
- A 0 x 0 matrix makes the global measures, and so the report, an error. The connectivity test raises on the null graph before the averages are reached, so the `if degrees else 0` guard of `src/graph_metrics.py:135` never applies.
- For a directed unweighted graph, the strength reported per node is the in-degree (strength is the degree dictionary), while the average strength is the mean total degree. This is modelled as written (`Metrics.DirectedUnweightedStrength`).
- When a graph is not (strongly) connected, the measured component is the first of largest size by node index.

## Model

| member | source | states |
|---|---|---|
| AdjacencyMatrix.SymmetricIffMirrored | src/graph_metrics.py:24-31 | the matrix counts as symmetric (undirected) exactly when every cell (i, j) equals cell (j, i) |
| AdjacencyMatrix.WeightedIffNonBinaryCell | src/graph_metrics.py:33-35 | weighted exactly when some cell holds a value other than 0 and 1 |
| AdjacencyMatrix.BinaryMatrixIsUnweighted | src/graph_metrics.py:33-35 | a 0/1 matrix is never weighted |
| AdjacencyMatrix.EdgeListIsInventory | src/graph_metrics.py:40-43 | the edge list has m entries: nonzero cells when directed, nonzero cells with i <= j when undirected. Every edge joins two nodes below n at a nonzero cell, and every such cell is listed |
| AdjacencyMatrix.LocalDegreesDirected | src/graph_metrics.py:54-55 | directed in-degrees sum to m |
| AdjacencyMatrix.DegreesCountUndirectedEdgesTwice | src/graph_metrics.py:56-57 | undirected degrees (a self-loop counting twice) sum to 2m |
| AdjacencyMatrix.TotalDegreesCountEdgesTwice | src/graph_metrics.py:134 | total degrees (in plus out when directed) sum to 2m |
| AdjacencyMatrix.UnweightedStrengthIsDegree | src/graph_metrics.py:59-63 | without weights, the weighted degree of every node equals its degree |
| AdjacencyMatrix.CompleteGraphEdgeCount | src/graph_metrics.py:87 | a complete loop-free undirected graph has n(n-1)/2 edges |
| AdjacencyMatrix.ZeroMatrixHasNoEdges | src/graph_metrics.py:87 | an all-zero matrix has no edges |
| Reachability.ReachesIffDist | src/graph_metrics.py:89-115 | the hop distance is defined (non-negative) exactly when the target is reachable by some walk |
| Reachability.ComponentIsConnected | src/graph_metrics.py:95 | a node's (strongly) connected component contains it, and every ordered pair in it has a path inside it |
| Traversal.HopDistances | src/graph_metrics.py:92-93 | breadth-first search on a distance array yields, for every node, its hop distance from the source inside the node set, or -1 when unreachable |
| Traversal.Components | src/graph_metrics.py:95 | for every node, the loop computes its component: the nodes it reaches when undirected, or those it reaches that also reach it when directed |
| Traversal.FirstLargest | src/graph_metrics.py:108 | picks a node whose component is at least as large as every other, and strictly larger than those of all earlier nodes |
| Traversal.LargestComponent | src/graph_metrics.py:108 | the scan returns the first node whose component has maximum size |
| Traversal.PathLengthStats | src/graph_metrics.py:105-106 | one search per node yields the diameter (largest hop distance) and the total of all hop distances of the set |
| Traversal.DiameterAtLeast | src/graph_metrics.py:105 | no hop distance in the set exceeds the diameter |
| Traversal.DiameterBounds | src/graph_metrics.py:110-111 | a connected set of at least 2 nodes has diameter between 1 and (size of C) - 1 |
| Traversal.AveragePathLengthBounds | src/graph_metrics.py:112 | in a connected set of at least 2 nodes, the average path length lies between 1 and the diameter |
| Metrics.GraphMetrics.constructor | src/graph_metrics.py:14-35 | stores the matrix and n, sets directed to "not symmetric" and weighted to "some value is neither 0 nor 1" |
| Metrics.GraphMetrics.ComputeStructuralVariables | src/graph_metrics.py:37-47 | V is 0..n-1 and m counts E. E holds exactly the recorded edges: a nonzero cell (i, j) with i <= j when undirected, carrying the cell's value as its weight when weighted and no data otherwise. The matrix and flags are passed through |
| Metrics.GraphMetrics.ComputeLocalCentrality | src/graph_metrics.py:50-63 | degree is the in-degree when directed and the plain degree otherwise. Strength is the weighted degree when weighted, otherwise the degree itself, which for an undirected graph is its weighted degree |
| Metrics.GraphMetrics.ComputeGlobalMeasures | src/graph_metrics.py:83-153 | the global measures of the matrix, and an error exactly for the graph with no nodes (failures of the left-out library measures are not modelled) |
| Metrics.GraphMetrics.ReportAll | src/graph_metrics.py:239-249 | an error exactly when n is 0 (failures of the left-out library measures are not modelled). Otherwise the three sections come from one object: the structural section and the local section agree on n and on the flags |
| Metrics.ChooseMeasuredNodes | src/graph_metrics.py:90-108 | decides connectivity and returns all nodes when connected, else the first largest component |
| Metrics.ComputePathMeasures | src/graph_metrics.py:89-115 | the connectivity-aware diameter and average path length, 0 and 0 for a single-node largest component |
| Metrics.DensityOfCompleteGraph | src/graph_metrics.py:87 | a complete loop-free undirected graph on at least 2 nodes has density 1 |
| Metrics.DensityWithoutEdges | src/graph_metrics.py:87 | a graph without edges has density 0 |
| Metrics.LocalDegreeSum | src/graph_metrics.py:53-57 | the reported degrees sum to m when directed and 2m when undirected |
| Metrics.AverageDegreeIsTwiceEdgesPerNode | src/graph_metrics.py:134-135 | the average degree is 2m/n, directed or not |
| Metrics.UnweightedAverageStrength | src/graph_metrics.py:137-141 | without weights, the average strength equals the average degree, and also equals the mean weighted degree |
| Metrics.DirectedUnweightedStrength | src/graph_metrics.py:54-63 | for a directed unweighted graph the per-node strengths (in-degrees) sum to m, while the average strength is 2m/n |
| Metrics.SingletonDiameter | src/graph_metrics.py:100-102 | a one-node component has diameter 0 and average path length 0 |
| Metrics.MeasuredNodesLargestConnected | src/graph_metrics.py:104-110 | the measured nodes are non-empty and internally connected, and no component is larger |
| Metrics.PathMeasureBounds | src/graph_metrics.py:89-115 | measured set C of one node: diameter 0 and average path 0. Otherwise 1 <= diameter <= (size of C) - 1 and 1 <= average path <= diameter |
| Metrics.GlobalMeasuresOutcome | src/graph_metrics.py:124-131 | global measures fail only for n = 0. A failed community detection gives modularity 0.0 and no communities |
| Cooccurrence.ReplaceQuotes | src/main.py:89 | same length; every `"` becomes `'` and every other character is kept |
| Cooccurrence.CleanText | src/main.py:85-89 | a missing or empty text gives "", any other keeps its length, and no `"` remains |
| Cooccurrence.CleanTextChangesOnlyQuotes | src/main.py:89 | a cleaned character is `'` exactly when the original was `"` or `'`, and any character other than `"` is unchanged |
| Cooccurrence.CleanTextIdempotent | src/main.py:85-89 | cleaning twice is cleaning once |
| Cooccurrence.RecordAppended | src/main.py:220-227 | one more record adds its non-empty text to the posts and its keyword to that text's keywords |
| Cooccurrence.EmptyTextIgnored | src/main.py:221-223 | a record without text changes no count and no co-occurrence |
| Cooccurrence.RepeatedRecordIgnored | src/main.py:225-227 | a record repeating the text and keyword of an earlier one changes nothing |
| Cooccurrence.UnlistedKeywordIgnored | src/main.py:233 | a record whose keyword is not listed changes no count and no co-occurrence of listed keywords |
| Cooccurrence.UnmentionedKeywordCountsZero | src/main.py:212-215 | a keyword no record names has count 0 |
| Cooccurrence.CoCountPositiveIffShared | src/main.py:240-244 | two keywords co-occur at least once exactly when some post is tagged with both |
| Cooccurrence.CoCountAtMostPostCounts | src/main.py:236-244 | a co-occurrence count is at most the post count of either keyword |
| Cooccurrence.CoCountSymmetric | src/main.py:240-244 | co-occurrence does not depend on the order of the two keywords |
| Cooccurrence.Dedup | src/main.py:212 | the node list holds each listed keyword exactly once, and nothing else |
| Cooccurrence.DedupFirstOccurrenceOrder | src/main.py:212 | the node list keeps the keywords in the order of their first occurrence in the keyword list, as adding them one by one does |
| Cooccurrence.GroupByText | src/main.py:218-227 | the grouping holds exactly the distinct non-empty texts, each once, each mapped to the set of keywords of its records |
| Cooccurrence.ListedKeywords | src/main.py:233 | a post's keywords that are in the keyword list, each once |
| Cooccurrence.IncrementCounts | src/main.py:236-237 | each of the post's keywords gains exactly 1, and nothing else changes |
| Cooccurrence.AddCooccurrences | src/main.py:240-244 | every pair of different keywords of the post gains exactly 1 in weight (an absent edge is created with weight 1), and nothing else changes |
| Cooccurrence.BuildGraph | src/main.py:205-253 | the nodes are the distinct listed keywords, and each counts the distinct posts it tags. The edges join exactly the different listed keywords sharing a post, weighted by the number of shared posts (at least 1) |
| Cooccurrence.EdgeIffSharedPost | src/main.py:240-244 | an edge (u, v) exists exactly when u and v are different listed keywords tagging a common post |
| Cooccurrence.GraphShape | src/main.py:233-244 | no self-loops, the same weight in both directions, and every weight at most the count of either end |
| Cooccurrence.ToAdjacency | src/main.py:314 | the matrix in node order holds each edge's weight and 0 where there is no edge |
| Cooccurrence.CooccurrenceMatrixUndirected | src/main.py:314-315 | the builder's matrix is square, symmetric and non-negative, with a zero diagonal |
| Cooccurrence.KeywordMetrics | src/main.py:314-315 | GraphMetrics built from the co-occurrence matrix has one node per distinct keyword and is undirected |

## Left out

- Closeness, betweenness and local clustering (`src/graph_metrics.py:65-73`), transitivity (line 118) and average clustering (line 121): floating-point library computations.
- The greedy modularity heuristic (`src/graph_metrics.py:125-126`): its outcome, either communities with their modularity or a failure, is an input of `ComputeGlobalMeasures`. Only the fall-back shape is modelled.
- `_betweenness_worker`, `plot_distributions` and `plot_graph`: parallel chunking and plotting.
- `np.allclose` tolerance: symmetry is exact equality on integer matrices, which is what the builder produces.
- Floating-point values: densities, averages and average path lengths are exact rationals.
- Traversal.FirstLargest: among components of equal largest size, the first by node index is chosen. For undirected graphs this matches the library's component order. For strongly connected components, the library's tie-break order is not modelled.
- Metrics.GraphMetrics.ComputeGlobalMeasures: the only failure modelled is the null graph. The contract assumes that transitivity (`src/graph_metrics.py:118`) and average clustering (line 121), which run with no try around them, do not raise on a non-empty matrix. Some releases of the graph library reject transitivity on directed graphs, so for an asymmetric matrix the source may raise where the model returns a result.
- Metrics.GraphMetrics.ReportAll: fails only for n = 0, for the same reason. It also assumes that closeness, betweenness and local clustering (`src/graph_metrics.py:66-73`) do not raise. With weights, closeness and betweenness use them as shortest-path distances, and a negative weight can make those searches raise.
- Negative entries: `Matrix` accepts them and the model gives them a result, while the source's weighted path searches may reject them. The builder's matrices are non-negative (`Cooccurrence.CooccurrenceMatrixUndirected`).
- Real-valued entries: matrix entries are integers, while the source also accepts real weights such as 0.5. The builder only produces integer counts.
- Cooccurrence.BuildGraph: the count attribute is a map beside the graph rather than a node attribute. The visiting order of posts, keywords and pairs, which cannot change any count, is not stated.
- Metrics.GraphMetrics.constructor: requires a square matrix. On a non-square input the source raises, in the symmetry test or when the graph library builds the graph (`src/graph_metrics.py:25-31`); that error path is excluded rather than modelled.
- Network and file I/O in `src/main.py`: login, fetching, translation, sentiment, CSV and JSON writing, and the interactive pipeline. `src/code_BS.py` is not part of this model.
