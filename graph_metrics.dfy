/**
 * GraphMetrics: the graph-theoretic measures computed for an adjacency
 * matrix. The object is built once from the matrix (which also fixes
 * whether the graph is directed and whether it is weighted) and then
 * answers read-only queries: the structural variables, the local degree
 * and strength of each node, the global measures, and a report of all
 * three.
 *
 * Community detection is a heuristic of the graph library; its outcome
 * (the communities and their modularity, or a failure) is passed in.
 */
module Metrics {
  import opened Wrappers
  import opened Sums
  import opened AdjacencyMatrix
  import opened Reachability
  import opened Traversal

  /** The structural variables: V, E, n, m, the matrix and the two flags. */
  datatype Structural = Structural(
    nodes: seq<nat>,
    edges: seq<Edge>,
    n: nat,
    m: nat,
    adjacency: Matrix,
    weighted: bool,
    directed: bool)

  /** Degree and strength of each node, indexed by node id. */
  datatype LocalMeasures = LocalMeasures(degree: seq<int>, strength: seq<int>)

  /** What the community heuristic returned, or that it raised. */
  datatype CommunityDetection =
    | Detected(communities: seq<set<nat>>, modularity: real)
    | DetectionFailed

  datatype GlobalMeasures = GlobalMeasures(
    density: real,
    diameter: int,
    modularityQ: real,
    communities: seq<set<nat>>,
    averageDegree: real,
    averageStrength: real,
    averagePathLength: real)

  datatype Report = Report(structural: Structural, local: LocalMeasures, global: GlobalMeasures)

  /** The error raised when connectivity is asked of the graph with no nodes. */
  const NullGraphError: string := "Connectivity is undefined for the null graph."

  /** Edge density: 0 without edges or with fewer than two nodes, else
      m / (n(n - 1)), doubled for an undirected graph. */
  function Density(n: nat, m: int, directed: bool): real
  {
    if m == 0 || n <= 1 then 0.0
    else
      var d := m as real / (n * (n - 1)) as real;
      if directed then d else 2.0 * d
  }

  /** The mean of n values with the given total; 0 for no values. */
  function Mean(n: nat, total: int): real
  {
    if n == 0 then 0.0 else total as real / n as real
  }

  function AverageDegree(a: Matrix, directed: bool): real
  {
    Mean(|a|, Sum(|a|, (i: nat) => TotalDegree(a, directed, i)))
  }

  function AverageStrength(a: Matrix, directed: bool, weighted: bool): real
  {
    if weighted then Mean(|a|, Sum(|a|, (i: nat) => TotalStrength(a, directed, i)))
    else AverageDegree(a, directed)
  }

  /** The nodes diameter and average path length are taken over: all of
      them when the graph is (strongly) connected, else the first largest
      (strongly) connected component. */
  function MeasuredNodes(a: Matrix, directed: bool): set<nat>
    requires |a| >= 1
  {
    if IsConnected(a, directed) then NodeSet(|a|)
    else Component(a, directed, FirstLargest(a, directed, |a|))
  }

  /** Diameter and average path length in hops; 0 and 0 when a
      disconnected graph's largest component is a single node. */
  function PathMeasures(a: Matrix, directed: bool): (int, real)
    requires |a| >= 1
  {
    var c := MeasuredNodes(a, directed);
    if IsConnected(a, directed) || |c| > 1 then (Diameter(a, c), AveragePathLength(a, c))
    else (0, 0.0)
  }

  /** The global measures of the graph of `a`, or the error of the null graph. */
  function GlobalOf(a: Matrix, directed: bool, weighted: bool, detection: CommunityDetection)
    : Result<GlobalMeasures, string>
  {
    if |a| == 0 then Err(NullGraphError)
    else
      var (diameter, pathLength) := PathMeasures(a, directed);
      var (q, communities) := match detection
        case Detected(cs, q) => (q, cs)
        case DetectionFailed => (0.0, []);
      Ok(GlobalMeasures(
        Density(|a|, EdgeCount(a, directed), directed),
        diameter,
        q,
        communities,
        AverageDegree(a, directed),
        AverageStrength(a, directed, weighted),
        pathLength))
  }

  /** Whether the graph is (strongly) connected, and the nodes to measure. */
  method ChooseMeasuredNodes(a: Matrix, directed: bool) returns (connected: bool, c: set<nat>)
    requires IsSquare(a) && |a| >= 1
    ensures connected == IsConnected(a, directed)
    ensures c == MeasuredNodes(a, directed) && c <= NodeSet(|a|)
  {
    var n := |a|;
    var comps := Components(a, directed);
    connected := comps[0] == NodeSet(n);
    if connected {
      c := NodeSet(n);
    } else {
      var best := LargestComponent(a, directed, comps);
      c := comps[best];
    }
  }

  /** The connectivity-aware diameter and average path length, one BFS per measured node. */
  method ComputePathMeasures(a: Matrix, directed: bool) returns (diameter: int, pathLength: real)
    requires IsSquare(a) && |a| >= 1
    ensures (diameter, pathLength) == PathMeasures(a, directed)
  {
    var connected, c := ChooseMeasuredNodes(a, directed);
    diameter, pathLength := 0, 0.0;
    if connected || |c| > 1 {
      var total;
      diameter, total := PathLengthStats(a, c);
      pathLength := PairAverage(total, |c|);
    }
  }

  class GraphMetrics {
    const adjMatrix: Matrix
    const nNodes: nat
    const directed: bool
    const weighted: bool

    /** The fields are the matrix, its dimension and its two graph-type flags. */
    ghost predicate Valid()
    {
      IsSquare(adjMatrix) && nNodes == |adjMatrix| &&
      directed == !IsSymmetric(adjMatrix) && weighted == IsWeighted(adjMatrix)
    }

    /** Reads the matrix: directed iff it differs from its transpose,
        weighted iff some distinct value is neither 0 nor 1. */
    constructor(adjacency: Matrix)
      requires IsSquare(adjacency)
      ensures Valid() && adjMatrix == adjacency
    {
      adjMatrix := adjacency;
      nNodes := |adjacency|;
      directed := !IsSymmetric(adjacency);
      weighted := IsWeighted(adjacency);
    }

    /** V, E, n, m and the flags; E lists every recorded edge exactly once. */
    function ComputeStructuralVariables(): (s: Structural)
      requires Valid()
      ensures s.n == nNodes && |s.nodes| == nNodes
      ensures forall v | 0 <= v < nNodes :: s.nodes[v] == v
      ensures s.m == |s.edges| == EdgeCount(adjMatrix, directed)
      ensures forall e | e in s.edges ::
        e.u < nNodes && e.v < nNodes && Entry(adjMatrix, e.u, e.v) != 0 && (directed || e.u <= e.v) &&
        e.weight == (if weighted then Some(Entry(adjMatrix, e.u, e.v)) else None)
      ensures forall i, j | 0 <= i < nNodes && 0 <= j < nNodes && Entry(adjMatrix, i, j) != 0 && (directed || i <= j) ::
        EdgeAt(adjMatrix, weighted, i, j) in s.edges
      ensures s.adjacency == adjMatrix && s.weighted == weighted && s.directed == directed
    {
      EdgeListIsInventory(adjMatrix, directed, weighted);
      var edges := EdgeList(adjMatrix, directed, weighted);
      Structural(
        seq(nNodes, (v: int) requires 0 <= v => v as nat),
        edges,
        nNodes,
        |edges|,
        adjMatrix,
        weighted,
        directed)
    }

    /** Degree (in-degree when directed) and strength of every node. */
    function ComputeLocalCentrality(): (l: LocalMeasures)
      requires Valid()
      ensures |l.degree| == nNodes && |l.strength| == nNodes
      ensures forall v | 0 <= v < nNodes :: l.degree[v] == LocalDegree(adjMatrix, directed, v)
      ensures weighted ==> forall v | 0 <= v < nNodes :: l.strength[v] == TotalStrength(adjMatrix, directed, v)
      ensures !weighted ==> l.strength == l.degree
      ensures !weighted && !directed ==>
        forall v | 0 <= v < nNodes :: l.strength[v] == TotalStrength(adjMatrix, directed, v)
    {
      var a, dir := adjMatrix, directed;
      var degree := seq(nNodes, (v: int) requires 0 <= v => LocalDegree(a, dir, v));
      var strength := if weighted then seq(nNodes, (v: int) requires 0 <= v => TotalStrength(a, dir, v)) else degree;
      assert !weighted && !directed ==> forall v | 0 <= v < nNodes :: strength[v] == TotalStrength(a, dir, v) by {
        if !weighted && !directed {
          forall v | 0 <= v < nNodes
            ensures strength[v] == TotalStrength(a, dir, v)
          {
            UnweightedStrengthIsDegree(a, dir, v);
          }
        }
      }
      LocalMeasures(degree, strength)
    }

    /** Density, diameter, modularity and communities, averages and
        average path length; an error for the graph with no nodes. */
    method ComputeGlobalMeasures(detection: CommunityDetection) returns (r: Result<GlobalMeasures, string>)
      requires Valid()
      ensures r == GlobalOf(adjMatrix, directed, weighted, detection)
      ensures r.Err? <==> nNodes == 0
    {
      var a, n := adjMatrix, nNodes;
      var density := Density(n, EdgeCount(a, directed), directed);
      if n == 0 {
        return Err(NullGraphError);
      }
      var diameter, pathLength := ComputePathMeasures(a, directed);
      var q, communities;
      match detection {
        case Detected(cs, modularity) =>
          q, communities := modularity, cs;
        case DetectionFailed =>
          q, communities := 0.0, [];
      }
      var averageDegree := AverageDegree(a, directed);
      var averageStrength := if weighted then AverageStrength(a, directed, true) else averageDegree;
      r := Ok(GlobalMeasures(density, diameter, q, communities, averageDegree, averageStrength, pathLength));
    }

    /** The three sections, all computed from this one object. */
    method ReportAll(detection: CommunityDetection) returns (r: Result<Report, string>)
      requires Valid()
      ensures r.Err? <==> nNodes == 0
      ensures r.Ok? ==>
        r.value.structural == ComputeStructuralVariables() &&
        r.value.local == ComputeLocalCentrality() &&
        GlobalOf(adjMatrix, directed, weighted, detection) == Ok(r.value.global)
      ensures r.Ok? ==>
        r.value.structural.n == |r.value.local.degree| == |r.value.local.strength| &&
        r.value.structural.directed == directed && r.value.structural.weighted == weighted
    {
      var structural := ComputeStructuralVariables();
      var local := ComputeLocalCentrality();
      var global := ComputeGlobalMeasures(detection);
      match global {
        case Err(e) =>
          r := Err(e);
        case Ok(g) =>
          r := Ok(Report(structural, local, g));
      }
    }
  }

  // ---------------------------------------------------------------------
  // Properties of the measures

  /** A complete undirected graph without self-loops has density 1. */
  lemma DensityOfCompleteGraph(a: Matrix)
    requires IsSquare(a) && IsSymmetric(a) && IsCompleteLoopFree(a) && |a| >= 2
    ensures Density(|a|, EdgeCount(a, false), false) == 1.0
  {
    var n, m := |a|, EdgeCount(a, false);
    var pairs := n * (n - 1);
    CompleteGraphEdgeCount(a);
    PairCountPositive(n);
    TwiceHalf(m, pairs);
  }

  lemma TwiceHalf(m: int, p: int)
    requires p > 0 && 2 * m == p
    ensures m != 0 && 2.0 * (m as real / p as real) == 1.0
  {
    assert p as real == 2.0 * m as real;
  }

  /** A graph without edges has density 0. */
  lemma DensityWithoutEdges(a: Matrix, directed: bool)
    requires forall i: nat, j: nat | i < |a| && j < |a| :: Entry(a, i, j) == 0
    ensures Density(|a|, EdgeCount(a, directed), directed) == 0.0
  {
    ZeroMatrixHasNoEdges(a, directed);
  }

  /** The degree reported per node sums to m when directed (in-degrees)
      and to 2m when undirected (a self-loop counting twice). */
  lemma LocalDegreeSum(a: Matrix, directed: bool)
    requires IsSquare(a) && (directed || IsSymmetric(a))
    ensures Sum(|a|, (i: nat) => LocalDegree(a, directed, i)) ==
      if directed then EdgeCount(a, true) else 2 * EdgeCount(a, false)
  {
    if directed {
      LocalDegreesDirected(a);
    } else {
      DegreesCountUndirectedEdgesTwice(a);
      SumCongruent(|a|, (i: nat) => LocalDegree(a, directed, i), (i: nat) => Degree(a, i));
    }
  }

  /** The average degree is the mean total degree, 2m / n, in- and
      out-edges both counting when directed. */
  lemma AverageDegreeIsTwiceEdgesPerNode(a: Matrix, directed: bool)
    requires IsSquare(a) && (directed || IsSymmetric(a)) && |a| >= 1
    ensures AverageDegree(a, directed) == (2 * EdgeCount(a, directed)) as real / |a| as real
  {
    TotalDegreesCountEdgesTwice(a, directed);
  }

  /** Without weights, taking the degree as the strength loses nothing on
      average: the mean weighted degree equals the average degree. */
  lemma UnweightedAverageStrength(a: Matrix, directed: bool)
    requires IsSquare(a) && !IsWeighted(a)
    ensures AverageStrength(a, directed, IsWeighted(a)) == AverageDegree(a, directed)
    ensures AverageStrength(a, directed, true) == AverageDegree(a, directed)
  {
    forall i | 0 <= i < |a|
      ensures TotalStrength(a, directed, i) == TotalDegree(a, directed, i)
    {
      UnweightedStrengthIsDegree(a, directed, i);
    }
    SumCongruent(|a|, (i: nat) => TotalStrength(a, directed, i), (i: nat) => TotalDegree(a, directed, i));
  }

  /**
   * For a directed unweighted graph the strength reported per node is the
   * in-degree, which sums to m, while the average strength is the mean
   * total degree, 2m / n.
   */
  lemma DirectedUnweightedStrength(a: Matrix)
    requires IsSquare(a) && |a| >= 1
    ensures Sum(|a|, (i: nat) => LocalDegree(a, true, i)) == EdgeCount(a, true)
    ensures AverageStrength(a, true, false) == (2 * EdgeCount(a, true)) as real / |a| as real
  {
    LocalDegreeSum(a, true);
    AverageDegreeIsTwiceEdgesPerNode(a, true);
  }

  /** A component with one node has diameter 0. */
  lemma SingletonDiameter(a: Matrix, c: set<nat>)
    requires |c| == 1
    ensures Diameter(a, c) == 0 && AveragePathLength(a, c) == 0.0
  {
    DiameterAtMost(a, c);
  }

  /**
   * The measured nodes form a connected component of the largest size
   * (all nodes when the graph is connected), and hold at least one node.
   */
  lemma MeasuredNodesLargestConnected(a: Matrix, directed: bool)
    requires IsSquare(a) && |a| >= 1 && (directed || IsSymmetric(a))
    ensures MeasuredNodes(a, directed) <= NodeSet(|a|)
    ensures |MeasuredNodes(a, directed)| >= 1
    ensures InternallyConnected(a, MeasuredNodes(a, directed))
    ensures forall v | 0 <= v < |a| :: |Component(a, directed, v)| <= |MeasuredNodes(a, directed)|
  {
    var c := MeasuredNodes(a, directed);
    if IsConnected(a, directed) {
      ComponentIsConnected(a, directed, 0);
      forall v | 0 <= v < |a|
        ensures |Component(a, directed, v)| <= |c|
      {
        SubsetNoLarger(Component(a, directed, v), c);
      }
    } else {
      ComponentIsConnected(a, directed, FirstLargest(a, directed, |a|));
    }
  }

  /**
   * Diameter and average path length of the measured component C: 0 and 0
   * when C is a single node; otherwise 1 <= diameter <= |C| - 1 and
   * 1 <= average path length <= diameter.
   */
  lemma PathMeasureBounds(a: Matrix, directed: bool)
    requires IsSquare(a) && |a| >= 1 && (directed || IsSymmetric(a))
    ensures var c := MeasuredNodes(a, directed);
      var (diameter, pathLength) := PathMeasures(a, directed);
      (|c| == 1 ==> diameter == 0 && pathLength == 0.0) &&
      (|c| >= 2 ==> 1 <= diameter <= |c| - 1 && 1.0 <= pathLength <= diameter as real)
  {
    var c := MeasuredNodes(a, directed);
    MeasuredNodesLargestConnected(a, directed);
    if |c| == 1 {
      SingletonDiameter(a, c);
    } else {
      DiameterBounds(a, c);
      AveragePathLengthBounds(a, c);
    }
  }

  /** Global measures fail only on the graph with no nodes, and a failed
      community detection yields modularity 0 and no communities. */
  lemma GlobalMeasuresOutcome(a: Matrix, directed: bool, weighted: bool, detection: CommunityDetection)
    ensures GlobalOf(a, directed, weighted, detection).Err? <==> |a| == 0
    ensures detection.DetectionFailed? && |a| >= 1 ==>
      GlobalOf(a, directed, weighted, detection).value.modularityQ == 0.0 &&
      GlobalOf(a, directed, weighted, detection).value.communities == []
  {
  }
}
