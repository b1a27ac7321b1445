/**
 * The graph that GraphMetrics reads off an n x n adjacency matrix: the
 * graph-type tests (symmetry, weightedness), the edge inventory, and the
 * per-node degree and strength as networkx defines them for a graph built
 * from the matrix.
 *
 * Cell (i, j) holds the weight of the edge i -> j, 0 meaning "no edge".
 * For an undirected graph (symmetric matrix) the edge {i, j} is recorded
 * once, from the upper triangle i <= j; a self-loop is the diagonal cell.
 */
module AdjacencyMatrix {
  import opened Sums
  import opened Wrappers

  type Matrix = seq<seq<int>>

  predicate IsSquare(a: Matrix)
  {
    forall i | 0 <= i < |a| :: |a[i]| == |a|
  }

  /** Cell (i, j) of the matrix, and 0 outside it. */
  function Entry(a: Matrix, i: nat, j: nat): int
  {
    if i < |a| && j < |a[i]| then a[i][j] else 0
  }

  function Transpose(a: Matrix): (t: Matrix)
    requires IsSquare(a)
    ensures |t| == |a| && IsSquare(t)
    ensures forall i, j | 0 <= i < |a| && 0 <= j < |a| :: t[i][j] == a[j][i]
  {
    seq(|a|, i requires 0 <= i < |a| => seq(|a|, j requires 0 <= j < |a| => a[j][i]))
  }

  /** The matrix equals its transpose (exact comparison of integers). */
  predicate IsSymmetric(a: Matrix)
    requires IsSquare(a)
  {
    a == Transpose(a)
  }

  /** The distinct values that occur in the matrix. */
  function UniqueValues(a: Matrix): set<int>
  {
    set i: nat, j: nat | i < |a| && j < |a| :: Entry(a, i, j)
  }

  /** Some distinct value of the matrix is neither 0 nor 1. */
  predicate IsWeighted(a: Matrix)
  {
    exists v | v in UniqueValues(a) :: v != 0 && v != 1
  }

  /** Cell (i, j) equals cell (j, i) for every i, j. */
  predicate IsMirrored(a: Matrix)
    requires IsSquare(a)
  {
    forall i, j | 0 <= i < |a| && 0 <= j < |a| :: a[i][j] == a[j][i]
  }

  /** Symmetry is exactly "cell (i, j) equals cell (j, i) for every i, j". */
  lemma SymmetricIffMirrored(a: Matrix)
    requires IsSquare(a)
    ensures IsSymmetric(a) <==> IsMirrored(a)
  {
    var t := Transpose(a);
    if forall i, j | 0 <= i < |a| && 0 <= j < |a| :: a[i][j] == a[j][i] {
      forall i | 0 <= i < |a|
        ensures a[i] == t[i]
      {
      }
    }
  }

  /** Weighted exactly when some cell holds a value other than 0 and 1. */
  lemma WeightedIffNonBinaryCell(a: Matrix)
    ensures IsWeighted(a) <==>
      exists i: nat, j: nat | i < |a| && j < |a| :: Entry(a, i, j) != 0 && Entry(a, i, j) != 1
  {
    if IsWeighted(a) {
      var v :| v in UniqueValues(a) && v != 0 && v != 1;
      var i: nat, j: nat :| i < |a| && j < |a| && Entry(a, i, j) == v;
    }
    if exists i: nat, j: nat | i < |a| && j < |a| :: Entry(a, i, j) != 0 && Entry(a, i, j) != 1 {
      var i: nat, j: nat :| i < |a| && j < |a| && Entry(a, i, j) != 0 && Entry(a, i, j) != 1;
      assert Entry(a, i, j) in UniqueValues(a);
    }
  }

  /** A 0/1 matrix is never weighted. */
  lemma BinaryMatrixIsUnweighted(a: Matrix)
    requires forall i: nat, j: nat | i < |a| && j < |a| :: Entry(a, i, j) == 0 || Entry(a, i, j) == 1
    ensures !IsWeighted(a)
  {
    WeightedIffNonBinaryCell(a);
  }

  // ---------------------------------------------------------------------
  // Edge inventory

  /** The graph has an edge u -> v: the cell is nonzero. */
  predicate Arc(a: Matrix, u: nat, v: nat)
  {
    Entry(a, u, v) != 0
  }

  /** 1 when there is an edge i -> j, else 0. */
  function Cell(a: Matrix, i: nat, j: nat): int
  {
    if Arc(a, i, j) then 1 else 0
  }

  /** 1 when cell (i, j) is recorded as an edge: every non-zero cell of a
      directed graph, the non-zero cells with i <= j of an undirected one. */
  function Kept(a: Matrix, directed: bool, i: nat, j: nat): int
  {
    if directed || i <= j then Cell(a, i, j) else 0
  }

  function RowEdgeCount(a: Matrix, directed: bool, i: nat): int
  {
    Sum(|a|, (j: nat) => Kept(a, directed, i, j))
  }

  /** m, the number of edges of the graph. */
  function EdgeCount(a: Matrix, directed: bool): int
  {
    Sum(|a|, (i: nat) => RowEdgeCount(a, directed, i))
  }

  datatype Edge = Edge(u: nat, v: nat, weight: Option<int>)

  /** The edge record for cell (i, j); it carries the weight only when the
      graph is weighted. */
  function EdgeAt(a: Matrix, weighted: bool, i: nat, j: nat): Edge
  {
    Edge(i, j, if weighted then Some(Entry(a, i, j)) else None)
  }

  /** The edges of row i with column below k, in column order. */
  function RowEdges(a: Matrix, directed: bool, weighted: bool, i: nat, k: nat): seq<Edge>
  {
    if k == 0 then
      []
    else
      var earlier := RowEdges(a, directed, weighted, i, k - 1);
      if Kept(a, directed, i, k - 1) == 1 then earlier + [EdgeAt(a, weighted, i, k - 1)] else earlier
  }

  /** The edges of the rows below r, row by row. */
  function EdgesOfRows(a: Matrix, directed: bool, weighted: bool, r: nat): seq<Edge>
  {
    if r == 0 then []
    else EdgesOfRows(a, directed, weighted, r - 1) + RowEdges(a, directed, weighted, r - 1, |a|)
  }

  /** All edges in row-major order, as the graph lists them. */
  function EdgeList(a: Matrix, directed: bool, weighted: bool): seq<Edge>
  {
    EdgesOfRows(a, directed, weighted, |a|)
  }

  lemma {:induction false} RowEdgesEnumerate(a: Matrix, directed: bool, weighted: bool, i: nat, k: nat)
    ensures |RowEdges(a, directed, weighted, i, k)| == Sum(k, (j: nat) => Kept(a, directed, i, j))
    ensures forall e | e in RowEdges(a, directed, weighted, i, k) ::
      e.u == i && e.v < k && Kept(a, directed, i, e.v) == 1 && e == EdgeAt(a, weighted, i, e.v)
    ensures forall j | 0 <= j < k && Kept(a, directed, i, j) == 1 ::
      EdgeAt(a, weighted, i, j) in RowEdges(a, directed, weighted, i, k)
  {
    if k > 0 {
      RowEdgesEnumerate(a, directed, weighted, i, k - 1);
    }
  }

  lemma {:induction false} EdgesOfRowsEnumerate(a: Matrix, directed: bool, weighted: bool, r: nat)
    ensures |EdgesOfRows(a, directed, weighted, r)| == Sum(r, (i: nat) => RowEdgeCount(a, directed, i))
    ensures forall e | e in EdgesOfRows(a, directed, weighted, r) ::
      e.u < r && e.v < |a| && Kept(a, directed, e.u, e.v) == 1 && e == EdgeAt(a, weighted, e.u, e.v)
    ensures forall i, j | 0 <= i < r && 0 <= j < |a| && Kept(a, directed, i, j) == 1 ::
      EdgeAt(a, weighted, i, j) in EdgesOfRows(a, directed, weighted, r)
  {
    if r > 0 {
      EdgesOfRowsEnumerate(a, directed, weighted, r - 1);
      RowEdgesEnumerate(a, directed, weighted, r - 1, |a|);
    }
  }

  /** The edge list has exactly m entries, each a recorded cell of the
      matrix with both endpoints in 0..n-1, and every recorded cell is listed. */
  lemma EdgeListIsInventory(a: Matrix, directed: bool, weighted: bool)
    ensures |EdgeList(a, directed, weighted)| == EdgeCount(a, directed)
    ensures forall e | e in EdgeList(a, directed, weighted) ::
      e.u < |a| && e.v < |a| && Entry(a, e.u, e.v) != 0 && (directed || e.u <= e.v) &&
      e.weight == (if weighted then Some(Entry(a, e.u, e.v)) else None)
    ensures forall i, j | 0 <= i < |a| && 0 <= j < |a| && Entry(a, i, j) != 0 && (directed || i <= j) ::
      EdgeAt(a, weighted, i, j) in EdgeList(a, directed, weighted)
  {
    EdgesOfRowsEnumerate(a, directed, weighted, |a|);
  }

  // ---------------------------------------------------------------------
  // Degree and strength

  /** Number of edges into j. */
  function InDegree(a: Matrix, j: nat): int
  {
    Sum(|a|, (i: nat) => Cell(a, i, j))
  }

  /** Number of edges out of i. */
  function OutDegree(a: Matrix, i: nat): int
  {
    Sum(|a|, (j: nat) => Cell(a, i, j))
  }

  /** Degree of i in an undirected graph: its neighbours, a self-loop counting twice. */
  function Degree(a: Matrix, i: nat): int
  {
    OutDegree(a, i) + Cell(a, i, i)
  }

  /** The per-node degree of the local measures: in-degree when directed. */
  function LocalDegree(a: Matrix, directed: bool, i: nat): int
  {
    if directed then InDegree(a, i) else Degree(a, i)
  }

  /** The graph's own degree of i: in-degree plus out-degree when directed. */
  function TotalDegree(a: Matrix, directed: bool, i: nat): int
  {
    if directed then InDegree(a, i) + OutDegree(a, i) else Degree(a, i)
  }

  function InStrength(a: Matrix, j: nat): int
  {
    Sum(|a|, (i: nat) => Entry(a, i, j))
  }

  function OutStrength(a: Matrix, i: nat): int
  {
    Sum(|a|, (j: nat) => Entry(a, i, j))
  }

  /** Weighted degree of i: the weights of its edges, in and out when
      directed, a self-loop's weight counting twice when undirected. */
  function TotalStrength(a: Matrix, directed: bool, i: nat): int
  {
    if directed then InStrength(a, i) + OutStrength(a, i) else OutStrength(a, i) + Entry(a, i, i)
  }

  // ---------------------------------------------------------------------
  // Handshake lemmas

  lemma OutDegreesCountDirectedEdges(a: Matrix)
    ensures Sum(|a|, (i: nat) => OutDegree(a, i)) == EdgeCount(a, true)
  {
    forall i | 0 <= i < |a|
      ensures OutDegree(a, i) == RowEdgeCount(a, true, i)
    {
      SumCongruent(|a|, (j: nat) => Cell(a, i, j), (j: nat) => Kept(a, true, i, j));
    }
    SumCongruent(|a|, (i: nat) => OutDegree(a, i), (i: nat) => RowEdgeCount(a, true, i));
  }

  /** In a directed graph the in-degrees add up to m. */
  lemma InDegreesCountDirectedEdges(a: Matrix)
    ensures Sum(|a|, (j: nat) => InDegree(a, j)) == EdgeCount(a, true)
  {
    var n := |a|;
    var f := (i: nat, j: nat) => Cell(a, i, j);
    SumSwap(n, n, f);
    forall i | 0 <= i < n
      ensures Sum(n, (j: nat) => f(i, j)) == OutDegree(a, i)
    {
      SumCongruent(n, (j: nat) => f(i, j), (j: nat) => Cell(a, i, j));
    }
    SumCongruent(n, (i: nat) => Sum(n, (j: nat) => f(i, j)), (i: nat) => OutDegree(a, i));
    forall j | 0 <= j < n
      ensures Sum(n, (i: nat) => f(i, j)) == InDegree(a, j)
    {
      SumCongruent(n, (i: nat) => f(i, j), (i: nat) => Cell(a, i, j));
    }
    SumCongruent(n, (j: nat) => Sum(n, (i: nat) => f(i, j)), (j: nat) => InDegree(a, j));
    OutDegreesCountDirectedEdges(a);
  }

  /** In a directed graph the total (in plus out) degrees add up to 2m. */
  lemma TotalDegreesDirected(a: Matrix)
    ensures Sum(|a|, (i: nat) => TotalDegree(a, true, i)) == 2 * EdgeCount(a, true)
  {
    InDegreesCountDirectedEdges(a);
    OutDegreesCountDirectedEdges(a);
    SumAdd(|a|, (i: nat) => InDegree(a, i), (i: nat) => OutDegree(a, i), (i: nat) => TotalDegree(a, true, i));
  }

  function StrictUpper(a: Matrix, i: nat): int
  {
    Sum(|a|, (j: nat) => if i < j then Cell(a, i, j) else 0)
  }

  function StrictLower(a: Matrix, i: nat): int
  {
    Sum(|a|, (j: nat) => if j < i then Cell(a, i, j) else 0)
  }

  /** A row splits into its strict upper part, strict lower part and diagonal cell. */
  lemma RowSplit(a: Matrix, i: nat)
    requires i < |a|
    ensures OutDegree(a, i) == StrictUpper(a, i) + StrictLower(a, i) + Cell(a, i, i)
    ensures RowEdgeCount(a, false, i) == StrictUpper(a, i) + Cell(a, i, i)
  {
    var n := |a|;
    var up := (j: nat) => if i < j then Cell(a, i, j) else 0;
    var low := (j: nat) => if j < i then Cell(a, i, j) else 0;
    var diag := (j: nat) => if j == i then Cell(a, i, j) else 0;
    var upDiag := (j: nat) => up(j) + diag(j);
    SumSinglePoint(n, diag, i);
    SumAdd(n, up, diag, upDiag);
    SumAdd(n, upDiag, low, (j: nat) => Cell(a, i, j));
    SumAdd(n, up, diag, (j: nat) => Kept(a, false, i, j));
  }

  /** In a symmetric matrix the strict lower triangle has as many edges as the strict upper one. */
  lemma LowerMirrorsUpper(a: Matrix)
    requires IsSquare(a) && IsSymmetric(a)
    ensures Sum(|a|, (i: nat) => StrictLower(a, i)) == Sum(|a|, (i: nat) => StrictUpper(a, i))
  {
    var n := |a|;
    SymmetricIffMirrored(a);
    var g := (i: nat, j: nat) => if j < i then Cell(a, i, j) else 0;
    SumSwap(n, n, g);
    forall i | 0 <= i < n
      ensures Sum(n, (j: nat) => g(i, j)) == StrictLower(a, i)
    {
      SumCongruent(n, (j: nat) => g(i, j), (j: nat) => if j < i then Cell(a, i, j) else 0);
    }
    SumCongruent(n, (i: nat) => Sum(n, (j: nat) => g(i, j)), (i: nat) => StrictLower(a, i));
    forall j | 0 <= j < n
      ensures Sum(n, (i: nat) => g(i, j)) == StrictUpper(a, j)
    {
      SumCongruent(n, (i: nat) => g(i, j), (i: nat) => if j < i then Cell(a, j, i) else 0);
    }
    SumCongruent(n, (j: nat) => Sum(n, (i: nat) => g(i, j)), (j: nat) => StrictUpper(a, j));
  }

  /** In an undirected graph the degrees add up to 2m (a self-loop adds 2). */
  lemma DegreesCountUndirectedEdgesTwice(a: Matrix)
    requires IsSquare(a) && IsSymmetric(a)
    ensures Sum(|a|, (i: nat) => Degree(a, i)) == 2 * EdgeCount(a, false)
  {
    var n := |a|;
    var su := (i: nat) => StrictUpper(a, i);
    var sl := (i: nat) => StrictLower(a, i);
    var d := (i: nat) => Cell(a, i, i);
    var sud := (i: nat) => su(i) + d(i);
    var sld := (i: nat) => sl(i) + d(i);
    forall i | 0 <= i < n
      ensures Degree(a, i) == sud(i) + sld(i)
      ensures RowEdgeCount(a, false, i) == sud(i)
    {
      RowSplit(a, i);
    }
    LowerMirrorsUpper(a);
    SumAdd(n, su, d, sud);
    SumAdd(n, sl, d, sld);
    SumAdd(n, sud, sld, (i: nat) => Degree(a, i));
    SumCongruent(n, (i: nat) => RowEdgeCount(a, false, i), sud);
  }

  /** The degree that the averages use adds up to 2m whether or not the graph
      is directed (an undirected graph has a symmetric matrix). */
  lemma TotalDegreesCountEdgesTwice(a: Matrix, directed: bool)
    requires IsSquare(a) && (directed || IsSymmetric(a))
    ensures Sum(|a|, (i: nat) => TotalDegree(a, directed, i)) == 2 * EdgeCount(a, directed)
  {
    if directed {
      TotalDegreesDirected(a);
    } else {
      DegreesCountUndirectedEdgesTwice(a);
      SumCongruent(|a|, (i: nat) => TotalDegree(a, directed, i), (i: nat) => Degree(a, i));
    }
  }

  /** With local degree = in-degree, the local degrees of a directed graph add up to m. */
  lemma LocalDegreesDirected(a: Matrix)
    ensures Sum(|a|, (i: nat) => LocalDegree(a, true, i)) == EdgeCount(a, true)
  {
    InDegreesCountDirectedEdges(a);
    SumCongruent(|a|, (i: nat) => LocalDegree(a, true, i), (i: nat) => InDegree(a, i));
  }

  /** In an unweighted graph every weight is 1, so the weighted degree
      equals the degree node by node. */
  lemma UnweightedStrengthIsDegree(a: Matrix, directed: bool, i: nat)
    requires IsSquare(a) && !IsWeighted(a)
    ensures TotalStrength(a, directed, i) == TotalDegree(a, directed, i)
  {
    WeightedIffNonBinaryCell(a);
    assert forall p: nat, q: nat :: Entry(a, p, q) == Cell(a, p, q) by {
      forall p: nat, q: nat
        ensures Entry(a, p, q) == Cell(a, p, q)
      {
        if p < |a| && q < |a[p]| {
          assert Entry(a, p, q) == 0 || Entry(a, p, q) == 1;
        }
      }
    }
    SumCongruent(|a|, (j: nat) => Entry(a, i, j), (j: nat) => Cell(a, i, j));
    SumCongruent(|a|, (k: nat) => Entry(a, k, i), (k: nat) => Cell(a, k, i));
  }

  // ---------------------------------------------------------------------
  // Complete and empty graphs

  /** A loop-free complete graph: every off-diagonal cell is an edge. */
  predicate IsCompleteLoopFree(a: Matrix)
  {
    forall i: nat, j: nat | i < |a| && j < |a| :: (Entry(a, i, j) != 0 <==> i != j)
  }

  /** A complete loop-free undirected graph on n nodes has n(n-1)/2 edges. */
  lemma CompleteGraphEdgeCount(a: Matrix)
    requires IsSquare(a) && IsSymmetric(a) && IsCompleteLoopFree(a)
    ensures 2 * EdgeCount(a, false) == |a| * (|a| - 1)
  {
    var n := |a|;
    forall i | 0 <= i < n
      ensures Degree(a, i) == n - 1
    {
      var diag := (j: nat) => if j == i then 1 else 0;
      SumSinglePoint(n, diag, i);
      SumConstant(n, (j: nat) => 1, 1);
      SumAdd(n, (j: nat) => Cell(a, i, j), diag, (j: nat) => 1);
    }
    SumConstant(n, (i: nat) => Degree(a, i), n - 1);
    DegreesCountUndirectedEdgesTwice(a);
  }

  /** A matrix of zeros has no edges. */
  lemma ZeroMatrixHasNoEdges(a: Matrix, directed: bool)
    requires forall i: nat, j: nat | i < |a| && j < |a| :: Entry(a, i, j) == 0
    ensures EdgeCount(a, directed) == 0
  {
    forall i | 0 <= i < |a|
      ensures RowEdgeCount(a, directed, i) == 0
    {
      SumConstant(|a|, (j: nat) => Kept(a, directed, i, j), 0);
    }
    SumConstant(|a|, (i: nat) => RowEdgeCount(a, directed, i), 0);
  }
}
