/**
 * Hop distances and reachability in the graph of an adjacency matrix,
 * restricted to a node set c (the subgraph induced by c; c is the whole
 * node set 0..n-1 for the graph itself).
 *
 * Ball(k) is the set of nodes of c within k hops of the source; the hop
 * distance to a node is the first k whose ball holds it. Edge weights are
 * ignored: diameter and average path length count hops.
 */
module Reachability {
  import opened AdjacencyMatrix

  /** The node ids 0..n-1. */
  function NodeSet(n: nat): (s: set<nat>)
    ensures |s| == n
    ensures forall v: nat :: v in s <==> v < n
  {
    if n == 0 then {} else NodeSet(n - 1) + {n - 1}
  }

  /** The nodes of c one hop away from a node of s. */
  function Step(a: Matrix, c: set<nat>, s: set<nat>): set<nat>
  {
    set w | w in c && exists v :: v in s && Arc(a, v, w)
  }

  /** The nodes of c within k hops of src, moving only through c. */
  function Ball(a: Matrix, c: set<nat>, src: nat, k: nat): set<nat>
  {
    if k == 0 then {src} else Ball(a, c, src, k - 1) + Step(a, c, Ball(a, c, src, k - 1))
  }

  /** The first level from k on whose ball holds dst; -1 if none below |c|. */
  function LevelFrom(a: Matrix, c: set<nat>, src: nat, dst: nat, k: nat): (r: int)
    ensures r == -1 || k <= r < |c|
    ensures r >= 0 ==> dst in Ball(a, c, src, r)
    ensures forall i | k <= i < |c| && (r == -1 || i < r) :: dst !in Ball(a, c, src, i)
    decreases |c| - k
  {
    if k >= |c| then -1
    else if dst in Ball(a, c, src, k) then k
    else LevelFrom(a, c, src, dst, k + 1)
  }

  /** The hop distance from src to dst inside c, or -1 when dst is not reachable. */
  function Dist(a: Matrix, c: set<nat>, src: nat, dst: nat): int
  {
    LevelFrom(a, c, src, dst, 0)
  }

  // ---------------------------------------------------------------------
  // Sets

  lemma {:induction false} SubsetNoLarger<T>(s: set<T>, t: set<T>)
    requires s <= t
    ensures |s| <= |t|
  {
    if s != {} {
      var x :| x in s;
      SubsetNoLarger(s - {x}, t - {x});
    }
  }

  lemma ProperSubsetSmaller<T>(s: set<T>, t: set<T>)
    requires s <= t && s != t
    ensures |s| < |t|
  {
    var d := t - s;
    assert t == s + d;
    assert d != {};
    var x :| x in d;
    SubsetNoLarger(s, t - {x});
  }

  // ---------------------------------------------------------------------
  // Balls

  lemma StepUnion(a: Matrix, c: set<nat>, s: set<nat>, t: set<nat>)
    ensures Step(a, c, s + t) == Step(a, c, s) + Step(a, c, t)
  {
  }

  lemma StepMonotone(a: Matrix, c: set<nat>, s: set<nat>, t: set<nat>)
    requires s <= t
    ensures Step(a, c, s) <= Step(a, c, t)
  {
  }

  lemma {:induction false} BallMonotone(a: Matrix, c: set<nat>, src: nat, i: nat, j: nat)
    requires i <= j
    ensures Ball(a, c, src, i) <= Ball(a, c, src, j)
  {
    if i < j {
      BallMonotone(a, c, src, i, j - 1);
    }
  }

  lemma {:induction false} BallInside(a: Matrix, c: set<nat>, src: nat, k: nat)
    requires src in c
    ensures Ball(a, c, src, k) <= c
  {
    if k > 0 {
      BallInside(a, c, src, k - 1);
    }
  }

  /** A member of a smaller ball is a member of a larger one. */
  lemma BallMonotoneAt(a: Matrix, c: set<nat>, src: nat, i: nat, j: nat, x: nat)
    requires i <= j && x in Ball(a, c, src, i)
    ensures x in Ball(a, c, src, j)
  {
    BallMonotone(a, c, src, i, j);
  }

  /** A member of a ball around a node of c lies in c. */
  lemma BallInsideAt(a: Matrix, c: set<nat>, src: nat, k: nat, x: nat)
    requires src in c && x in Ball(a, c, src, k)
    ensures x in c
  {
    BallInside(a, c, src, k);
  }

  /** The ball of radius m = k + 1 is the ball of radius k and one more step. */
  lemma BallUnfold(a: Matrix, c: set<nat>, src: nat, k: nat, m: nat)
    requires m == k + 1
    ensures Ball(a, c, src, m) == Ball(a, c, src, k) + Step(a, c, Ball(a, c, src, k))
  {
  }

  /** An arc out of the ball of radius k into c reaches the ball of radius m = k + 1. */
  lemma Extend(a: Matrix, c: set<nat>, src: nat, k: nat, m: nat, w: nat, t: nat)
    requires m == k + 1 && w in Ball(a, c, src, k) && t in c && Arc(a, w, t)
    ensures t in Ball(a, c, src, m)
  {
    assert t in Step(a, c, Ball(a, c, src, k));
    BallUnfold(a, c, src, k, m);
  }

  /** Once a ball stops growing it never grows again: every later ball lies inside it. */
  lemma {:induction false} BallStable(a: Matrix, c: set<nat>, src: nat, k: nat, m: nat, j: nat)
    requires m == k + 1 && Ball(a, c, src, m) <= Ball(a, c, src, k)
    requires k <= j
    ensures Ball(a, c, src, j) <= Ball(a, c, src, k)
    decreases j
  {
    if k < j {
      BallStable(a, c, src, k, m, j - 1);
      StepMonotone(a, c, Ball(a, c, src, j - 1), Ball(a, c, src, k));
      BallUnfold(a, c, src, k, m);
      BallUnfold(a, c, src, j - 1, j);
    }
  }

  /** The ball around src gains a node at step i. */
  ghost predicate GrowsAt(a: Matrix, c: set<nat>, src: nat, i: nat)
  {
    exists x :: x in Ball(a, c, src, i + 1) && x !in Ball(a, c, src, i)
  }

  /** A ball that grows at step k - 1 gains at least one node. */
  lemma GrowthStep(a: Matrix, c: set<nat>, src: nat, k: nat)
    requires k > 0 && GrowsAt(a, c, src, k - 1)
    ensures |Ball(a, c, src, k - 1)| < |Ball(a, c, src, k)|
  {
    var x :| x in Ball(a, c, src, k) && x !in Ball(a, c, src, k - 1);
    BallMonotone(a, c, src, k - 1, k);
    ProperSubsetSmaller(Ball(a, c, src, k - 1), Ball(a, c, src, k));
  }

  /** A ball that grew at each of the first k steps has more than k nodes. */
  lemma BallGrowth(a: Matrix, c: set<nat>, src: nat, k: nat)
    requires forall i | 0 <= i < k :: GrowsAt(a, c, src, i)
    ensures |Ball(a, c, src, k)| >= k + 1
  {
    forall i | 0 < i <= k
      ensures |Ball(a, c, src, i - 1)| < |Ball(a, c, src, i)|
    {
      GrowthStep(a, c, src, i);
    }
    assert |Ball(a, c, src, 0)| == 1;
    StrictlyIncreasing((i: nat) => |Ball(a, c, src, i)|, k);
  }

  /** A sequence of integers that rises at each of its first k steps gains at least k. */
  lemma {:induction false} StrictlyIncreasing(f: nat -> int, k: nat)
    requires forall i: nat | 0 < i <= k :: f(i - 1) < f(i)
    ensures f(k) >= f(0) + k
  {
    if k > 0 {
      StrictlyIncreasing(f, k - 1);
    }
  }

  /** A ball inside c cannot grow at each of its first k steps unless k < |c|. */
  lemma GrowthBounded(a: Matrix, c: set<nat>, src: nat, k: nat)
    requires src in c
    requires forall i | 0 <= i < k :: GrowsAt(a, c, src, i)
    ensures k < |c|
  {
    BallGrowth(a, c, src, k);
    BallInside(a, c, src, k);
    SubsetNoLarger(Ball(a, c, src, k), c);
  }

  /** Every node reachable from src in c is within |c| - 1 hops. */
  lemma Saturation(a: Matrix, c: set<nat>, src: nat, j: nat)
    requires src in c
    ensures Ball(a, c, src, j) <= Ball(a, c, src, |c| - 1)
  {
    var last := |c| - 1;
    if forall i | 0 <= i < |c| :: GrowsAt(a, c, src, i) {
      GrowthBounded(a, c, src, |c|);
      assert false;
    }
    var k :| 0 <= k < |c| && !GrowsAt(a, c, src, k);
    if j <= last {
      BallMonotone(a, c, src, j, last);
    } else {
      BallStable(a, c, src, k, k + 1, j);
      BallMonotone(a, c, src, k, last);
    }
  }

  /** A node reachable in any number of hops is within |c| - 1 hops. */
  lemma SaturationAt(a: Matrix, c: set<nat>, src: nat, j: nat, x: nat)
    requires src in c && x in Ball(a, c, src, j)
    ensures x in Ball(a, c, src, |c| - 1)
  {
    Saturation(a, c, src, j);
  }

  // ---------------------------------------------------------------------
  // Distances

  /** A node first reached at level L (L < |c|) is at distance L. */
  lemma DistIsFirstLevel(a: Matrix, c: set<nat>, src: nat, dst: nat, level: nat)
    requires level < |c|
    requires dst in Ball(a, c, src, level)
    requires level == 0 || dst !in Ball(a, c, src, level - 1)
    ensures Dist(a, c, src, dst) == level
  {
    var d := LevelFrom(a, c, src, dst, 0);
    assert 0 <= d <= level;
    if d < level {
      BallMonotoneAt(a, c, src, d, level - 1, dst);
      assert false;
    }
  }

  /** A node outside every ball is at distance -1, and conversely. */
  lemma DistUnreachable(a: Matrix, c: set<nat>, src: nat, dst: nat)
    requires src in c
    ensures Dist(a, c, src, dst) == -1 <==> forall k: nat :: dst !in Ball(a, c, src, k)
  {
    if Dist(a, c, src, dst) == -1 {
      assert dst !in Ball(a, c, src, |c| - 1);
      forall k: nat
        ensures dst !in Ball(a, c, src, k)
      {
        Saturation(a, c, src, k);
      }
    } else {
      var d := Dist(a, c, src, dst);
      assert d >= 0 && dst in Ball(a, c, src, d);
    }
  }

  /** A node is at distance 0 exactly when it is the source, which lies in c. */
  lemma DistZero(a: Matrix, c: set<nat>, src: nat, dst: nat)
    requires src in c
    ensures Dist(a, c, src, dst) == 0 <==> dst == src
  {
    assert Ball(a, c, src, 0) == {src};
  }

  // ---------------------------------------------------------------------
  // Reachability and components of the whole graph

  /** The nodes of c reachable from src inside c. */
  function Reachable(a: Matrix, c: set<nat>, src: nat): set<nat>
  {
    set t | t in c && Dist(a, c, src, t) >= 0
  }

  /** The nodes of the graph reachable from v. */
  function Reach(a: Matrix, v: nat): set<nat>
  {
    Reachable(a, NodeSet(|a|), v)
  }

  /** The connected component of v (undirected), or its strongly connected
      component (directed): the nodes reachable from v that also reach v. */
  function Component(a: Matrix, directed: bool, v: nat): set<nat>
  {
    if directed then set u | u in Reach(a, v) && v in Reach(a, u) else Reach(a, v)
  }

  /** Connected (undirected) or strongly connected (directed); false for the null graph. */
  predicate IsConnected(a: Matrix, directed: bool)
  {
    |a| > 0 && Component(a, directed, 0) == NodeSet(|a|)
  }

  /** Every node of c reaches every other node of c inside c. */
  predicate InternallyConnected(a: Matrix, c: set<nat>)
  {
    forall s, t | s in c && t in c :: Dist(a, c, s, t) >= 0
  }

  // ---------------------------------------------------------------------
  // Components are connected

  /** src reaches dst moving only through c. */
  ghost predicate Reaches(a: Matrix, c: set<nat>, src: nat, dst: nat)
  {
    exists k: nat :: dst in Ball(a, c, src, k)
  }

  /** A member of some ball is reached. */
  lemma ReachesWithin(a: Matrix, c: set<nat>, src: nat, x: nat, k: nat)
    requires x in Ball(a, c, src, k)
    ensures Reaches(a, c, src, x)
  {
  }

  /** An arc into c is a one-hop walk. */
  lemma ArcReaches(a: Matrix, c: set<nat>, w: nat, x: nat)
    requires x in c && Arc(a, w, x)
    ensures Reaches(a, c, w, x)
  {
    Extend(a, c, w, 0, 1, w, x);
  }

  lemma ReachesIffDist(a: Matrix, c: set<nat>, src: nat, dst: nat)
    requires src in c
    ensures Reaches(a, c, src, dst) <==> Dist(a, c, src, dst) >= 0
  {
    DistUnreachable(a, c, src, dst);
    if Reaches(a, c, src, dst) {
      var k: nat :| dst in Ball(a, c, src, k);
      if Dist(a, c, src, dst) == -1 {
        assert dst !in Ball(a, c, src, k);
      }
    } else {
      forall k: nat
        ensures dst !in Ball(a, c, src, k)
      {
      }
    }
  }

  /** Walking i hops, then j hops, is walking n = i + j hops. */
  lemma {:induction false} BallTransitive(a: Matrix, c: set<nat>, s: nat, u: nat, t: nat, i: nat, j: nat, n: nat)
    requires n == i + j
    requires u in Ball(a, c, s, i) && t in Ball(a, c, u, j)
    ensures t in Ball(a, c, s, n)
    decreases j
  {
    if j == 0 {
      assert t == u;
    } else if t in Ball(a, c, u, j - 1) {
      BallTransitive(a, c, s, u, t, i, j - 1, n - 1);
      BallMonotoneAt(a, c, s, n - 1, n, t);
    } else {
      var w :| w in Ball(a, c, u, j - 1) && Arc(a, w, t);
      BallTransitive(a, c, s, u, w, i, j - 1, n - 1);
      Extend(a, c, s, n - 1, n, w, t);
    }
  }

  lemma ReachesTransitive(a: Matrix, c: set<nat>, x: nat, y: nat, z: nat)
    requires Reaches(a, c, x, y) && Reaches(a, c, y, z)
    ensures Reaches(a, c, x, z)
  {
    var i: nat :| y in Ball(a, c, x, i);
    var j: nat :| z in Ball(a, c, y, j);
    BallTransitive(a, c, x, y, z, i, j, i + j);
  }

  /** Every arc can be walked backwards. */
  ghost predicate ArcsSymmetric(a: Matrix)
  {
    forall u, v :: Arc(a, u, v) ==> Arc(a, v, u)
  }

  /** A mirrored square matrix has only two-way arcs. */
  lemma MirroredArcsSymmetric(a: Matrix)
    requires IsSquare(a) && IsMirrored(a)
    ensures ArcsSymmetric(a)
  {
  }

  /** With two-way arcs every hop can be walked back. */
  lemma {:induction false} BallSymmetric(a: Matrix, c: set<nat>, s: nat, t: nat, k: nat)
    requires ArcsSymmetric(a) && s in c
    requires t in Ball(a, c, s, k)
    ensures s in Ball(a, c, t, k)
    decreases k
  {
    if k == 0 {
    } else if t in Ball(a, c, s, k - 1) {
      BallSymmetric(a, c, s, t, k - 1);
      BallMonotoneAt(a, c, t, k - 1, k, s);
    } else {
      var w :| w in Ball(a, c, s, k - 1) && Arc(a, w, t);
      BallSymmetric(a, c, s, w, k - 1);
      BallInsideAt(a, c, s, k - 1, w);
      Prepend(a, c, t, w, s, k - 1, k);
    }
  }

  /** An arc t -> w into c followed by j hops from w is m = j + 1 hops from t. */
  lemma {:induction false} Prepend(a: Matrix, c: set<nat>, t: nat, w: nat, x: nat, j: nat, m: nat)
    requires m == j + 1 && w in c && Arc(a, t, w) && x in Ball(a, c, w, j)
    ensures x in Ball(a, c, t, m)
    decreases j
  {
    if j == 0 {
      Extend(a, c, t, 0, 1, t, w);
    } else if x in Ball(a, c, w, j - 1) {
      Prepend(a, c, t, w, x, j - 1, j);
      BallMonotoneAt(a, c, t, j, m, x);
    } else {
      var v :| v in Ball(a, c, w, j - 1) && Arc(a, v, x);
      Prepend(a, c, t, w, v, j - 1, j);
      Extend(a, c, t, j, m, v, x);
    }
  }

  lemma ReachesSymmetric(a: Matrix, c: set<nat>, x: nat, y: nat)
    requires ArcsSymmetric(a) && x in c
    requires Reaches(a, c, x, y)
    ensures Reaches(a, c, y, x)
  {
    var k: nat :| y in Ball(a, c, x, k);
    BallSymmetric(a, c, x, y, k);
  }

  /** The nodes of c on some walk inside c from src to dst. */
  ghost function Between(a: Matrix, c: set<nat>, src: nat, dst: nat): set<nat>
  {
    set y | y in c && Reaches(a, c, src, y) && Reaches(a, c, y, dst)
  }

  /** The last hop w -> x of a walk from s towards v stays between them. */
  lemma StepBetween(a: Matrix, c: set<nat>, d: set<nat>, s: nat, v: nat, w: nat, x: nat, k: nat)
    requires d <= c && s in d && Between(a, c, s, v) <= d
    requires x in Ball(a, c, s, k) && Reaches(a, c, x, v) && Arc(a, w, x)
    ensures x in d && Reaches(a, c, w, v)
  {
    BallInsideAt(a, c, s, k, x);
    ArcReaches(a, c, w, x);
    ReachesTransitive(a, c, w, x, v);
    ReachesWithin(a, c, s, x, k);
    assert x in Between(a, c, s, v);
  }

  /**
   * A sub-set d of c that holds every node on a walk from s to v keeps all
   * of those walks: a node k hops from s that still reaches v is k hops
   * from s inside d.
   */
  lemma {:induction false} WalksStayInside(a: Matrix, c: set<nat>, d: set<nat>, s: nat, v: nat, x: nat, k: nat)
    requires d <= c && s in d
    requires Between(a, c, s, v) <= d
    requires x in Ball(a, c, s, k) && Reaches(a, c, x, v)
    ensures x in Ball(a, d, s, k)
    decreases k
  {
    if k == 0 {
    } else if x in Ball(a, c, s, k - 1) {
      WalksStayInside(a, c, d, s, v, x, k - 1);
      BallMonotoneAt(a, d, s, k - 1, k, x);
    } else {
      var w :| w in Ball(a, c, s, k - 1) && Arc(a, w, x);
      StepBetween(a, c, d, s, v, w, x, k);
      WalksStayInside(a, c, d, s, v, w, k - 1);
      Extend(a, d, s, k - 1, k, w, x);
    }
  }

  /** Two nodes of one component reach each other inside it. */
  lemma ComponentPairConnected(a: Matrix, directed: bool, v: nat, s: nat, t: nat)
    requires IsSquare(a) && v < |a| && (directed || IsSymmetric(a))
    requires s in Component(a, directed, v) && t in Component(a, directed, v)
    ensures Dist(a, Component(a, directed, v), s, t) >= 0
  {
    var all, comp := NodeSet(|a|), Component(a, directed, v);
    assert v in Ball(a, all, v, 0);
    ReachesIffDist(a, all, v, s);
    ReachesIffDist(a, all, v, t);
    if directed {
      ReachesIffDist(a, all, s, v);
      ReachesIffDist(a, all, t, v);
    } else {
      SymmetricIffMirrored(a);
      MirroredArcsSymmetric(a);
      ReachesSymmetric(a, all, v, s);
      ReachesSymmetric(a, all, v, t);
    }
    ReachesTransitive(a, all, s, v, t);
    forall y | y in Between(a, all, s, v)
      ensures y in comp
    {
      var k: nat :| y in Ball(a, all, s, k);
      BallInsideAt(a, all, s, k, y);
      ReachesTransitive(a, all, v, s, y);
      ReachesIffDist(a, all, v, y);
      if directed {
        ReachesIffDist(a, all, y, v);
      }
    }
    var k: nat :| t in Ball(a, all, s, k);
    WalksStayInside(a, all, comp, s, v, t, k);
    ReachesIffDist(a, comp, s, t);
  }

  /**
   * The component of a node holds the node and is connected: every node of
   * it reaches every other through the component alone. Undirected
   * components need a symmetric matrix.
   */
  lemma ComponentIsConnected(a: Matrix, directed: bool, v: nat)
    requires IsSquare(a) && v < |a| && (directed || IsSymmetric(a))
    ensures v in Component(a, directed, v)
    ensures InternallyConnected(a, Component(a, directed, v))
  {
    var all := NodeSet(|a|);
    assert v in Ball(a, all, v, 0);
    ReachesIffDist(a, all, v, v);
    forall s, t | s in Component(a, directed, v) && t in Component(a, directed, v)
      ensures Dist(a, Component(a, directed, v), s, t) >= 0
    {
      ComponentPairConnected(a, directed, v, s, t);
    }
  }
}
