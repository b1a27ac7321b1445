/**
 * Breadth-first search over the graph of an adjacency matrix, as the graph
 * library runs it for shortest-path lengths, components, diameter and
 * average path length. Each method is proved against the hop-distance
 * specification of module Reachability.
 */
module Traversal {
  import opened Sums
  import opened AdjacencyMatrix
  import opened Reachability

  /** The elements of a sequence of node ids. */
  function Elems(s: seq<nat>): set<nat>
  {
    set v | v in s
  }

  /** The nodes first reached at hop k from src: the BFS frontier of level k. */
  function Layer(a: Matrix, c: set<nat>, src: nat, k: nat): set<nat>
  {
    if k == 0 then {src} else Ball(a, c, src, k) - Ball(a, c, src, k - 1)
  }

  /** The nodes x < w of c with an edge v -> x. */
  function RowStep(a: Matrix, c: set<nat>, v: nat, w: nat): set<nat>
  {
    set x | x in c && x < w && Arc(a, v, x)
  }

  /** Expanding only the last frontier gives the next ball. */
  lemma FrontierSuffices(a: Matrix, c: set<nat>, src: nat, k: nat)
    ensures Ball(a, c, src, k + 1) == Ball(a, c, src, k) + Step(a, c, Layer(a, c, src, k))
  {
    if k > 0 {
      BallMonotone(a, c, src, k - 1, k);
      var earlier := Ball(a, c, src, k - 1);
      assert Ball(a, c, src, k) == earlier + Layer(a, c, src, k);
      StepUnion(a, c, earlier, Layer(a, c, src, k));
    }
  }

  /** `after` gives label `level` to the unlabelled (negative) entries of `before` in `step`, and keeps the rest. */
  ghost predicate Relabelled(before: seq<int>, after: seq<int>, step: set<nat>, level: int)
  {
    |after| == |before| &&
    forall t | 0 <= t < |before| :: after[t] == if before[t] < 0 && t in step then level else before[t]
  }

  /** `next` holds exactly the entries of `step` unlabelled in `before`. */
  ghost predicate NewlyLabelled(before: seq<int>, next: seq<nat>, step: set<nat>)
  {
    forall t: nat :: t in next <==> t < |before| && before[t] < 0 && t in step
  }

  /**
   * One level of the BFS: every node of c one hop from the frontier and not
   * yet labelled gets label `level` and joins the next frontier.
   */
  method ExpandFrontier(a: Matrix, c: set<nat>, dist: array<int>, frontier: seq<nat>, level: nat)
    returns (next: seq<nat>)
    requires IsSquare(a) && dist.Length == |a|
    requires forall v | v in frontier :: v < |a|
    modifies dist
    ensures Relabelled(old(dist[..]), dist[..], Step(a, c, Elems(frontier)), level)
    ensures NewlyLabelled(old(dist[..]), next, Step(a, c, Elems(frontier)))
  {
    next := [];
    for i := 0 to |frontier|
      invariant Relabelled(old(dist[..]), dist[..], Step(a, c, Elems(frontier[..i])), level)
      invariant NewlyLabelled(old(dist[..]), next, Step(a, c, Elems(frontier[..i])))
    {
      var v := frontier[i];
      assert v in frontier;
      ghost var done := Step(a, c, Elems(frontier[..i]));
      for w: nat := 0 to |a|
        invariant Relabelled(old(dist[..]), dist[..], done + RowStep(a, c, v, w), level)
        invariant NewlyLabelled(old(dist[..]), next, done + RowStep(a, c, v, w))
      {
        assert RowStep(a, c, v, w + 1) == RowStep(a, c, v, w) + (if w in c && Arc(a, v, w) then {w} else {});
        if a[v][w] != 0 && w in c && dist[w] < 0 {
          dist[w] := level;
          next := next + [w];
        }
      }
      assert Elems(frontier[..i + 1]) == Elems(frontier[..i]) + {v};
      StepUnion(a, c, Elems(frontier[..i]), {v});
      assert Step(a, c, {v}) == RowStep(a, c, v, |a|);
    }
    assert frontier[..|frontier|] == frontier;
  }

  /** A nonempty BFS layer at level k means k < |c|: each earlier step added a node of c. */
  lemma LayerBound(a: Matrix, c: set<nat>, src: nat, k: nat, t: nat)
    requires src in c
    requires t in Layer(a, c, src, k)
    ensures k < |c|
  {
    if k >= |c| {
      SaturatedBelow(a, c, src, k, t);
      assert false;
    }
  }

  /** From level |c| on, a node of the ball was already in the previous ball. */
  lemma SaturatedBelow(a: Matrix, c: set<nat>, src: nat, k: nat, t: nat)
    requires src in c && k >= |c| && t in Ball(a, c, src, k)
    ensures t in Ball(a, c, src, k - 1)
  {
    SaturationAt(a, c, src, k, t);
    BallMonotoneAt(a, c, src, |c| - 1, k - 1, t);
  }

  /** An empty layer above level 0 means the ball has stopped growing for good. */
  lemma EmptyLayerSaturates(a: Matrix, c: set<nat>, src: nat, k: nat, j: nat)
    requires k > 0 && Layer(a, c, src, k) == {}
    ensures Ball(a, c, src, j) <= Ball(a, c, src, k)
  {
    if j <= k {
      BallMonotone(a, c, src, j, k);
    } else {
      forall x | x in Ball(a, c, src, k)
        ensures x in Ball(a, c, src, k - 1)
      {
        assert x !in Layer(a, c, src, k);
      }
      BallStable(a, c, src, k - 1, k, j);
      BallMonotone(a, c, src, k - 1, k);
    }
  }

  /** d labels exactly the nodes of `done`, each with its hop distance from src; the rest carry -1. */
  ghost predicate Labels(a: Matrix, c: set<nat>, src: nat, done: set<nat>, d: seq<int>)
  {
    |d| == |a| &&
    forall t | 0 <= t < |a| ::
      (d[t] >= 0 <==> t in done) &&
      d[t] == if d[t] >= 0 then Dist(a, c, src, t) else -1
  }

  /** Every node of layer k is at distance k, and a nonempty layer has k < |c|. */
  lemma LayerDistances(a: Matrix, c: set<nat>, src: nat, k: nat)
    requires src in c
    ensures forall t | t in Layer(a, c, src, k) :: k < |c| && Dist(a, c, src, t) == k
  {
    forall t | t in Layer(a, c, src, k)
      ensures k < |c| && Dist(a, c, src, t) == k
    {
      LayerBound(a, c, src, k, t);
      DistIsFirstLevel(a, c, src, t, k);
    }
  }

  /**
   * The relabelling step on plain sets: `ball` grows to `grown` by `step`,
   * and the new nodes `layer` are at distance level + 1.
   */
  lemma Relabel(a: Matrix, c: set<nat>, src: nat, ball: set<nat>, step: set<nat>, grown: set<nat>, layer: set<nat>,
                level: nat, before: seq<int>, after: seq<int>, next: seq<nat>)
    requires |before| == |a| && |after| == |a|
    requires grown == ball + step && layer == grown - ball
    requires forall t | t in grown :: t < |a|
    requires forall t | t in layer :: Dist(a, c, src, t) == level + 1
    requires Labels(a, c, src, ball, before)
    requires Relabelled(before, after, step, level + 1)
    requires NewlyLabelled(before, next, step)
    ensures Labels(a, c, src, grown, after)
    ensures Elems(next) == layer
  {
  }

  /** What one more BFS level adds, stated on sets. */
  lemma LevelFacts(a: Matrix, c: set<nat>, src: nat, level: nat)
    requires src in c && c <= NodeSet(|a|)
    ensures Ball(a, c, src, level + 1) == Ball(a, c, src, level) + Step(a, c, Layer(a, c, src, level))
    ensures Layer(a, c, src, level + 1) == Ball(a, c, src, level + 1) - Ball(a, c, src, level)
    ensures Ball(a, c, src, level + 1) <= NodeSet(|a|)
    ensures forall t | t in Layer(a, c, src, level + 1) :: level + 1 < |c| && Dist(a, c, src, t) == level + 1
  {
    FrontierSuffices(a, c, src, level);
    BallInside(a, c, src, level + 1);
    LayerDistances(a, c, src, level + 1);
  }

  /** Labelling the unlabelled neighbours of layer `level` with level + 1 labels the next ball. */
  lemma NextLevel(a: Matrix, c: set<nat>, src: nat, level: nat, frontier: seq<nat>,
                  before: seq<int>, after: seq<int>, next: seq<nat>)
    requires src in c && c <= NodeSet(|a|)
    requires Elems(frontier) == Layer(a, c, src, level)
    requires Labels(a, c, src, Ball(a, c, src, level), before)
    requires Relabelled(before, after, Step(a, c, Elems(frontier)), level + 1)
    requires NewlyLabelled(before, next, Step(a, c, Elems(frontier)))
    ensures Labels(a, c, src, Ball(a, c, src, level + 1), after)
    ensures Elems(next) == Layer(a, c, src, level + 1)
    ensures next != [] ==> level + 1 < |c|
  {
    LevelFacts(a, c, src, level);
    Relabel(a, c, src, Ball(a, c, src, level), Step(a, c, Layer(a, c, src, level)),
      Ball(a, c, src, level + 1), Layer(a, c, src, level + 1), level, before, after, next);
    if next != [] {
      assert next[0] in Elems(next);
    }
  }

  /** Before the first level only the source is labelled, with distance 0. */
  lemma Start(a: Matrix, c: set<nat>, src: nat, d: seq<int>)
    requires src in c && c <= NodeSet(|a|) && |d| == |a|
    requires forall t | 0 <= t < |a| :: d[t] == if t == src then 0 else -1
    ensures Labels(a, c, src, Ball(a, c, src, 0), d)
    ensures Elems([src]) == Layer(a, c, src, 0)
    ensures 0 < |c|
  {
    DistZero(a, c, src, src);
  }

  /** Once the frontier is empty, every unlabelled node is unreachable. */
  lemma Finished(a: Matrix, c: set<nat>, src: nat, level: nat, d: seq<int>)
    requires src in c && level > 0 && Layer(a, c, src, level) == {}
    requires Labels(a, c, src, Ball(a, c, src, level), d)
    ensures forall t | 0 <= t < |a| :: d[t] == Dist(a, c, src, t)
  {
    forall t | 0 <= t < |a| && d[t] < 0
      ensures Dist(a, c, src, t) == -1
    {
      forall j: nat
        ensures t !in Ball(a, c, src, j)
      {
        EmptyLayerSaturates(a, c, src, level, j);
      }
      DistUnreachable(a, c, src, t);
    }
  }

  /**
   * Single-source shortest path lengths (in hops) inside the subgraph
   * induced by c: level-synchronous BFS from src. dist[t] is the hop
   * distance, or -1 for a node not reached.
   */
  method HopDistances(a: Matrix, c: set<nat>, src: nat) returns (dist: seq<int>)
    requires IsSquare(a) && src in c && c <= NodeSet(|a|)
    ensures |dist| == |a|
    ensures forall t | 0 <= t < |a| :: dist[t] == Dist(a, c, src, t)
  {
    var n := |a|;
    var d := new int[n](_ => -1);
    d[src] := 0;
    var frontier: seq<nat> := [src];
    var level: nat := 0;
    Start(a, c, src, d[..]);
    while frontier != []
      invariant d.Length == n
      invariant forall v | v in frontier :: v < n
      invariant Elems(frontier) == Layer(a, c, src, level)
      invariant frontier != [] ==> level < |c|
      invariant frontier == [] ==> level > 0
      invariant Labels(a, c, src, Ball(a, c, src, level), d[..])
      decreases |c| - level
    {
      ghost var before := d[..];
      var next := ExpandFrontier(a, c, d, frontier, level + 1);
      NextLevel(a, c, src, level, frontier, before, d[..], next);
      frontier := next;
      level := level + 1;
    }
    Finished(a, c, src, level, d[..]);
    dist := d[..];
  }

  // ---------------------------------------------------------------------
  // Components

  /** The nodes reachable from v: the plain BFS behind the component functions. */
  method ReachSet(a: Matrix, v: nat) returns (r: set<nat>)
    requires IsSquare(a) && v < |a|
    ensures r == Reach(a, v)
  {
    var dist := HopDistances(a, NodeSet(|a|), v);
    r := set t: nat | t < |a| && dist[t] >= 0;
  }

  /**
   * The component of every node: its connected component when undirected,
   * its strongly connected component (reachable both ways) when directed.
   */
  method Components(a: Matrix, directed: bool) returns (comps: seq<set<nat>>)
    requires IsSquare(a)
    ensures |comps| == |a|
    ensures forall v | 0 <= v < |a| :: comps[v] == Component(a, directed, v)
  {
    var n := |a|;
    var reach: seq<set<nat>> := [];
    for v: nat := 0 to n
      invariant |reach| == v
      invariant forall u | 0 <= u < v :: reach[u] == Reach(a, u)
    {
      var r := ReachSet(a, v);
      reach := reach + [r];
    }
    comps := [];
    for v: nat := 0 to n
      invariant |comps| == v
      invariant forall u | 0 <= u < v :: comps[u] == Component(a, directed, u)
    {
      var comp := if directed then set u: nat | u < n && u in reach[v] && v in reach[u] else reach[v];
      comps := comps + [comp];
    }
  }

  /**
   * The first node, by id, whose component is at least as large as every
   * other: max(..., key=len) over components listed by their first node.
   */
  function FirstLargest(a: Matrix, directed: bool, k: nat): (b: nat)
    requires k >= 1
    ensures b < k
    ensures forall v | 0 <= v < k :: |Component(a, directed, v)| <= |Component(a, directed, b)|
    ensures forall v | 0 <= v < b :: |Component(a, directed, v)| < |Component(a, directed, b)|
  {
    if k == 1 then 0
    else
      var b := FirstLargest(a, directed, k - 1);
      if |Component(a, directed, k - 1)| > |Component(a, directed, b)| then k - 1 else b
  }

  /** Picks the largest component, the first one on ties. */
  method LargestComponent(a: Matrix, directed: bool, comps: seq<set<nat>>) returns (best: nat)
    requires |a| >= 1 && |comps| == |a|
    requires forall v | 0 <= v < |a| :: comps[v] == Component(a, directed, v)
    ensures best == FirstLargest(a, directed, |a|)
  {
    best := 0;
    for v: nat := 1 to |a|
      invariant best == FirstLargest(a, directed, v)
    {
      if |comps[v]| > |comps[best]| {
        best := v;
      }
    }
  }

  // ---------------------------------------------------------------------
  // Diameter and average path length of the subgraph induced by c

  /** The distance from s to t counted in c's statistics: 0 for t outside c. */
  function DistIn(a: Matrix, c: set<nat>, s: nat, t: nat): int
  {
    if t in c then Dist(a, c, s, t) else 0
  }

  /** The eccentricity of s: its largest distance to a node of c. */
  function Eccentricity(a: Matrix, c: set<nat>, s: nat): int
  {
    MaxOf(|a|, (t: nat) => DistIn(a, c, s, t))
  }

  /** The sum of the distances from s to the nodes of c. */
  function DistanceTotal(a: Matrix, c: set<nat>, s: nat): int
  {
    Sum(|a|, (t: nat) => DistIn(a, c, s, t))
  }

  function EccentricityIn(a: Matrix, c: set<nat>, s: nat): int
  {
    if s in c then Eccentricity(a, c, s) else 0
  }

  function DistanceTotalIn(a: Matrix, c: set<nat>, s: nat): int
  {
    if s in c then DistanceTotal(a, c, s) else 0
  }

  /** The diameter: the largest eccentricity over c. */
  function Diameter(a: Matrix, c: set<nat>): int
  {
    MaxOf(|a|, (s: nat) => EccentricityIn(a, c, s))
  }

  /** The sum of the distances over all ordered pairs of nodes of c. */
  function PathLengthTotal(a: Matrix, c: set<nat>): int
  {
    Sum(|a|, (s: nat) => DistanceTotalIn(a, c, s))
  }

  /** A total spread over the m(m - 1) ordered pairs of m nodes; 0 for fewer than two nodes. */
  function PairAverage(total: int, m: nat): real
  {
    if m <= 1 then 0.0
    else
      PairCountPositive(m);
      total as real / (m * (m - 1)) as real
  }

  /** Average shortest path length: the pair total over k(k - 1), 0 for a single node. */
  function AveragePathLength(a: Matrix, c: set<nat>): real
  {
    PairAverage(PathLengthTotal(a, c), |c|)
  }

  /** One BFS from s gives its eccentricity and its distance total. */
  method SourceStats(a: Matrix, c: set<nat>, s: nat) returns (ecc: int, sum: int)
    requires IsSquare(a) && c <= NodeSet(|a|) && s in c
    ensures ecc == Eccentricity(a, c, s)
    ensures sum == DistanceTotal(a, c, s)
  {
    var dist := HopDistances(a, c, s);
    var counted := seq(|a|, t requires 0 <= t < |a| => if t in c then dist[t] else 0);
    ecc := Maximum(counted, (t: nat) => DistIn(a, c, s, t));
    sum := Total(counted, (t: nat) => DistIn(a, c, s, t));
  }

  /** One BFS per node of c gives the diameter and the total of all distances. */
  method PathLengthStats(a: Matrix, c: set<nat>) returns (diameter: int, total: int)
    requires IsSquare(a) && c <= NodeSet(|a|)
    ensures diameter == Diameter(a, c)
    ensures total == PathLengthTotal(a, c)
  {
    var eccentricities, totals := [], [];
    for s: nat := 0 to |a|
      invariant |eccentricities| == s && |totals| == s
      invariant forall v | 0 <= v < s :: eccentricities[v] == EccentricityIn(a, c, v)
      invariant forall v | 0 <= v < s :: totals[v] == DistanceTotalIn(a, c, v)
    {
      var ecc, sum := 0, 0;
      if s in c {
        ecc, sum := SourceStats(a, c, s);
      }
      eccentricities, totals := eccentricities + [ecc], totals + [sum];
    }
    diameter := Maximum(eccentricities, (s: nat) => EccentricityIn(a, c, s));
    total := Total(totals, (s: nat) => DistanceTotalIn(a, c, s));
  }

  /** Every distance inside c is below |c|. */
  lemma DistInBelow(a: Matrix, c: set<nat>, s: nat, t: nat)
    requires |c| >= 1
    ensures DistIn(a, c, s, t) <= |c| - 1
  {
  }

  /** No eccentricity, hence no diameter, exceeds |c| - 1. */
  lemma DiameterAtMost(a: Matrix, c: set<nat>)
    requires |c| >= 1
    ensures Diameter(a, c) <= |c| - 1
  {
    forall s | 0 <= s < |a|
      ensures EccentricityIn(a, c, s) <= |c| - 1
    {
      forall t | 0 <= t < |a|
        ensures DistIn(a, c, s, t) <= |c| - 1
      {
        DistInBelow(a, c, s, t);
      }
      MaxOfAtMost(|a|, (t: nat) => DistIn(a, c, s, t), |c| - 1);
    }
    MaxOfAtMost(|a|, (s: nat) => EccentricityIn(a, c, s), |c| - 1);
  }

  /** The diameter is at least the distance between any two nodes of c. */
  lemma DiameterAtLeast(a: Matrix, c: set<nat>, s: nat, t: nat)
    requires c <= NodeSet(|a|) && s in c && t in c
    ensures Dist(a, c, s, t) <= Diameter(a, c)
  {
    MaxOfAtLeast(|a|, (t: nat) => DistIn(a, c, s, t), t);
    MaxOfAtLeast(|a|, (s: nat) => EccentricityIn(a, c, s), s);
  }

  /**
   * In a connected node set of two or more nodes the diameter is at least 1
   * and at most |c| - 1.
   */
  lemma DiameterBounds(a: Matrix, c: set<nat>)
    requires c <= NodeSet(|a|) && |c| >= 2
    requires InternallyConnected(a, c)
    ensures 1 <= Diameter(a, c) <= |c| - 1
  {
    DiameterAtMost(a, c);
    var s :| s in c;
    var others := c - {s};
    assert |others| == |c| - 1;
    var t :| t in others;
    assert Dist(a, c, s, t) >= 0;
    DistZero(a, c, s, t);
    DiameterAtLeast(a, c, s, t);
  }

  /** 1 for a member of c, 0 otherwise. */
  function Indicator(c: set<nat>, t: nat): int
  {
    if t in c then 1 else 0
  }

  /** The members of c below n. */
  function MembersBelow(c: set<nat>, n: nat): set<nat>
  {
    set t | t in c && t < n
  }

  /** Counting the members of c below n. */
  lemma {:induction false} CountMembers(n: nat, c: set<nat>)
    ensures Sum(n, (t: nat) => Indicator(c, t)) == |MembersBelow(c, n)|
  {
    if n == 0 {
      assert MembersBelow(c, 0) == {};
    } else {
      CountMembers(n - 1, c);
      MembersBelowStep(n - 1, n, c);
    }
  }

  /** Raising the bound from n to m = n + 1 adds n exactly when it is a member. */
  lemma MembersBelowStep(n: nat, m: nat, c: set<nat>)
    requires m == n + 1
    ensures |MembersBelow(c, m)| == |MembersBelow(c, n)| + Indicator(c, n)
  {
    var lower := MembersBelow(c, n);
    if n in c {
      assert MembersBelow(c, m) == lower + {n};
    } else {
      assert MembersBelow(c, m) == lower;
    }
  }

  /** Summing the indicator of a set of node ids over all n ids counts it. */
  lemma CountNodes(n: nat, c: set<nat>)
    requires c <= NodeSet(n)
    ensures Sum(n, (t: nat) => Indicator(c, t)) == |c|
  {
    CountMembers(n, c);
    assert MembersBelow(c, n) == c;
  }

  /** From one source of a connected c: between |c| - 1 and diameter * (|c| - 1) in total. */
  lemma SourceTotalBounds(a: Matrix, c: set<nat>, s: nat)
    requires c <= NodeSet(|a|) && s in c
    requires InternallyConnected(a, c)
    ensures |c| - 1 <= DistanceTotal(a, c, s) <= Diameter(a, c) * (|c| - 1)
  {
    var others := c - {s};
    var d := Diameter(a, c);
    CountNodes(|a|, others);
    assert |others| == |c| - 1;
    forall t | 0 <= t < |a|
      ensures Indicator(others, t) <= DistIn(a, c, s, t) <= d * Indicator(others, t)
    {
      SourceTermBounds(a, c, s, t);
    }
    SumMonotone(|a|, (t: nat) => Indicator(others, t), (t: nat) => DistIn(a, c, s, t));
    SumMonotone(|a|, (t: nat) => DistIn(a, c, s, t), (t: nat) => d * Indicator(others, t));
    SumScale(|a|, (t: nat) => Indicator(others, t), d, (t: nat) => d * Indicator(others, t));
  }

  /** A distance from s is at least 1 and at most the diameter for another
      node of c, and 0 otherwise. */
  lemma SourceTermBounds(a: Matrix, c: set<nat>, s: nat, t: nat)
    requires c <= NodeSet(|a|) && s in c
    requires InternallyConnected(a, c)
    ensures Indicator(c - {s}, t) <= DistIn(a, c, s, t) <= Diameter(a, c) * Indicator(c - {s}, t)
  {
    DistZero(a, c, s, t);
    if t in c - {s} {
      DiameterAtLeast(a, c, s, t);
    }
  }

  /** Bounds per member of an m-set, summed over its m members, bound the pair total. */
  lemma PairScaling(m: int, d: int, total: int, count: int)
    requires count == m
    requires (m - 1) * count <= total <= (d * (m - 1)) * count
    ensures m * (m - 1) <= total <= d * (m * (m - 1))
  {
    MulRearrange(d, m - 1, m);
  }

  lemma MulRearrange(d: int, k: int, m: int)
    ensures (d * k) * m == d * (m * k)
  {
  }

  lemma PairCountPositive(m: int)
    requires m >= 2
    ensures m * (m - 1) > 0
  {
  }

  lemma QuotientBounds(p: int, q: int, d: int)
    requires 0 < q <= p <= d * q
    ensures 1.0 <= p as real / q as real <= d as real
  {
    var r := p as real / q as real;
    assert r * q as real == p as real;
    assert (d * q) as real == d as real * q as real;
  }

  /** A pair total between one and d per ordered pair averages between 1 and d. */
  lemma PairAverageBounds(total: int, m: nat, d: int)
    requires m >= 2 && m * (m - 1) <= total <= d * (m * (m - 1))
    ensures 1.0 <= PairAverage(total, m) <= d as real
  {
    PairCountPositive(m);
    QuotientBounds(total, m * (m - 1), d);
  }

  /** Per-source bounds of k and d * k, summed over the m = k + 1 sources, average between 1 and d. */
  lemma PairAverageFromSources(m: int, d: int, total: int, count: int)
    requires m >= 2 && count == m
    requires (m - 1) * count <= total <= (d * (m - 1)) * count
    ensures 1.0 <= PairAverage(total, m) <= d as real
  {
    PairScaling(m, d, total, count);
    PairAverageBounds(total, m, d);
  }

  /**
   * In a connected node set of two or more nodes the average path length is
   * at least 1 and at most the diameter: every ordered pair is between 1
   * and diameter hops apart.
   */
  lemma AveragePathLengthBounds(a: Matrix, c: set<nat>)
    requires c <= NodeSet(|a|) && |c| >= 2
    requires InternallyConnected(a, c)
    ensures 1.0 <= AveragePathLength(a, c) <= Diameter(a, c) as real
  {
    var k := |c| - 1;
    var d := Diameter(a, c);
    forall s | 0 <= s < |a|
      ensures k * Indicator(c, s) <= DistanceTotalIn(a, c, s) <= (d * k) * Indicator(c, s)
    {
      if s in c {
        SourceTotalBounds(a, c, s);
      }
    }
    SumMonotone(|a|, (s: nat) => k * Indicator(c, s), (s: nat) => DistanceTotalIn(a, c, s));
    SumMonotone(|a|, (s: nat) => DistanceTotalIn(a, c, s), (s: nat) => (d * k) * Indicator(c, s));
    SumScale(|a|, (s: nat) => Indicator(c, s), k, (s: nat) => k * Indicator(c, s));
    SumScale(|a|, (s: nat) => Indicator(c, s), d * k, (s: nat) => (d * k) * Indicator(c, s));
    CountNodes(|a|, c);
    PairAverageFromSources(|c|, d, PathLengthTotal(a, c), Sum(|a|, (s: nat) => Indicator(c, s)));
  }
}
