/**
 * The transit operators (cpp/code.h:159-243): the cost of reaching a point
 * from the neighbours that already have a cost.
 *
 * - On edges (Dijkstra): the least cost + distance over costed neighbours.
 * - In the simplex (Fast-Marching-like): the least cost over the closed
 *   polygon walked by the neighbour tour, each edge whose two ends have a
 *   cost being sampled at z = 0, eps, 2·eps, ... with linear interpolation.
 *
 * Each is specified by a function giving its candidate costs and their
 * running minimum, and implemented by a method with the source's loops.
 */
module Transits {
  import opened Geometry
  import opened Tours

  /** The sampling step of the simplex transit; a step <= 0 would never end its sampling loop. */
  type Epsilon = e: real | 0.0 < e witness 0.5

  /** The neighbours that have a cost, in neighbour order. */
  function Costed(nb: seq<Point>, costs: CostMap): (w: seq<Point>)
    ensures |w| <= |nb|
    ensures forall n :: n in w <==> n in nb && HasCost(n, costs)
    decreases |nb|
  {
    if nb == [] then []
    else
      var last := nb[|nb| - 1];
      var w := Costed(nb[..|nb| - 1], costs);
      assert forall n :: n in nb <==> n in nb[..|nb| - 1] || n == last;
      if HasCost(last, costs) then w + [last] else w
  }

  /** Two distinct positions of the neighbourhood hold costed points: at least two costed entries. */
  lemma {:induction false} CostedTwice(nb: seq<Point>, costs: CostMap, i: nat, j: nat)
    requires i < j < |nb| && HasCost(nb[i], costs) && HasCost(nb[j], costs)
    ensures |Costed(nb, costs)| >= 2
  {
    var init := nb[..|nb| - 1];
    if j < |nb| - 1 {
      assert init[i] == nb[i] && init[j] == nb[j];
      CostedTwice(init, costs, i, j);
    } else {
      assert init[i] == nb[i];
      assert nb[i] in Costed(init, costs);
    }
  }

  /** Each entry of the costed neighbours has a cost. */
  lemma CostedHaveCost(nb: seq<Point>, costs: CostMap)
    ensures forall i :: 0 <= i < |Costed(nb, costs)| ==> Costed(nb, costs)[i] in costs
  {
    var w := Costed(nb, costs);
    forall i | 0 <= i < |w|
      ensures w[i] in costs
    {
      assert w[i] in w;
    }
  }

  // ----- transit on edges -----

  /** The candidates of the edge transit: cost + distance of each costed neighbour, in order. */
  function EdgeTerms(p: Point, nb: seq<Point>, costs: CostMap, dist: Metric): (ts: seq<real>)
    ensures |ts| == |Costed(nb, costs)|
    ensures forall i :: 0 <= i < |ts| ==>
      Costed(nb, costs)[i] in costs && ts[i] == costs[Costed(nb, costs)[i]] + dist(p, Costed(nb, costs)[i])
  {
    var w := Costed(nb, costs);
    CostedHaveCost(nb, costs);
    seq(|w|, i requires 0 <= i < |w| => costs[w[i]] + dist(p, w[i]))
  }

  /** Edge candidate i belongs to the i-th costed neighbour. */
  lemma EdgeTermAt(p: Point, nb: seq<Point>, costs: CostMap, dist: Metric, i: nat)
    requires i < |EdgeTerms(p, nb, costs, dist)|
    ensures var n := Costed(nb, costs)[i];
      n in nb && HasCost(n, costs) && EdgeTerms(p, nb, costs, dist)[i] == costs[n] + dist(p, n)
  {
    assert Costed(nb, costs)[i] in Costed(nb, costs);
  }

  /** Every costed neighbour contributes its cost + distance. */
  lemma EdgeTermOf(p: Point, nb: seq<Point>, costs: CostMap, dist: Metric, n: Point)
    requires n in nb && HasCost(n, costs)
    ensures costs[n] + dist(p, n) in EdgeTerms(p, nb, costs, dist)
  {
    var w := Costed(nb, costs);
    assert n in w;
    var i :| 0 <= i < |w| && w[i] == n;
    assert EdgeTerms(p, nb, costs, dist)[i] == costs[n] + dist(p, n);
  }

  /** The edge candidates are exactly the sums cost + distance over the costed neighbours. */
  lemma EdgeTermsMembers(p: Point, nb: seq<Point>, costs: CostMap, dist: Metric)
    ensures forall c :: c in EdgeTerms(p, nb, costs, dist) ==>
      exists n :: n in nb && HasCost(n, costs) && c == costs[n] + dist(p, n)
    ensures forall n :: n in nb && HasCost(n, costs) ==> costs[n] + dist(p, n) in EdgeTerms(p, nb, costs, dist)
  {
    var ts := EdgeTerms(p, nb, costs, dist);
    forall c | c in ts
      ensures exists n :: n in nb && HasCost(n, costs) && c == costs[n] + dist(p, n)
    {
      var i :| 0 <= i < |ts| && ts[i] == c;
      EdgeTermAt(p, nb, costs, dist, i);
    }
    forall n | n in nb && HasCost(n, costs)
      ensures costs[n] + dist(p, n) in ts
    {
      EdgeTermOf(p, nb, costs, dist, n);
    }
  }

  /** `transit_on_edge`: the least candidate, or a failure when no neighbour has a cost. */
  function OnEdgeCost(p: Point, nb: seq<Point>, costs: CostMap, dist: Metric): Result<real>
  {
    match MinOf(EdgeTerms(p, nb, costs, dist))
    case None => Err(NoTransit(p))
    case Some(m) => Ok(m)
  }

  /**
   * The edge transit is the minimum of cost + distance over the costed
   * neighbours: defined exactly when one neighbour has a cost, never above
   * any costed neighbour's term, and equal to one of them.
   */
  lemma OnEdgeIsMinimum(p: Point, nb: seq<Point>, costs: CostMap, dist: Metric)
    ensures OnEdgeCost(p, nb, costs, dist).Ok? <==> exists n :: n in nb && HasCost(n, costs)
    ensures OnEdgeCost(p, nb, costs, dist).Ok? ==>
      (forall n :: n in nb && HasCost(n, costs) ==> OnEdgeCost(p, nb, costs, dist).value <= costs[n] + dist(p, n)) &&
      (exists n :: n in nb && HasCost(n, costs) && OnEdgeCost(p, nb, costs, dist).value == costs[n] + dist(p, n))
  {
    var w := Costed(nb, costs);
    var ts := EdgeTerms(p, nb, costs, dist);
    if exists n :: n in nb && HasCost(n, costs) {
      var n :| n in nb && HasCost(n, costs);
      assert n in w;
    }
    var r := OnEdgeCost(p, nb, costs, dist);
    if r.Ok? {
      forall n | n in nb && HasCost(n, costs)
        ensures r.value <= costs[n] + dist(p, n)
      {
        var i :| 0 <= i < |w| && w[i] == n;
        assert ts[i] == costs[n] + dist(p, n);
      }
      var i :| 0 <= i < |ts| && ts[i] == r.value;
      assert w[i] in nb && HasCost(w[i], costs);
    }
  }

  /** Whatever bounds the costed neighbours' costs from below bounds the edge transit. */
  lemma OnEdgeLowerBound(p: Point, nb: seq<Point>, costs: CostMap, dist: Metric, b: real)
    requires NonNegative(dist)
    requires forall n :: n in nb && HasCost(n, costs) ==> costs[n] >= b
    ensures OnEdgeCost(p, nb, costs, dist).Ok? ==> OnEdgeCost(p, nb, costs, dist).value >= b
  {
    OnEdgeIsMinimum(p, nb, costs, dist);
  }

  /**
   * Scanning one more neighbour relaxes the running minimum with its
   * candidate when it has a cost, and leaves it alone otherwise.
   */
  lemma EdgeTermsStep(p: Point, nb: seq<Point>, costs: CostMap, dist: Metric, i: nat)
    requires i < |nb|
    ensures MinOf(EdgeTerms(p, nb[..i + 1], costs, dist)) ==
      if HasCost(nb[i], costs) then Relax(MinOf(EdgeTerms(p, nb[..i], costs, dist)), costs[nb[i]] + dist(p, nb[i]))
      else MinOf(EdgeTerms(p, nb[..i], costs, dist))
  {
    assert nb[..i + 1][..i] == nb[..i] && nb[..i + 1][i] == nb[i];
    var ts := EdgeTerms(p, nb[..i], costs, dist);
    if HasCost(nb[i], costs) {
      var c := costs[nb[i]] + dist(p, nb[i]);
      assert EdgeTerms(p, nb[..i + 1], costs, dist) == ts + [c];
      MinOfSnoc(ts, c);
    } else {
      assert EdgeTerms(p, nb[..i + 1], costs, dist) == ts;
    }
  }

  /**
   * On a grid of unit step with the Euclidean distance, a point whose only
   * costed neighbour n is one step away gets the edge transit cost(n) + 1.
   */
  lemma OnEdgeUnitStep(p: Point, n: Point, nb: seq<Point>, costs: CostMap, dist: Metric)
    requires Euclidean(dist)
    requires n in nb && HasCost(n, costs) && SquaredDistance(p, n) == 1.0
    requires forall m :: m in nb && HasCost(m, costs) ==> m == n
    ensures OnEdgeCost(p, nb, costs, dist) == Ok(costs[n] + 1.0)
  {
    OnEdgeIsMinimum(p, nb, costs, dist);
    EuclideanUnit(dist, p, n);
  }

  /** The final assertion of `transit_on_edge` fails exactly when no neighbour has a cost. */
  lemma OnEdgeDefined(p: Point, nb: seq<Point>, costs: CostMap, dist: Metric)
    ensures OnEdgeCost(p, nb, costs, dist).Ok? <==> exists n :: n in nb && HasCost(n, costs)
  {
    OnEdgeIsMinimum(p, nb, costs, dist);
  }

  /** `transit_on_edge` as the source runs it: one pass keeping the least candidate. */
  method TransitOnEdge(p: Point, nb: seq<Point>, costs: CostMap, dist: Metric) returns (r: Result<real>)
    ensures r == OnEdgeCost(p, nb, costs, dist)
    ensures r.Ok? <==> exists n :: n in nb && HasCost(n, costs)
  {
    var mincost: Option<real> := None;
    for i := 0 to |nb|
      invariant mincost == MinOf(EdgeTerms(p, nb[..i], costs, dist))
    {
      var n := nb[i];
      EdgeTermsStep(p, nb, costs, dist, i);
      if HasCost(n, costs) {
        var c := costs[n] + dist(p, n);
        ghost var before := mincost;
        if mincost.None? || c < mincost.value {
          mincost := Some(c);
        }
        assert mincost == Relax(before, c);
      }
    }
    assert nb[..|nb|] == nb;
    OnEdgeDefined(p, nb, costs, dist);
    if mincost.None? {
      return Err(NoTransit(p));
    }
    return Ok(mincost.value);
  }

  // ----- transit in the simplex -----

  /**
   * How many samples z = k·eps (k = 0, 1, ...) a sampling loop visits: those
   * with z <= 1 when `inclusive` (the C++ loop), those with z < 1 otherwise.
   */
  function SampleCount(eps: Epsilon, inclusive: bool): nat
  {
    var q := 1.0 / eps;
    assert q > 0.0;
    if inclusive || q.Floor as real != q then q.Floor + 1 else q.Floor
  }

  /** The samples z = k·eps for k < SampleCount(eps, inclusive). */
  function Samples(eps: Epsilon, inclusive: bool): seq<real>
  {
    seq(SampleCount(eps, inclusive), k requires 0 <= k => k as real * eps)
  }

  /** Scaling by a positive factor keeps the order of two reals. */
  lemma ScaleOrder(a: real, b: real, e: real)
    requires e > 0.0
    ensures a * e < b * e <==> a < b
    ensures a * e <= b * e <==> a <= b
  {
    assert b * e - a * e == (b - a) * e;
    if a < b {
      ProductPositive(b - a, e);
    } else {
      ProductNonNegative(a - b, e);
    }
  }

  lemma ProductPositive(a: real, b: real)
    requires a > 0.0 && b > 0.0
    ensures a * b > 0.0
  {
  }

  lemma Reciprocal(eps: Epsilon)
    ensures (1.0 / eps) * eps == 1.0
  {
  }

  /** Integer k against the floor of q: k <= floor(q) iff k <= q, and k < q on a non-integer q too. */
  lemma FloorOrder(q: real, k: int)
    ensures k <= q.Floor <==> k as real <= q
    ensures q.Floor as real == q ==> (k < q.Floor <==> k as real < q)
    ensures q.Floor as real != q ==> (k <= q.Floor <==> k as real < q)
  {
  }

  /** The count by the floor of q = 1/eps, given how a sample x = k·eps compares with 1. */
  lemma CountByFloor(q: real, k: nat, x: real, inclusive: bool)
    requires q > 0.0
    requires x <= 1.0 <==> k as real <= q
    requires x < 1.0 <==> k as real < q
    ensures k < (if inclusive || q.Floor as real != q then q.Floor + 1 else q.Floor) <==>
      (if inclusive then x <= 1.0 else x < 1.0)
  {
    FloorOrder(q, k);
  }

  /** Exactly the multiples k·eps at most 1 (inclusive) or below 1 (exclusive) are sampled. */
  lemma SampleCountSpec(eps: Epsilon, inclusive: bool, k: nat)
    ensures k < SampleCount(eps, inclusive) <==>
      (if inclusive then k as real * eps <= 1.0 else k as real * eps < 1.0)
  {
    var q := 1.0 / eps;
    var x := k as real * eps;
    Reciprocal(eps);
    ScaleOrder(k as real, q, eps);
    assert x <= 1.0 <==> k as real <= q;
    assert x < 1.0 <==> k as real < q;
    CountByFloor(q, k, x, inclusive);
    assert SampleCount(eps, inclusive) == if inclusive || q.Floor as real != q then q.Floor + 1 else q.Floor;
  }

  /** The sample z after which comes z + eps; past the last sample, 1 is exceeded. */
  lemma SampleStep(eps: Epsilon, k: nat, z: real)
    requires k < |Samples(eps, true)| && z == Samples(eps, true)[k]
    ensures k + 1 < |Samples(eps, true)| ==> Samples(eps, true)[k + 1] == z + eps
    ensures k + 1 == |Samples(eps, true)| ==> z + eps > 1.0
  {
    assert (k + 1) as real * eps == k as real * eps + eps;
    SampleCountSpec(eps, true, k + 1);
  }

  /** Every sample lies in [0, 1], and the first one is z = 0. */
  lemma SamplesInUnitInterval(eps: Epsilon, inclusive: bool)
    ensures |Samples(eps, inclusive)| > 0 && Samples(eps, inclusive)[0] == 0.0
    ensures forall k :: 0 <= k < |Samples(eps, inclusive)| ==> 0.0 <= Samples(eps, inclusive)[k] <= 1.0
  {
    SampleCountSpec(eps, inclusive, 0);
    forall k | 0 <= k < |Samples(eps, inclusive)|
      ensures 0.0 <= Samples(eps, inclusive)[k] <= 1.0
    {
      SampleCountSpec(eps, inclusive, k);
      assert 0.0 <= k as real * eps;
    }
  }

  /**
   * The samples below 1 are the samples up to 1, minus z = 1 itself when
   * 1/eps is a whole number: the exclusive loop never evaluates z = 1.
   */
  lemma ExclusiveSamplesDropOne(eps: Epsilon)
    ensures 1.0 !in Samples(eps, false)
    ensures Samples(eps, false) == Samples(eps, true)
         || Samples(eps, false) + [1.0] == Samples(eps, true)
  {
    var lo, hi := Samples(eps, false), Samples(eps, true);
    forall k | 0 <= k < |lo|
      ensures lo[k] != 1.0
    {
      SampleCountSpec(eps, false, k);
    }
    var q := 1.0 / eps;
    assert |lo| == |hi| || |lo| + 1 == |hi|;
    if |lo| + 1 == |hi| {
      assert q.Floor as real == q;
      assert q * eps == 1.0;
      assert hi[|lo|] == q.Floor as real * eps == 1.0;
      assert lo + [1.0] == hi;
    } else {
      assert lo == hi;
    }
  }

  /** The candidates along an edge whose two ends have a cost: one per sample z. */
  function SegmentTerms(p: Point, pj: Point, pk: Point, cj: real, ck: real, zs: seq<real>, dist: Metric): (ts: seq<real>)
    ensures |ts| == |zs|
  {
    seq(|zs|, i requires 0 <= i < |zs| => SegmentTerm(p, pj, pk, cj, ck, zs[i], dist))
  }

  /**
   * The candidate at z on the edge from pk (z = 0) to pj (z = 1): the
   * interpolated cost z·cj + (1−z)·ck plus the distance to the interpolated point.
   */
  function SegmentTerm(p: Point, pj: Point, pk: Point, cj: real, ck: real, z: real, dist: Metric): real
  {
    z * cj + (1.0 - z) * ck + dist(p, Lerp(pj, pk, z))
  }

  /**
   * The candidates contributed by one tour edge: the sampled segment when
   * both ends have a cost, the costed end alone when only one has, nothing
   * otherwise.
   */
  function PairTerms(p: Point, edge: (Point, Point), costs: CostMap, zs: seq<real>, dist: Metric): seq<real>
  {
    var (pj, pk) := edge;
    if HasCost(pj, costs) && HasCost(pk, costs) then SegmentTerms(p, pj, pk, costs[pj], costs[pk], zs, dist)
    else if HasCost(pj, costs) then [costs[pj] + dist(p, pj)]
    else if HasCost(pk, costs) then [costs[pk] + dist(p, pk)]
    else []
  }

  /** The candidates of all edges, edge by edge. */
  function TourTerms(p: Point, edges: seq<(Point, Point)>, costs: CostMap, zs: seq<real>, dist: Metric): seq<real>
    decreases |edges|
  {
    if edges == [] then []
    else TourTerms(p, edges[..|edges| - 1], costs, zs, dist) + PairTerms(p, edges[|edges| - 1], costs, zs, dist)
  }

  /**
   * `transit_in_simplex` over the samples zs: cost + distance of the only
   * costed neighbour when there is exactly one, otherwise the least
   * candidate of the neighbour tour, or a failure when there is none.
   */
  function SimplexCost(p: Point, nb: seq<Point>, costs: CostMap, zs: seq<real>, dist: Metric): Result<real>
  {
    var w := Costed(nb, costs);
    if |w| == 1 then
      assert w[0] in w;
      Ok(costs[w[0]] + dist(p, w[0]))
    else
      match MinOf(TourTerms(p, TourPairs(nb), costs, zs, dist))
      case None => Err(NoTransit(p))
      case Some(m) => Ok(m)
  }

  /** A candidate of some edge is a candidate of the tour. */
  lemma {:induction false} TourTermsContain(p: Point, edges: seq<(Point, Point)>, costs: CostMap, zs: seq<real>, dist: Metric, e: nat, c: real)
    requires e < |edges| && c in PairTerms(p, edges[e], costs, zs, dist)
    ensures c in TourTerms(p, edges, costs, zs, dist)
  {
    if e < |edges| - 1 {
      TourTermsContain(p, edges[..|edges| - 1], costs, zs, dist, e, c);
    }
  }

  /** Every candidate of the tour comes from one of its edges. */
  lemma {:induction false} TourTermsFrom(p: Point, edges: seq<(Point, Point)>, costs: CostMap, zs: seq<real>, dist: Metric, c: real)
    requires c in TourTerms(p, edges, costs, zs, dist)
    ensures exists e :: 0 <= e < |edges| && c in PairTerms(p, edges[e], costs, zs, dist)
  {
    var init := edges[..|edges| - 1];
    if c in TourTerms(p, init, costs, zs, dist) {
      TourTermsFrom(p, init, costs, zs, dist, c);
      var e :| 0 <= e < |init| && c in PairTerms(p, init[e], costs, zs, dist);
      assert init[e] == edges[e];
    }
  }

  /** A sample z in [0, 1] interpolates between two costs without going below their common lower bound. */
  lemma InterpolationAbove(z: real, cj: real, ck: real, b: real)
    requires 0.0 <= z <= 1.0 && cj >= b && ck >= b
    ensures z * cj + (1.0 - z) * ck >= b
  {
    ProductNonNegative(z, cj - b);
    ProductNonNegative(1.0 - z, ck - b);
    assert z * (cj - b) + (1.0 - z) * (ck - b) == z * cj + (1.0 - z) * ck - b;
  }

  lemma ProductNonNegative(a: real, b: real)
    requires a >= 0.0 && b >= 0.0
    ensures a * b >= 0.0
  {
  }

  /** Each candidate of an edge between two neighbours is at least a lower bound of the neighbours' costs. */
  lemma PairTermsAbove(p: Point, edge: (Point, Point), costs: CostMap, zs: seq<real>, dist: Metric, b: real)
    requires NonNegative(dist)
    requires forall i :: 0 <= i < |zs| ==> 0.0 <= zs[i] <= 1.0
    requires HasCost(edge.0, costs) ==> costs[edge.0] >= b
    requires HasCost(edge.1, costs) ==> costs[edge.1] >= b
    ensures forall c :: c in PairTerms(p, edge, costs, zs, dist) ==> c >= b
  {
    var (pj, pk) := edge;
    if HasCost(pj, costs) && HasCost(pk, costs) {
      SegmentTermsAbove(p, pj, pk, costs[pj], costs[pk], zs, dist, b);
    }
  }

  /**
   * Along an edge whose two end costs are at least b, every sampled
   * candidate is at least b, since z is in [0, 1] and distances are
   * non-negative.
   */
  lemma SegmentTermsAbove(p: Point, pj: Point, pk: Point, cj: real, ck: real, zs: seq<real>, dist: Metric, b: real)
    requires NonNegative(dist)
    requires forall i :: 0 <= i < |zs| ==> 0.0 <= zs[i] <= 1.0
    requires cj >= b && ck >= b
    ensures forall c :: c in SegmentTerms(p, pj, pk, cj, ck, zs, dist) ==> c >= b
  {
    var ts := SegmentTerms(p, pj, pk, cj, ck, zs, dist);
    forall i | 0 <= i < |ts|
      ensures ts[i] >= b
    {
      var z := zs[i];
      InterpolationAbove(z, cj, ck, b);
      assert dist(p, Lerp(pj, pk, z)) >= 0.0;
      assert ts[i] == SegmentTerm(p, pj, pk, cj, ck, z, dist);
    }
  }

  /**
   * The simplex transit never goes below a lower bound of the costed
   * neighbours' costs, since every sample z is in [0, 1] and distances are
   * non-negative: in particular it is at least the least neighbour cost.
   */
  lemma SimplexLowerBound(p: Point, nb: seq<Point>, costs: CostMap, zs: seq<real>, dist: Metric, b: real)
    requires NonNegative(dist)
    requires forall i :: 0 <= i < |zs| ==> 0.0 <= zs[i] <= 1.0
    requires forall n :: n in nb && HasCost(n, costs) ==> costs[n] >= b
    ensures SimplexCost(p, nb, costs, zs, dist).Ok? ==> SimplexCost(p, nb, costs, zs, dist).value >= b
  {
    var w := Costed(nb, costs);
    if |w| == 1 {
      assert w[0] in w;
    } else {
      var edges := TourPairs(nb);
      var ts := TourTerms(p, edges, costs, zs, dist);
      var m := MinOf(ts);
      if m.Some? {
        TourTermsFrom(p, edges, costs, zs, dist, m.value);
        var e :| 0 <= e < |edges| && m.value in PairTerms(p, edges[e], costs, zs, dist);
        TourShape(nb, e);
        assert edges[e].0 == nb[e] && edges[e].1 == nb[Succ(e, |nb|)];
        PairTermsAbove(p, edges[e], costs, zs, dist, b);
      }
    }
  }

  /** The tour has a candidate only if some neighbour has a cost. */
  lemma TourTermsNeedCost(p: Point, nb: seq<Point>, costs: CostMap, zs: seq<real>, dist: Metric)
    ensures TourTerms(p, TourPairs(nb), costs, zs, dist) != [] ==> exists n :: n in nb && HasCost(n, costs)
  {
    var edges := TourPairs(nb);
    var ts := TourTerms(p, edges, costs, zs, dist);
    if ts != [] {
      TourTermsFrom(p, edges, costs, zs, dist, ts[0]);
      var e :| 0 <= e < |edges| && ts[0] in PairTerms(p, edges[e], costs, zs, dist);
      TourShape(nb, e);
      var s := Succ(e, |nb|);
      assert edges[e] == (nb[e], nb[s]);
      if HasCost(nb[e], costs) {
        assert nb[e] in nb;
      } else {
        assert nb[s] in nb;
      }
    }
  }

  /**
   * With samples that start at z = 0, a costed neighbour's cost + distance is
   * always a candidate of the tour: the edge ending at it either has a costed
   * start, and its z = 0 sample is exactly that neighbour, or contributes the
   * neighbour alone.
   */
  lemma NeighbourIsTourCandidate(p: Point, nb: seq<Point>, costs: CostMap, zs: seq<real>, dist: Metric, i: nat)
    requires 2 <= |nb| && i < |nb| && HasCost(nb[i], costs)
    requires zs != [] && zs[0] == 0.0
    ensures costs[nb[i]] + dist(p, nb[i]) in TourTerms(p, TourPairs(nb), costs, zs, dist)
  {
    var edges := TourPairs(nb);
    var e := if i == 0 then |nb| - 1 else i - 1;
    TourShape(nb, i);
    var (pj, pk) := edges[e];
    assert pk == nb[i];
    var c := costs[pk] + dist(p, pk);
    if HasCost(pj, costs) {
      var ts := SegmentTerms(p, pj, pk, costs[pj], costs[pk], zs, dist);
      assert ts[0] == 0.0 * costs[pj] + (1.0 - 0.0) * costs[pk] + dist(p, Lerp(pj, pk, 0.0));
      assert ts[0] == c;
    }
    TourTermsContain(p, edges, costs, zs, dist, e, c);
  }

  /**
   * The simplex transit is defined exactly when a neighbour has a cost, and
   * it is never worse than the edge transit on the same neighbourhood.
   */
  lemma SimplexNoWorseThanEdge(p: Point, nb: seq<Point>, costs: CostMap, zs: seq<real>, dist: Metric)
    requires zs != [] && zs[0] == 0.0
    ensures SimplexCost(p, nb, costs, zs, dist).Ok? <==> OnEdgeCost(p, nb, costs, dist).Ok?
    ensures OnEdgeCost(p, nb, costs, dist).Ok? ==>
      SimplexCost(p, nb, costs, zs, dist).value <= OnEdgeCost(p, nb, costs, dist).value
  {
    var w := Costed(nb, costs);
    OnEdgeIsMinimum(p, nb, costs, dist);
    var onEdge := OnEdgeCost(p, nb, costs, dist);
    if |w| == 1 {
      assert w[0] in w;
    } else if |w| == 0 {
      TourTermsNeedCost(p, nb, costs, zs, dist);
    } else {
      assert w[0] in w && w[1] in w;
      var n :| n in nb && HasCost(n, costs) && onEdge.value == costs[n] + dist(p, n);
      var i :| 0 <= i < |nb| && nb[i] == n;
      NeighbourIsTourCandidate(p, nb, costs, zs, dist, i);
    }
  }

  /** With a single costed neighbour, two distinct positions are never both costed. */
  lemma AtMostOneCosted(nb: seq<Point>, costs: CostMap, i: nat, j: nat)
    requires |Costed(nb, costs)| == 1 && i < |nb| && j < |nb| && i != j
    ensures !(HasCost(nb[i], costs) && HasCost(nb[j], costs))
  {
    if HasCost(nb[i], costs) && HasCost(nb[j], costs) {
      if i < j { CostedTwice(nb, costs, i, j); } else { CostedTwice(nb, costs, j, i); }
    }
  }

  /** With a single costed neighbour, any costed neighbour is that one. */
  lemma OnlyCosted(nb: seq<Point>, costs: CostMap, n: Point)
    requires |Costed(nb, costs)| == 1 && n in nb && HasCost(n, costs)
    ensures n == Costed(nb, costs)[0]
  {
    assert n in Costed(nb, costs);
  }

  /**
   * With a single costed neighbour, an edge of the tour contributes that
   * neighbour's cost + distance alone when one of its ends is costed, and
   * nothing otherwise: its two ends are distinct positions of the tour.
   */
  lemma SingleCostedPair(p: Point, nb: seq<Point>, costs: CostMap, zs: seq<real>, dist: Metric, e: nat)
    requires |nb| >= 2 && |Costed(nb, costs)| == 1 && e < |nb|
    ensures var w := Costed(nb, costs); var edge := TourPairs(nb)[e];
      HasCost(w[0], costs) &&
      PairTerms(p, edge, costs, zs, dist) ==
        if HasCost(edge.0, costs) || HasCost(edge.1, costs) then [costs[w[0]] + dist(p, w[0])] else []
  {
    var w := Costed(nb, costs);
    assert w[0] in w;
    var s := Succ(e, |nb|);
    TourShape(nb, e);
    var pj, pk := nb[e], nb[s];
    assert TourPairs(nb)[e] == (pj, pk) && e != s;
    AtMostOneCosted(nb, costs, e, s);
    if HasCost(pj, costs) { OnlyCosted(nb, costs, pj); }
    if HasCost(pk, costs) { OnlyCosted(nb, costs, pk); }
    PairOfOneCosted(p, pj, pk, w[0], costs, zs, dist);
  }

  /** An edge with at most one costed end w contributes w's cost + distance, or nothing. */
  lemma PairOfOneCosted(p: Point, pj: Point, pk: Point, w: Point, costs: CostMap, zs: seq<real>, dist: Metric)
    requires HasCost(w, costs) && !(HasCost(pj, costs) && HasCost(pk, costs))
    requires HasCost(pj, costs) ==> pj == w
    requires HasCost(pk, costs) ==> pk == w
    ensures PairTerms(p, (pj, pk), costs, zs, dist) ==
      if HasCost(pj, costs) || HasCost(pk, costs) then [costs[w] + dist(p, w)] else []
  {
  }

  /** With a single costed neighbour, every tour candidate is that neighbour's cost + distance. */
  lemma SingleCostedTourTerms(p: Point, nb: seq<Point>, costs: CostMap, zs: seq<real>, dist: Metric, t: real)
    requires |nb| >= 2 && |Costed(nb, costs)| == 1
    requires t in TourTerms(p, TourPairs(nb), costs, zs, dist)
    ensures HasCost(Costed(nb, costs)[0], costs)
    ensures t == costs[Costed(nb, costs)[0]] + dist(p, Costed(nb, costs)[0])
  {
    var edges := TourPairs(nb);
    TourTermsFrom(p, edges, costs, zs, dist, t);
    var e :| 0 <= e < |edges| && t in PairTerms(p, edges[e], costs, zs, dist);
    TourShape(nb, 0);
    SingleCostedPair(p, nb, costs, zs, dist, e);
  }

  /** With a single costed neighbour, its cost + distance is a tour candidate. */
  lemma SingleCostedInTour(p: Point, nb: seq<Point>, costs: CostMap, zs: seq<real>, dist: Metric)
    requires |nb| >= 2 && |Costed(nb, costs)| == 1
    ensures HasCost(Costed(nb, costs)[0], costs)
    ensures costs[Costed(nb, costs)[0]] + dist(p, Costed(nb, costs)[0]) in TourTerms(p, TourPairs(nb), costs, zs, dist)
  {
    var w := Costed(nb, costs);
    assert w[0] in w;
    var i :| 0 <= i < |nb| && nb[i] == w[0];
    var e := if i == 0 then |nb| - 1 else i - 1;
    var c := costs[w[0]] + dist(p, w[0]);
    TourShape(nb, i);
    assert TourPairs(nb)[e].1 == w[0];
    SingleCostedPair(p, nb, costs, zs, dist, e);
    assert PairTerms(p, TourPairs(nb)[e], costs, zs, dist) == [c];
    TourTermsContain(p, TourPairs(nb), costs, zs, dist, e, c);
  }

  /**
   * The special case for a single costed neighbour agrees with the tour: on
   * two neighbours or more, every edge then has at most one costed end, that
   * neighbour, so the tour's least candidate is the same value.
   */
  lemma SingleCostedAgreesWithTour(p: Point, nb: seq<Point>, costs: CostMap, zs: seq<real>, dist: Metric)
    requires |nb| >= 2 && |Costed(nb, costs)| == 1
    ensures MinOf(TourTerms(p, TourPairs(nb), costs, zs, dist)) == Some(SimplexCost(p, nb, costs, zs, dist).value)
  {
    var w := Costed(nb, costs);
    var ts := TourTerms(p, TourPairs(nb), costs, zs, dist);
    SingleCostedInTour(p, nb, costs, zs, dist);
    var c := costs[w[0]] + dist(p, w[0]);
    assert SimplexCost(p, nb, costs, zs, dist) == Ok(c);
    var m := MinOf(ts);
    assert m.Some?;
    SingleCostedTourTerms(p, nb, costs, zs, dist, m.value);
  }

  /** More samples can only lower the simplex transit. */
  lemma {:induction false} TourTermsMoreSamples(p: Point, edges: seq<(Point, Point)>, costs: CostMap, zs: seq<real>, zs': seq<real>, dist: Metric, c: real)
    requires zs' <= zs
    requires c in TourTerms(p, edges, costs, zs', dist)
    ensures c in TourTerms(p, edges, costs, zs, dist)
  {
    TourTermsFrom(p, edges, costs, zs', dist, c);
    var e :| 0 <= e < |edges| && c in PairTerms(p, edges[e], costs, zs', dist);
    var (pj, pk) := edges[e];
    if HasCost(pj, costs) && HasCost(pk, costs) {
      var small := SegmentTerms(p, pj, pk, costs[pj], costs[pk], zs', dist);
      var big := SegmentTerms(p, pj, pk, costs[pj], costs[pk], zs, dist);
      var i :| 0 <= i < |small| && small[i] == c;
      assert big[i] == c;
    }
    TourTermsContain(p, edges, costs, zs, dist, e, c);
  }

  /** Sampling a prefix of the samples never gives a lower simplex transit. */
  lemma SimplexMoreSamplesNoWorse(p: Point, nb: seq<Point>, costs: CostMap, zs: seq<real>, zs': seq<real>, dist: Metric)
    requires zs' <= zs
    requires SimplexCost(p, nb, costs, zs', dist).Ok?
    ensures SimplexCost(p, nb, costs, zs, dist).Ok?
    ensures SimplexCost(p, nb, costs, zs, dist).value <= SimplexCost(p, nb, costs, zs', dist).value
  {
    if |Costed(nb, costs)| != 1 {
      var m' := MinOf(TourTerms(p, TourPairs(nb), costs, zs', dist));
      TourTermsMoreSamples(p, TourPairs(nb), costs, zs, zs', dist, m'.value);
    }
  }

  /** Walking one more tour edge appends that edge's candidates. */
  lemma TourTermsSnoc(p: Point, edges: seq<(Point, Point)>, costs: CostMap, zs: seq<real>, dist: Metric, e: nat)
    requires e < |edges|
    ensures TourTerms(p, edges[..e + 1], costs, zs, dist) ==
      TourTerms(p, edges[..e], costs, zs, dist) + PairTerms(p, edges[e], costs, zs, dist)
  {
    assert edges[..e + 1][..e] == edges[..e] && edges[..e + 1][e] == edges[e];
  }

  /** With samples starting at z = 0, the simplex transit fails exactly when no neighbour has a cost. */
  lemma SimplexCostDefined(p: Point, nb: seq<Point>, costs: CostMap, zs: seq<real>, dist: Metric)
    requires zs != [] && zs[0] == 0.0
    ensures SimplexCost(p, nb, costs, zs, dist).Ok? <==> exists n :: n in nb && HasCost(n, costs)
  {
    SimplexNoWorseThanEdge(p, nb, costs, zs, dist);
    OnEdgeIsMinimum(p, nb, costs, dist);
  }

  /** Scanning sample k = z relaxes the running minimum with the candidate at z. */
  lemma SegmentStep(p: Point, pj: Point, pk: Point, cj: real, ck: real, zs: seq<real>, dist: Metric,
                    before: seq<real>, k: nat, z: real)
    requires k < |zs| && z == zs[k]
    ensures MinOf(before + SegmentTerms(p, pj, pk, cj, ck, zs, dist)[..k + 1]) ==
      Relax(MinOf(before + SegmentTerms(p, pj, pk, cj, ck, zs, dist)[..k]), SegmentTerm(p, pj, pk, cj, ck, z, dist))
  {
    MinOfPrefixStep(before, SegmentTerms(p, pj, pk, cj, ck, zs, dist), k);
  }

  /**
   * The sampling loop of `transit_in_simplex` over one edge whose two ends
   * have a cost: z = 0, eps, 2·eps, ... while z <= 1, each sample relaxing
   * the running minimum.
   */
  method SampleSegment(p: Point, pj: Point, pk: Point, cj: real, ck: real, eps: Epsilon, dist: Metric,
                       mincost: Option<real>, ghost before: seq<real>)
    returns (m: Option<real>)
    requires mincost == MinOf(before)
    ensures m == MinOf(before + SegmentTerms(p, pj, pk, cj, ck, Samples(eps, true), dist))
  {
    ghost var zs := Samples(eps, true);
    ghost var segment := SegmentTerms(p, pj, pk, cj, ck, zs, dist);
    m := mincost;
    var z := 0.0;
    ghost var k: nat := 0;
    SamplesInUnitInterval(eps, true);
    assert before + segment[..0] == before;
    while z <= 1.0
      invariant k <= |zs|
      invariant k < |zs| ==> z == zs[k]
      invariant k == |zs| ==> z > 1.0
      invariant m == MinOf(before + segment[..k])
      decreases |zs| - k
    {
      var c := SegmentTerm(p, pj, pk, cj, ck, z, dist);
      SegmentStep(p, pj, pk, cj, ck, zs, dist, before, k, z);
      if m.None? || c < m.value {
        m := Some(c);
      }
      SampleStep(eps, k, z);
      z := z + eps;
      k := k + 1;
    }
    assert segment[..k] == segment;
  }

  /**
   * The body of the edge loop of `transit_in_simplex`: the running minimum
   * relaxed with the candidates of the edge (pj, pk).
   */
  method RelaxEdge(p: Point, pj: Point, pk: Point, costs: CostMap, eps: Epsilon, dist: Metric,
                   mincost: Option<real>, ghost before: seq<real>)
    returns (m: Option<real>)
    requires mincost == MinOf(before)
    ensures m == MinOf(before + PairTerms(p, (pj, pk), costs, Samples(eps, true), dist))
  {
    ghost var terms := PairTerms(p, (pj, pk), costs, Samples(eps, true), dist);
    m := mincost;
    if HasCost(pj, costs) && HasCost(pk, costs) {
      m := SampleSegment(p, pj, pk, costs[pj], costs[pk], eps, dist, m, before);
    } else if HasCost(pj, costs) && !HasCost(pk, costs) {
      var c := costs[pj] + dist(p, pj);
      assert terms == [c];
      MinOfSnoc(before, c);
      if m.None? || c < m.value {
        m := Some(c);
      }
    } else if !HasCost(pj, costs) && HasCost(pk, costs) {
      var c := costs[pk] + dist(p, pk);
      assert terms == [c];
      MinOfSnoc(before, c);
      if m.None? || c < m.value {
        m := Some(c);
      }
    } else {
      assert before + terms == before;
    }
  }

  /** The `for edge` loop of `transit_in_simplex`: every tour edge relaxes the running minimum. */
  method ScanTour(p: Point, edges: seq<(Point, Point)>, costs: CostMap, eps: Epsilon, dist: Metric)
    returns (mincost: Option<real>)
    ensures mincost == MinOf(TourTerms(p, edges, costs, Samples(eps, true), dist))
  {
    ghost var zs := Samples(eps, true);
    mincost := None;
    for e := 0 to |edges|
      invariant mincost == MinOf(TourTerms(p, edges[..e], costs, zs, dist))
    {
      var (pj, pk) := edges[e];
      ghost var before := TourTerms(p, edges[..e], costs, zs, dist);
      TourTermsSnoc(p, edges, costs, zs, dist, e);
      mincost := RelaxEdge(p, pj, pk, costs, eps, dist, mincost, before);
    }
    assert edges[..|edges|] == edges;
  }

  /**
   * `transit_in_simplex` as the source runs it: the single-neighbour special
   * case, else a walk over the tour with, on each edge whose two ends have a
   * cost, a sampling loop z = 0, eps, 2·eps, ... while z <= 1.
   */
  method TransitInSimplex(p: Point, nb: seq<Point>, costs: CostMap, eps: Epsilon, dist: Metric)
    returns (r: Result<real>)
    ensures r == SimplexCost(p, nb, costs, Samples(eps, true), dist)
    ensures r.Ok? <==> exists n :: n in nb && HasCost(n, costs)
  {
    ghost var zs := Samples(eps, true);
    var withCost := Costed(nb, costs);
    var mincost: Option<real> := None;
    if |withCost| == 1 {
      var n := withCost[0];
      assert n in withCost;
      mincost := Some(costs[n] + dist(p, n));
    } else {
      var edges := TourWalk(nb);
      mincost := ScanTour(p, edges, costs, eps, dist);
    }
    SamplesInUnitInterval(eps, true);
    SimplexCostDefined(p, nb, costs, zs, dist);
    if mincost.None? {
      return Err(NoTransit(p));
    }
    return Ok(mincost.value);
  }
}
