/**
 * Points, cost maps and the failures of the front-propagation engine
 * (cpp/code.h:6-35).
 *
 * Coordinates and costs are exact reals. The Euclidean distance needs a
 * square root, which has no executable definition over the reals, so every
 * operation that measures a distance takes it as a parameter `dist`;
 * `Euclidean(dist)` pins that parameter down to exactly the Euclidean
 * distance, and most properties only need `NonNegative(dist)`.
 */
module Geometry {

  /** A grid location (x, y). */
  datatype Point = Point(x: real, y: real)

  /** Sparse map from points to their arrival cost. */
  type CostMap = map<Point, real>

  /** A distance between two points. */
  type Metric = (Point, Point) -> real

  datatype Option<T> = None | Some(value: T)

  /** The causes for which a run aborts (the source's failed assertions). */
  datatype Fault =
    | TooFewNeighbors(at: Point, found: nat)  // fewer than 2 in-box neighbours
    | NoTransit(at: Point)                    // no neighbour with a cost
    | NoNeighbors(at: Point)                  // an accepted point without neighbours
    | TourTooShort(length: nat)               // a tour over fewer than 2 items

  datatype Result<T> = Ok(value: T) | Err(fault: Fault)

  /**
   * A point has a cost when it is a key of the cost map. The source also
   * rejects an infinite value, which no operation ever stores.
   */
  predicate HasCost(p: Point, costs: CostMap)
  {
    p in costs
  }

  /** Squared Euclidean distance: what `distance` takes the root of. */
  function SquaredDistance(u: Point, v: Point): (r: real)
    ensures r >= 0.0
  {
    (u.x - v.x) * (u.x - v.x) + (u.y - v.y) * (u.y - v.y)
  }

  ghost predicate NonNegative(dist: Metric)
  {
    forall u, v :: dist(u, v) >= 0.0
  }

  /** `dist` is the Euclidean distance: the non-negative root of the squared distance. */
  ghost predicate Euclidean(dist: Metric)
  {
    forall u, v :: dist(u, v) >= 0.0 && dist(u, v) * dist(u, v) == SquaredDistance(u, v)
  }

  /** A product of reals is zero only if a factor is. */
  lemma ZeroProduct(a: real, b: real)
    requires b != 0.0 && a * b == 0.0
    ensures a == 0.0
  {
    assert a == (a * b) / b;
  }

  /** The Euclidean distance is non-negative, zero from a point to itself, and symmetric. */
  lemma EuclideanIsMetric(dist: Metric, u: Point, v: Point)
    requires Euclidean(dist)
    ensures NonNegative(dist)
    ensures dist(u, u) == 0.0
    ensures dist(u, v) == dist(v, u)
  {
    var c := dist(u, u);
    assert c * c == SquaredDistance(u, u) == 0.0;
    if c != 0.0 {
      ZeroProduct(c, c);
    }
    var a, b := dist(u, v), dist(v, u);
    assert a * a == SquaredDistance(u, v) == SquaredDistance(v, u) == b * b;
    assert (a - b) * (a + b) == a * a - b * b;
    if a + b != 0.0 {
      ZeroProduct(a - b, a + b);
    }
  }

  /** Two points one unit apart are at Euclidean distance exactly 1. */
  lemma EuclideanUnit(dist: Metric, u: Point, v: Point)
    requires Euclidean(dist)
    requires SquaredDistance(u, v) == 1.0
    ensures dist(u, v) == 1.0
  {
    var c := dist(u, v);
    assert c >= 0.0 && c * c == 1.0;
    assert (c - 1.0) * (c + 1.0) == c * c - 1.0;
    ZeroProduct(c - 1.0, c + 1.0);
  }

  /** The point z·pj + (1−z)·pk of the segment from pk (z = 0) to pj (z = 1). */
  function Lerp(pj: Point, pk: Point, z: real): (n: Point)
    ensures z == 0.0 ==> n == pk
    ensures z == 1.0 ==> n == pj
  {
    Point(z * pj.x + (1.0 - z) * pk.x, z * pj.y + (1.0 - z) * pk.y)
  }

  /** Keep the better of the running minimum and a new candidate (the source's `if c < mincost`). */
  function Relax(m: Option<real>, c: real): Option<real>
  {
    if m.None? || c < m.value then Some(c) else m
  }

  /**
   * The running minimum of `cs` scanned left to right from "infinity"
   * (None): None exactly for no candidate, otherwise a candidate that no
   * other candidate undercuts.
   */
  function MinOf(cs: seq<real>): (m: Option<real>)
    ensures m.None? <==> cs == []
    ensures m.Some? ==> m.value in cs
    ensures m.Some? ==> forall i :: 0 <= i < |cs| ==> m.value <= cs[i]
  {
    if cs == [] then None else Relax(MinOf(cs[..|cs| - 1]), cs[|cs| - 1])
  }

  /** Scanning one more candidate relaxes the running minimum with it. */
  lemma MinOfSnoc(cs: seq<real>, c: real)
    ensures MinOf(cs + [c]) == Relax(MinOf(cs), c)
  {
    assert (cs + [c])[..|cs|] == cs;
  }

  /** Scanning the next element of `ys` after `xs` relaxes the running minimum with it. */
  lemma MinOfPrefixStep(xs: seq<real>, ys: seq<real>, i: nat)
    requires i < |ys|
    ensures MinOf(xs + ys[..i + 1]) == Relax(MinOf(xs + ys[..i]), ys[i])
  {
    assert xs + ys[..i + 1] == (xs + ys[..i]) + [ys[i]];
    MinOfSnoc(xs + ys[..i], ys[i]);
  }
}
