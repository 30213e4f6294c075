/**
 * The functional wiring of the engine (cpp/functional.cpp:15-71): the 4- and
 * 8-neighbourhoods on the grid, binders that fix the parameters of a
 * neighbourhood or a transit, and `algo`, which runs the engine with them.
 */
module Functional {
  import opened Geometry
  import opened Tours
  import opened Neighbors
  import opened Transits
  import opened Engine

  /** The 4-neighbourhood, clockwise from east: E, S, W, N. */
  const QuadDirections: seq<Point> := [Point(1.0, 0.0), Point(0.0, -1.0), Point(-1.0, 0.0), Point(0.0, 1.0)]

  /** The 8-neighbourhood, clockwise from east: E, SE, S, SW, W, NW, N, NE. */
  const OctoDirections: seq<Point> :=
    [Point(1.0, 0.0), Point(1.0, -1.0), Point(0.0, -1.0), Point(-1.0, -1.0),
     Point(-1.0, 0.0), Point(-1.0, 1.0), Point(0.0, 1.0), Point(1.0, 1.0)]

  /** `neighbors::quad_grid`: between 2 and 4 in-box neighbours, or a failure. */
  function QuadGrid(p: Point, pmin: Point, pmax: Point, step: real): (r: Result<seq<Point>>)
    ensures r.Ok? ==> 2 <= |r.value| <= 4 && forall n :: n in r.value ==> InBox(n, pmin, pmax)
  {
    OffsetsInBoxMembers(p, step, pmin, pmax, QuadDirections);
    GridNeighbors(p, step, pmin, pmax, QuadDirections)
  }

  /** `neighbors::octo_grid`: between 2 and 8 in-box neighbours, or a failure. */
  function OctoGrid(p: Point, pmin: Point, pmax: Point, step: real): (r: Result<seq<Point>>)
    ensures r.Ok? ==> 2 <= |r.value| <= 8 && forall n :: n in r.value ==> InBox(n, pmin, pmax)
  {
    OffsetsInBoxMembers(p, step, pmin, pmax, OctoDirections);
    GridNeighbors(p, step, pmin, pmax, OctoDirections)
  }

  /** The z component of the cross product of two direction vectors. */
  function Cross(u: Point, v: Point): real
  {
    u.x * v.y - u.y * v.x
  }

  /** Each direction turns clockwise into the next one, the last one into the first. */
  predicate Clockwise(dirs: seq<Point>)
  {
    forall e :: e in TourPairs(dirs) ==> Cross(e.0, e.1) < 0.0
  }

  /** Clockwise order, checked pair by pair around the cycle. */
  lemma ClockwiseByIndex(dirs: seq<Point>)
    requires |dirs| >= 2
    requires forall i :: 0 <= i < |dirs| ==> Cross(dirs[i], dirs[Succ(i, |dirs|)]) < 0.0
    ensures Clockwise(dirs)
  {
    forall e | e in TourPairs(dirs)
      ensures Cross(e.0, e.1) < 0.0
    {
      var i :| 0 <= i < |TourPairs(dirs)| && TourPairs(dirs)[i] == e;
    }
  }

  /** Both direction lists are in clockwise order, as the simplex transit's tour needs. */
  lemma DirectionsClockwise()
    ensures Clockwise(QuadDirections) && Clockwise(OctoDirections)
  {
    var q, o := QuadDirections, OctoDirections;
    forall i | 0 <= i < 4
      ensures Cross(q[i], q[Succ(i, 4)]) < 0.0
    {
      if i == 0 { assert Cross(q[0], q[1]) < 0.0; }
      else if i == 1 { assert Cross(q[1], q[2]) < 0.0; }
      else if i == 2 { assert Cross(q[2], q[3]) < 0.0; }
      else { assert Cross(q[3], q[0]) < 0.0; }
    }
    ClockwiseByIndex(q);
    forall i | 0 <= i < 8
      ensures Cross(o[i], o[Succ(i, 8)]) < 0.0
    {
      if i == 0 { assert Cross(o[0], o[1]) < 0.0; }
      else if i == 1 { assert Cross(o[1], o[2]) < 0.0; }
      else if i == 2 { assert Cross(o[2], o[3]) < 0.0; }
      else if i == 3 { assert Cross(o[3], o[4]) < 0.0; }
      else if i == 4 { assert Cross(o[4], o[5]) < 0.0; }
      else if i == 5 { assert Cross(o[5], o[6]) < 0.0; }
      else if i == 6 { assert Cross(o[6], o[7]) < 0.0; }
      else { assert Cross(o[7], o[0]) < 0.0; }
    }
    ClockwiseByIndex(o);
  }

  /** The directions along an axis, in their order. */
  function Axial(dirs: seq<Point>): seq<Point>
  {
    if dirs == [] then []
    else if dirs[0].x == 0.0 || dirs[0].y == 0.0 then [dirs[0]] + Axial(dirs[1..])
    else Axial(dirs[1..])
  }

  /** Keeping the axial directions of a concatenation keeps those of each part. */
  lemma {:induction false} AxialAppend(a: seq<Point>, b: seq<Point>)
    ensures Axial(a + b) == Axial(a) + Axial(b)
  {
    if a == [] {
      assert a + b == b;
    } else {
      assert (a + b)[0] == a[0] && (a + b)[1..] == a[1..] + b;
      AxialAppend(a[1..], b);
    }
  }

  lemma AxialPair(d: Point, e: Point)
    ensures Axial([d, e]) == (if d.x == 0.0 || d.y == 0.0 then [d] else []) + (if e.x == 0.0 || e.y == 0.0 then [e] else [])
  {
    assert [d, e][1..] == [e] && [e][1..] == [];
    assert Axial([e]) == if e.x == 0.0 || e.y == 0.0 then [e] else [];
    if d.x == 0.0 || d.y == 0.0 {
      assert Axial([d, e]) == [d] + Axial([e]);
    } else {
      assert Axial([d, e]) == Axial([e]);
    }
  }

  /** The 4-neighbourhood is the 8-neighbourhood without its diagonals, in the same order. */
  lemma QuadIsOctoAxial()
    ensures Axial(OctoDirections) == QuadDirections
  {
    var o := OctoDirections;
    var a, b, c, d := [o[0], o[1]], [o[2], o[3]], [o[4], o[5]], [o[6], o[7]];
    assert o == (a + b) + (c + d);
    AxialAppend(a + b, c + d);
    AxialAppend(a, b);
    AxialAppend(c, d);
    AxialPair(o[0], o[1]);
    AxialPair(o[2], o[3]);
    AxialPair(o[4], o[5]);
    AxialPair(o[6], o[7]);
  }

  /** p is far enough inside the box for its whole 8-neighbourhood to be in it. */
  predicate Interior(p: Point, pmin: Point, pmax: Point, step: real)
  {
    step >= 0.0 && pmin.x + step <= p.x <= pmax.x - step && pmin.y + step <= p.y <= pmax.y - step
  }

  /** Every offset by a direction with components in {-1, 0, 1} of an interior point is in the box. */
  lemma InteriorOffsets(p: Point, pmin: Point, pmax: Point, step: real, dirs: seq<Point>)
    requires Interior(p, pmin, pmax, step)
    requires forall i :: 0 <= i < |dirs| ==> dirs[i].x in {-1.0, 0.0, 1.0} && dirs[i].y in {-1.0, 0.0, 1.0}
    ensures forall i :: 0 <= i < |dirs| ==> InBox(Offset(p, dirs[i], step), pmin, pmax)
  {
  }

  /**
   * At an interior point nothing is filtered: `quad_grid` gives the 4 offsets
   * and `octo_grid` the 8 offsets, in direction order.
   */
  lemma InteriorNeighbourhoods(p: Point, pmin: Point, pmax: Point, step: real)
    requires Interior(p, pmin, pmax, step)
    ensures QuadGrid(p, pmin, pmax, step).Ok? && |QuadGrid(p, pmin, pmax, step).value| == 4
    ensures OctoGrid(p, pmin, pmax, step).Ok? && |OctoGrid(p, pmin, pmax, step).value| == 8
    ensures forall i :: 0 <= i < 4 ==> QuadGrid(p, pmin, pmax, step).value[i] == Offset(p, QuadDirections[i], step)
    ensures forall i :: 0 <= i < 8 ==> OctoGrid(p, pmin, pmax, step).value[i] == Offset(p, OctoDirections[i], step)
  {
    InteriorOffsets(p, pmin, pmax, step, QuadDirections);
    InteriorOffsets(p, pmin, pmax, step, OctoDirections);
    NothingFiltered(p, step, pmin, pmax, QuadDirections);
    NothingFiltered(p, step, pmin, pmax, OctoDirections);
  }

  // ----- binders -----

  type GridFn = (Point, Point, Point, real) -> Result<seq<Point>>

  /** `neighbors::make(f, pmin, pmax, step)`: the neighbourhood with the grid fixed. */
  function MakeNeighborhood(f: GridFn, pmin: Point, pmax: Point, step: real): (nf: NeighborsFn)
    ensures forall p :: nf(p) == f(p, pmin, pmax, step)
  {
    p => f(p, pmin, pmax, step)
  }

  /** `transit::make(f, arg)`: the transit with its extra argument fixed. */
  function MakeTransit<A>(f: (Point, seq<Point>, CostMap, A) -> Result<real>, arg: A): (tf: TransitFn)
    ensures forall p, nb, costs :: tf(p, nb, costs) == f(p, nb, costs, arg)
  {
    (p, nb, costs) => f(p, nb, costs, arg)
  }

  /** `transit::on_edge`, the distance being fixed. */
  function OnEdge(dist: Metric): TransitFn
  {
    (p, nb, costs) => OnEdgeCost(p, nb, costs, dist)
  }

  /** `transit::in_simplex` with its epsilon, the distance being fixed. */
  function InSimplex(dist: Metric): (Point, seq<Point>, CostMap, Epsilon) -> Result<real>
  {
    (p: Point, nb: seq<Point>, costs: CostMap, eps: Epsilon) => SimplexCost(p, nb, costs, Samples(eps, true), dist)
  }

  /** `transit::make(in_simplex, eps)` forwards eps unchanged to the simplex transit. */
  lemma InSimplexForwardsEpsilon(dist: Metric, eps: Epsilon, p: Point, nb: seq<Point>, costs: CostMap)
    ensures MakeTransit(InSimplex(dist), eps)(p, nb, costs) == SimplexCost(p, nb, costs, Samples(eps, true), dist)
  {
  }

  /** `algo(neighbors, transit, seed, iterations)`: the engine with the C++ front. */
  function Algo(neighbors: NeighborsFn, transit: TransitFn, seed: Point, iterations: nat): (r: Result<CostMap>)
    ensures r.Ok? ==> seed in r.value && r.value[seed] == 0.0
    ensures iterations == 0 ==> r == Ok(map[seed := 0.0])
  {
    if Loop(Init(seed), iterations, ByCost, neighbors, transit).Ok? then
      RunFacts(seed, iterations, ByCost, neighbors, transit);
      Run(seed, iterations, ByCost, neighbors, transit)
    else
      Run(seed, iterations, ByCost, neighbors, transit)
  }

  /** Both transits never yield a negative cost from non-negative costs. */
  lemma TransitsKeepNonNegative(dist: Metric, eps: Epsilon)
    requires NonNegative(dist)
    ensures KeepsNonNegative(OnEdge(dist))
    ensures KeepsNonNegative(MakeTransit(InSimplex(dist), eps))
  {
    forall n, nb, costs | (forall q :: q in costs ==> costs[q] >= 0.0)
      ensures OnEdge(dist)(n, nb, costs).Ok? ==> OnEdge(dist)(n, nb, costs).value >= 0.0
      ensures MakeTransit(InSimplex(dist), eps)(n, nb, costs).Ok? ==> MakeTransit(InSimplex(dist), eps)(n, nb, costs).value >= 0.0
    {
      OnEdgeLowerBound(n, nb, costs, dist, 0.0);
      SamplesInUnitInterval(eps, true);
      SimplexLowerBound(n, nb, costs, Samples(eps, true), dist, 0.0);
    }
  }

  /**
   * Dijkstra (`on_edge`) and the Fast-Marching-like method (`in_simplex`) on
   * the grid: every cost they compute is non-negative, the seed's is 0.
   */
  lemma AlgoCostsNonNegative(grid: GridFn, pmin: Point, pmax: Point, step: real, dist: Metric, eps: Epsilon,
                             seed: Point, iterations: nat, simplex: bool)
    requires NonNegative(dist)
    requires Algo(MakeNeighborhood(grid, pmin, pmax, step),
                  if simplex then MakeTransit(InSimplex(dist), eps) else OnEdge(dist), seed, iterations).Ok?
    ensures var costs := Algo(MakeNeighborhood(grid, pmin, pmax, step),
                              if simplex then MakeTransit(InSimplex(dist), eps) else OnEdge(dist), seed, iterations).value;
      seed in costs && costs[seed] == 0.0 && forall q :: q in costs ==> costs[q] >= 0.0
  {
    var nf := MakeNeighborhood(grid, pmin, pmax, step);
    var tf := if simplex then MakeTransit(InSimplex(dist), eps) else OnEdge(dist);
    TransitsKeepNonNegative(dist, eps);
    RunFacts(seed, iterations, ByCost, nf, tf);
    LoopNonNegative(Init(seed), iterations, ByCost, nf, tf);
  }
}
