/**
 * The Python variant of the engine (python/code.py): its tour over a list,
 * its `frange` generator and its simplex transit, which samples each edge
 * at z = 0, eps, 2·eps, ... strictly below 1 and walks the tour only after
 * checking that it has at least two items.
 *
 * `neighbors_grid`, `transit_on_edge` and `distance` compute what their C++
 * counterparts compute and are the members of Neighbors, Transits and
 * Geometry.
 */
module PyCode {
  import opened Geometry
  import opened Tours
  import opened Transits

  // ----- tour -----

  /** `zip(a, b)`: pairs of same-position items, as many as the shorter sequence has. */
  function Zip<A, B>(a: seq<A>, b: seq<B>): (z: seq<(A, B)>)
    ensures |z| == if |a| <= |b| then |a| else |b|
    ensures forall i :: 0 <= i < |z| ==> z[i] == (a[i], b[i])
  {
    if a == [] || b == [] then [] else [(a[0], b[0])] + Zip(a[1..], b[1..])
  }

  /**
   * `tour(lst)`: the list zipped with itself rotated by one, or nothing when
   * the list has fewer than two items (the generator's failed assertion).
   */
  function PyTour<T>(lst: seq<T>): Result<seq<(T, T)>>
  {
    if |lst| < 2 then Err(TourTooShort(|lst|)) else Ok(Zip(lst, lst[1..] + [lst[0]]))
  }

  /** The Python tour yields the same closed tour as the C++ iterator, and fails exactly on short lists. */
  lemma PyTourIsTour<T>(lst: seq<T>)
    ensures PyTour(lst).Err? <==> |lst| < 2
    ensures PyTour(lst).Err? ==> PyTour(lst).fault == TourTooShort(|lst|)
    ensures PyTour(lst).Ok? ==> PyTour(lst).value == TourPairs(lst)
  {
    if |lst| >= 2 {
      var rot := lst[1..] + [lst[0]];
      var z := Zip(lst, rot);
      forall i | 0 <= i < |lst|
        ensures z[i] == TourPairs(lst)[i]
      {
        TourShape(lst, i);
        if i + 1 < |lst| {
          assert rot[i] == lst[i + 1];
        } else {
          assert rot[i] == lst[0];
        }
      }
    }
  }

  // ----- frange -----

  /**
   * r is what `frange(x, y, s)` yields: it starts at x, each item is the
   * previous one plus s, every item is below y, and the next step would not
   * be.
   */
  ghost predicate SteppedBelow(r: seq<real>, x: real, y: real, s: real)
  {
    (r == [] ==> x >= y) &&
    (r != [] ==> r[0] == x && r[|r| - 1] + s >= y) &&
    (forall i :: 0 < i < |r| ==> r[i] == r[i - 1] + s) &&
    (forall i :: 0 <= i < |r| ==> r[i] < y)
  }

  /** One more step of size s lowers the floor of the number of remaining steps by one. */
  lemma StepsLeft(y: real, z: real, s: real)
    requires s > 0.0
    ensures ((y - (z + s)) / s).Floor == ((y - z) / s).Floor - 1
    ensures z < y ==> ((y - z) / s).Floor >= 0
  {
    var a, b := (y - z) / s, (y - (z + s)) / s;
    assert a * s == y - z && b * s == y - z - s;
    assert (b - (a - 1.0)) * s == b * s - (a - 1.0) * s;
    ZeroProduct(b - (a - 1.0), s);
    if z < y {
      assert (y - z) / s > 0.0;
    }
  }

  /**
   * `frange(x, y, s)` as the source runs it. With x >= y it yields nothing
   * whatever the step; with x < y a step s <= 0 would loop forever.
   */
  method FRange(x: real, y: real, s: real) returns (r: seq<real>)
    requires s > 0.0 || x >= y
    ensures SteppedBelow(r, x, y, s)
  {
    r := [];
    var z := x;
    while z < y
      invariant r == [] ==> z == x
      invariant r != [] ==> r[0] == x && z == r[|r| - 1] + s
      invariant forall i :: 0 < i < |r| ==> r[i] == r[i - 1] + s
      invariant forall i :: 0 <= i < |r| ==> r[i] < y
      invariant s <= 0.0 ==> r == []
      decreases if s > 0.0 then ((y - z) / s).Floor else 0
    {
      if s > 0.0 {
        StepsLeft(y, z, s);
      }
      r := r + [z];
      z := z + s;
    }
  }

  /** There is only one such sequence: `frange` is determined by its arguments. */
  lemma {:induction false} SteppedBelowUnique(r: seq<real>, r': seq<real>, x: real, y: real, s: real)
    requires s > 0.0 && SteppedBelow(r, x, y, s) && SteppedBelow(r', x, y, s)
    ensures r == r'
  {
    SteppedBelowNotLonger(r, r', x, y, s);
    SteppedBelowNotLonger(r', r, x, y, s);
    forall i | 0 <= i < |r|
      ensures r[i] == r'[i]
    {
      SteppedBelowAgree(r, r', x, y, s, i);
    }
  }

  lemma SteppedBelowNotLonger(r: seq<real>, r': seq<real>, x: real, y: real, s: real)
    requires SteppedBelow(r, x, y, s) && SteppedBelow(r', x, y, s)
    ensures |r| <= |r'|
  {
    if |r'| < |r| && r' != [] {
      SteppedNext(r, x, y, s, |r'|);
      SteppedBelowAgree(r, r', x, y, s, |r'| - 1);
    }
  }

  lemma SteppedNext(r: seq<real>, x: real, y: real, s: real, i: nat)
    requires SteppedBelow(r, x, y, s) && 0 < i < |r|
    ensures r[i] == r[i - 1] + s && r[i] < y
  {
  }

  lemma {:induction false} SteppedBelowAgree(r: seq<real>, r': seq<real>, x: real, y: real, s: real, i: nat)
    requires SteppedBelow(r, x, y, s) && SteppedBelow(r', x, y, s)
    requires i < |r| && i < |r'|
    ensures r[i] == r'[i]
  {
    if i > 0 {
      SteppedBelowAgree(r, r', x, y, s, i - 1);
    }
  }

  /** `frange(0, 1, eps)` yields the i-th sample i·eps at position i. */
  lemma {:induction false} SteppedFromZero(r: seq<real>, eps: Epsilon, i: nat)
    requires SteppedBelow(r, 0.0, 1.0, eps) && i < |r|
    ensures r[i] == i as real * eps
  {
    if i > 0 {
      SteppedFromZero(r, eps, i - 1);
      MulStep(i - 1, eps);
    }
  }

  lemma MulStep(k: nat, e: real)
    ensures (k + 1) as real * e == k as real * e + e
  {
  }

  /** `frange(0, 1, eps)` yields as many items as there are samples below 1. */
  lemma SteppedCount(r: seq<real>, eps: Epsilon)
    requires SteppedBelow(r, 0.0, 1.0, eps)
    ensures |r| == SampleCount(eps, false)
  {
    var n := |r|;
    assert n > 0;
    SteppedFromZero(r, eps, n - 1);
    MulStep(n - 1, eps);
    assert n as real * eps >= 1.0;
    SampleCountSpec(eps, false, n);
    assert n >= SampleCount(eps, false);
    var count := SampleCount(eps, false);
    if count < n {
      SteppedFromZero(r, eps, count);
      SampleCountSpec(eps, false, count);
    }
  }

  /** `frange(0, 1, eps)` yields exactly the samples strictly below 1. */
  lemma FRangeSamples(r: seq<real>, eps: Epsilon)
    requires SteppedBelow(r, 0.0, 1.0, eps)
    ensures r == Samples(eps, false)
  {
    var zs := Samples(eps, false);
    SteppedCount(r, eps);
    forall i | 0 <= i < |r|
      ensures r[i] == zs[i]
    {
      SteppedFromZero(r, eps, i);
    }
  }

  // ----- transit in the simplex -----

  /**
   * The Python `transit_in_simplex` over the samples below 1: the single
   * costed neighbour special case, else the tour, which fails on fewer than
   * two neighbours.
   */
  function PySimplexCost(p: Point, nb: seq<Point>, costs: CostMap, eps: Epsilon, dist: Metric): Result<real>
  {
    if |Costed(nb, costs)| != 1 && |nb| < 2 then Err(TourTooShort(|nb|))
    else SimplexCost(p, nb, costs, Samples(eps, false), dist)
  }

  /**
   * Against the C++ transit (samples up to and including 1): defined on the
   * same neighbourhoods, never lower since z = 1 may go unsampled, and equal
   * whenever 1/eps is not a whole number, as then both visit the same samples.
   */
  lemma PyAgainstCpp(p: Point, nb: seq<Point>, costs: CostMap, eps: Epsilon, dist: Metric)
    requires |nb| >= 2 || |Costed(nb, costs)| == 1
    ensures PySimplexCost(p, nb, costs, eps, dist).Ok? <==> SimplexCost(p, nb, costs, Samples(eps, true), dist).Ok?
    ensures PySimplexCost(p, nb, costs, eps, dist).Ok? ==>
      SimplexCost(p, nb, costs, Samples(eps, true), dist).value <= PySimplexCost(p, nb, costs, eps, dist).value
    ensures (1.0 / eps).Floor as real != 1.0 / eps ==>
      PySimplexCost(p, nb, costs, eps, dist) == SimplexCost(p, nb, costs, Samples(eps, true), dist)
  {
    var lo, hi := Samples(eps, false), Samples(eps, true);
    ExclusiveSamplesDropOne(eps);
    assert lo <= hi;
    SamplesInUnitInterval(eps, false);
    SamplesInUnitInterval(eps, true);
    SimplexNoWorseThanEdge(p, nb, costs, lo, dist);
    SimplexNoWorseThanEdge(p, nb, costs, hi, dist);
    if SimplexCost(p, nb, costs, lo, dist).Ok? {
      SimplexMoreSamplesNoWorse(p, nb, costs, hi, lo, dist);
    }
  }

  /** Whatever bounds the costed neighbours' costs from below bounds the Python transit. */
  lemma PyLowerBound(p: Point, nb: seq<Point>, costs: CostMap, eps: Epsilon, dist: Metric, b: real)
    requires NonNegative(dist)
    requires forall n :: n in nb && HasCost(n, costs) ==> costs[n] >= b
    ensures PySimplexCost(p, nb, costs, eps, dist).Ok? ==> PySimplexCost(p, nb, costs, eps, dist).value >= b
  {
    SamplesInUnitInterval(eps, false);
    SimplexLowerBound(p, nb, costs, Samples(eps, false), dist, b);
  }

  /**
   * The sampling loop of the Python transit over one edge whose two ends
   * have a cost: `for z in frange(0, 1, eps)`, each sample relaxing the
   * running minimum.
   */
  method PySampleSegment(p: Point, pj: Point, pk: Point, cj: real, ck: real, eps: Epsilon, dist: Metric,
                         mincost: Option<real>, ghost before: seq<real>)
    returns (m: Option<real>)
    requires mincost == MinOf(before)
    ensures m == MinOf(before + SegmentTerms(p, pj, pk, cj, ck, Samples(eps, false), dist))
  {
    m := mincost;
    var zs := FRange(0.0, 1.0, eps);
    FRangeSamples(zs, eps);
    ghost var segment := SegmentTerms(p, pj, pk, cj, ck, zs, dist);
    assert before + segment[..0] == before;
    for i := 0 to |zs|
      invariant m == MinOf(before + segment[..i])
    {
      var z := zs[i];
      var c := SegmentTerm(p, pj, pk, cj, ck, z, dist);
      SegmentStep(p, pj, pk, cj, ck, zs, dist, before, i, z);
      if m.None? || c < m.value {
        m := Some(c);
      }
    }
    assert segment[..|zs|] == segment;
  }

  /**
   * The edge step of the Python transit: the running minimum relaxed with the
   * candidates of the edge (pj, pk), sampling through `frange(0, 1, eps)`.
   */
  method PyRelaxEdge(p: Point, pj: Point, pk: Point, costs: CostMap, eps: Epsilon, dist: Metric,
                     mincost: Option<real>, ghost before: seq<real>)
    returns (m: Option<real>)
    requires mincost == MinOf(before)
    ensures m == MinOf(before + PairTerms(p, (pj, pk), costs, Samples(eps, false), dist))
  {
    ghost var terms := PairTerms(p, (pj, pk), costs, Samples(eps, false), dist);
    m := mincost;
    if HasCost(pj, costs) && HasCost(pk, costs) {
      m := PySampleSegment(p, pj, pk, costs[pj], costs[pk], eps, dist, m, before);
    } else if HasCost(pj, costs) && !HasCost(pk, costs) {
      var c := costs[pj] + dist(p, pj);
      assert terms == [c];
      MinOfSnoc(before, c);
      if m.None? || c < m.value {
        m := Some(c);
      }
    } else if !HasCost(pj, costs) && HasCost(pk, costs) {
      var c := costs[pk] + dist(p, pk);
      assert terms == [c];
      MinOfSnoc(before, c);
      if m.None? || c < m.value {
        m := Some(c);
      }
    } else {
      assert before + terms == before;
    }
  }

  /** The Python `for edge in tour(neighbors)` loop: every tour edge relaxes the running minimum. */
  method PyScanTour(p: Point, edges: seq<(Point, Point)>, costs: CostMap, eps: Epsilon, dist: Metric)
    returns (mincost: Option<real>)
    ensures mincost == MinOf(TourTerms(p, edges, costs, Samples(eps, false), dist))
  {
    ghost var zs := Samples(eps, false);
    mincost := None;
    for e := 0 to |edges|
      invariant mincost == MinOf(TourTerms(p, edges[..e], costs, zs, dist))
    {
      var (pj, pk) := edges[e];
      ghost var before := TourTerms(p, edges[..e], costs, zs, dist);
      TourTermsSnoc(p, edges, costs, zs, dist, e);
      mincost := PyRelaxEdge(p, pj, pk, costs, eps, dist, mincost, before);
    }
    assert edges[..|edges|] == edges;
  }

  /** The Python `transit_in_simplex` as the source runs it. */
  method PyTransitInSimplex(p: Point, nb: seq<Point>, costs: CostMap, eps: Epsilon, dist: Metric)
    returns (r: Result<real>)
    ensures r == PySimplexCost(p, nb, costs, eps, dist)
    ensures r.Ok? <==> (|nb| >= 2 || |Costed(nb, costs)| == 1) && exists n :: n in nb && HasCost(n, costs)
  {
    ghost var zs := Samples(eps, false);
    var withCost := Costed(nb, costs);
    var mincost: Option<real> := None;
    if |withCost| == 1 {
      var n := withCost[0];
      assert n in withCost;
      mincost := Some(costs[n] + dist(p, n));
    } else {
      var tour := PyTour(nb);
      PyTourIsTour(nb);
      if tour.Err? {
        return Err(tour.fault);
      }
      mincost := PyScanTour(p, tour.value, costs, eps, dist);
    }
    SamplesInUnitInterval(eps, false);
    SimplexCostDefined(p, nb, costs, zs, dist);
    if mincost.None? {
      return Err(NoTransit(p));
    }
    return Ok(mincost.value);
  }
}
