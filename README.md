# Dijkstra and Fast Marching on an implicit grid — a Dafny model

This project models the core of a small front-propagation library: the
C++ header cpp/code.h, the driver cpp/functional.cpp and the Python port
python/code.py. From a single seed, the library
computes an approximate distance ("cost") for every point of an implicit
rectangular grid. A priority queue holds the front. The point on the front
with the smallest cost is accepted. Each neighbour of that point that has no
cost yet gets one from a *transit* function and joins the front. There are
two transit functions:

* **on edge** (Dijkstra): the smallest `cost(n) + distance(p, n)` over the
  neighbours `n` that already have a cost;
* **in simplex** (a Fast-Marching-like scheme): the neighbours are taken in
  clockwise order, and each consecutive pair `(pj, pk)` forms one edge of a
  *tour*. The last neighbour pairs with the first. On every edge whose two
  ends have a cost, `z·cost(pj) + (1−z)·cost(pk) + distance(p, z·pj + (1−z)·pk)`
  is sampled for `z = 0, eps, 2·eps, …`. An edge with one costed end falls
  back to that end. If exactly one neighbour has a cost, that neighbour
  alone is used.

Modules:

| file | module | models |
|---|---|---|
| `geometry.dfy` | `Geometry` | points, cost maps, `has_cost`, the distance, interpolation, and the running minimum every transit loop keeps |
| `tours.dfy` | `Tours` | `tour_iterator`, `tour` and `make_tour` as classes with mutable iterator state, plus the sequence of pairs they enumerate |
| `neighbors.dfy` | `Neighbors` | `neighbors_grid`: offsets filtered by the bounding box, with the "at least two neighbours" assertion |
| `transits.dfy` | `Transits` | `transit_on_edge` and `transit_in_simplex` (C++), as loop methods proved equal to specification functions |
| `pycode.dfy` | `PyCode` | the Python `tour`, `frange` and `transit_in_simplex`, and how the Python transit relates to the C++ one |
| `engine.dfy` | `Engine` | `algo_run`: the front, the acceptance loop, and the invariants it keeps |
| `functional.dfy` | `Functional` | the `quad_grid`/`octo_grid` neighbourhoods, the binders `neighbors::make` and `transit::make`, `on_edge`, `in_simplex` and `algo` |

Modelling choices:

* **Failed assertions.** A failed C++ `assert` or Python `assert` becomes an
  `Err` of a `Fault` value:
  * `TooFewNeighbors`: fewer than two grid neighbours;
  * `NoTransit`: no neighbour with a cost, so the minimum stays infinite;
  * `NoNeighbors`: an accepted point with an empty neighbourhood;
  * `TourTooShort`: the Python `tour` on fewer than two items.

  Apart from a positive sampling step (see below), no operation has a
  precondition the source does not impose.
* **Distances.** The distance is a parameter `dist`. `Geometry.Euclidean`
  pins it down as the non-negative square root of `SquaredDistance`. Most
  lemmas need only that it is non-negative.
* **Sampling step.** `eps` has type `Epsilon`, a positive real. With a
  step of zero or less, the sampling loop of either implementation never
  ends once it reaches an edge with two costed ends. With no such edge,
  the source finishes without sampling, then returns or fails an
  assertion (cpp/code.h:241; python/code.py:20 and 126); the model does
  not cover that case (see "Left out").
* **Samples.** C++ samples `z` from 0 up to and including 1
  (`Samples(eps, true)`). Python's `frange(0, 1, eps)` stops before 1
  (`Samples(eps, false)`). The two sequences differ exactly when `1/eps` is
  an integer. `PyCode.PyAgainstCpp` states what this does to the result.
* **Python ports.** The Python `distance`, `neighbors_grid` and
  `transit_on_edge` do the same thing as their C++ counterparts, so the
  same members model both. Python's `n in costs` is `Geometry.HasCost`.
* **Front order.** The C++ priority queue compares costs only. The Python
  one stores `(cost, point)` tuples, so equal costs are ordered by the
  point. `Engine.FrontOrder` has one case for each (`ByCost`,
  `ByCostThenPoint`). `Engine.AlgoRun` takes the order as a parameter.
* **Transit binders.** `transit::make` with one extra argument is
  `Functional.MakeTransit`. The only zero-argument binding,
  `transit::make(transit::on_edge)` (cpp/functional.cpp:90), adds nothing
  to the function it wraps, so the model uses `Functional.OnEdge`
  directly.

## Model

| member | source | states |
|---|---|---|
| Geometry.EuclideanIsMetric | cpp/code.h:23 | the Euclidean distance is non-negative, zero from a point to itself, and symmetric |
| Geometry.EuclideanUnit | python/code.py:14-15 | two points whose squared distance is 1 are at distance exactly 1, as for unit grid steps |
| Geometry.Lerp | cpp/code.h:212-216 | the interpolated point is `pk` at `z = 0` and `pj` at `z = 1` |
| Geometry.MinOf | cpp/code.h:164-175 | the running minimum started at infinity is "none" exactly when there are no candidates; otherwise it is one of the candidates and no candidate is smaller |
| Geometry.MinOfSnoc | cpp/code.h:171-173 | relaxing the running minimum with one more candidate gives the minimum of the extended sequence |
| Geometry.MinOfPrefixStep | cpp/code.h:165-174 | one more loop iteration relaxes the running minimum with the next candidate |
| Tours.TourShape | python/code.py:21-23 | a tour of at least two items has one pair per item; pair `i` starts at item `i`, and the last pair closes the loop back to the first item |
| Tours.TourIterator.constructor | cpp/code.h:53-56 | a fresh iterator sits at `first`; `next` is one past it, or `last` for an empty range; it is already ended for an empty range or when built as an end iterator |
| Tours.TourIterator.Increment | cpp/code.h:63-79 | the whole new state: an ended iterator jumps to `last`; otherwise both positions advance and `next` wraps to `first` on reaching `last`, which ends the tour |
| Tours.Tour.Begin | cpp/code.h:101-104 | `begin()` is a fresh, not yet ended iterator over the tour's range, unless the range is empty |
| Tours.Tour.End | cpp/code.h:106-109 | `end()` is a fresh ended iterator with both positions at `last` |
| Tours.MakeTour | cpp/code.h:117-121 | `make_tour` spans the whole container |
| Tours.TourPairsStep | cpp/code.h:63-84 | one more `++` of the tour extends the pairs walked so far by the pair at the current position and its cyclic successor |
| Tours.TourWalk | cpp/code.h:58-84 | the pairs that `begin()` to `end()` dereferences, compared with `!=` and advanced with `++`, are exactly the consecutive pairs plus last-to-first; there is one pair per item for two or more items and none otherwise |
| Neighbors.OffsetsInBoxMembers | cpp/code.h:147-154 | a candidate is kept exactly when its offset lies in the closed box; at most one point per direction is kept |
| Neighbors.OffsetsInBoxPrefix | cpp/code.h:147-153 | scanning a prefix of the directions yields a prefix of the result, because points are only appended |
| Neighbors.OffsetsInBoxOrder | cpp/code.h:151-152 | a kept offset lands at the position equal to the number of points kept before its direction, so direction order, hence clockwise order, is preserved |
| Neighbors.OffsetsInBoxStep | cpp/code.h:147-153 | one more direction appends its offset exactly when that offset is in the box |
| Neighbors.NothingFiltered | cpp/code.h:144-154 | when every offset is inside the box, the result is all offsets in direction order |
| Neighbors.NeighborsGrid | cpp/code.h:144-157 | the loop computes the specification function; success means between 2 and `|directions|` neighbours, all in the box; otherwise the error carries the number of neighbours found |
| Transits.Costed | cpp/code.h:195-196 | the neighbours that have a cost, in order: a point is listed exactly when it is a neighbour with a cost |
| Transits.CostedTwice | cpp/code.h:196 | two distinct positions with costs make the count at least 2, so the single-point branch is not taken |
| Transits.EdgeTermAt | cpp/code.h:165-170 | candidate `i` is `cost(n) + distance(p, n)` for a neighbour `n` that has a cost |
| Transits.EdgeTermOf | cpp/code.h:165-170 | every neighbour with a cost contributes its `cost(n) + distance(p, n)` as a candidate |
| Transits.EdgeTermsMembers | cpp/code.h:165-170 | a value is a candidate of the edge transit exactly when it is `cost(n) + distance(p, n)` for some neighbour `n` with a cost |
| Transits.OnEdgeIsMinimum | cpp/code.h:162-179 | the edge transit succeeds exactly when some neighbour has a cost; its value is one of the candidate sums and no larger than any of them |
| Transits.OnEdgeLowerBound | python/code.py:61-78 | with a non-negative distance, the edge transit is at least any lower bound of the neighbours' costs |
| Transits.OnEdgeUnitStep | python/code.py:61-78 | with the Euclidean distance and a single costed neighbour one grid step away, the edge transit is that neighbour's cost plus 1 |
| Transits.EdgeTermsStep | cpp/code.h:165-175 | one more neighbour relaxes the running minimum with its candidate when it has a cost, and leaves it unchanged otherwise |
| Transits.OnEdgeDefined | cpp/code.h:176-177 | the final assertion of the edge transit fails exactly when no neighbour has a cost |
| Transits.TransitOnEdge | python/code.py:67-78 | the loop with its running minimum computes the edge transit; it fails exactly when no neighbour has a cost |
| Transits.SampleCountSpec | cpp/code.h:211 | sample `k` exists exactly when `k·eps <= 1`; for the Python range, exactly when `k·eps < 1` |
| Transits.SampleStep | cpp/code.h:211 | consecutive samples differ by `eps`, and one step past the last sample exceeds 1, where the C++ loop stops |
| Transits.SamplesInUnitInterval | cpp/code.h:211 | the first sample is 0 and every sample lies in `[0, 1]` |
| Transits.ExclusiveSamplesDropOne | python/code.py:102 | the samples stopping before 1 never contain 1; they equal the inclusive samples, or the inclusive samples are those plus the single value 1 |
| Transits.TourTermsContain | cpp/code.h:202-237 | every candidate of a single tour edge is a candidate of the whole tour |
| Transits.TourTermsFrom | cpp/code.h:202-237 | every tour candidate comes from some tour edge |
| Transits.InterpolationAbove | cpp/code.h:219 | interpolating two costs with a weight in `[0, 1]` stays above any common lower bound |
| Transits.SegmentTermsAbove | cpp/code.h:211-219 | with a non-negative distance and samples in `[0, 1]`, every interpolated candidate of an edge is at least any common lower bound of its two end costs, such as the smaller one |
| Transits.PairTermsAbove | cpp/code.h:208-236 | with a non-negative distance, every candidate of an edge is at least any lower bound of its ends' costs, in all three branches |
| Transits.SimplexLowerBound | cpp/code.h:188-243 | with a non-negative distance and samples in `[0, 1]`, the simplex transit is at least any lower bound of the neighbours' costs |
| Transits.TourTermsNeedCost | cpp/code.h:206-236 | the tour yields a candidate only when some neighbour has a cost |
| Transits.NeighbourIsTourCandidate | cpp/code.h:202-236 | when `z = 0` is sampled, `cost(n) + distance(p, n)` is a tour candidate for every costed neighbour `n` |
| Transits.SimplexNoWorseThanEdge | cpp/code.h:188-243 | the simplex transit succeeds exactly when the edge transit does, and is never larger |
| Transits.SimplexCostDefined | cpp/code.h:240-241 | the final assertion of the simplex transit fails exactly when no neighbour has a cost |
| Transits.TourTermsSnoc | cpp/code.h:202-237 | walking one more tour edge appends exactly that edge's candidates |
| Transits.SingleCostedPair | cpp/code.h:226-235 | with one costed neighbour, every tour edge yields either nothing or that neighbour's edge cost |
| Transits.PairOfOneCosted | cpp/code.h:226-235 | an edge with at most one costed end `w` contributes `cost(w) + distance(p, w)` when one of its ends has a cost, and nothing otherwise |
| Transits.AtMostOneCosted | cpp/code.h:196 | with one costed neighbour, no two distinct positions are both costed |
| Transits.SingleCostedTourTerms | cpp/code.h:202-237 | with one costed neighbour, every tour candidate equals that neighbour's cost plus distance |
| Transits.SingleCostedInTour | cpp/code.h:226-235 | with one costed neighbour among two or more, the edge ending at it contributes its cost plus distance |
| Transits.SingleCostedAgreesWithTour | cpp/code.h:192-199 | with two or more neighbours, the single-point special case gives the same value the tour would give |
| Transits.TourTermsMoreSamples | cpp/code.h:211 | adding samples after the existing ones only adds candidates |
| Transits.SimplexMoreSamplesNoWorse | cpp/code.h:211-223 | extending the samples keeps the transit defined and never raises it |
| Transits.SegmentStep | cpp/code.h:211-223 | one more sample relaxes the running minimum with exactly that sample's interpolated candidate |
| Transits.SampleSegment | cpp/code.h:211-223 | the `z` loop folds exactly the interpolated candidate of every inclusive sample into the running minimum |
| Transits.RelaxEdge | cpp/code.h:208-236 | one pass over a tour edge folds exactly that edge's candidates into the running minimum |
| Transits.ScanTour | cpp/code.h:202-237 | the loop over the tour edges folds exactly all the tour candidates over the inclusive samples into the running minimum |
| Transits.TransitInSimplex | cpp/code.h:188-243 | the method computes the simplex transit over the inclusive samples; it fails exactly when no neighbour has a cost |
| PyCode.Zip | python/code.py:22 | `zip` pairs items by position, up to the shorter length |
| PyCode.PyTourIsTour | python/code.py:18-23 | the Python `tour` fails exactly on fewer than two items and otherwise yields the same pairs as the C++ tour |
| PyCode.FRange | python/code.py:28-31 | the loop yields `x, x+s, x+2s, …`, exactly the values below `y`; with `x >= y` it yields nothing, whatever the step |
| PyCode.SteppedBelowUnique | python/code.py:28-31 | that description fixes the yielded sequence uniquely |
| PyCode.SteppedFromZero | python/code.py:28-31 | from 0 with step `eps`, item `i` is `i·eps` |
| PyCode.SteppedCount | python/code.py:29 | `frange(0, 1, eps)` yields as many values as there are exclusive samples |
| PyCode.FRangeSamples | python/code.py:102 | `frange(0, 1, eps)` is exactly the exclusive sample sequence |
| PyCode.PyAgainstCpp | python/code.py:81-127 | whenever Python builds a tour, it succeeds exactly when C++ does; the C++ value is never larger; the two agree when `1/eps` is not an integer |
| PyCode.PyLowerBound | python/code.py:81-127 | with a non-negative distance, the Python simplex transit is at least any lower bound of the neighbours' costs |
| PyCode.PySampleSegment | python/code.py:102-112 | the `frange` loop folds exactly the exclusive samples' candidates into the running minimum |
| PyCode.PyRelaxEdge | python/code.py:95-123 | one Python pass over a tour edge folds exactly that edge's candidates into the running minimum |
| PyCode.PyScanTour | python/code.py:94-123 | the Python loop over the tour edges folds exactly all the tour candidates over the exclusive samples into the running minimum |
| PyCode.PyTransitInSimplex | python/code.py:81-127 | the method computes the Python simplex transit; it succeeds exactly when there is a tour or a single costed neighbour, and some neighbour has a cost |
| Engine.PrecedesOrder | python/code.py:146-164 | the front order is irreflexive and transitive; the Python `(cost, point)` order is also total on distinct points |
| Engine.PopIndexIsMinimal | cpp/code.h:263-276 | the popped point has the least cost on the front; nothing precedes it; under the cost-only order it is the earliest-pushed such point; under the Python order it precedes every other point |
| Engine.RemoveTakesOne | cpp/code.h:276 | popping position `k` takes exactly that one point off the front, as multisets, and keeps the other points in their order |
| Engine.OpenPreserves | cpp/code.h:280-287 | opening the neighbours keeps existing costs, gives every neighbour a cost, and pushes only points that had none, so no point is pushed twice |
| Engine.PopPreserves | cpp/code.h:276 | moving the popped point from the front to the accepted list keeps every point unique and the cost map's keys unchanged |
| Engine.StepPreserves | cpp/code.h:274-287 | one iteration accepts exactly the popped point, keeps the invariant, and never changes a cost already computed |
| Engine.LoopPreserves | cpp/code.h:271-288 | the loop keeps the invariant and every computed cost; earlier accepted points stay in order; it accepts at most `iterations` points and stops early only on an empty front |
| Engine.RunFacts | cpp/code.h:260-289 | a successful run gives the seed cost 0, keeps each point either accepted or on the front exactly once, accepts at most `iterations` points, and stops early only when the front empties |
| Engine.RunZeroIterations | cpp/code.h:267-271 | with zero iterations the result is the seed at cost 0 |
| Engine.MoreIterationsOnlyAdd | cpp/code.h:271-287 | one more iteration only adds costs and never changes one already in the map |
| Engine.LoopNonNegative | cpp/code.h:280-287 | when the transit never returns a negative cost from non-negative costs, all costs stay non-negative |
| Engine.OpenNonNegative | cpp/code.h:282-285 | the same for opening the neighbours of one point |
| Engine.AlgoRun | cpp/code.h:253-290 | the method with a mutable cost map and front computes the run function; the seed ends at cost 0; zero iterations give only the seed |
| Functional.QuadGrid | cpp/functional.cpp:28-34 | success gives between 2 and 4 neighbours, all inside the box |
| Functional.OctoGrid | cpp/functional.cpp:36-40 | success gives between 2 and 8 neighbours, all inside the box |
| Functional.ClockwiseByIndex | cpp/functional.cpp:31 | a direction list turns clockwise around the tour when each direction turns clockwise to the next, the last wrapping to the first |
| Functional.DirectionsClockwise | cpp/functional.cpp:30-38 | both direction lists are in clockwise order, as the simplex transit needs |
| Functional.AxialAppend | cpp/functional.cpp:32-38 | keeping the axis-aligned directions distributes over concatenation |
| Functional.AxialPair | cpp/functional.cpp:38 | which of two directions are axis-aligned |
| Functional.QuadIsOctoAxial | cpp/functional.cpp:32-38 | the four directions are exactly the axis-aligned ones among the eight, in the same order |
| Functional.InteriorOffsets | cpp/code.h:149-151 | one step in any direction from a point at least a step inside the box stays in the box |
| Functional.InteriorNeighbourhoods | cpp/functional.cpp:28-40 | at an interior point the grids give all 4, respectively all 8, neighbours, in direction order |
| Functional.MakeNeighborhood | cpp/functional.cpp:19-26 | the bound neighbourhood applies the grid function to the captured box and step |
| Functional.MakeTransit | cpp/functional.cpp:47-54 | the bound transit applies the transit function to the captured extra argument |
| Functional.InSimplexForwardsEpsilon | cpp/functional.cpp:61-64 | `transit::make(in_simplex, eps)` is the simplex transit over the samples of that `eps` |
| Functional.Algo | cpp/functional.cpp:68-71 | `algo` runs `algo_run` with the C++ order; a successful result gives the seed cost 0; zero iterations give only the seed |
| Functional.TransitsKeepNonNegative | cpp/functional.cpp:56-64 | with a non-negative distance, both transits produce non-negative costs from non-negative costs |
| Functional.AlgoCostsNonNegative | cpp/functional.cpp:68-71 | with a non-negative distance, every cost `algo` computes with either transit is non-negative |

## Left out

- Floating point: costs and coordinates are mathematical reals. Rounding
  in `distance`, in the interpolation and in the accumulation `z += eps` is
  not modelled. The samples are the exact `k·eps`.
- `sqrt` is not computed: the distance is a parameter. `Geometry.Euclidean`
  says what it must be.
- `Geometry.HasCost`: the C++ check also asks that the stored cost be below
  infinity. Costs here are reals, so that part always holds. The source
  notes it is unused.
- Ties in the C++ `std::priority_queue` are resolved in an
  implementation-defined way. The model pops the earliest-pushed point
  among those of least cost.
- Python ties beyond `(cost, point)` cannot happen: a point is never pushed
  twice (`Engine.OpenPreserves`).
- The C++ comparator reads `costs[lhs]` with `operator[]`, which would insert
  a zero cost for a missing point. Every point on the front has a cost, so
  `Engine.CostOf` defaults to 0 only for completeness.
- Both `algo_run` loops print a progress counter. `grid_print`, the two
  `main` functions and the printing of results are not part of this model.
- The C++ `iterations` is an `unsigned int`. It is a `nat` here. The 32-bit
  bound does not change what the loop does.
- `costs[n] = transit(n, neighbors(n), costs)` may create the entry for `n`
  before the transit runs. The transit reads only the costs of `n`'s
  neighbours, and a grid point is not its own neighbour, so the model
  computes the transit first.
- `Neighbors.NeighborsGrid` takes the directions as a parameter. The
  clockwise requirement on them is a property of the two direction lists
  (`Functional.DirectionsClockwise`), not a precondition.
- `Engine.AlgoRun` does not state the optimality of Dijkstra's acceptance
  order: costs accepted later are not proved to be at least those accepted
  earlier. That holds only for symmetric neighbourhoods and monotone
  transits, which the library does not check.
- Transits.TransitInSimplex: requires a positive `eps` (type `Epsilon`).
  With `eps <= 0` the C++ function still finishes without sampling when
  exactly one neighbour has a cost (cpp/code.h:196-199) or when no tour
  edge has two costed ends (cpp/code.h:226-235). It then returns, or fails
  its final assertion (cpp/code.h:241) when no neighbour has a cost. Only
  an edge with two costed ends makes it loop forever.
- PyCode.PyTransitInSimplex: requires a positive `eps` for the same
  reason. With `eps <= 0` the Python function still finishes without
  sampling when exactly one neighbour has a cost (python/code.py:88-91) or
  when no tour edge has two costed ends (python/code.py:114-123). It then
  returns, or fails an assertion: in `tour` with fewer than two neighbours
  (python/code.py:20), or at the end when no neighbour has a cost
  (python/code.py:126).
- PyCode.FRange: requires `s > 0` when `x < y`, because the Python
  generator never stops there with a step of zero or less. With `x >= y`
  any step is accepted and nothing is yielded.
