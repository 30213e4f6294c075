/**
 * The front-propagation engine `algo_run` (cpp/code.h:253-290,
 * python/code.py:130-183).
 *
 * The seed gets cost 0 and starts the front. Each iteration pops the point
 * of least cost from the front, asks for its neighbours, and gives every
 * neighbour that has no cost yet the cost computed by the transit from its
 * own neighbours, pushing it onto the front. The run stops when the budget
 * of iterations is spent or the front is empty.
 *
 * The specification is a step function over `State`; `accepted` records the
 * points popped so far, which the source does not keep but which lets the
 * invariants say where every costed point is. `AlgoRun` is the source's
 * loop, proved to compute `Run`.
 */
module Engine {
  import opened Geometry

  type NeighborsFn = Point -> Result<seq<Point>>
  type TransitFn = (Point, seq<Point>, CostMap) -> Result<real>

  /**
   * How the front breaks ties: the C++ queue compares costs only; the Python
   * queue stores (cost, point) tuples, so equal costs pop in point order.
   */
  datatype FrontOrder = ByCost | ByCostThenPoint

  datatype State = State(costs: CostMap, front: seq<Point>, accepted: seq<Point>)

  /** The cost the front's comparator reads; the C++ `costs[p]` reads 0 for a missing key. */
  function CostOf(costs: CostMap, p: Point): real
  {
    if p in costs then costs[p] else 0.0
  }

  /** Python's tuple order on points: by x, then by y. */
  predicate PointBefore(a: Point, b: Point)
  {
    a.x < b.x || (a.x == b.x && a.y < b.y)
  }

  /** a leaves the front before b. */
  predicate Precedes(order: FrontOrder, costs: CostMap, a: Point, b: Point)
  {
    CostOf(costs, a) < CostOf(costs, b) ||
    (order == ByCostThenPoint && CostOf(costs, a) == CostOf(costs, b) && PointBefore(a, b))
  }

  /** Leaving the front earlier is a strict order; on distinct points and by (cost, point) it is total. */
  lemma PrecedesOrder(order: FrontOrder, costs: CostMap, a: Point, b: Point, c: Point)
    ensures !Precedes(order, costs, a, a)
    ensures Precedes(order, costs, a, b) && Precedes(order, costs, b, c) ==> Precedes(order, costs, a, c)
    ensures order == ByCostThenPoint && a != b ==> Precedes(order, costs, a, b) || Precedes(order, costs, b, a)
  {
  }

  /** Position of the point the front pops next: the first one that no other precedes. */
  function PopIndex(order: FrontOrder, costs: CostMap, front: seq<Point>): (k: nat)
    requires front != []
    ensures k < |front|
    decreases |front|
  {
    if |front| == 1 then 0
    else
      var k := PopIndex(order, costs, front[..|front| - 1]);
      if Precedes(order, costs, front[|front| - 1], front[k]) then |front| - 1 else k
  }

  predicate Distinct(s: seq<Point>)
  {
    forall i, j :: 0 <= i < j < |s| ==> s[i] != s[j]
  }

  /**
   * The popped point has the least cost on the front, no point before it has
   * the same cost, and by (cost, point) it precedes every other point of a
   * front without duplicates.
   */
  lemma {:induction false} PopIndexIsMinimal(order: FrontOrder, costs: CostMap, front: seq<Point>)
    requires front != []
    ensures forall j :: 0 <= j < |front| ==> !Precedes(order, costs, front[j], front[PopIndex(order, costs, front)])
    ensures forall j :: 0 <= j < |front| ==> CostOf(costs, front[PopIndex(order, costs, front)]) <= CostOf(costs, front[j])
    ensures order == ByCost ==>
      forall j :: 0 <= j < PopIndex(order, costs, front) ==> CostOf(costs, front[PopIndex(order, costs, front)]) < CostOf(costs, front[j])
    ensures order == ByCostThenPoint && Distinct(front) ==>
      forall j :: 0 <= j < |front| && j != PopIndex(order, costs, front) ==>
        Precedes(order, costs, front[PopIndex(order, costs, front)], front[j])
    decreases |front|
  {
    var k := PopIndex(order, costs, front);
    if |front| > 1 {
      var init := front[..|front| - 1];
      var last := front[|front| - 1];
      PopIndexIsMinimal(order, costs, init);
      var k' := PopIndex(order, costs, init);
      assert init[k'] == front[k'];
      forall j | 0 <= j < |front|
        ensures !Precedes(order, costs, front[j], front[k])
      {
        if j < |front| - 1 {
          assert front[j] == init[j];
          PrecedesOrder(order, costs, front[j], last, front[k']);
        }
        PrecedesOrder(order, costs, front[j], front[j], front[j]);
      }
      if order == ByCostThenPoint && Distinct(front) {
        forall j | 0 <= j < |front| && j != k
          ensures Precedes(order, costs, front[k], front[j])
        {
          PrecedesOrder(order, costs, front[k], front[j], front[j]);
        }
      }
      if order == ByCost {
        forall j | 0 <= j < k
          ensures CostOf(costs, front[k]) < CostOf(costs, front[j])
        {
          assert front[j] == init[j];
        }
      }
    }
  }

  /** The front with position k taken out. */
  function Remove(front: seq<Point>, k: nat): (r: seq<Point>)
    requires k < |front|
    ensures |r| == |front| - 1
  {
    front[..k] + front[k + 1..]
  }

  /**
   * Popping takes out exactly the one entry at k: together with it the rest
   * is the old front as a multiset, and the other entries keep their order.
   */
  lemma RemoveTakesOne(front: seq<Point>, k: nat)
    requires k < |front|
    ensures multiset(Remove(front, k)) + multiset{front[k]} == multiset(front)
    ensures forall i :: 0 <= i < k ==> Remove(front, k)[i] == front[i]
    ensures forall i :: k <= i < |front| - 1 ==> Remove(front, k)[i] == front[i + 1]
  {
    assert front == front[..k] + [front[k]] + front[k + 1..];
  }

  /**
   * The inner loop over the neighbours of the accepted point: each one
   * without a cost gets the transit from its own neighbours and joins the
   * front, in neighbour order; a failing neighbour query or transit aborts.
   */
  function Open(st: State, around: seq<Point>, neighbors: NeighborsFn, transit: TransitFn): Result<State>
    decreases |around|
  {
    if around == [] then Ok(st)
    else
      var n := around[0];
      if HasCost(n, st.costs) then Open(st, around[1..], neighbors, transit)
      else
        match neighbors(n)
        case Err(f) => Err(f)
        case Ok(nbn) =>
          match transit(n, nbn, st.costs)
          case Err(f) => Err(f)
          case Ok(c) => Open(State(st.costs[n := c], st.front + [n], st.accepted), around[1..], neighbors, transit)
  }

  /** One iteration: pop the least point, require it to have neighbours, open them. */
  function Step(st: State, order: FrontOrder, neighbors: NeighborsFn, transit: TransitFn): Result<State>
    requires st.front != []
  {
    var k := PopIndex(order, st.costs, st.front);
    var p := st.front[k];
    var popped := State(st.costs, Remove(st.front, k), st.accepted + [p]);
    match neighbors(p)
    case Err(f) => Err(f)
    case Ok(around) => if around == [] then Err(NoNeighbors(p)) else Open(popped, around, neighbors, transit)
  }

  /** Iterations until the budget is spent or the front is empty. */
  function Loop(st: State, budget: nat, order: FrontOrder, neighbors: NeighborsFn, transit: TransitFn): Result<State>
    decreases budget
  {
    if budget == 0 || st.front == [] then Ok(st)
    else
      match Step(st, order, neighbors, transit)
      case Err(f) => Err(f)
      case Ok(next) => Loop(next, budget - 1, order, neighbors, transit)
  }

  /** The seed with cost 0, alone on the front. */
  function Init(seed: Point): State
  {
    State(map[seed := 0.0], [seed], [])
  }

  /** `algo_run(seed, iterations, neighbors, transit)`: the cost map after the loop. */
  function Run(seed: Point, iterations: nat, order: FrontOrder, neighbors: NeighborsFn, transit: TransitFn): Result<CostMap>
  {
    match Loop(Init(seed), iterations, order, neighbors, transit)
    case Err(f) => Err(f)
    case Ok(st) => Ok(st.costs)
  }

  // ----- invariants -----

  /**
   * Every costed point has been pushed exactly once: it is either still on
   * the front or accepted, never both and never twice.
   */
  ghost predicate Inv(st: State)
  {
    Distinct(st.accepted + st.front) &&
    forall p :: p in st.costs <==> p in st.accepted + st.front
  }

  /** Costs of `a` are kept unchanged in `b`: nothing is revised, only added. */
  ghost predicate Submap(a: CostMap, b: CostMap)
  {
    forall p :: p in a ==> p in b && b[p] == a[p]
  }

  /**
   * Opening neighbours keeps every pushed point's single entry, only adds
   * costs, appends to the front, and accepts nothing.
   */
  lemma {:induction false} OpenPreserves(st: State, around: seq<Point>, neighbors: NeighborsFn, transit: TransitFn)
    requires Inv(st)
    requires Open(st, around, neighbors, transit).Ok?
    ensures var r := Open(st, around, neighbors, transit).value;
      Inv(r) && Submap(st.costs, r.costs) && r.accepted == st.accepted && st.front <= r.front &&
      (forall n :: n in around ==> n in r.costs)
    decreases |around|
  {
    if around != [] {
      var n := around[0];
      if HasCost(n, st.costs) {
        OpenPreserves(st, around[1..], neighbors, transit);
      } else {
        var nbn := neighbors(n).value;
        var c := transit(n, nbn, st.costs).value;
        var st' := State(st.costs[n := c], st.front + [n], st.accepted);
        assert st'.accepted + st'.front == (st.accepted + st.front) + [n];
        assert Inv(st');
        OpenPreserves(st', around[1..], neighbors, transit);
      }
    }
  }

  /** Taking position k out of the front and accepting it keeps the same points, each once. */
  lemma PopPreserves(st: State, k: nat)
    requires Inv(st) && k < |st.front|
    ensures Inv(State(st.costs, Remove(st.front, k), st.accepted + [st.front[k]]))
  {
    var s := st.accepted + st.front;
    var a := st.accepted + [st.front[k]];
    var t := a + Remove(st.front, k);
    var m := |st.accepted|;
    assert |t| == |s|;
    forall p
      ensures p in t <==> p in s
    {
      if p in s {
        var i :| 0 <= i < |s| && s[i] == p;
        if i < m {
          assert t[i] == p;
        } else if i == m + k {
          assert t[m] == p;
        } else if i < m + k {
          assert t[i + 1] == p;
        } else {
          assert t[i] == p;
        }
      }
    }
    // t is s with the entry at m + k moved to position m
    ghost var pos := (i: int) requires 0 <= i < |t| =>
      if i < m then i else if i == m then m + k else if i <= m + k then i - 1 else i;
    forall i | 0 <= i < |t|
      ensures 0 <= pos(i) < |s| && t[i] == s[pos(i)]
    {
    }
    forall i, j | 0 <= i < j < |t|
      ensures t[i] != t[j]
    {
      assert t[i] == s[pos(i)] && t[j] == s[pos(j)] && pos(i) != pos(j);
    }
  }

  /**
   * An iteration keeps every pushed point's single entry, only adds costs,
   * and accepts exactly one more point, the one it popped.
   */
  lemma StepPreserves(st: State, order: FrontOrder, neighbors: NeighborsFn, transit: TransitFn)
    requires Inv(st) && st.front != []
    requires Step(st, order, neighbors, transit).Ok?
    ensures var r := Step(st, order, neighbors, transit).value;
      Inv(r) && Submap(st.costs, r.costs) &&
      r.accepted == st.accepted + [st.front[PopIndex(order, st.costs, st.front)]]
  {
    var k := PopIndex(order, st.costs, st.front);
    var popped := State(st.costs, Remove(st.front, k), st.accepted + [st.front[k]]);
    PopPreserves(st, k);
    OpenPreserves(popped, neighbors(st.front[k]).value, neighbors, transit);
  }

  /**
   * A run from a consistent state stays consistent, never revises a cost,
   * performs at most `budget` iterations, and stops early only on an empty
   * front.
   */
  lemma {:induction false} LoopPreserves(st: State, budget: nat, order: FrontOrder, neighbors: NeighborsFn, transit: TransitFn)
    requires Inv(st)
    requires Loop(st, budget, order, neighbors, transit).Ok?
    ensures var r := Loop(st, budget, order, neighbors, transit).value;
      Inv(r) && Submap(st.costs, r.costs) &&
      st.accepted <= r.accepted && |r.accepted| <= |st.accepted| + budget &&
      (r.front == [] || |r.accepted| == |st.accepted| + budget)
    decreases budget
  {
    if budget > 0 && st.front != [] {
      var next := Step(st, order, neighbors, transit).value;
      StepPreserves(st, order, neighbors, transit);
      LoopPreserves(next, budget - 1, order, neighbors, transit);
    }
  }

  /**
   * The run's cost map: the seed keeps cost 0, every costed point was pushed
   * exactly once (accepted or still on the front), at most `iterations`
   * points were accepted, fewer only when the front ran empty.
   */
  lemma RunFacts(seed: Point, iterations: nat, order: FrontOrder, neighbors: NeighborsFn, transit: TransitFn)
    requires Loop(Init(seed), iterations, order, neighbors, transit).Ok?
    ensures var r := Loop(Init(seed), iterations, order, neighbors, transit).value;
      Run(seed, iterations, order, neighbors, transit) == Ok(r.costs) &&
      seed in r.costs && r.costs[seed] == 0.0 &&
      Inv(r) && |r.accepted| <= iterations &&
      (r.front == [] || |r.accepted| == iterations)
  {
    LoopPreserves(Init(seed), iterations, order, neighbors, transit);
  }

  /** With no iterations the result is the seed alone, at cost 0. */
  lemma RunZeroIterations(seed: Point, order: FrontOrder, neighbors: NeighborsFn, transit: TransitFn)
    ensures Run(seed, 0, order, neighbors, transit) == Ok(map[seed := 0.0])
  {
  }

  /**
   * Costs are never revised: one more iteration keeps the cost map of the
   * shorter run and only adds entries to it.
   */
  lemma {:induction false} MoreIterationsOnlyAdd(st: State, budget: nat, order: FrontOrder, neighbors: NeighborsFn, transit: TransitFn)
    requires Inv(st)
    requires Loop(st, budget + 1, order, neighbors, transit).Ok?
    ensures Loop(st, budget, order, neighbors, transit).Ok?
    ensures Submap(Loop(st, budget, order, neighbors, transit).value.costs, Loop(st, budget + 1, order, neighbors, transit).value.costs)
    decreases budget
  {
    if st.front != [] {
      var next := Step(st, order, neighbors, transit).value;
      StepPreserves(st, order, neighbors, transit);
      if budget == 0 {
        assert Loop(st, budget, order, neighbors, transit).value == st;
      } else {
        MoreIterationsOnlyAdd(next, budget - 1, order, neighbors, transit);
      }
    }
  }

  /** A transit that never yields a negative cost from non-negative costs. */
  ghost predicate KeepsNonNegative(transit: TransitFn)
  {
    forall n, nb, costs :: (forall q :: q in costs ==> costs[q] >= 0.0) && transit(n, nb, costs).Ok? ==>
      transit(n, nb, costs).value >= 0.0
  }

  /** With such a transit every cost of a run is non-negative. */
  lemma {:induction false} LoopNonNegative(st: State, budget: nat, order: FrontOrder, neighbors: NeighborsFn, transit: TransitFn)
    requires KeepsNonNegative(transit)
    requires forall q :: q in st.costs ==> st.costs[q] >= 0.0
    requires Loop(st, budget, order, neighbors, transit).Ok?
    ensures forall q :: q in Loop(st, budget, order, neighbors, transit).value.costs ==>
      Loop(st, budget, order, neighbors, transit).value.costs[q] >= 0.0
    decreases budget
  {
    if budget > 0 && st.front != [] {
      var k := PopIndex(order, st.costs, st.front);
      var popped := State(st.costs, Remove(st.front, k), st.accepted + [st.front[k]]);
      OpenNonNegative(popped, neighbors(st.front[k]).value, neighbors, transit);
      LoopNonNegative(Step(st, order, neighbors, transit).value, budget - 1, order, neighbors, transit);
    }
  }

  lemma {:induction false} OpenNonNegative(st: State, around: seq<Point>, neighbors: NeighborsFn, transit: TransitFn)
    requires KeepsNonNegative(transit)
    requires forall q :: q in st.costs ==> st.costs[q] >= 0.0
    requires Open(st, around, neighbors, transit).Ok?
    ensures forall q :: q in Open(st, around, neighbors, transit).value.costs ==>
      Open(st, around, neighbors, transit).value.costs[q] >= 0.0
    decreases |around|
  {
    if around != [] {
      var n := around[0];
      if HasCost(n, st.costs) {
        OpenNonNegative(st, around[1..], neighbors, transit);
      } else {
        var nbn := neighbors(n).value;
        var c := transit(n, nbn, st.costs).value;
        OpenNonNegative(State(st.costs[n := c], st.front + [n], st.accepted), around[1..], neighbors, transit);
      }
    }
  }

  // ----- the source's loop -----

  /**
   * `algo_run` as the source runs it: a map and a front updated in place by
   * a budgeted loop, with an inner loop over the accepted point's neighbours.
   */
  method AlgoRun(seed: Point, iterations: nat, order: FrontOrder, neighbors: NeighborsFn, transit: TransitFn)
    returns (r: Result<CostMap>)
    ensures r == Run(seed, iterations, order, neighbors, transit)
    ensures r.Ok? ==> seed in r.value && r.value[seed] == 0.0
    ensures iterations == 0 ==> r == Ok(map[seed := 0.0])
  {
    var costs: CostMap := map[seed := 0.0];
    var front: seq<Point> := [seed];
    ghost var accepted: seq<Point> := [];
    var i: nat := 0;
    while i < iterations && front != []
      invariant i <= iterations
      invariant Loop(Init(seed), iterations, order, neighbors, transit)
             == Loop(State(costs, front, accepted), iterations - i, order, neighbors, transit)
      decreases iterations - i
    {
      ghost var before := State(costs, front, accepted);
      var k := PopIndex(order, costs, front);
      var p := front[k];
      front := front[..k] + front[k + 1..];
      accepted := accepted + [p];
      var around := neighbors(p);
      if around.Err? {
        return Err(around.fault);
      }
      if around.value == [] {
        return Err(NoNeighbors(p));
      }
      var nb := around.value;
      for j := 0 to |nb|
        invariant Step(before, order, neighbors, transit) == Open(State(costs, front, accepted), nb[j..], neighbors, transit)
      {
        var n := nb[j];
        if !HasCost(n, costs) {
          var nbn := neighbors(n);
          if nbn.Err? {
            return Err(nbn.fault);
          }
          var c := transit(n, nbn.value, costs);
          if c.Err? {
            return Err(c.fault);
          }
          costs := costs[n := c.value];
          front := front + [n];
        }
      }
      i := i + 1;
    }
    if Loop(Init(seed), iterations, order, neighbors, transit).Ok? {
      RunFacts(seed, iterations, order, neighbors, transit);
    }
    return Ok(costs);
  }
}
