/**
 * Neighbour enumeration on the implicit square grid (cpp/code.h:133-157,
 * python/code.py:34-58): each direction vector, scaled by the grid step, is
 * added to the point, and only the results inside the closed bounding box
 * [pmin, pmax] are kept, in direction order.
 */
module Neighbors {
  import opened Geometry

  /** p moved by the direction d scaled by step. */
  function Offset(p: Point, d: Point, step: real): Point
  {
    Point(p.x + d.x * step, p.y + d.y * step)
  }

  /** n lies in the closed box with corners pmin and pmax, on both axes. */
  predicate InBox(n: Point, pmin: Point, pmax: Point)
  {
    pmin.x <= n.x <= pmax.x && pmin.y <= n.y <= pmax.y
  }

  /** The in-box offsets of p along dirs, in the order of dirs. */
  function OffsetsInBox(p: Point, step: real, pmin: Point, pmax: Point, dirs: seq<Point>): seq<Point>
    decreases |dirs|
  {
    if dirs == [] then []
    else
      var n := Offset(p, dirs[|dirs| - 1], step);
      var kept := OffsetsInBox(p, step, pmin, pmax, dirs[..|dirs| - 1]);
      if InBox(n, pmin, pmax) then kept + [n] else kept
  }

  /** `neighbors_grid`: the in-box offsets, or a failure when fewer than two remain. */
  function GridNeighbors(p: Point, step: real, pmin: Point, pmax: Point, dirs: seq<Point>): Result<seq<Point>>
  {
    var ns := OffsetsInBox(p, step, pmin, pmax, dirs);
    if |ns| >= 2 then Ok(ns) else Err(TooFewNeighbors(p, |ns|))
  }

  /**
   * The filter keeps exactly the in-box offsets: never more results than
   * directions, each result an in-box offset along one of the directions,
   * and every in-box offset among the results.
   */
  lemma {:induction false} OffsetsInBoxMembers(p: Point, step: real, pmin: Point, pmax: Point, dirs: seq<Point>)
    ensures |OffsetsInBox(p, step, pmin, pmax, dirs)| <= |dirs|
    ensures forall n :: n in OffsetsInBox(p, step, pmin, pmax, dirs) ==>
      InBox(n, pmin, pmax) && exists i :: 0 <= i < |dirs| && n == Offset(p, dirs[i], step)
    ensures forall i :: 0 <= i < |dirs| && InBox(Offset(p, dirs[i], step), pmin, pmax) ==>
      Offset(p, dirs[i], step) in OffsetsInBox(p, step, pmin, pmax, dirs)
  {
    if dirs != [] {
      var init := dirs[..|dirs| - 1];
      OffsetsInBoxMembers(p, step, pmin, pmax, init);
      forall n | n in OffsetsInBox(p, step, pmin, pmax, dirs)
        ensures exists i :: 0 <= i < |dirs| && n == Offset(p, dirs[i], step)
      {
        if n in OffsetsInBox(p, step, pmin, pmax, init) {
          var i :| 0 <= i < |init| && n == Offset(p, init[i], step);
          assert dirs[i] == init[i];
        } else {
          assert n == Offset(p, dirs[|dirs| - 1], step);
        }
      }
      forall i | 0 <= i < |dirs| && InBox(Offset(p, dirs[i], step), pmin, pmax)
        ensures Offset(p, dirs[i], step) in OffsetsInBox(p, step, pmin, pmax, dirs)
      {
        if i < |init| {
          assert init[i] == dirs[i];
        }
      }
    }
  }

  /** Filtering a longer prefix of the directions only appends results. */
  lemma {:induction false} OffsetsInBoxPrefix(p: Point, step: real, pmin: Point, pmax: Point, dirs: seq<Point>, i: nat)
    requires i <= |dirs|
    ensures OffsetsInBox(p, step, pmin, pmax, dirs[..i]) <= OffsetsInBox(p, step, pmin, pmax, dirs)
  {
    if i < |dirs| {
      var init := dirs[..|dirs| - 1];
      OffsetsInBoxPrefix(p, step, pmin, pmax, init, i);
      assert init[..i] == dirs[..i];
    } else {
      assert dirs[..i] == dirs;
    }
  }

  /**
   * Direction order is kept: an in-box offset along dirs[i] sits right after
   * the results produced by the directions before it.
   */
  lemma OffsetsInBoxOrder(p: Point, step: real, pmin: Point, pmax: Point, dirs: seq<Point>, i: nat)
    requires i < |dirs| && InBox(Offset(p, dirs[i], step), pmin, pmax)
    ensures |OffsetsInBox(p, step, pmin, pmax, dirs[..i])| < |OffsetsInBox(p, step, pmin, pmax, dirs)|
    ensures OffsetsInBox(p, step, pmin, pmax, dirs)[|OffsetsInBox(p, step, pmin, pmax, dirs[..i])|]
      == Offset(p, dirs[i], step)
  {
    OffsetsInBoxPrefix(p, step, pmin, pmax, dirs, i + 1);
    assert dirs[..i + 1][..i] == dirs[..i];
  }

  /** When every offset is in the box nothing is filtered: one result per direction, in order. */
  lemma {:induction false} NothingFiltered(p: Point, step: real, pmin: Point, pmax: Point, dirs: seq<Point>)
    requires forall i :: 0 <= i < |dirs| ==> InBox(Offset(p, dirs[i], step), pmin, pmax)
    ensures OffsetsInBox(p, step, pmin, pmax, dirs) == seq(|dirs|, i requires 0 <= i < |dirs| => Offset(p, dirs[i], step))
  {
    if dirs != [] {
      var init := dirs[..|dirs| - 1];
      NothingFiltered(p, step, pmin, pmax, init);
    }
  }

  /** Filtering one more direction appends its offset when that is in the box. */
  lemma OffsetsInBoxStep(p: Point, step: real, pmin: Point, pmax: Point, dirs: seq<Point>, i: nat)
    requires i < |dirs|
    ensures OffsetsInBox(p, step, pmin, pmax, dirs[..i + 1]) ==
      OffsetsInBox(p, step, pmin, pmax, dirs[..i]) +
        if InBox(Offset(p, dirs[i], step), pmin, pmax) then [Offset(p, dirs[i], step)] else []
  {
    assert dirs[..i + 1][..i] == dirs[..i] && dirs[..i + 1][i] == dirs[i];
  }

  /**
   * `neighbors_grid` as the source runs it: a loop that appends each in-box
   * offset, then the check that at least two neighbours were found.
   */
  method NeighborsGrid(p: Point, step: real, pmin: Point, pmax: Point, dirs: seq<Point>)
    returns (r: Result<seq<Point>>)
    ensures r == GridNeighbors(p, step, pmin, pmax, dirs)
    ensures r.Ok? ==> 2 <= |r.value| <= |dirs|
    ensures r.Ok? ==> forall n :: n in r.value ==> InBox(n, pmin, pmax)
    ensures r.Err? ==> r.fault == TooFewNeighbors(p, |OffsetsInBox(p, step, pmin, pmax, dirs)|)
  {
    var neighbors: seq<Point> := [];
    for i := 0 to |dirs|
      invariant neighbors == OffsetsInBox(p, step, pmin, pmax, dirs[..i])
    {
      var d := dirs[i];
      var n := Offset(p, d, step);
      OffsetsInBoxStep(p, step, pmin, pmax, dirs, i);
      if pmin.x <= n.x && n.x <= pmax.x && pmin.y <= n.y && n.y <= pmax.y {
        neighbors := neighbors + [n];
      }
    }
    assert dirs[..|dirs|] == dirs;
    OffsetsInBoxMembers(p, step, pmin, pmax, dirs);
    if |neighbors| < 2 {
      return Err(TooFewNeighbors(p, |neighbors|));
    }
    return Ok(neighbors);
  }
}
