/**
 * The closed tour over a container: its consecutive pairs of items plus the
 * pair from the last item back to the first (cpp/code.h:38-122).
 *
 * `tour_iterator` is a small state machine over positions in the container;
 * positions are modelled as indices into `items`, the end position of the
 * range being `last`.
 */
module Tours {

  /**
   * What a tour yields over `s`: the pairs (s[i], s[(i+1) mod n]) for every
   * i < n = |s|, and nothing at all when s has fewer than two items.
   */
  function TourPairs<T>(s: seq<T>): seq<(T, T)>
  {
    if |s| < 2 then [] else seq(|s|, i requires 0 <= i < |s| => (s[i], s[Succ(i, |s|)]))
  }

  /** The position after i in a cycle of n positions, (i + 1) mod n. */
  function Succ(i: nat, n: nat): (j: nat)
    requires i < n
    ensures j < n
  {
    if i + 1 < n then i + 1 else 0
  }

  /** Over two items or more, every item starts exactly one pair and ends the one before it. */
  lemma TourShape<T>(s: seq<T>, i: nat)
    requires 2 <= |s| && i < |s|
    ensures |TourPairs(s)| == |s|
    ensures TourPairs(s)[i].0 == s[i]
    ensures TourPairs(s)[if i == 0 then |s| - 1 else i - 1].1 == s[i]
    ensures i + 1 < |s| ==> TourPairs(s)[i] == (s[i], s[i + 1])
    ensures TourPairs(s)[|s| - 1] == (s[|s| - 1], s[0])
  {
  }

  /** The tour read up to pair k + 1 is the tour up to pair k followed by (s[k], s[k + 1 mod n]). */
  lemma TourPairsStep<T>(s: seq<T>, k: nat)
    requires 2 <= |s| && k < |s|
    ensures TourPairs(s)[..k + 1] == TourPairs(s)[..k] + [(s[k], s[Succ(k, |s|)])]
  {
    assert TourPairs(s)[k] == (s[k], s[Succ(k, |s|)]);
  }

  /** An iterator over a tour: `cur` and `next` are the positions of the current pair. */
  class TourIterator<T> {
    const items: seq<T>
    const first: nat
    const last: nat
    var cur: nat
    var next: nat
    var ended: bool

    /** An iterator over an empty range starts (and stays) at its end. */
    constructor (items: seq<T>, first: nat, last: nat, end: bool)
      ensures this.items == items && this.first == first && this.last == last
      ensures cur == first
      ensures next == if first == last then last else first + 1
      ensures ended == (first == last || end)
    {
      this.items := items;
      this.first := first;
      this.last := last;
      cur := first;
      next := if first == last then last else first + 1;
      ended := first == last || end;
    }

    /** Iterators differ when their `next` positions do; `cur` is not compared. */
    predicate NotEqual(other: TourIterator<T>)
      reads this, other
    {
      next != other.next
    }

    /** The current pair. */
    function Deref(): (T, T)
      reads this
      requires cur < |items| && next < |items|
    {
      (items[cur], items[next])
    }

    /**
     * Advance: before the wrap-around, `next` moves on and jumps back to
     * `first` when it reaches `last`, which ends the tour; once ended, both
     * positions go to `last`.
     */
    method Increment()
      modifies this
      ensures cur == if old(ended) then last else old(cur) + 1
      ensures next == if old(ended) then last else if old(next) + 1 == last then first else old(next) + 1
      ensures ended == (old(ended) || old(next) + 1 == last)
    {
      cur := cur + 1;
      if !ended {
        next := next + 1;
        if next == last {
          next := first;
          ended := true;
        }
      } else {
        cur := last;
        next := last;
      }
    }
  }

  /** A tour over the positions [first, last) of `items`. */
  class Tour<T> {
    const items: seq<T>
    const first: nat
    const last: nat

    constructor (items: seq<T>, first: nat, last: nat)
      ensures this.items == items && this.first == first && this.last == last
    {
      this.items := items;
      this.first := first;
      this.last := last;
    }

    method Begin() returns (it: TourIterator<T>)
      ensures fresh(it)
      ensures it.items == items && it.first == first && it.last == last
      ensures it.cur == first && it.next == (if first == last then last else first + 1)
      ensures it.ended == (first == last)
    {
      it := new TourIterator(items, first, last, false);
    }

    method End() returns (it: TourIterator<T>)
      ensures fresh(it)
      ensures it.items == items && it.first == last && it.last == last
      ensures it.cur == last && it.next == last && it.ended
    {
      it := new TourIterator(items, last, last, true);
    }
  }

  /** The tour over a whole container. */
  method MakeTour<T>(items: seq<T>) returns (t: Tour<T>)
    ensures fresh(t)
    ensures t.items == items && t.first == 0 && t.last == |items|
  {
    t := new Tour(items, 0, |items|);
  }

  /**
   * Range-for over `make_tour(items)`: collects the pairs the iterator yields
   * between `begin()` and `end()`. They are exactly the closed tour, and a
   * one-item container yields none.
   */
  method TourWalk<T>(items: seq<T>) returns (pairs: seq<(T, T)>)
    ensures pairs == TourPairs(items)
    ensures |items| >= 2 ==> |pairs| == |items|
    ensures |items| < 2 ==> pairs == []
  {
    var n := |items|;
    var t := MakeTour(items);
    var it := t.Begin();
    var stop := t.End();
    pairs := [];
    while it.NotEqual(stop)
      invariant it != stop
      invariant it.items == items && it.first == 0 && it.last == n
      invariant stop.next == n
      invariant n < 2 ==> it.next == n && pairs == []
      invariant n >= 2 ==> |pairs| <= n
      invariant n >= 2 && |pairs| < n ==>
        it.cur == |pairs| &&
        it.next == (if |pairs| + 1 < n then |pairs| + 1 else 0) &&
        it.ended == (|pairs| + 1 == n)
      invariant n >= 2 && |pairs| == n ==> it.next == n
      invariant n >= 2 ==> pairs == TourPairs(items)[..|pairs|]
      decreases n + 1 - |pairs|
    {
      if n >= 2 && |pairs| < n {
        TourPairsStep(items, |pairs|);
      }
      pairs := pairs + [it.Deref()];
      it.Increment();
    }
    if n >= 2 {
      assert pairs == TourPairs(items)[..n];
    }
  }
}
