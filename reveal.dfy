/**
 * One-shot intersection observers: the reveal-on-scroll observer (adds the
 * `visible` class) and the stats-counter observer (starts the count-up
 * animation). Both handle a batch of entries the same way: each entry that
 * is intersecting fires its action and stops observing its target. Elements
 * are identified by number.
 */
module Reveal {
  import opened Common

  type Element = nat

  /** One intersection entry as the browser reports it. */
  datatype Entry = Entry(target: Element, isIntersecting: bool)

  /** The targets of the intersecting entries, in batch order. */
  function IntersectingTargets(entries: seq<Entry>): (r: seq<Element>)
    ensures |r| <= |entries|
    ensures forall x :: x in r <==> exists k :: 0 <= k < |entries| && entries[k] == Entry(x, true)
  {
    if entries == [] then []
    else
      var rest := IntersectingTargets(entries[..|entries| - 1]);
      var last := entries[|entries| - 1];
      assert forall k :: 0 <= k < |entries| - 1 ==> entries[..|entries| - 1][k] == entries[k];
      if last.isIntersecting then rest + [last.target] else rest
  }

  /** The targets of a batch split in two are those of the first part
      followed by those of the second: firing follows batch order. */
  lemma {:induction false} IntersectingTargetsAppend(a: seq<Entry>, b: seq<Entry>)
    ensures IntersectingTargets(a + b) == IntersectingTargets(a) + IntersectingTargets(b)
    decreases |b|
  {
    if b == [] {
      assert a + b == a;
    } else {
      var front := b[..|b| - 1];
      assert (a + b)[..|a + b| - 1] == a + front;
      assert (a + b)[|a + b| - 1] == b[|b| - 1];
      IntersectingTargetsAppend(a, front);
    }
  }

  /** A single entry fires its target exactly when it is intersecting. */
  lemma IntersectingTargetsSingle(e: Entry)
    ensures IntersectingTargets([e]) == if e.isIntersecting then [e.target] else []
  {
    assert [e][..0] == [];
  }

  /** A batch the browser can deliver: every entry is about an element still
      being observed, and no element appears twice. */
  ghost predicate Deliverable(observing: set<Element>, entries: seq<Entry>) {
    && (forall k :: 0 <= k < |entries| ==> entries[k].target in observing)
    && (forall k, m :: 0 <= k < m < |entries| ==> entries[k].target != entries[m].target)
  }

  class OneShotObserver {
    /** The elements still being observed. */
    var observing: set<Element>
    /** The elements whose action has fired, in firing order: for the
        reveal observer, those carrying `visible`; for the counter observer,
        those whose animation was started. */
    var fired: seq<Element>

    /** An element fires at most once, and a fired element is no longer
        observed. */
    ghost predicate Valid()
      reads this
    {
      Distinct(fired) && forall x :: x in fired ==> x !in observing
    }

    /** `observe` every element of the page's selection. */
    constructor (elements: set<Element>)
      ensures observing == elements && fired == [] && Valid()
    {
      observing := elements;
      fired := [];
    }

    /** The observer callback on one batch of entries. */
    method OnEntries(entries: seq<Entry>)
      modifies this
      ensures fired == old(fired) + IntersectingTargets(entries)
      ensures observing == old(observing) - set x | x in IntersectingTargets(entries)
      ensures old(Valid()) && Deliverable(old(observing), entries) ==> Valid()
    {
      var k := 0;
      while k < |entries|
        invariant 0 <= k <= |entries|
        invariant fired == old(fired) + IntersectingTargets(entries[..k])
        invariant observing == old(observing) - set x | x in IntersectingTargets(entries[..k])
        invariant old(Valid()) && Deliverable(old(observing), entries) ==>
          Valid() && forall m :: k <= m < |entries| ==> entries[m].target in observing
      {
        assert entries[..k + 1][..k] == entries[..k];
        var e := entries[k];
        if e.isIntersecting {
          fired := fired + [e.target];
          observing := observing - {e.target};
        }
        k := k + 1;
      }
      assert entries[..k] == entries;
    }
  }

  /** The animation's duration in milliseconds. */
  const Duration: real := 900.0

  /** Animation progress after `elapsed` milliseconds, capped at 1. */
  function Progress(elapsed: real): real {
    if elapsed / Duration < 1.0 then elapsed / Duration else 1.0
  }

  /** The integer shown at progress `t`: the target scaled by the cubic
      ease-out `1 - (1 - t)^3`, rounded down. */
  function Frame(target: real, t: real): int {
    var u := 1.0 - t;
    (target * (1.0 - u * u * u)).Floor
  }

  lemma FloorMonotone(x: real, y: real)
    requires x <= y
    ensures x.Floor <= y.Floor
  {
  }

  lemma CubeMonotone(u1: real, u2: real)
    requires 0.0 <= u2 <= u1
    ensures u2 * u2 * u2 <= u1 * u1 * u1
  {
    assert u2 * u2 <= u1 * u2 <= u1 * u1;
    assert u2 * u2 * u2 <= u1 * u1 * u2 <= u1 * u1 * u1;
  }

  /** At full progress the counter shows the target rounded down, which is
      the target itself for a whole-number target. */
  lemma FinalFrame(target: real)
    ensures Frame(target, 1.0) == target.Floor
    ensures target == target.Floor as real ==> Frame(target, 1.0) as real == target
  {
  }

  /** For a non-negative target, every frame from progress 0 to 1 lies
      between 0 and the final value, and frames never go down as progress
      grows. */
  lemma FrameBounds(target: real, t1: real, t2: real)
    requires target >= 0.0 && 0.0 <= t1 <= t2 <= 1.0
    ensures 0 <= Frame(target, t1) <= Frame(target, t2) <= target.Floor
  {
    CubeMonotone(1.0 - t1, 1.0 - t2);
    CubeMonotone(1.0, 1.0 - t1);
    CubeMonotone(1.0 - t2, 0.0);
    var e1, e2 := 1.0 - (1.0 - t1) * (1.0 - t1) * (1.0 - t1), 1.0 - (1.0 - t2) * (1.0 - t2) * (1.0 - t2);
    assert 0.0 <= e1 <= e2 <= 1.0;
    assert 0.0 <= target * e1 <= target * e2 <= target;
    FloorMonotone(0.0, target * e1);
    FloorMonotone(target * e1, target * e2);
    FloorMonotone(target * e2, target);
  }

  /** The frames of one animation: starting with the first animation frame,
      each tick shows `Frame(target, Progress(elapsed))` and schedules the
      next tick only while progress is below 1. `elapsed` holds the time
      since the start at each animation frame the browser offers. */
  method Animate(target: real, elapsed: seq<real>) returns (shown: seq<int>)
    ensures |shown| <= |elapsed|
    ensures forall k :: 0 <= k < |shown| ==> shown[k] == Frame(target, Progress(elapsed[k]))
    ensures forall k :: 0 <= k < |shown| - 1 ==> Progress(elapsed[k]) < 1.0
    ensures |shown| < |elapsed| ==> |shown| > 0 && Progress(elapsed[|shown| - 1]) == 1.0
    ensures (exists k :: 0 <= k < |elapsed| && elapsed[k] >= Duration) ==>
              |shown| > 0 && shown[|shown| - 1] == target.Floor
    ensures target >= 0.0 && (forall k :: 0 <= k < |elapsed| ==> elapsed[k] >= 0.0)
              && (forall k, m :: 0 <= k < m < |elapsed| ==> elapsed[k] <= elapsed[m]) ==>
              forall k, m :: 0 <= k < m < |shown| ==> shown[k] <= shown[m]
  {
    shown := [];
    var i := 0;
    while i < |elapsed|
      invariant 0 <= i <= |elapsed| && |shown| == i
      invariant forall k :: 0 <= k < i ==> shown[k] == Frame(target, Progress(elapsed[k]))
      invariant forall k :: 0 <= k < i ==> Progress(elapsed[k]) < 1.0
      invariant forall k :: 0 <= k < i ==> elapsed[k] < Duration
    {
      var t := Progress(elapsed[i]);
      shown := shown + [Frame(target, t)];
      if t >= 1.0 {
        FinalFrame(target);
        MonotoneFrames(target, elapsed, shown);
        return;
      }
      i := i + 1;
    }
    MonotoneFrames(target, elapsed, shown);
  }

  lemma MonotoneFrames(target: real, elapsed: seq<real>, shown: seq<int>)
    requires |shown| <= |elapsed|
    requires forall k :: 0 <= k < |shown| ==> shown[k] == Frame(target, Progress(elapsed[k]))
    ensures target >= 0.0 && (forall k :: 0 <= k < |elapsed| ==> elapsed[k] >= 0.0)
              && (forall k, m :: 0 <= k < m < |elapsed| ==> elapsed[k] <= elapsed[m]) ==>
              forall k, m :: 0 <= k < m < |shown| ==> shown[k] <= shown[m]
  {
    if target >= 0.0 && (forall k :: 0 <= k < |elapsed| ==> elapsed[k] >= 0.0)
       && (forall k, m :: 0 <= k < m < |elapsed| ==> elapsed[k] <= elapsed[m])
    {
      forall k, m | 0 <= k < m < |shown|
        ensures shown[k] <= shown[m]
      {
        FrameBounds(target, Progress(elapsed[k]), Progress(elapsed[m]));
      }
    }
  }
}
