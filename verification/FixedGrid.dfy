/**
 * Resampling an episode onto a fixed frame rate, `fixed_grid_nearest` of
 * `python/dataset_builder/app/transaction.py`. Frame rates are reals.
 */
module FixedGrid {
  import opened Common

  datatype ExportError = InvalidContract | ReusedOrSynthesized

  /** Python's `round`: to the nearest integer, halves to the even one. */
  function RoundHalfEven(x: real): int {
    var floor := x.Floor;
    var part := x - floor as real;
    if part < 0.5 || (part == 0.5 && floor % 2 == 0) then floor else floor + 1
  }

  /** No integer is nearer, and of two that are equally near the even one is taken. */
  lemma RoundsToNearest(x: real)
    ensures var n := RoundHalfEven(x);
            && n as real - 0.5 <= x <= n as real + 0.5
            && (x == n as real - 0.5 || x == n as real + 0.5 ==> n % 2 == 0)
  {
  }

  function Period(fps: real): (period: nat)
    requires fps > 0.0
  {
    var quotient := 1_000_000_000.0 / fps;
    assert quotient >= 0.0;
    RoundHalfEven(quotient)
  }

  /** The `k`-th grid point. */
  function Point(times: seq<int>, period: nat, k: nat): int
    requires times != []
  {
    times[0] + k * period
  }

  /** `i` is the first index whose time is closest to `g`. */
  ghost predicate IsNearest(times: seq<int>, g: int, i: nat) {
    && i < |times|
    && (forall j :: 0 <= j < |times| ==> AbsDiff(times[i], g) <= AbsDiff(times[j], g))
    && (forall j :: 0 <= j < i ==> AbsDiff(times[i], g) < AbsDiff(times[j], g))
  }

  /** The closest index among the first `n`, the earliest on a tie. */
  function NearestOf(times: seq<int>, g: int, n: nat): (i: nat)
    requires 0 < n <= |times|
    ensures i < n && IsNearest(times[..n], g, i)
  {
    if n == 1 then 0
    else
      var best := NearestOf(times, g, n - 1);
      assert forall j :: 0 <= j < n - 1 ==> times[..n][j] == times[..n - 1][j];
      if AbsDiff(times[n - 1], g) < AbsDiff(times[best], g) then n - 1 else best
  }

  function Nearest(times: seq<int>, g: int): (i: nat)
    requires times != []
    ensures IsNearest(times, g, i)
  {
    assert times[..|times|] == times;
    NearestOf(times, g, |times|)
  }

  ghost function Last(times: seq<int>): int
    requires times != []
  {
    times[|times| - 1]
  }

  ghost predicate OnGrid(times: seq<int>, period: nat, k: nat)
    requires times != []
  {
    Point(times, period, k) <= Last(times)
  }

  ghost predicate CloseAt(times: seq<int>, period: nat, tolerance: int, k: nat)
    requires times != []
  {
    AbsDiff(times[Nearest(times, Point(times, period, k))], Point(times, period, k)) <= tolerance
  }

  /** Every grid point up to the last frame has a frame of its own within the tolerance. */
  ghost predicate GridFits(times: seq<int>, period: nat, tolerance: int)
    requires times != []
  {
    && (forall k: nat :: OnGrid(times, period, k) ==> CloseAt(times, period, tolerance, k))
    && (forall j: nat, k: nat :: j < k && OnGrid(times, period, k) ==>
          Nearest(times, Point(times, period, j)) != Nearest(times, Point(times, period, k)))
  }

  /** One frame index per grid point, in order. */
  ghost predicate IsSelection(times: seq<int>, period: nat, selected: seq<nat>)
    requires times != []
  {
    && !OnGrid(times, period, |selected|)
    && (forall k :: 0 <= k < |selected| ==>
          OnGrid(times, period, k) && selected[k] == Nearest(times, Point(times, period, k)))
  }

  lemma PointStep(times: seq<int>, period: nat, k: nat)
    requires times != []
    ensures Point(times, period, k + 1) == Point(times, period, k) + period
  {
  }

  lemma {:induction false} PointsAscend(times: seq<int>, period: nat, j: nat, k: nat)
    requires times != [] && j <= k
    ensures Point(times, period, j) <= Point(times, period, k)
    ensures j < k ==> Point(times, period, j) + period <= Point(times, period, k)
    decreases k
  {
    if j < k {
      PointsAscend(times, period, j, k - 1);
      PointStep(times, period, k - 1);
    }
  }

  // ---- What a selection of ordered frames is ----

  ghost predicate Ascending(times: seq<int>) { forall i, j :: 0 <= i < j < |times| ==> times[i] <= times[j] }

  /** A later grid point never has an earlier nearest frame. */
  lemma NearestAscends(times: seq<int>, g: int, h: int)
    requires times != [] && Ascending(times) && g <= h
    ensures Nearest(times, g) <= Nearest(times, h)
  {
    var i, j := Nearest(times, g), Nearest(times, h);
    assert IsNearest(times, g, i) && IsNearest(times, h, j);
  }

  /**
   * On ordered frames a resampled episode starts with the first frame, never goes back
   * or repeats a frame, and keeps every frame within the tolerance of its grid point.
   */
  lemma SelectionIsOrdered(times: seq<int>, period: nat, tolerance: int, selected: seq<nat>)
    requires times != [] && Ascending(times) && GridFits(times, period, tolerance)
    requires IsSelection(times, period, selected)
    ensures selected != [] && selected[0] == 0
    ensures forall j, k :: 0 <= j < k < |selected| ==> selected[j] < selected[k]
    ensures forall k :: 0 <= k < |selected| ==>
              selected[k] < |times| && AbsDiff(times[selected[k]], Point(times, period, k)) <= tolerance
    ensures |selected| <= |times|
  {
    assert OnGrid(times, period, 0);
    assert AbsDiff(times[0], Point(times, period, 0)) == 0;
    forall j, k | 0 <= j < k < |selected|
      ensures selected[j] < selected[k]
    {
      PointsAscend(times, period, j, k);
      NearestAscends(times, Point(times, period, j), Point(times, period, k));
    }
    forall k | 0 <= k < |selected|
      ensures selected[k] < |times| && AbsDiff(times[selected[k]], Point(times, period, k)) <= tolerance
    {
      assert CloseAt(times, period, tolerance, k);
    }
    StrictlyAscendingIsShort(selected, |times|);
  }

  lemma {:induction false} StrictlyAscendingIsShort(selected: seq<nat>, bound: nat)
    requires forall j, k :: 0 <= j < k < |selected| ==> selected[j] < selected[k]
    requires forall k :: 0 <= k < |selected| ==> selected[k] < bound
    ensures |selected| <= bound
    decreases |selected|
  {
    if selected != [] {
      StrictlyAscendingIsShort(selected[..|selected| - 1], selected[|selected| - 1]);
    }
  }

  // ---- When a grid fits ----

  ghost predicate Covered(times: seq<int>, g: int, tolerance: int) {
    exists i :: 0 <= i < |times| && AbsDiff(times[i], g) <= tolerance
  }

  /** With a tolerance under half a period, a grid fits exactly when every point has some frame within it. */
  lemma FitsExactlyWhenCovered(times: seq<int>, period: nat, tolerance: int)
    requires times != [] && 2 * tolerance < period
    ensures GridFits(times, period, tolerance)
       <==> forall k: nat :: OnGrid(times, period, k) ==> Covered(times, Point(times, period, k), tolerance)
  {
    forall k: nat
      ensures CloseAt(times, period, tolerance, k) <==> Covered(times, Point(times, period, k), tolerance)
    {
    }
    if forall k: nat :: OnGrid(times, period, k) ==> Covered(times, Point(times, period, k), tolerance) {
      forall j: nat, k: nat | j < k && OnGrid(times, period, k)
        ensures Nearest(times, Point(times, period, j)) != Nearest(times, Point(times, period, k))
      {
        PointsAscend(times, period, j, k);
        assert OnGrid(times, period, j);
        assert CloseAt(times, period, tolerance, j) && CloseAt(times, period, tolerance, k);
      }
    }
  }

  /** Frames already on the grid are all selected, in order, at any tolerance. */
  lemma RegularFramesAreKept(times: seq<int>, period: nat, tolerance: nat, selected: seq<nat>)
    requires times != [] && period > 0
    requires forall k :: 0 <= k < |times| ==> times[k] == Point(times, period, k)
    requires IsSelection(times, period, selected)
    ensures GridFits(times, period, tolerance) && |selected| == |times|
    ensures forall k :: 0 <= k < |selected| ==> selected[k] == k
  {
    hide Point, Nearest, OnGrid;
    forall k: nat
      ensures OnGrid(times, period, k) <==> k < |times|
      ensures k < |times| ==> Nearest(times, Point(times, period, k)) == k
    {
      RegularPoint(times, period, k);
    }
    assert !OnGrid(times, period, |selected|);
    assert !OnGrid(times, period, |times|);
  }

  lemma RegularPoint(times: seq<int>, period: nat, k: nat)
    requires times != [] && period > 0
    requires forall i :: 0 <= i < |times| ==> times[i] == Point(times, period, i)
    ensures OnGrid(times, period, k) <==> k < |times|
    ensures k < |times| ==> Nearest(times, Point(times, period, k)) == k
  {
    var last := |times| - 1;
    PointsAscend(times, period, Min(k, last), Max(k, last));
    if k < |times| {
      OnlyNearest(times, period, k);
    }
  }

  lemma OnlyNearest(times: seq<int>, period: nat, k: nat)
    requires k < |times| && period > 0
    requires forall i :: 0 <= i < |times| ==> times[i] == Point(times, period, i)
    ensures Nearest(times, Point(times, period, k)) == k
  {
    var i := Nearest(times, Point(times, period, k));
    assert AbsDiff(times[k], Point(times, period, k)) == 0;
    assert AbsDiff(times[i], Point(times, period, k)) == 0;
    PointsAscend(times, period, Min(i, k), Max(i, k));
  }

  // ---- The source's loops ----

  method NearestIndex(times: seq<int>, g: int) returns (index: nat)
    requires times != []
    ensures index == Nearest(times, g)
  {
    index := 0;
    for i := 1 to |times|
      invariant index < i && IsNearest(times[..i], g, index)
    {
      assert forall j :: 0 <= j < i ==> times[..i + 1][j] == times[..i][j];
      if AbsDiff(times[i], g) < AbsDiff(times[index], g) {
        index := i;
      }
    }
    assert times[..|times|] == times;
    NearestIsUnique(times, g, index);
  }

  lemma NearestIsUnique(times: seq<int>, g: int, i: nat)
    requires times != [] && IsNearest(times, g, i)
    ensures i == Nearest(times, g)
  {
  }

  /**
   * The resampling either selects the nearest frame of every grid point, or fails, and
   * it succeeds exactly when the contract is valid and the grid fits. It ends even when
   * the frame rate is so high that the period rounds to zero.
   */
  method FixedGridNearest(times: seq<int>, fps: real, tolerance: int)
    returns (result: Result<seq<nat>, ExportError>)
    ensures result == Err(InvalidContract) <==> times == [] || fps <= 0.0 || tolerance < 0
    ensures times != [] && fps > 0.0 && tolerance >= 0 ==>
              && (result.Ok? <==> GridFits(times, Period(fps), tolerance))
              && (result.Ok? ==> IsSelection(times, Period(fps), result.value))
  {
    if times == [] || fps <= 0.0 || tolerance < 0 {
      return Err(InvalidContract);
    }
    var period := Period(fps);
    var selected: seq<nat> := [];
    var used: set<nat> := {};
    var grid := times[0];
    while grid <= times[|times| - 1]
      invariant grid == Point(times, period, |selected|)
      invariant forall i :: i in used <==> i in selected
      invariant Prefix(times, period, tolerance, selected)
      invariant period == 0 && selected != [] ==> |selected| == 1 && Nearest(times, grid) in selected
      decreases if period > 0 then times[|times| - 1] - grid else 1 - |selected|
    {
      var index := NearestIndex(times, grid);
      if index in used || AbsDiff(times[index], grid) > tolerance {
        RefusalIsRight(times, period, tolerance, selected, index);
        return Err(ReusedOrSynthesized);
      }
      PointStep(times, period, |selected|);
      PrefixGrows(times, period, tolerance, selected, index);
      used := used + {index};
      selected := selected + [index];
      grid := grid + period;
    }
    FullGridFits(times, period, tolerance, selected);
    return Ok(selected);
  }

  /** The first grid points have distinct nearest frames within the tolerance, and these are selected. */
  ghost predicate Prefix(times: seq<int>, period: nat, tolerance: int, selected: seq<nat>)
    requires times != []
  {
    && (forall k :: 0 <= k < |selected| ==>
          && OnGrid(times, period, k) && selected[k] == Nearest(times, Point(times, period, k))
          && CloseAt(times, period, tolerance, k))
    && (forall j, k :: 0 <= j < k < |selected| ==> selected[j] != selected[k])
  }

  lemma PrefixGrows(times: seq<int>, period: nat, tolerance: int, selected: seq<nat>, index: nat)
    requires times != [] && Prefix(times, period, tolerance, selected) && OnGrid(times, period, |selected|)
    requires index == Nearest(times, Point(times, period, |selected|)) && index !in selected
    requires CloseAt(times, period, tolerance, |selected|)
    ensures Prefix(times, period, tolerance, selected + [index])
  {
  }

  lemma RefusalIsRight(times: seq<int>, period: nat, tolerance: int, selected: seq<nat>, index: nat)
    requires times != [] && Prefix(times, period, tolerance, selected) && OnGrid(times, period, |selected|)
    requires index == Nearest(times, Point(times, period, |selected|))
    requires index in selected || !CloseAt(times, period, tolerance, |selected|)
    ensures !GridFits(times, period, tolerance)
  {
    if index in selected {
      var j: nat :| j < |selected| && selected[j] == index;
      assert Nearest(times, Point(times, period, j)) == Nearest(times, Point(times, period, |selected|));
    }
  }

  lemma FullGridFits(times: seq<int>, period: nat, tolerance: int, selected: seq<nat>)
    requires times != [] && Prefix(times, period, tolerance, selected) && !OnGrid(times, period, |selected|)
    ensures GridFits(times, period, tolerance) && IsSelection(times, period, selected)
  {
    forall k: nat | OnGrid(times, period, k)
      ensures k < |selected|
    {
      if |selected| <= k {
        PointsAscend(times, period, |selected|, k);
      }
    }
  }
}
