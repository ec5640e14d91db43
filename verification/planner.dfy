/**
 * The window planner: frame count, required frames per window, run count and
 * sample count become start frames, stop frames and one shared stride.
 * All divisions are Python 2 integer (floor) divisions on non-negative values.
 */
module Planner {
  import opened Wrappers
  import opened Arith

  /** Number of elements of `numpy.arange(start, stop, step)` for a positive step. */
  function RangeLen(start: nat, stop: nat, step: nat): nat
    requires step >= 1
    decreases stop - start
  {
    if stop <= start then 0 else 1 + RangeLen(start + step, stop, step)
  }

  /** The count of `range(start, stop, step)`: the ceiling of `(stop - start) / step`. */
  lemma {:induction false} RangeLenClosedForm(start: nat, stop: nat, step: nat)
    requires step >= 1
    ensures RangeLen(start, stop, step) == if stop <= start then 0 else (stop - start + step - 1) / step
    decreases stop - start
  {
    if start < stop {
      RangeLenClosedForm(start + step, stop, step);
      if stop <= start + step {
        assert step <= stop - start + step - 1 < 2 * step;
        DivStep(stop - start - 1, step);
        DivBounds(stop - start - 1, step);
        DivUnique(stop - start - 1, step, 0);
      } else {
        DivStep(stop - (start + step) + step - 1, step);
      }
    }
  }

  /** `numpy.arange(start, stop, step)`: start, start + step, ... below stop. */
  function ARange(start: nat, stop: nat, step: nat): (r: seq<nat>)
    requires step >= 1
    ensures |r| == RangeLen(start, stop, step)
    ensures forall i :: 0 <= i < |r| ==> r[i] == start + i * step && r[i] < stop
    decreases stop - start
  {
    if stop <= start then []
    else
      var rest := ARange(start + step, stop, step);
      assert forall i :: 1 <= i < |rest| + 1 ==> start + step + (i - 1) * step == start + i * step by {
        forall i | 1 <= i < |rest| + 1 ensures start + step + (i - 1) * step == start + i * step {
          assert (i - 1) * step + step == i * step;
        }
      }
      [start] + rest
  }

  /** A range spanning at least `m` strides has at least `m` elements. */
  lemma {:induction false} RangeLenAtLeast(start: nat, stop: nat, step: nat, m: nat)
    requires step >= 1 && start + m * step <= stop
    ensures RangeLen(start, stop, step) >= m
    decreases m
  {
    if m > 0 {
      assert (m - 1) * step + step == m * step;
      RangeLenAtLeast(start + step, stop, step, m - 1);
    }
  }

  /** Every stride multiple that stays below `stop` is an index of the range. */
  lemma {:induction false} RangeCovers(start: nat, stop: nat, step: nat, m: nat)
    requires step >= 1 && start + m * step < stop
    ensures m < RangeLen(start, stop, step)
    decreases m
  {
    if m > 0 {
      assert start + step + (m - 1) * step == start + m * step;
      RangeCovers(start + step, stop, step, m - 1);
    }
  }

  /** The window plan: one (start, stop) per run and the stride shared by all windows. */
  datatype Plan = Plan(starts: seq<nat>, stops: seq<nat>, skip: nat)

  function Min(x: nat, y: nat): nat {
    if x <= y then x else y
  }

  /** The run count after clamping to the frame count. */
  function RunCount(numframes: nat, nruns: nat): nat {
    if nruns > numframes then numframes else nruns
  }

  /**
   * The plan, or None where Python raises ZeroDivisionError: no runs left
   * after clamping (`numframes / numruns`) or no samples (`req_frames / nsamples`).
   */
  function MakePlan(numframes: nat, reqFrames: nat, nruns: nat, nsamples: nat): (r: Option<Plan>)
    ensures r.None? <==> RunCount(numframes, nruns) == 0 || nsamples == 0
  {
    var numruns := RunCount(numframes, nruns);
    if numruns == 0 then None
    else
      var starts := ARange(0, numframes, numframes / numruns);
      var stops := seq(|starts|, k requires 0 <= k < |starts| => Min(starts[k] + reqFrames, numframes));
      if nsamples == 0 then None
      else
        var skip := reqFrames / nsamples;
        Some(Plan(starts, stops, if skip == 0 then 1 else skip))
  }

  lemma StepPositive(numframes: nat, numruns: nat)
    requires 1 <= numruns <= numframes
    ensures numframes / numruns >= 1
    ensures numframes / numruns * numruns <= numframes
  {
    DivMono(numruns, numframes, numruns);
    DivBounds(numframes, numruns);
  }

  /**
   * Shape of a successful plan: evenly spaced starts from frame 0 at spacing
   * `numframes / numruns`, one for every multiple of the spacing below the
   * frame count (the ceiling of `numframes / step`, which is at least
   * `numruns`); each stop `reqFrames` after its start, clamped to the
   * trajectory; and a stride of at least one frame that is the floor of
   * `reqFrames / nsamples` unless that is zero.
   */
  lemma {:induction false} PlanShape(numframes: nat, reqFrames: nat, nruns: nat, nsamples: nat)
    requires MakePlan(numframes, reqFrames, nruns, nsamples).Some?
    ensures var p := MakePlan(numframes, reqFrames, nruns, nsamples).value;
      var step := numframes / RunCount(numframes, nruns);
      && step >= 1
      && |p.starts| == |p.stops| == (numframes + step - 1) / step
      && |p.starts| >= RunCount(numframes, nruns) >= 1
      && (forall k :: 0 <= k < |p.starts| ==> p.starts[k] == k * step && p.starts[k] < numframes)
      && (forall m: nat :: m * step < numframes ==> m < |p.starts|)
      && (forall k :: 0 <= k < |p.stops| ==>
            p.starts[k] <= p.stops[k] <= numframes
            && p.stops[k] - p.starts[k] <= reqFrames
            && (p.stops[k] < numframes ==> p.stops[k] == p.starts[k] + reqFrames))
      && p.skip >= 1
      && (reqFrames >= nsamples ==> p.skip * nsamples <= reqFrames < (p.skip + 1) * nsamples)
      && (reqFrames < nsamples ==> p.skip == 1)
  {
    var p := MakePlan(numframes, reqFrames, nruns, nsamples).value;
    var numruns := RunCount(numframes, nruns);
    StartsShape(numframes, numruns);
    SkipShape(reqFrames, nsamples);
    assert p.starts == ARange(0, numframes, numframes / numruns);
    assert p.skip == (if reqFrames / nsamples == 0 then 1 else reqFrames / nsamples);
  }

  /** The starts: `arange(0, numframes, numframes / numruns)`, the ceiling of `numframes / step` of them, at least `numruns`. */
  lemma StartsShape(numframes: nat, numruns: nat)
    requires 1 <= numruns <= numframes
    ensures var step := numframes / numruns;
      var st := ARange(0, numframes, step);
      && step >= 1
      && |st| == (numframes + step - 1) / step
      && |st| >= numruns
      && (forall k :: 0 <= k < |st| ==> st[k] == k * step && st[k] < numframes)
      && (forall m: nat :: m * step < numframes ==> m < |st|)
  {
    var step := numframes / numruns;
    StepPositive(numframes, numruns);
    RangeLenAtLeast(0, numframes, step, numruns);
    RangeLenClosedForm(0, numframes, step);
    forall m: nat | m * step < numframes
      ensures m < |ARange(0, numframes, step)|
    {
      RangeCovers(0, numframes, step, m);
    }
  }

  /** The stride: `req_frames / nsamples`, or 1 where that is 0. */
  lemma SkipShape(reqFrames: nat, nsamples: nat)
    requires nsamples >= 1
    ensures var q := reqFrames / nsamples;
      var skip := if q == 0 then 1 else q;
      && skip >= 1
      && (reqFrames >= nsamples ==> skip * nsamples <= reqFrames < (skip + 1) * nsamples)
      && (reqFrames < nsamples ==> skip == 1)
  {
    var q := reqFrames / nsamples;
    DivBounds(reqFrames, nsamples);
    if reqFrames >= nsamples {
      DivMono(nsamples, reqFrames, nsamples);
      assert (q + 1) * nsamples == q * nsamples + nsamples;
    } else {
      DivUnique(reqFrames, nsamples, 0);
    }
  }

  lemma {:induction false} RangeLenMono(s1: nat, e1: nat, s2: nat, e2: nat, step: nat)
    requires step >= 1 && s1 <= e1 && s2 <= e2 && e1 - s1 <= e2 - s2
    ensures RangeLen(s1, e1, step) <= RangeLen(s2, e2, step)
    decreases e1 - s1
  {
    if s1 < e1 && s1 + step < e1 {
      RangeLenMono(s1 + step, e1, s2 + step, e2, step);
    }
  }

  /**
   * Every window samples at most as many frames as the first one, so a
   * window's curve fits in the prefix of the master array sized from window 0.
   */
  lemma FirstWindowLongest(numframes: nat, reqFrames: nat, nruns: nat, nsamples: nat, k: nat)
    requires MakePlan(numframes, reqFrames, nruns, nsamples).Some?
    requires k < |MakePlan(numframes, reqFrames, nruns, nsamples).value.starts|
    ensures var p := MakePlan(numframes, reqFrames, nruns, nsamples).value;
      RangeLen(p.starts[k], p.stops[k], p.skip) <= RangeLen(p.starts[0], p.stops[0], p.skip)
  {
    var p := MakePlan(numframes, reqFrames, nruns, nsamples).value;
    PlanShape(numframes, reqFrames, nruns, nsamples);
    RangeLenMono(p.starts[k], p.stops[k], p.starts[0], p.stops[0], p.skip);
  }

  /**
   * What the aggregator relies on: a positive stride, at least one window,
   * each window inside the trajectory, and no window longer than the first.
   */
  predicate WellPlanned(p: Plan) {
    && p.skip >= 1
    && |p.starts| == |p.stops| >= 1
    && (forall k :: 0 <= k < |p.starts| ==> p.starts[k] <= p.stops[k])
    && (forall k :: 0 <= k < |p.starts| ==>
          RangeLen(p.starts[k], p.stops[k], p.skip) <= RangeLen(p.starts[0], p.stops[0], p.skip))
  }

  lemma PlanWellFormed(numframes: nat, reqFrames: nat, nruns: nat, nsamples: nat)
    requires MakePlan(numframes, reqFrames, nruns, nsamples).Some?
    ensures WellPlanned(MakePlan(numframes, reqFrames, nruns, nsamples).value)
  {
    PlanShape(numframes, reqFrames, nruns, nsamples);
    forall k | 0 <= k < |MakePlan(numframes, reqFrames, nruns, nsamples).value.starts|
      ensures var p := MakePlan(numframes, reqFrames, nruns, nsamples).value;
        RangeLen(p.starts[k], p.stops[k], p.skip) <= RangeLen(p.starts[0], p.stops[0], p.skip)
    {
      FirstWindowLongest(numframes, reqFrames, nruns, nsamples, k);
    }
  }

  /**
   * The starts are not truncated to `nruns`: with 10 frames and 3 runs the
   * spacing is 3 and there are four windows.
   */
  lemma MoreWindowsThanRuns()
    ensures MakePlan(10, 5, 3, 1) == Some(Plan([0, 3, 6, 9], [5, 8, 10, 10], 5))
  {
    assert ARange(9, 10, 3) == [9];
    assert ARange(6, 10, 3) == [6, 9];
    assert ARange(3, 10, 3) == [3, 6, 9];
    var starts := ARange(0, 10, 3);
    assert starts == [0, 3, 6, 9];
    var stops := seq(|starts|, k requires 0 <= k < |starts| => Min(starts[k] + 5, 10));
    assert stops == [5, 8, 10, 10];
    assert 5 / 1 == 5;
  }
}
