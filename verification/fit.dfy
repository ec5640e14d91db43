/**
 * The pure parts of `solve`: the parameter bounds the least-squares residual
 * enforces, the default initial guess, and the lifetime computed from the
 * fitted coefficients. The fit itself (a multi-exponential least-squares
 * problem) is not modelled; its coefficients arrive as a parameter.
 */
module Fit {
  import opened Wrappers
  import opened Survival
  import opened Analysis

  /** Why `solve` cannot produce a lifetime. */
  datatype FitError =
    | NoResults   // `run` has not stored a curve yet
    | WrongArity  // the coefficients do not unpack into the mode's tuple

  /** Coefficients per mode: (A1, tau1, tau2) or (A1, A2, tau1, tau2, tau3). */
  function Arity(mode: Mode): nat {
    match mode
    case Continuous => 3
    case Intermittent => 5
  }

  /**
   * `within_bounds(p)`: every amplitude strictly between 0 and 1, the
   * amplitudes together below 1, every decay time positive. A tuple of any
   * other length yields `None`, which the residual treats as false.
   */
  predicate WithinBounds(p: seq<real>) {
    if |p| == 3 then
      0.0 < p[0] < 1.0 && p[1] > 0.0 && p[2] > 0.0
    else if |p| == 5 then
      0.0 < p[0] < 1.0 && 0.0 < p[1] < 1.0 && p[0] + p[1] < 1.0
      && p[2] > 0.0 && p[3] > 0.0 && p[4] > 0.0
    else
      false
  }

  /** The amplitudes of the exponentials; the last is one minus the others. */
  function Weights(p: seq<real>): seq<real>
    requires |p| == 3 || |p| == 5
  {
    if |p| == 3 then [p[0], 1.0 - p[0]] else [p[0], p[1], 1.0 - p[0] - p[1]]
  }

  /** The decay times of the exponentials. */
  function Times(p: seq<real>): seq<real>
    requires |p| == 3 || |p| == 5
  {
    if |p| == 3 then p[1..] else p[2..]
  }

  /**
   * Real product. Written as a function so that each term of a weighted sum
   * is one unit for the arithmetic reasoning; its body is the plain product.
   */
  function Mul(x: real, y: real): real { x * y }

  /** Sum of `ws[i] * ts[i]` over the common length. */
  function Dot(ws: seq<real>, ts: seq<real>): real
    requires |ws| == |ts|
  {
    if |ws| == 0 then 0.0 else Dot(ws[..|ws| - 1], ts[..|ts| - 1]) + Mul(ws[|ws| - 1], ts[|ts| - 1])
  }

  /** Sum of a sequence of reals. */
  function Total(ws: seq<real>): real {
    if |ws| == 0 then 0.0 else Total(ws[..|ws| - 1]) + ws[|ws| - 1]
  }

  /**
   * The lifetime `A1*tau1 + A2*tau2 (+ A3*tau3)` with the last amplitude
   * completing the others to one. Unpacking a tuple of the wrong length
   * fails.
   */
  function Tau(mode: Mode, p: seq<real>): (r: Option<real>)
    ensures r.Some? <==> |p| == Arity(mode)
  {
    match mode
    case Continuous =>
      if |p| == 3 then Some(Mul(p[0], p[1]) + Mul(1.0 - p[0], p[2])) else None
    case Intermittent =>
      if |p| == 5 then Some(Mul(p[0], p[2]) + Mul(p[1], p[3]) + Mul(1.0 - p[0] - p[1], p[4])) else None
  }

  /**
   * The lifetime is the amplitude-weighted sum of the decay times, and the
   * amplitudes sum to one.
   */
  lemma TauIsWeightedSum(mode: Mode, p: seq<real>)
    requires |p| == Arity(mode)
    ensures |Weights(p)| == |Times(p)|
    ensures Total(Weights(p)) == 1.0
    ensures Tau(mode, p) == Some(Dot(Weights(p), Times(p)))
  {
    var ws, ts := Weights(p), Times(p);
    assert Dot([], []) == 0.0 && Total([]) == 0.0;
    assert [p[0]][..0] == [] && Dot([p[0]], [ts[0]]) == Mul(p[0], ts[0]);
    assert Total([p[0]]) == p[0];
    if |p| == 3 {
      assert mode == Continuous;
      assert ws[..1] == [p[0]] && ts[..1] == [ts[0]];
      assert Dot(ws, ts) == Mul(p[0], p[1]) + Mul(1.0 - p[0], p[2]);
    } else {
      assert mode == Intermittent;
      assert ws[..2] == [p[0], p[1]] && ts[..2] == [ts[0], ts[1]];
      assert [p[0], p[1]][..1] == [p[0]] && [ts[0], ts[1]][..1] == [ts[0]];
      assert Total(ws[..2]) == p[0] + p[1];
      assert Dot(ws[..2], ts[..2]) == Mul(p[0], p[2]) + Mul(p[1], p[3]);
      assert Dot(ws, ts) == Mul(p[0], p[2]) + Mul(p[1], p[3]) + Mul(1.0 - p[0] - p[1], p[4]);
    }
  }

  /** Within the bounds every amplitude, including the implied last one, is positive. */
  lemma BoundsGivePositiveWeights(p: seq<real>)
    requires WithinBounds(p)
    ensures |p| == 3 || |p| == 5
    ensures forall i :: 0 <= i < |Weights(p)| ==> Weights(p)[i] > 0.0
    ensures forall i :: 0 <= i < |Times(p)| ==> Times(p)[i] > 0.0
  {
  }

  /**
   * `within_bounds` holds exactly for a 3- or 5-tuple whose amplitudes, the
   * implied last one included, and decay times are all positive.
   */
  lemma WithinBoundsExactly(p: seq<real>)
    ensures |p| != 3 && |p| != 5 ==> !WithinBounds(p)
    ensures |p| == 3 || |p| == 5 ==>
      (WithinBounds(p) <==>
         (forall i :: 0 <= i < |Weights(p)| ==> Weights(p)[i] > 0.0)
         && (forall i :: 0 <= i < |Times(p)| ==> Times(p)[i] > 0.0))
  {
    if |p| == 3 || |p| == 5 {
      var ws, ts := Weights(p), Times(p);
      if |p| == 3 {
        assert ws[0] == p[0] && ws[1] == 1.0 - p[0] && ts[0] == p[1] && ts[1] == p[2];
      } else {
        assert ws[0] == p[0] && ws[1] == p[1] && ws[2] == 1.0 - p[0] - p[1];
        assert ts[0] == p[2] && ts[1] == p[3] && ts[2] == p[4];
      }
    }
  }

  /** Scaling by a non-negative weight keeps the order. */
  lemma MulLe(w: real, x: real, y: real)
    requires w >= 0.0 && x <= y
    ensures Mul(w, x) <= Mul(w, y)
  {
  }

  /** Weights summing to one split any value into its weighted parts. */
  lemma Split2(w0: real, w1: real, x: real)
    requires w0 + w1 == 1.0
    ensures Mul(w0, x) + Mul(w1, x) == x
  {
    assert w1 * x == (1.0 - w0) * x == x - w0 * x;
  }

  /** The three-weight form of `Split2`. */
  lemma Split3(w0: real, w1: real, w2: real, x: real)
    requires w0 + w1 + w2 == 1.0
    ensures Mul(w0, x) + Mul(w1, x) + Mul(w2, x) == x
  {
    assert w2 * x == (1.0 - w0 - w1) * x == x - w0 * x - w1 * x;
  }

  /** A weighted sum with non-negative weights summing to one stays within the bounds of its terms. */
  lemma Convex2(w0: real, w1: real, t0: real, t1: real, lo: real, hi: real)
    requires w0 >= 0.0 && w1 >= 0.0 && w0 + w1 == 1.0
    requires lo <= t0 <= hi && lo <= t1 <= hi
    ensures lo <= Mul(w0, t0) + Mul(w1, t1) <= hi
  {
    MulLe(w0, lo, t0);
    MulLe(w0, t0, hi);
    MulLe(w1, lo, t1);
    MulLe(w1, t1, hi);
    Split2(w0, w1, lo);
    Split2(w0, w1, hi);
  }

  /** The three-term form of `Convex2`. */
  lemma Convex3(w0: real, w1: real, w2: real, t0: real, t1: real, t2: real, lo: real, hi: real)
    requires w0 >= 0.0 && w1 >= 0.0 && w2 >= 0.0 && w0 + w1 + w2 == 1.0
    requires lo <= t0 <= hi && lo <= t1 <= hi && lo <= t2 <= hi
    ensures lo <= Mul(w0, t0) + Mul(w1, t1) + Mul(w2, t2) <= hi
  {
    MulLe(w0, lo, t0);
    MulLe(w0, t0, hi);
    MulLe(w1, lo, t1);
    MulLe(w1, t1, hi);
    MulLe(w2, lo, t2);
    MulLe(w2, t2, hi);
    Split3(w0, w1, w2, lo);
    Split3(w0, w1, w2, hi);
  }

  /**
   * Within the bounds the lifetime is a convex combination of the decay
   * times: it lies between any lower and upper bound of them.
   */
  lemma TauBetweenTimes(mode: Mode, p: seq<real>, lo: real, hi: real)
    requires |p| == Arity(mode) && WithinBounds(p)
    requires forall i :: 0 <= i < |Times(p)| ==> lo <= Times(p)[i] <= hi
    ensures Tau(mode, p).Some?
    ensures lo <= Tau(mode, p).value <= hi
  {
    var ts := Times(p);
    if mode == Continuous {
      assert ts[0] == p[1] && ts[1] == p[2];
      Convex2(p[0], 1.0 - p[0], p[1], p[2], lo, hi);
    } else {
      assert ts[0] == p[2] && ts[1] == p[3] && ts[2] == p[4];
      Convex3(p[0], p[1], 1.0 - p[0] - p[1], p[2], p[3], p[4], lo, hi);
    }
  }

  /** Within the bounds the lifetime is positive. */
  lemma TauPositive(mode: Mode, p: seq<real>)
    requires |p| == Arity(mode)
    ensures Tau(mode, p).Some?
    ensures WithinBounds(p) ==> Tau(mode, p).value > 0.0
  {
    if WithinBounds(p) {
      var ts := Times(p);
      var lo := if |p| == 3 then Min(ts[0], ts[1]) else Min(ts[0], Min(ts[1], ts[2]));
      var hi := if |p| == 3 then Max(ts[0], ts[1]) else Max(ts[0], Max(ts[1], ts[2]));
      TauBetweenTimes(mode, p, lo, hi);
    }
  }

  function Min(x: real, y: real): real { if x <= y then x else y }
  function Max(x: real, y: real): real { if x <= y then y else x }

  /**
   * The initial guess when none is given: `(0.5, 10 s, s)` for continuous
   * bonds, `(0.33, 0.33, 10 s, s, 0.1 s)` for intermittent ones, where `s`
   * is the expected decay length `sample_time`.
   */
  function DefaultGuess(mode: Mode, sampleTime: real): (p: seq<real>)
    ensures |p| == Arity(mode)
  {
    match mode
    case Continuous => [0.5, 10.0 * sampleTime, sampleTime]
    case Intermittent => [0.33, 0.33, 10.0 * sampleTime, sampleTime, 0.1 * sampleTime]
  }

  /** The default guess starts the fit inside the bounds exactly when `sample_time` is positive. */
  lemma DefaultGuessInBounds(mode: Mode, sampleTime: real)
    ensures WithinBounds(DefaultGuess(mode, sampleTime)) <==> sampleTime > 0.0
  {
  }

  /**
   * `solve` up to the fit: without a stored curve it raises; otherwise the
   * fitted coefficients give the lifetime, provided they unpack for the
   * analysis' mode.
   */
  function Lifetime(an: Autocorrel, fitted: seq<real>): (r: Result<real, FitError>)
    ensures an.solution.None? ==> r == Failure(NoResults)
    ensures an.solution.Some? && |fitted| != Arity(an.mode) ==> r == Failure(WrongArity)
    ensures an.solution.Some? && |fitted| == Arity(an.mode) ==>
      r.Success? && Some(r.value) == Tau(an.mode, fitted)
    ensures an.solution.Some? && |fitted| == Arity(an.mode) && WithinBounds(fitted) ==>
      r.Success? && r.value > 0.0
  {
    if an.solution.None? then Failure(NoResults)
    else
      match Tau(an.mode, fitted)
      case None => Failure(WrongArity)
      case Some(t) =>
        TauPositive(an.mode, fitted);
        Success(t)
  }
}
