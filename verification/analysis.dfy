/**
 * The `HydrogenBondAutoCorrel` object: construction-time validation and
 * planning, and `run`, which drives one survival pass per window and stores
 * the averaged curve and its time axis in the solution.
 */
module Analysis {
  import opened Wrappers
  import opened Bonds
  import opened Planner
  import opened Seeding
  import opened Survival
  import opened Tracker
  import opened Normalisation
  import opened Aggregator

  /** The errors the analysis raises. */
  datatype Error =
    | NotSliceable     // the trajectory cannot be indexed (or has no frame 0)
    | SelectionLength  // hydrogen/acceptor/donor selections of different lengths
    | ExclusionLength  // the two exclusion arrays differ in length
    | UnknownBondType  // bond_type is neither 'continuous' nor 'intermittent'
    | ZeroDivision     // a zero frame time, no runs or no samples: division by zero
    | ExclusionIndex   // an exclusion index outside the distance matrix

  /** The raw results of `run`: the time axis and the averaged curve. */
  datatype Solution = Solution(time: seq<real>, results: seq<real>)

  /** The analysis state: configuration, window plan and (once run) solution. */
  datatype Autocorrel = Autocorrel(
    numframes: nat, dt: real,
    nh: nat, na: nat, nd: nat,
    excl: seq<Pair>,
    mode: Mode, timeCut: Option<real>,
    reqFrames: nat, nruns: nat, nsamples: nat,
    plan: Plan,
    solution: Option<Solution>)

  /** The `bond_type` name of each lifetime definition. */
  function BondTypeName(mode: Mode): string {
    match mode
    case Continuous => "continuous"
    case Intermittent => "intermittent"
  }

  /** `bond_type` as given: exactly the names of the two modes are accepted, each as its own mode. */
  function ParseBondType(s: string): (r: Option<Mode>)
    ensures r.Some? ==> BondTypeName(r.value) == s
    ensures forall mode: Mode :: s == BondTypeName(mode) ==> r == Some(mode)
  {
    if s == "continuous" then Some(Continuous)
    else if s == "intermittent" then Some(Intermittent)
    else None
  }

  /**
   * The selection-length check as written,
   * `not (len(h) == len(a)) and (len(a) == len(d))`: `not` binds tighter than
   * `and`, so it rejects only when h and a differ while a and d agree.
   */
  predicate SelectionRejectedAsWritten(nh: nat, na: nat, nd: nat) {
    !(nh == na) && (na == nd)
  }

  /** The evidently intended check: reject unless all three lengths agree. */
  predicate SelectionRejected(nh: nat, na: nat, nd: nat) {
    !(nh == na && na == nd)
  }

  /**
   * The check as written lets mismatched selections through: two hydrogens,
   * two acceptors and one donor pass, as do 1, 2, 3; whatever it rejects the
   * intended check rejects too.
   */
  lemma SelectionCheckTooWeak()
    ensures !SelectionRejectedAsWritten(2, 2, 1) && SelectionRejected(2, 2, 1)
    ensures !SelectionRejectedAsWritten(1, 2, 3) && SelectionRejected(1, 2, 3)
    ensures forall nh: nat, na: nat, nd: nat :: SelectionRejectedAsWritten(nh, na, nd) ==> SelectionRejected(nh, na, nd)
  {}

  /** The exclusion pairs: `(exclusions[0][k], exclusions[1][k])`. */
  function ExclusionPairs(e0: seq<nat>, e1: seq<nat>): (r: seq<Pair>)
    requires |e0| == |e1|
    ensures |r| == |e0|
    ensures forall p :: p in r <==> exists k :: 0 <= k < |e0| && p == Pair(e0[k], e1[k])
  {
    var r := seq(|e0|, k requires 0 <= k < |e0| => Pair(e0[k], e1[k]));
    assert forall k :: 0 <= k < |e0| ==> r[k] == Pair(e0[k], e1[k]);
    r
  }

  /** The analysis was produced by the constructor: its plan is the one its configuration gives. */
  predicate Valid(an: Autocorrel) {
    && MakePlan(an.numframes, an.reqFrames, an.nruns, an.nsamples) == Some(an.plan)
    && WellPlanned(an.plan)
  }

  /**
   * The constructor. `sliceable` says whether indexing the trajectory works at
   * all; frame 0 of an empty trajectory fails the same probe. The checks run
   * in the source's order, the planner's divisions last (`sample_time / dt`,
   * then `numframes / numruns`, then `req_frames / nsamples`); a valid configuration is stored as given, with
   * the plan it determines and no results.
   */
  function New(sliceable: bool, numframes: nat, dt: real, nh: nat, na: nat, nd: nat,
               exclusions: Option<(seq<nat>, seq<nat>)>, bondType: string,
               reqFrames: nat, timeCut: Option<real>, nruns: nat, nsamples: nat): (r: Result<Autocorrel, Error>)
    ensures !sliceable || numframes == 0 ==> r == Failure(NotSliceable)
    ensures sliceable && numframes > 0 && SelectionRejected(nh, na, nd) ==> r == Failure(SelectionLength)
    ensures sliceable && numframes > 0 && !SelectionRejected(nh, na, nd) ==>
      (exclusions.Some? && |exclusions.value.0| != |exclusions.value.1| <==> r == Failure(ExclusionLength))
    ensures r.Success? <==>
      && sliceable && numframes > 0
      && !SelectionRejected(nh, na, nd)
      && (exclusions.Some? ==> |exclusions.value.0| == |exclusions.value.1|)
      && ParseBondType(bondType).Some?
      && dt != 0.0 && nruns > 0 && nsamples > 0
    ensures (sliceable && numframes > 0 && !SelectionRejected(nh, na, nd)
             && (exclusions.Some? ==> |exclusions.value.0| == |exclusions.value.1|)) ==>
      && (ParseBondType(bondType).None? ==> r == Failure(UnknownBondType))
      && (ParseBondType(bondType).Some? && (dt == 0.0 || nruns == 0 || nsamples == 0) ==> r == Failure(ZeroDivision))
    ensures r.Success? ==>
      && Valid(r.value)
      && r.value.solution.None?
      && Some(r.value.mode) == ParseBondType(bondType)
      && r.value.nh == nh == r.value.na == na && r.value.nd == nd
      && r.value.numframes == numframes && r.value.dt == dt
      && r.value.reqFrames == reqFrames && r.value.nruns == nruns && r.value.nsamples == nsamples
      && r.value.timeCut == timeCut
      && Some(r.value.plan) == MakePlan(numframes, reqFrames, nruns, nsamples)
      && (exclusions.None? ==> r.value.excl == [])
      && (exclusions.Some? ==> r.value.excl == ExclusionPairs(exclusions.value.0, exclusions.value.1))
  {
    if !sliceable || numframes == 0 then Failure(NotSliceable)
    else if SelectionRejected(nh, na, nd) then Failure(SelectionLength)
    else if exclusions.Some? && |exclusions.value.0| != |exclusions.value.1| then Failure(ExclusionLength)
    else
      match ParseBondType(bondType)
      case None => Failure(UnknownBondType)
      case Some(mode) =>
        if dt == 0.0 then Failure(ZeroDivision)
        else
          match MakePlan(numframes, reqFrames, nruns, nsamples)
          case None => Failure(ZeroDivision)
          case Some(plan) =>
            PlanWellFormed(numframes, reqFrames, nruns, nsamples);
            var excl := if exclusions.Some? then ExclusionPairs(exclusions.value.0, exclusions.value.1) else [];
            Success(Autocorrel(numframes, dt, nh, na, nd, excl, mode, timeCut, reqFrames, nruns, nsamples, plan, None))
  }

  /** Pruning parameters of every window: the time between samples is `skip * dt`. */
  function RuleOf(an: Autocorrel): Rule
  {
    Rule(an.mode, an.timeCut, an.plan.skip as real * an.dt)
  }

  /** Every exclusion pair indexes the `nh` by `na` distance matrix. */
  predicate ExclusionsInRange(an: Autocorrel) {
    forall p :: p in an.excl ==> p.h < an.nh && p.a < an.na
  }

  /** The normalised curve of window `k`. */
  function Curve(an: Autocorrel, bonded: Bonded, k: nat): seq<real>
    requires WellPlanned(an.plan) && k < |an.plan.starts|
  {
    var start := an.plan.starts[k];
    var seed := Seed(bonded, start, an.nh, an.na, an.excl);
    Normalise(Track(RuleOf(an), bonded, Initial(seed), ARange(start, an.plan.stops[k], an.plan.skip)), |seed|)
  }

  /**
   * A window's curve has one value per sampled frame, each in [0, 1], and
   * starts at 1 whenever its seed is not empty.
   */
  lemma CurveShape(an: Autocorrel, bonded: Bonded, k: nat)
    requires WellPlanned(an.plan) && k < |an.plan.starts|
    ensures var r := Curve(an, bonded, k);
      && |r| == RangeLen(an.plan.starts[k], an.plan.stops[k], an.plan.skip)
      && (forall i :: 0 <= i < |r| ==> 0.0 <= r[i] <= 1.0)
      && (|r| > 0 && |Seed(bonded, an.plan.starts[k], an.nh, an.na, an.excl)| > 0 ==> r[0] == 1.0)
  {
    var start := an.plan.starts[k];
    var seed := Seed(bonded, start, an.nh, an.na, an.excl);
    var frames := ARange(start, an.plan.stops[k], an.plan.skip);
    var counts := Track(RuleOf(an), bonded, Initial(seed), frames);
    FirstCountIsSeedSize(RuleOf(an), bonded, an.nh, an.na, an.excl, start, frames);
    assert forall i :: 0 <= i < |counts| ==> counts[i] <= |seed|;
  }

  /** The curves of all windows, in plan order. */
  function Curves(an: Autocorrel, bonded: Bonded): (r: seq<seq<real>>)
    requires WellPlanned(an.plan)
    ensures |r| == |an.plan.starts|
  {
    seq(|an.plan.starts|, k requires 0 <= k < |an.plan.starts| => Curve(an, bonded, k))
  }

  /** The window curves fit the master array sized from the first window, and all lie in [0, 1]. */
  lemma CurvesFit(an: Autocorrel, bonded: Bonded)
    requires WellPlanned(an.plan)
    ensures var ws := Curves(an, bonded);
      var n := RangeLen(an.plan.starts[0], an.plan.stops[0], an.plan.skip);
      && |ws| > 0 && |ws[0]| == n
      && (forall k :: 0 <= k < |ws| ==> |ws[k]| <= n)
      && (forall k, j :: 0 <= k < |ws| && 0 <= j < |ws[k]| ==> 0.0 <= ws[k][j] <= 1.0)
  {
    var ws := Curves(an, bonded);
    forall k | 0 <= k < |ws|
      ensures |ws[k]| == RangeLen(an.plan.starts[k], an.plan.stops[k], an.plan.skip)
      ensures forall j :: 0 <= j < |ws[k]| ==> 0.0 <= ws[k][j] <= 1.0
    {
      assert ws[k] == Curve(an, bonded, k);
      CurveShape(an, bonded, k);
    }
  }

  /** `_single_run(start, stop)` for window `k`, normalised. */
  method WindowCurve(an: Autocorrel, bonded: Bonded, k: nat) returns (curve: seq<real>)
    requires WellPlanned(an.plan) && k < |an.plan.starts|
    ensures curve == Curve(an, bonded, k)
  {
    var counts, n0 := SingleRun(RuleOf(an), bonded, an.nh, an.na, an.excl, an.plan.starts[k], an.plan.stops[k], an.plan.skip);
    curve := Normalise(counts, n0);
  }

  /** One survival pass per planned window, in plan order, each normalised by its seed size. */
  method RunWindows(an: Autocorrel, bonded: Bonded) returns (curves: seq<seq<real>>)
    requires WellPlanned(an.plan)
    ensures curves == Curves(an, bonded)
  {
    ghost var all := Curves(an, bonded);
    curves := [];
    var k := 0;
    while k < |an.plan.starts|
      invariant 0 <= k <= |an.plan.starts| == |all|
      invariant curves == all[..k]
    {
      var curve := WindowCurve(an, bonded, k);
      assert all[k] == curve;
      assert all[..k + 1] == all[..k] + [all[k]];
      curves := curves + [curve];
      k := k + 1;
    }
    assert all[..k] == all;
  }

  /** Length of the stored curve: the sample count of the first window. */
  function SolutionLength(an: Autocorrel): nat
    requires WellPlanned(an.plan)
  {
    RangeLen(an.plan.starts[0], an.plan.stops[0], an.plan.skip)
  }

  /**
   * The curve `run` stores: for every index of the first window, the mean of
   * the window curves that reach that index (at least one does), a value in
   * [0, 1].
   */
  predicate Averaged(an: Autocorrel, bonded: Bonded, results: seq<real>)
    requires WellPlanned(an.plan)
  {
    var ws := Curves(an, bonded);
    && |results| == SolutionLength(an)
    && (forall i :: 0 <= i < |results| ==>
          && CountAt(ws, i) >= 1
          && results[i] == SumAt(ws, i) / CountAt(ws, i) as real
          && 0.0 <= results[i] <= 1.0)
  }

  /** The time axis `run` stores: sample `i` lies `i * dt * skip` after the window start. */
  predicate Stamped(an: Autocorrel, time: seq<real>)
    requires WellPlanned(an.plan)
  {
    && |time| == SolutionLength(an)
    && (forall i :: 0 <= i < |time| ==> time[i] == i as real * an.dt * an.plan.skip as real)
  }

  /** `numpy.arange(n) * dt * skip`. */
  method TimeAxis(an: Autocorrel) returns (time: seq<real>)
    requires WellPlanned(an.plan)
    ensures Stamped(an, time)
  {
    var n := SolutionLength(an);
    time := seq(n, i requires 0 <= i < n => i as real * an.dt * an.plan.skip as real);
  }

  /** The body of `run` past its guards: every window, then their mean. */
  method Solve(an: Autocorrel, bonded: Bonded) returns (master: seq<real>)
    requires WellPlanned(an.plan)
    ensures Averaged(an, bonded, master)
  {
    var curves := RunWindows(an, bonded);
    var n := SolutionLength(an);
    CurvesFit(an, bonded);
    master := Accumulate(curves, n);
    forall i | 0 <= i < n
      ensures 0.0 <= master[i] <= 1.0
    {
      MeanInUnit(curves, i);
    }
  }

  /**
   * `run(force)`. With results present and no `force` nothing changes.
   * Otherwise an out-of-range exclusion index raises before anything is
   * stored; else the solution holds the averaged curve and its time axis,
   * and the configuration is untouched.
   */
  method Run(an: Autocorrel, bonded: Bonded, force: bool) returns (r: Result<Autocorrel, Error>)
    requires Valid(an)
    ensures !force && an.solution.Some? ==> r == Success(an)
    ensures (force || an.solution.None?) && !ExclusionsInRange(an) ==> r == Failure(ExclusionIndex)
    ensures (force || an.solution.None?) && ExclusionsInRange(an) ==>
      && r.Success?
      && r.value.solution.Some?
      && r.value == an.(solution := r.value.solution)
      && Averaged(an, bonded, r.value.solution.value.results)
      && Stamped(an, r.value.solution.value.time)
  {
    if an.solution.Some? && !force {
      return Success(an);
    }
    if !ExclusionsInRange(an) {
      return Failure(ExclusionIndex);
    }
    var results := Solve(an, bonded);
    var time := TimeAxis(an);
    return Success(an.(solution := Some(Solution(time, results))));
  }
}
