# Hydrogen-bond lifetime autocorrelation, modelled in Dafny

This project models the core of MDAnalysis' `HydrogenBondAutoCorrel`
analysis (`hbond_autocorrel.py`). The analysis measures how long hydrogen
bonds survive in a molecular-dynamics trajectory. It:

- splits the trajectory into windows (`_slice_traj`);
- seeds each window with the hydrogen–acceptor pairs bonded at its first
  frame;
- tracks those pairs through the window's sampled frames (`_single_run`),
  under the *continuous* or the *intermittent* lifetime definition, with an
  optional forgiveness time cut;
- normalises each window's counts by its seed size, and averages the windows
  index by index (`run`).

Around that core, the model also covers two more parts:

- the constructor's validation;
- the pure parts of `solve`: the parameter bounds, the default initial guess
  and the lifetime formula.

The geometric test is abstracted away. A pair `(h, a)` is bonded at frame
`f` exactly when `bonded(f, h, a)` holds. That stands for "H–A distance below
`d_crit` and D–H–A angle above `a_crit`". The seed and the frame loop use the
same predicate.

Modules, in dependency order:

- `Wrappers`: `Option` and `Result`.
- `Arith`: small division facts.
- `Bonds`: pairs and their row-major order.
- `Planner`: `numpy.arange` lengths and the window plan.
- `Seeding`: the seed at a window's start frame.
- `Survival`: the functional survival semantics and its properties.
- `Tracker`: the imperative `_single_run` over parallel `hidx`/`aidx`/`count`
  arrays, proved equal to `Survival.Track`.
- `Normalisation`: `results /= nbonds`, as written and corrected.
- `Aggregator`: the master sum and counter.
- `Analysis`: the analysis object, `New` (the constructor) and `Run`.
- `Fit`: `within_bounds`, the default guess and tau.

Behaviour of the code that the model keeps, and that a reader might not
expect:

- **Early stop.** Once every tracked pair is gone, the frame loop breaks. The
  window's `results` array was allocated for every sampled frame, so the
  curve keeps its full length and the frames not visited stay 0
  (`Survival.Track`).
- **Empty seed.** A window whose seed is empty divides 0 by 0 in
  `results /= nbonds`. numpy yields NaN, which then poisons the average at
  every index the window reaches. This is logged under Findings. `Run` uses
  a corrected division that gives such a window an all-zero curve; see
  "Left out".
- **Window count.** The planner makes `ceil(F / (F div R))` windows for `F`
  frames and `R` runs. That can be more than `R`: for `F = 10` and `R = 3` it
  makes 4 windows (`Planner.PlanShape`, `Planner.MoreWindowsThanRuns`).
- **Forgiveness cut.** A pair is dropped once its time since last seen
  *reaches* the cut, because the code keeps the pairs with
  `count < time_cut` (`Survival.CutStep`).
- **Falsy time cut.** A time cut of `0` counts as no cut, because the source
  tests the value for truthiness (`Survival.CutActive`).

## Model

| member | source | states |
|---|---|---|
| Planner.ARange | package/MDAnalysis/analysis/hbonds/hbond_autocorrel.py:336-343 | `arange(start, stop, skip)`: has `RangeLen` elements, the i-th being `start + i*skip`, each below `stop` |
| Planner.RangeLenClosedForm | package/MDAnalysis/analysis/hbonds/hbond_autocorrel.py:280-282 | the number of sampled frames is `ceil((stop - start) / skip)`, or 0 for an empty range |
| Planner.MakePlan | package/MDAnalysis/analysis/hbonds/hbond_autocorrel.py:251-266 | planning fails (ZeroDivisionError) exactly when no run is left after clamping to the frame count, or when `nsamples` is 0 |
| Planner.PlanShape | package/MDAnalysis/analysis/hbonds/hbond_autocorrel.py:251-266 | starts are `k * (F div R)` and lie inside the trajectory, and there are exactly `ceil(F / (F div R))` of them, so every multiple of the spacing below F is a start; that is at least R (R clamped); each stop is `start + req_frames` clipped to F; skip is `req_frames div nsamples`, or 1 when that is 0 |
| Planner.FirstWindowLongest | package/MDAnalysis/analysis/hbonds/hbond_autocorrel.py:258-260 | no window samples more frames than the first, so the master array sized from the first window holds every window |
| Planner.PlanWellFormed | package/MDAnalysis/analysis/hbonds/hbond_autocorrel.py:258-266 | every successful plan has skip >= 1, at least one window, ordered start/stop pairs, and the first window the longest |
| Planner.MoreWindowsThanRuns | package/MDAnalysis/analysis/hbonds/hbond_autocorrel.py:258-260 | 10 frames, 3 runs, 5 required frames, 1 sample: starts `[0,3,6,9]`, stops `[5,8,10,10]`, skip 5 — four windows for three runs |
| Seeding.Seed | package/MDAnalysis/analysis/hbonds/hbond_autocorrel.py:319-333 | the seed holds exactly the in-range pairs that are bonded at the start frame and not excluded, in `numpy.where`'s row-major order |
| Survival.Winners | package/MDAnalysis/analysis/hbonds/hbond_autocorrel.py:351-352 | `winners.sum()` never exceeds the number of tracked pairs (its exact value at the extremes is `WinnersExtremes`) |
| Survival.WinnersExtremes | package/MDAnalysis/analysis/hbonds/hbond_autocorrel.py:351-352 | `winners.sum()` is the whole tracked count when every tracked pair is bonded, and 0 when none is |
| Survival.Track | package/MDAnalysis/analysis/hbonds/hbond_autocorrel.py:336-373 | one count per sampled frame, none above the size of the tracked set it starts from |
| Survival.Initial | package/MDAnalysis/analysis/hbonds/hbond_autocorrel.py:335-341 | the tracked set starts as the seed's pairs, in order, with every counter 0 |
| Survival.NextFate | package/MDAnalysis/analysis/hbonds/hbond_autocorrel.py:354-368 | the fate of one tracked pair: at most one survivor, with the same pair; continuous mode keeps it unchanged exactly when bonded; intermittent mode without a cut keeps it unchanged; with a positive cut a bonded pair is kept with counter 0, and a broken pair whose counter reaches the cut is dropped |
| Survival.Prune | package/MDAnalysis/analysis/hbonds/hbond_autocorrel.py:354-368 | the pruned tracked set is never larger than the tracked set (its order and membership: `PruneConcat`, `PruneKeepsOrder`) |
| Survival.PruneConcat | package/MDAnalysis/analysis/hbonds/hbond_autocorrel.py:356-368 | boolean-mask compaction acts pair by pair: pruning a concatenation prunes each part |
| Survival.PruneKeepsOrder | package/MDAnalysis/analysis/hbonds/hbond_autocorrel.py:356-368 | pruning keeps the row-major order and never invents a pair |
| Survival.CutStep | package/MDAnalysis/analysis/hbonds/hbond_autocorrel.py:359-368 | with a cut, a bonded pair's counter resets to 0 and a broken one grows by `skip*dt`; the pair stays exactly when its new counter is below the cut; a positive cut always keeps bonded pairs |
| Survival.StateAt | package/MDAnalysis/analysis/hbonds/hbond_autocorrel.py:343-373 | no tracked set of a window is larger than the set it started from, so once it is empty it stays empty |
| Survival.TrackCountsState | package/MDAnalysis/analysis/hbonds/hbond_autocorrel.py:343-373 | the i-th count is the number of pairs in the tracked set before frame i that are bonded at frame i |
| Survival.StateInvariant | package/MDAnalysis/analysis/hbonds/hbond_autocorrel.py:343-373 | at every step the tracked set is an ordered subset of the seed |
| Survival.ThroughoutMembers | package/MDAnalysis/analysis/hbonds/hbond_autocorrel.py:354-357 | the reference set `Throughout` holds exactly the tracked pairs bonded at every frame so far |
| Survival.ThroughoutNothing | package/MDAnalysis/analysis/hbonds/hbond_autocorrel.py:335-336 | before any frame the reference set is the whole seed |
| Survival.ContinuousStep | package/MDAnalysis/analysis/hbonds/hbond_autocorrel.py:354-357 | continuous pruning of the pairs bonded throughout `fs` gives the pairs bonded throughout `fs + [f]` |
| Survival.ContinuousState | package/MDAnalysis/analysis/hbonds/hbond_autocorrel.py:354-357 | in continuous mode the tracked set before frame i is exactly the seed pairs bonded at every earlier sampled frame |
| Survival.WinnersArePruned | package/MDAnalysis/analysis/hbonds/hbond_autocorrel.py:351-357 | in continuous mode the winner count equals the size of the next tracked set |
| Survival.ContinuousCount | package/MDAnalysis/analysis/hbonds/hbond_autocorrel.py:351-357 | in continuous mode the i-th count is the number of seed pairs bonded at every sampled frame up to and including i |
| Survival.ContinuousNonIncreasing | package/MDAnalysis/analysis/hbonds/hbond_autocorrel.py:354-357 | in continuous mode the counts never increase |
| Survival.PruneKeepsAll | package/MDAnalysis/analysis/hbonds/hbond_autocorrel.py:358-370 | intermittent mode without a cut drops nothing |
| Survival.IntermittentState | package/MDAnalysis/analysis/hbonds/hbond_autocorrel.py:358-370 | intermittent mode without a cut keeps the whole seed at every step |
| Survival.IntermittentCount | package/MDAnalysis/analysis/hbonds/hbond_autocorrel.py:351-370 | intermittent mode without a cut counts the seed pairs bonded at frame i, bonds that re-form included |
| Survival.ZeroCutIsNoCut | package/MDAnalysis/analysis/hbonds/hbond_autocorrel.py:339-370 | `if self.time_cut` tests truthiness: with a cut of 0 every window is tracked exactly as with no cut |
| Survival.IntermittentDominates | package/MDAnalysis/analysis/hbonds/hbond_autocorrel.py:351-370 | at every frame the continuous count is at most the intermittent (no cut) count |
| Tracker.StepFrame | package/MDAnalysis/analysis/hbonds/hbond_autocorrel.py:346-368 | one pass of the frame body over `hidx`/`aidx`/`count` returns the winner count and the arrays of the pruned set |
| Tracker.FirstCountIsSeedSize | package/MDAnalysis/analysis/hbonds/hbond_autocorrel.py:326-352 | the first sampled frame is the seed frame, so its count is the seed size |
| Tracker.Walk | package/MDAnalysis/analysis/hbonds/hbond_autocorrel.py:343-373 | the frame loop with its early `break` computes exactly `Track` of the tracked set |
| Tracker.SingleRun | package/MDAnalysis/analysis/hbonds/hbond_autocorrel.py:312-373 | returns the seed size and one count per sampled frame, each at most the seed size, the first equal to it, and the whole sequence equal to `Track` of the seed |
| Normalisation.NormaliseAsWritten | package/MDAnalysis/analysis/hbonds/hbond_autocorrel.py:375 | `results /= nbonds` in IEEE arithmetic keeps the length; when no count exceeds the seed size, as in every window, no value is infinity, so the only non-finite value is NaN (0/0 for an empty seed) |
| Normalisation.EmptySeedGivesNaN | package/MDAnalysis/analysis/hbonds/hbond_autocorrel.py:375 | an empty seed makes every value of the curve NaN |
| Normalisation.NaNPoisonsSum | package/MDAnalysis/analysis/hbonds/hbond_autocorrel.py:299-305 | one NaN among the summed window values makes the master value NaN |
| Normalisation.Normalise | package/MDAnalysis/analysis/hbonds/hbond_autocorrel.py:375 | the corrected normalisation: each value is its count divided by the seed size, in [0, 1], equal to 1 when the count is the seed size, and 0 for an empty seed |
| Normalisation.NormaliseAgrees | package/MDAnalysis/analysis/hbonds/hbond_autocorrel.py:375 | for a non-empty seed the corrected and the as-written normalisation agree value by value |
| Aggregator.SumConcat | package/MDAnalysis/analysis/hbonds/hbond_autocorrel.py:291-303 | sum and counter over two batches of windows add up |
| Aggregator.WindowOrder | package/MDAnalysis/analysis/hbonds/hbond_autocorrel.py:291-303 | swapping two groups of windows leaves every master sum and counter unchanged |
| Aggregator.AnyWindowOrder | package/MDAnalysis/analysis/hbonds/hbond_autocorrel.py:291-303 | any permutation of the windows leaves every master sum and counter unchanged |
| Aggregator.SumWithinCount | package/MDAnalysis/analysis/hbonds/hbond_autocorrel.py:297-305 | with window values in [0, 1], each master sum lies between 0 and its counter |
| Aggregator.FirstWindowCounts | package/MDAnalysis/analysis/hbonds/hbond_autocorrel.py:280-300 | every index of the first window has a counter of at least 1, so the division is defined |
| Aggregator.MeanInUnit | package/MDAnalysis/analysis/hbonds/hbond_autocorrel.py:305 | each averaged value lies in [0, 1] |
| Aggregator.Accumulate | package/MDAnalysis/analysis/hbonds/hbond_autocorrel.py:280-305 | the loop over windows (full or prefix add) leaves, at each index, the sum over the windows reaching it divided by their number, which is at least 1 |
| Analysis.SelectionCheckTooWeak | package/MDAnalysis/analysis/hbonds/hbond_autocorrel.py:207-208 | the check as written accepts (2, 2, 1) and (1, 2, 3), which the intended check rejects; it never rejects what the intended one accepts |
| Analysis.ParseBondType | package/MDAnalysis/analysis/hbonds/hbond_autocorrel.py:217-219 | exactly the names `continuous` and `intermittent` are accepted, each as its own mode |
| Analysis.ExclusionPairs | package/MDAnalysis/analysis/hbonds/hbond_autocorrel.py:321-323 | the excluded pairs are exactly `(exclusions[0][k], exclusions[1][k])` |
| Analysis.New | package/MDAnalysis/analysis/hbonds/hbond_autocorrel.py:197-236 | the probe of frame 0, the selection lengths, the exclusion lengths, the bond type (UnknownBondType) and the planning divisions `sample_time / dt`, `numframes / numruns` and `req_frames / nsamples` (ZeroDivision) are checked in the source's order, each with its own error; success stores the configuration as given (frame count, dt, selection sizes, exclusion pairs, bond type, required frames, run and sample counts, time cut), the plan `_slice_traj` computes from it, and no results |
| Analysis.CurveShape | package/MDAnalysis/analysis/hbonds/hbond_autocorrel.py:312-377 | a window's curve has one value per sampled frame, each in [0, 1], starting at 1 when the seed is not empty |
| Analysis.CurvesFit | package/MDAnalysis/analysis/hbonds/hbond_autocorrel.py:280-303 | every window curve fits the master array sized from the first window, and the first fills it |
| Analysis.WindowCurve | package/MDAnalysis/analysis/hbonds/hbond_autocorrel.py:295 | `_single_run(start, stop)` for window k yields that window's normalised survival curve |
| Analysis.RunWindows | package/MDAnalysis/analysis/hbonds/hbond_autocorrel.py:291-295 | one pass per planned window, in plan order |
| Analysis.TimeAxis | package/MDAnalysis/analysis/hbonds/hbond_autocorrel.py:307-309 | the time axis has one entry per master value, the i-th being `i * dt * skip` |
| Analysis.Solve | package/MDAnalysis/analysis/hbonds/hbond_autocorrel.py:280-305 | the master curve is, index by index, the mean of the window curves that reach that index, and lies in [0, 1] |
| Analysis.Run | package/MDAnalysis/analysis/hbonds/hbond_autocorrel.py:268-310 | existing results without `force`: no change; an exclusion index outside the distance matrix: IndexError; otherwise the averaged curve and its time axis are stored and the configuration is untouched |
| Fit.Tau | package/MDAnalysis/analysis/hbonds/hbond_autocorrel.py:485-501 | the coefficients unpack, and tau is defined, exactly when there are 3 of them (continuous) or 5 (intermittent) |
| Fit.TauIsWeightedSum | package/MDAnalysis/analysis/hbonds/hbond_autocorrel.py:485-501 | tau is the amplitude-weighted sum of the decay times, and the amplitudes, the implied last one included, sum to 1 |
| Fit.WithinBoundsExactly | package/MDAnalysis/analysis/hbonds/hbond_autocorrel.py:436-454 | `within_bounds` holds exactly for a 3- or 5-tuple whose amplitudes, the implied last one included, and decay times are all positive; any other length fails |
| Fit.BoundsGivePositiveWeights | package/MDAnalysis/analysis/hbonds/hbond_autocorrel.py:436-454 | within the bounds every amplitude, the implied last one included, and every decay time is positive |
| Fit.TauBetweenTimes | package/MDAnalysis/analysis/hbonds/hbond_autocorrel.py:436-501 | for coefficients within the bounds, tau lies between any lower and upper bound of the decay times |
| Fit.TauPositive | package/MDAnalysis/analysis/hbonds/hbond_autocorrel.py:436-501 | for coefficients within the bounds, tau is positive |
| Fit.DefaultGuess | package/MDAnalysis/analysis/hbonds/hbond_autocorrel.py:476-493 | the default guess has the mode's number of coefficients |
| Fit.DefaultGuessInBounds | package/MDAnalysis/analysis/hbonds/hbond_autocorrel.py:436-493 | the default guess lies within the bounds exactly when `sample_time` is positive |
| Fit.Lifetime | package/MDAnalysis/analysis/hbonds/hbond_autocorrel.py:427-501 | without results `solve` raises; coefficients of the wrong length fail to unpack; otherwise it gives tau, which is positive for coefficients within the bounds |

## Left out

- Geometry: `distance_array`, `calc_bonds`, `calc_angles`, periodic boxes and
  `deg2rad` are replaced by the `bonded(frame, h, a)` predicate. The geometry
  library is not part of this model.
- Trajectory access: seeking and iterating are left out. The frame count and
  `dt` are parameters. So is `req_frames`, the truncating float division
  `int(sample_time / dt)`, because `sample_time` and `dt` are floats; only
  its failure for `dt == 0` is modelled (ZeroDivision in `Analysis.New`).
- Warnings and `ProgressMeter`: these are output only and change no value.
- float32 arithmetic: `results`, `master_results`, `counter` and the time
  axis are exact reals. The rounding of float32 sums is not modelled.
- The least-squares fit: `leastsq`, the `double`/`triple` exponential
  models, the `err` residual with its 100000 penalty, `estimate`, `ier`,
  `infodict` and `mesg` are left out. They are floating-point numerics in a
  library outside this model. The fitted coefficients enter `Fit.Lifetime`
  as a parameter.
- `save_results` and `__repr__`: file output and text.
- `bond_type is 'continuous'`: the model compares by value. Python's `is` on
  strings relies on interning.
- Negative `nruns`, `nsamples`, `sample_time` or exclusion indices: counts
  and indices are natural numbers. numpy's wrap-around of negative indices is
  not modelled.
- Fit.WithinBounds: a tuple of any length other than 3 or 5 makes
  `within_bounds` return `None`. The model returns `false`, which is how the
  residual uses it.
- Analysis.New: the model rejects every configuration whose three selection
  lengths are not all equal, with SelectionLength. The source's check at
  lines 207-208 accepts many of them, for example 3 hydrogens, 3 acceptors
  and 5 donors, or 2, 3 and 4. The source then runs such configurations: it
  completes normally when every donor index it reads exists, and raises
  IndexError at `self.d.positions[hidx]` otherwise. The model has no
  counterpart for either outcome.
- Analysis.Run: the ExclusionIndex failure covers exclusion indices outside
  the distance matrix. In the source this is numpy's IndexError, raised in
  the first window's `_single_run`.
- Analysis.WindowCurve: it normalises with the corrected division. For a
  window whose seed is empty it returns a curve of zeros, while the source's
  `_single_run` returns NaN at every sampled frame (`EmptySeedGivesNaN`). For
  a non-empty seed the two agree (`NormaliseAgrees`).
- Analysis.CurveShape: the bound [0, 1] is a property of the corrected
  curve. It holds of the source's curve only when the seed is not empty; for
  an empty seed the source's values are NaN. The start at 1 needs a
  non-empty seed in both.
- Analysis.CurvesFit: the lengths hold of the source's curves too, but the
  bound [0, 1] holds only of the corrected curves. An empty-seed window has
  NaN values in the source.
- Analysis.Run, Analysis.Solve: they use the corrected normalisation. For a
  window whose seed is empty they add a curve of zeros where the source adds
  NaN, and the source's `master_results` is then NaN at every index that
  window reaches (`NaNPoisonsSum`). The counter is still incremented for such
  a window, as in the source. So the empty window pulls the model's mean
  towards 0 instead of making it undefined.
- Survival.Winners, Survival.Throughout, Survival.Prune, Survival.Track,
  Analysis.Curves and Fit.DefaultGuess: their own contracts state only
  lengths and bounds. Their meaning is stated by the lemmas that name them:
  `WinnersExtremes`, `ThroughoutMembers`, `TrackCountsState`,
  `ContinuousCount`, `IntermittentCount`, `CutStep`, `CurvesFit` and
  `DefaultGuessInBounds`.

## Findings

| source | as written | input that shows it | evidently intended | confidence | as-written member | corrected member |
|---|---|---|---|---|---|---|
| package/MDAnalysis/analysis/hbonds/hbond_autocorrel.py:207-208 | `not (len(h) == len(a)) and (len(a) == len(d))`; `not` binds tighter than `and` | 2 hydrogens, 2 acceptors, 1 donor are accepted; so are 1, 2, 3 | reject unless all three lengths agree | high (not executed) | Analysis.SelectionCheckTooWeak | Analysis.New |
| package/MDAnalysis/analysis/hbonds/hbond_autocorrel.py:375 | `results /= nbonds` with `nbonds == 0` | a window whose start frame has no bonded pair: 0/0 = NaN at every index, and the NaN then poisons the master average at every index it reaches | an empty window leaves the average defined; the model gives it an all-zero curve | high (not executed) | Normalisation.EmptySeedGivesNaN | Normalisation.Normalise |
