/**
 * One window pass as the analysis performs it: the tracked set held as three
 * aligned arrays `hidx`, `aidx` and `count`, compacted in lockstep after
 * every sampled frame, with the per-frame counts written into a zero-filled
 * array and an early stop once nothing is tracked.
 */
module Tracker {
  import opened Bonds
  import opened Seeding
  import opened Planner
  import opened Survival

  /** The candidates that three aligned arrays describe. */
  function Zip(hidx: seq<nat>, aidx: seq<nat>, count: seq<real>): (r: seq<Cand>)
    requires |hidx| == |aidx| == |count|
    ensures |r| == |hidx|
  {
    seq(|hidx|, k requires 0 <= k < |hidx| => Cand(Pair(hidx[k], aidx[k]), count[k]))
  }

  lemma ZipSnoc(hidx: seq<nat>, aidx: seq<nat>, count: seq<real>, h: nat, a: nat, g: real)
    requires |hidx| == |aidx| == |count|
    ensures Zip(hidx + [h], aidx + [a], count + [g]) == Zip(hidx, aidx, count) + [Cand(Pair(h, a), g)]
  {}

  /**
   * The fate of one tracked candidate at a sampled frame, as the loop body
   * decides it: whether it stays, and its counter afterwards.
   */
  method Decide(rule: Rule, bonded: Bonded, f: nat, c: Cand) returns (winner: bool, keep: bool, g: real)
    ensures winner == Survives(bonded, f, c)
    ensures Next(rule, bonded, f, c) == if keep then [Cand(c.pair, g)] else []
  {
    winner := bonded(f, c.pair.h, c.pair.a);
    g := c.gone;
    match rule.mode {
      case Continuous =>
        keep := winner;
      case Intermittent =>
        if CutActive(rule) {
          g := if winner then 0.0 else c.gone + rule.lapse;
          keep := g < rule.timeCut.value;
        } else {
          keep := true;
        }
    }
  }

  /** Appending one candidate adds its share to the winner count and its fate to the pruned set. */
  lemma StepSnoc(rule: Rule, bonded: Bonded, f: nat, xs: seq<Cand>, c: Cand)
    ensures Winners(bonded, f, xs + [c]) == Winners(bonded, f, xs) + (if Survives(bonded, f, c) then 1 else 0)
    ensures Prune(rule, bonded, f, xs + [c]) == Prune(rule, bonded, f, xs) + Next(rule, bonded, f, c)
  {
    assert (xs + [c])[..|xs|] == xs;
  }

  /**
   * One sampled frame: count the winners among the tracked candidates, then
   * compact the three arrays together under the window's rule. The arrays
   * stay of equal length and describe exactly the pruned tracked set.
   */
  method StepFrame(rule: Rule, bonded: Bonded, f: nat, hidx: seq<nat>, aidx: seq<nat>, count: seq<real>)
    returns (won: nat, hidx': seq<nat>, aidx': seq<nat>, count': seq<real>)
    requires |hidx| == |aidx| == |count|
    ensures |hidx'| == |aidx'| == |count'| <= |hidx|
    ensures won == Winners(bonded, f, Zip(hidx, aidx, count))
    ensures Zip(hidx', aidx', count') == Prune(rule, bonded, f, Zip(hidx, aidx, count))
  {
    ghost var cur := Zip(hidx, aidx, count);
    won, hidx', aidx', count' := 0, [], [], [];
    var k := 0;
    while k < |hidx|
      invariant 0 <= k <= |hidx|
      invariant |hidx'| == |aidx'| == |count'| <= k
      invariant won == Winners(bonded, f, cur[..k])
      invariant Zip(hidx', aidx', count') == Prune(rule, bonded, f, cur[..k])
    {
      var c := Cand(Pair(hidx[k], aidx[k]), count[k]);
      ghost var done := cur[..k];
      ghost var pruned := Prune(rule, bonded, f, done);
      assert cur[k] == c;
      PrefixSnoc(cur, k);
      StepSnoc(rule, bonded, f, done, c);
      var winner, keep, g := Decide(rule, bonded, f, c);
      if winner {
        won := won + 1;
      }
      if keep {
        ZipSnoc(hidx', aidx', count', hidx[k], aidx[k], g);
        hidx', aidx', count' := hidx' + [hidx[k]], aidx' + [aidx[k]], count' + [g];
      }
      assert Zip(hidx', aidx', count') == pruned + Next(rule, bonded, f, c);
      k := k + 1;
    }
    assert cur[..k] == cur;
  }

  /** The three arrays a seed is unpacked into, with every counter at zero. */
  lemma UnpackSeed(seed: seq<Pair>, hidx: seq<nat>, aidx: seq<nat>, count: seq<real>)
    requires |hidx| == |aidx| == |count| == |seed|
    requires forall k :: 0 <= k < |seed| ==> hidx[k] == seed[k].h && aidx[k] == seed[k].a && count[k] == 0.0
    ensures Zip(hidx, aidx, count) == Initial(seed)
  {}

  /** Every candidate of a seed taken at `start` is bonded at `start`, so the first count is the seed size. */
  lemma FirstCountIsSeedSize(rule: Rule, bonded: Bonded, nh: nat, na: nat, excl: seq<Pair>, start: nat, frames: seq<nat>)
    requires |frames| > 0 ==> frames[0] == start
    ensures var seed := Seed(bonded, start, nh, na, excl);
      |frames| > 0 ==> Track(rule, bonded, Initial(seed), frames)[0] == |seed|
  {
    var seed := Seed(bonded, start, nh, na, excl);
    var init := Initial(seed);
    forall c | c in init
      ensures Survives(bonded, start, c)
    {
      var k :| 0 <= k < |init| && init[k] == c;
      assert seed[k] in seed;
    }
    WinnersExtremes(bonded, start, init);
  }

  /** Advancing the loop by one sampled frame keeps the window's counts on track. */
  lemma Advance(rule: Rule, bonded: Bonded, results: seq<nat>, i: nat, cur: seq<Cand>, frames: seq<nat>, won: nat, whole: seq<nat>)
    requires i < |frames| == |results|
    requires results[..i] + Track(rule, bonded, cur, frames[i..]) == whole
    requires won == Winners(bonded, frames[i], cur)
    requires forall j :: i <= j < |frames| ==> results[j] == 0
    ensures var next := Prune(rule, bonded, frames[i], cur);
      && (|next| == 0 ==> results[i := won] == whole)
      && (|next| > 0 ==> results[i := won][..i + 1] + Track(rule, bonded, next, frames[i + 1..]) == whole)
  {
    var next := Prune(rule, bonded, frames[i], cur);
    TrackAt(rule, bonded, cur, frames, i);
    if |next| == 0 {
      ZeroTail(results, i, won, whole);
    } else {
      WriteCount(results, i, won, Track(rule, bonded, next, frames[i + 1..]), whole);
    }
  }

  /** `Track` over the frames from `i` on, unfolded once. */
  lemma TrackAt(rule: Rule, bonded: Bonded, tr: seq<Cand>, frames: seq<nat>, i: nat)
    requires i < |frames|
    ensures var next := Prune(rule, bonded, frames[i], tr);
      Track(rule, bonded, tr, frames[i..])
        == [Winners(bonded, frames[i], tr)] + (if |next| == 0 then Zeros(|frames| - i - 1) else Track(rule, bonded, next, frames[i + 1..]))
  {
    assert frames[i..][1..] == frames[i + 1..];
    assert frames[i..][0] == frames[i];
  }

  /** Writing count `won` at `i` moves it from the pending tail into the written prefix. */
  lemma WriteCount(results: seq<nat>, i: nat, won: nat, tail: seq<nat>, whole: seq<nat>)
    requires i < |results|
    requires results[..i] + ([won] + tail) == whole
    ensures results[i := won][..i + 1] + tail == whole
  {
    assert results[i := won][..i + 1] == results[..i] + [won];
  }

  /** Writing the last non-zero count into a zero-filled remainder completes the array. */
  lemma ZeroTail(results: seq<nat>, i: nat, won: nat, whole: seq<nat>)
    requires i < |results|
    requires results[..i] + ([won] + Zeros(|results| - i - 1)) == whole
    requires forall j :: i <= j < |results| ==> results[j] == 0
    ensures results[i := won] == whole
  {
    var r := results[i := won];
    assert |r| == |whole|;
    forall j | 0 <= j < |r|
      ensures r[j] == whole[j]
    {
      if j < i {
        assert whole[j] == results[..i][j];
      } else if j > i {
        assert whole[j] == Zeros(|results| - i - 1)[j - i - 1];
      }
    }
  }

  /**
   * The frame loop of a window: from the tracked arrays, sample every frame
   * of `frames`, writing each count into a zero-filled array and stopping
   * early once nothing is tracked. The result is the functional tracker's.
   */
  method Walk(rule: Rule, bonded: Bonded, hidx: seq<nat>, aidx: seq<nat>, count: seq<real>, frames: seq<nat>)
    returns (results: seq<nat>)
    requires |hidx| == |aidx| == |count|
    ensures results == Track(rule, bonded, Zip(hidx, aidx, count), frames)
  {
    ghost var whole := Track(rule, bonded, Zip(hidx, aidx, count), frames);
    var hidx, aidx, count := hidx, aidx, count;
    results := Zeros(|frames|);
    assert results[..0] + Track(rule, bonded, Zip(hidx, aidx, count), frames[0..]) == whole by {
      assert frames[0..] == frames;
    }
    var i := 0;
    while i < |frames|
      invariant 0 <= i <= |frames|
      invariant |hidx| == |aidx| == |count|
      invariant |results| == |frames|
      invariant forall j :: i <= j < |frames| ==> results[j] == 0
      invariant results[..i] + Track(rule, bonded, Zip(hidx, aidx, count), frames[i..]) == whole
    {
      var won, hidx', aidx', count' := StepFrame(rule, bonded, frames[i], hidx, aidx, count);
      Advance(rule, bonded, results, i, Zip(hidx, aidx, count), frames, won, whole);
      results := results[i := won];
      if |hidx'| == 0 {
        // Once everyone has lost the walk stops; later counts stay zero.
        assert results == whole;
        break;
      }
      hidx, aidx, count := hidx', aidx', count';
      i := i + 1;
    }
    assert results == whole by {
      if i == |frames| {
        assert results[..i] == results;
      }
    }
  }

  /**
   * One window from `start` (inclusive) to `stop` (exclusive) at stride
   * `skip`: returns the per-frame counts and the seed size `n0`. The counts
   * are those of the functional tracker, there is one per sampled frame,
   * none exceeds `n0`, and the first equals `n0` because every seed pair is
   * bonded at `start` itself.
   */
  method SingleRun(rule: Rule, bonded: Bonded, nh: nat, na: nat, excl: seq<Pair>, start: nat, stop: nat, skip: nat)
    returns (results: seq<nat>, n0: nat)
    requires skip >= 1
    ensures n0 == |Seed(bonded, start, nh, na, excl)|
    ensures results == Track(rule, bonded, Initial(Seed(bonded, start, nh, na, excl)), ARange(start, stop, skip))
    ensures |results| == RangeLen(start, stop, skip)
    ensures forall i :: 0 <= i < |results| ==> results[i] <= n0
    ensures start < stop ==> results[0] == n0
  {
    var seed := Seed(bonded, start, nh, na, excl);
    var hidx: seq<nat> := seq(|seed|, k requires 0 <= k < |seed| => seed[k].h);
    var aidx: seq<nat> := seq(|seed|, k requires 0 <= k < |seed| => seed[k].a);
    var count: seq<real> := seq(|seed|, _ => 0.0);
    UnpackSeed(seed, hidx, aidx, count);
    n0 := |hidx|;
    var frames := ARange(start, stop, skip);
    results := Walk(rule, bonded, hidx, aidx, count, frames);
    FirstCountIsSeedSize(rule, bonded, nh, na, excl, start, frames);
  }
}
