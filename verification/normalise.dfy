/**
 * `results /= nbonds`: a window's counts divided by its seed size.
 *
 * As written the division is numpy's, so a window whose seed is empty gives
 * 0/0 = NaN at every sampled frame, and NaN absorbs every later sum. The
 * model keeps that behaviour in `NormaliseAsWritten` and uses `Normalise`,
 * which gives such a window an all-zero curve, everywhere else.
 */
module Normalisation {

  /** A floating-point value as far as this division can produce one. */
  datatype Float = Finite(x: real) | Inf | NaN

  /** `results /= nbonds` on a float32 array, as written. */
  function NormaliseAsWritten(counts: seq<nat>, n0: nat): (r: seq<Float>)
    ensures |r| == |counts|
    ensures (forall i :: 0 <= i < |counts| ==> counts[i] <= n0) ==> forall i :: 0 <= i < |r| ==> r[i] != Inf
  {
    seq(|counts|, i requires 0 <= i < |counts| =>
      if n0 > 0 then Finite(counts[i] as real / n0 as real)
      else if counts[i] == 0 then NaN
      else Inf)
  }

  /** Floating-point addition restricted to these values: NaN absorbs, infinity dominates finite values. */
  function AddF(a: Float, b: Float): Float {
    match (a, b)
    case (NaN, _) => NaN
    case (_, NaN) => NaN
    case (Inf, _) => Inf
    case (_, Inf) => Inf
    case (Finite(x), Finite(y)) => Finite(x + y)
  }

  /** The running sum `master_results[i]` over a sequence of window values. */
  function SumF(vs: seq<Float>): Float {
    if |vs| == 0 then Finite(0.0) else AddF(SumF(vs[..|vs| - 1]), vs[|vs| - 1])
  }

  /** One NaN among the summed window values makes the averaged value NaN. */
  lemma {:induction false} NaNPoisonsSum(vs: seq<Float>, k: nat)
    requires k < |vs| && vs[k] == NaN
    ensures SumF(vs) == NaN
  {
    if k < |vs| - 1 {
      NaNPoisonsSum(vs[..|vs| - 1], k);
    }
  }

  /** A window with an empty seed: every count is zero and every value NaN. */
  lemma EmptySeedGivesNaN(counts: seq<nat>)
    requires forall i :: 0 <= i < |counts| ==> counts[i] <= 0
    ensures forall i :: 0 <= i < |counts| ==> NormaliseAsWritten(counts, 0)[i] == NaN
  {}

  /**
   * The normalised curve used by the model: each count as a fraction of the
   * seed size, in [0, 1] when the count does not exceed the seed size, and
   * all zero when the seed is empty.
   */
  function Normalise(counts: seq<nat>, n0: nat): (r: seq<real>)
    ensures |r| == |counts|
    ensures forall i :: 0 <= i < |r| ==> 0.0 <= r[i] && (counts[i] <= n0 ==> r[i] <= 1.0)
    ensures n0 > 0 ==> forall i :: 0 <= i < |r| ==> r[i] * n0 as real == counts[i] as real
    ensures n0 == 0 ==> forall i :: 0 <= i < |r| ==> r[i] == 0.0
    ensures forall i :: 0 <= i < |r| && 0 < n0 == counts[i] ==> r[i] == 1.0
  {
    var r := seq(|counts|, i requires 0 <= i < |counts| => if n0 > 0 then counts[i] as real / n0 as real else 0.0);
    forall i | 0 <= i < |r| && n0 > 0
      ensures 0.0 <= r[i] && r[i] * n0 as real == counts[i] as real
      ensures counts[i] <= n0 ==> r[i] <= 1.0
      ensures counts[i] == n0 ==> r[i] == 1.0
    {
      Fraction(counts[i], n0);
    }
    r
  }

  lemma Fraction(c: nat, n: nat)
    requires n > 0
    ensures 0.0 <= c as real / n as real
    ensures (c as real / n as real) * n as real == c as real
    ensures c <= n ==> c as real / n as real <= 1.0
    ensures c == n ==> c as real / n as real == 1.0
  {}

  /** Wherever the seed is non-empty, the corrected and the as-written curves agree. */
  lemma NormaliseAgrees(counts: seq<nat>, n0: nat)
    requires n0 > 0
    ensures forall i :: 0 <= i < |counts| ==> NormaliseAsWritten(counts, n0)[i] == Finite(Normalise(counts, n0)[i])
  {}
}
