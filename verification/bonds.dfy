/**
 * Hydrogen/acceptor index pairs and the abstract geometric criterion.
 *
 * The analysis asks a geometry library for distances and angles; here that
 * whole question is one predicate: `bonded(frame, h, a)` holds when, at that
 * frame, hydrogen `h` and acceptor `a` are closer than the distance cutoff and
 * the donor-hydrogen-acceptor angle is above the angle cutoff.
 */
module Bonds {

  /** (frame index, hydrogen index, acceptor index) -> both criteria hold. */
  type Bonded = (nat, nat, nat) -> bool

  /** One hydrogen -> acceptor candidate: a row and a column of the distance matrix. */
  datatype Pair = Pair(h: nat, a: nat)

  /** Row-major order of the distance matrix, the order `numpy.where` reports. */
  predicate Before(p: Pair, q: Pair) {
    p.h < q.h || (p.h == q.h && p.a < q.a)
  }

  /** Strictly increasing in row-major order (so also free of repeats). */
  predicate Ordered(ps: seq<Pair>) {
    forall i, j :: 0 <= i < j < |ps| ==> Before(ps[i], ps[j])
  }

  lemma OrderedConcat(xs: seq<Pair>, ys: seq<Pair>)
    requires Ordered(xs) && Ordered(ys)
    requires forall x, y :: x in xs && y in ys ==> Before(x, y)
    ensures Ordered(xs + ys)
  {
    forall i, j | 0 <= i < j < |xs + ys|
      ensures Before((xs + ys)[i], (xs + ys)[j])
    {
      if j < |xs| {
      } else if i >= |xs| {
        assert (xs + ys)[i] == ys[i - |xs|];
        assert (xs + ys)[j] == ys[j - |xs|];
      } else {
        assert (xs + ys)[i] == xs[i] && xs[i] in xs;
        assert (xs + ys)[j] == ys[j - |xs|] && ys[j - |xs|] in ys;
      }
    }
  }
}
