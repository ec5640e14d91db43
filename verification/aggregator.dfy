/**
 * The run aggregator: window curves of possibly different lengths are added
 * into the prefix of one master array, a per-index counter records how many
 * windows reached each index, and the master array is divided by it.
 */
module Aggregator {

  /** The sum of the values at index `i` over the windows long enough to have one. */
  function SumAt(ws: seq<seq<real>>, i: nat): real {
    if |ws| == 0 then 0.0
    else
      var w := ws[|ws| - 1];
      SumAt(ws[..|ws| - 1], i) + (if i < |w| then w[i] else 0.0)
  }

  /** The number of windows long enough to have a value at index `i`. */
  function CountAt(ws: seq<seq<real>>, i: nat): nat {
    if |ws| == 0 then 0
    else CountAt(ws[..|ws| - 1], i) + (if i < |ws[|ws| - 1]| then 1 else 0)
  }

  lemma {:induction false} SumConcat(a: seq<seq<real>>, b: seq<seq<real>>, i: nat)
    ensures SumAt(a + b, i) == SumAt(a, i) + SumAt(b, i)
    ensures CountAt(a + b, i) == CountAt(a, i) + CountAt(b, i)
    decreases |b|
  {
    if |b| == 0 {
      assert a + b == a;
    } else {
      assert (a + b)[..|a + b| - 1] == a + b[..|b| - 1];
      SumConcat(a, b[..|b| - 1], i);
    }
  }

  /**
   * Accumulation does not depend on window order: the windows of two groups
   * give the same sums and counters whichever group is added first, so the
   * windows may be processed independently and reduced at the end.
   */
  lemma WindowOrder(a: seq<seq<real>>, b: seq<seq<real>>, i: nat)
    ensures SumAt(a + b, i) == SumAt(b + a, i)
    ensures CountAt(a + b, i) == CountAt(b + a, i)
  {
    SumConcat(a, b, i);
    SumConcat(b, a, i);
  }

  /**
   * Accumulation does not depend on the order of the windows at all: any
   * permutation of them gives the same sums and counters.
   */
  lemma {:induction false} AnyWindowOrder(a: seq<seq<real>>, b: seq<seq<real>>, i: nat)
    requires multiset(a) == multiset(b)
    ensures SumAt(a, i) == SumAt(b, i)
    ensures CountAt(a, i) == CountAt(b, i)
    decreases |a|
  {
    if |a| == 0 {
      assert |b| == |multiset(b)| == 0;
    } else {
      var x, init := a[|a| - 1], a[..|a| - 1];
      assert a == init + [x];
      assert x in multiset(a);
      var j :| 0 <= j < |b| && b[j] == x;
      var front, back := b[..j], b[j + 1..];
      assert b == front + [x] + back;
      RemoveOne(init, x, front, back);
      AnyWindowOrder(init, front + back, i);
      MoveLast(init, front, back, x, i);
    }
  }

  /** Taking the same element out of two equal multisets leaves equal multisets. */
  lemma RemoveOne<T>(init: seq<T>, x: T, front: seq<T>, back: seq<T>)
    requires multiset(init + [x]) == multiset(front + [x] + back)
    ensures multiset(init) == multiset(front + back)
  {
    assert multiset(init + [x]) == multiset(init) + multiset{x};
    assert multiset(front + [x] + back) == multiset(front + back) + multiset{x};
    assert multiset(init) == multiset(init) + multiset{x} - multiset{x};
    assert multiset(front + back) == multiset(front + back) + multiset{x} - multiset{x};
  }

  /** Moving one window to the end changes no sum or counter. */
  lemma MoveLast(init: seq<seq<real>>, front: seq<seq<real>>, back: seq<seq<real>>, x: seq<real>, i: nat)
    requires SumAt(init, i) == SumAt(front + back, i) && CountAt(init, i) == CountAt(front + back, i)
    ensures SumAt(init + [x], i) == SumAt(front + [x] + back, i)
    ensures CountAt(init + [x], i) == CountAt(front + [x] + back, i)
  {
    assert [x][..0] == [];
    SumConcat(front + [x], back, i);
    SumConcat(front, [x], i);
    SumConcat(front, back, i);
    SumConcat(init, [x], i);
  }

  /** With every value in [0, 1], the sum at an index lies between 0 and the counter there. */
  lemma {:induction false} SumWithinCount(ws: seq<seq<real>>, i: nat)
    requires forall k, j :: 0 <= k < |ws| && 0 <= j < |ws[k]| ==> 0.0 <= ws[k][j] <= 1.0
    ensures 0.0 <= SumAt(ws, i) <= CountAt(ws, i) as real
  {
    if |ws| > 0 {
      SumWithinCount(ws[..|ws| - 1], i);
    }
  }

  /** The first window covers every index below its length. */
  lemma {:induction false} FirstWindowCounts(ws: seq<seq<real>>, i: nat)
    requires |ws| > 0 && i < |ws[0]|
    ensures CountAt(ws, i) >= 1
  {
    if |ws| > 1 {
      FirstWindowCounts(ws[..|ws| - 1], i);
    }
  }

  /**
   * The averaged value at an index: the mean of the windows' values there,
   * which lies in [0, 1] when all window values do.
   */
  lemma MeanInUnit(ws: seq<seq<real>>, i: nat)
    requires CountAt(ws, i) >= 1
    requires forall k, j :: 0 <= k < |ws| && 0 <= j < |ws[k]| ==> 0.0 <= ws[k][j] <= 1.0
    ensures 0.0 <= SumAt(ws, i) / CountAt(ws, i) as real <= 1.0
  {
    SumWithinCount(ws, i);
  }

  /**
   * `master_results[:nresults] += results; counter[:nresults] += 1.0` for
   * each window, then `master_results /= counter`. The master array is as
   * long as the first window; no window may be longer. Every counter is at
   * least one, and each entry is the mean over the windows that reach it.
   */
  method Accumulate(ws: seq<seq<real>>, n: nat) returns (master: seq<real>)
    requires |ws| > 0 && |ws[0]| == n
    requires forall k :: 0 <= k < |ws| ==> |ws[k]| <= n
    ensures |master| == n
    ensures forall i :: 0 <= i < n ==> CountAt(ws, i) >= 1 && master[i] == SumAt(ws, i) / CountAt(ws, i) as real
  {
    var sum: seq<real> := seq(n, _ => 0.0);
    var counter: seq<nat> := seq(n, _ => 0);
    var k := 0;
    while k < |ws|
      invariant 0 <= k <= |ws|
      invariant |sum| == |counter| == n
      invariant forall i :: 0 <= i < n ==> sum[i] == SumAt(ws[..k], i) && counter[i] == CountAt(ws[..k], i)
    {
      var w := ws[k];
      assert ws[..k + 1][..k] == ws[..k] && ws[..k + 1][k] == w;
      sum := seq(n, i requires 0 <= i < n => if i < |w| then sum[i] + w[i] else sum[i]);
      counter := seq(n, i requires 0 <= i < n => if i < |w| then counter[i] + 1 else counter[i]);
      k := k + 1;
    }
    assert ws[..k] == ws;
    forall i | 0 <= i < n
      ensures counter[i] >= 1
    {
      FirstWindowCounts(ws, i);
    }
    master := seq(n, i requires 0 <= i < n => sum[i] / counter[i] as real);
  }
}
