/**
 * The survival tracker of one window, as pure functions: which tracked
 * candidates are still bonded at a sampled frame, how the tracked set is
 * pruned under each lifetime rule, and the per-frame counts of a whole window.
 */
module Survival {
  import opened Wrappers
  import opened Bonds

  /** The lifetime definition (`bond_type`). */
  datatype Mode = Continuous | Intermittent

  /**
   * A tracked candidate: its pair (one entry of `hidx` and of `aidx`) and the
   * time since it was last seen bonded (its entry of `count`).
   */
  datatype Cand = Cand(pair: Pair, gone: real)

  /**
   * How a window prunes: the mode, the optional `time_cut`, and the time that
   * passes between two samples, `skip * dt`.
   */
  datatype Rule = Rule(mode: Mode, timeCut: Option<real>, lapse: real)

  /** Intermittent mode with a truthy `time_cut` (present and non-zero). */
  predicate CutActive(rule: Rule) {
    rule.mode == Intermittent && rule.timeCut.Some? && rule.timeCut.value != 0.0
  }

  /** The candidate passes both geometric criteria at frame `f`. */
  predicate Survives(bonded: Bonded, f: nat, c: Cand) {
    bonded(f, c.pair.h, c.pair.a)
  }

  /** `winners.sum()`: how many tracked candidates are bonded at frame `f`. */
  function Winners(bonded: Bonded, f: nat, tr: seq<Cand>): (n: nat)
    ensures n <= |tr|
  {
    if |tr| == 0 then 0
    else Winners(bonded, f, tr[..|tr| - 1]) + (if Survives(bonded, f, tr[|tr| - 1]) then 1 else 0)
  }

  /** All tracked candidates bonded: the count is the tracked size; none bonded: it is 0. */
  lemma {:induction false} WinnersExtremes(bonded: Bonded, f: nat, tr: seq<Cand>)
    ensures (forall c :: c in tr ==> Survives(bonded, f, c)) ==> Winners(bonded, f, tr) == |tr|
    ensures (forall c :: c in tr ==> !Survives(bonded, f, c)) ==> Winners(bonded, f, tr) == 0
  {
    if |tr| > 0 {
      var init := tr[..|tr| - 1];
      assert forall c :: c in init ==> c in tr;
      assert tr[|tr| - 1] in tr;
      WinnersExtremes(bonded, f, init);
    }
  }

  /** The forgiveness counter after frame `f`: reset on success, advanced by `skip * dt` on failure. */
  function Aged(rule: Rule, bonded: Bonded, f: nat, c: Cand): Cand {
    Cand(c.pair, if Survives(bonded, f, c) then 0.0 else c.gone + rule.lapse)
  }

  /** What becomes of one tracked candidate after frame `f`: kept (possibly aged) or dropped. */
  function Next(rule: Rule, bonded: Bonded, f: nat, c: Cand): seq<Cand> {
    match rule.mode
    case Continuous => if Survives(bonded, f, c) then [c] else []
    case Intermittent =>
      if CutActive(rule) then
        var aged := Aged(rule, bonded, f, c);
        if aged.gone < rule.timeCut.value then [aged] else []
      else [c]
  }

  /**
   * The fate of one candidate under each rule: at most one survivor, with the
   * same pair; continuous mode keeps it unchanged exactly when bonded;
   * intermittent mode without a cut keeps it unchanged; with a positive cut a
   * bonded candidate stays with a cleared counter, and a broken one whose
   * counter reaches the cut is dropped.
   */
  lemma NextFate(rule: Rule, bonded: Bonded, f: nat, c: Cand)
    ensures var r := Next(rule, bonded, f, c);
      && |r| <= 1 && (|r| == 1 ==> r[0].pair == c.pair)
      && (rule.mode == Continuous ==> (|r| == 1 <==> Survives(bonded, f, c)) && (|r| == 1 ==> r[0] == c))
      && (rule.mode == Intermittent && !CutActive(rule) ==> r == [c])
      && (CutActive(rule) && rule.timeCut.value > 0.0 && Survives(bonded, f, c) ==> r == [Cand(c.pair, 0.0)])
      && (CutActive(rule) && !Survives(bonded, f, c) && c.gone + rule.lapse >= rule.timeCut.value ==> r == [])
  {
  }

  /** The tracked set after frame `f`, compacted in order (numpy boolean-mask indexing). */
  function Prune(rule: Rule, bonded: Bonded, f: nat, tr: seq<Cand>): (r: seq<Cand>)
    ensures |r| <= |tr|
  {
    if |tr| == 0 then []
    else Prune(rule, bonded, f, tr[..|tr| - 1]) + Next(rule, bonded, f, tr[|tr| - 1])
  }

  function Zeros(n: nat): (r: seq<nat>)
    ensures |r| == n
  {
    seq(n, _ => 0)
  }

  /**
   * The counts of one window sampled at frames `fs`, starting from the
   * tracked set `tr`: each entry is the number of tracked candidates bonded
   * at that frame; once pruning empties the tracked set the walk stops and the
   * remaining entries keep their initial zero. Every count is bounded by the
   * size of the starting set.
   */
  function Track(rule: Rule, bonded: Bonded, tr: seq<Cand>, fs: seq<nat>): (r: seq<nat>)
    ensures |r| == |fs|
    ensures forall i :: 0 <= i < |r| ==> r[i] <= |tr|
    decreases |fs|
  {
    if |fs| == 0 then []
    else
      var next := Prune(rule, bonded, fs[0], tr);
      [Winners(bonded, fs[0], tr)] + (if |next| == 0 then Zeros(|fs| - 1) else Track(rule, bonded, next, fs[1..]))
  }

  /** The tracked set built from a seed: every counter starts at zero. */
  function Initial(seed: seq<Pair>): (r: seq<Cand>)
    ensures |r| == |seed|
    ensures PairsOf(r) == seed
    ensures forall k :: 0 <= k < |r| ==> r[k].gone == 0.0
  {
    seq(|seed|, k requires 0 <= k < |seed| => Cand(seed[k], 0.0))
  }

  function PairsOf(tr: seq<Cand>): (r: seq<Pair>)
    ensures |r| == |tr|
  {
    seq(|tr|, k requires 0 <= k < |tr| => tr[k].pair)
  }

  /** The tracked set before sample `i`, had the walk never stopped early. */
  function StateAt(rule: Rule, bonded: Bonded, tr: seq<Cand>, fs: seq<nat>, i: nat): (r: seq<Cand>)
    requires i <= |fs|
    ensures |r| <= |tr|
    decreases i
  {
    if i == 0 then tr else Prune(rule, bonded, fs[i - 1], StateAt(rule, bonded, tr, fs, i - 1))
  }

  // ---------------------------------------------------------------------------
  // Pruning, one step

  lemma {:induction false} PruneConcat(rule: Rule, bonded: Bonded, f: nat, xs: seq<Cand>, ys: seq<Cand>)
    ensures Prune(rule, bonded, f, xs + ys) == Prune(rule, bonded, f, xs) + Prune(rule, bonded, f, ys)
    decreases |ys|
  {
    if |ys| == 0 {
      assert xs + ys == xs;
    } else {
      var init := ys[..|ys| - 1];
      PruneConcat(rule, bonded, f, xs, init);
      PruneConcatLink(rule, bonded, f, xs, ys);
    }
  }

  /** The inductive step of `PruneConcat`: peel the last element of `ys`. */
  lemma PruneConcatLink(rule: Rule, bonded: Bonded, f: nat, xs: seq<Cand>, ys: seq<Cand>)
    requires |ys| > 0
    requires var init := ys[..|ys| - 1];
      Prune(rule, bonded, f, xs + init) == Prune(rule, bonded, f, xs) + Prune(rule, bonded, f, init)
    ensures Prune(rule, bonded, f, xs + ys) == Prune(rule, bonded, f, xs) + Prune(rule, bonded, f, ys)
  {
    var init, last := ys[..|ys| - 1], ys[|ys| - 1];
    var tail := Next(rule, bonded, f, last);
    ConcatLast(xs, ys);
    assert Prune(rule, bonded, f, xs + ys) == Prune(rule, bonded, f, xs + init) + tail;
    ConcatAssoc(Prune(rule, bonded, f, xs), Prune(rule, bonded, f, init), tail);
  }

  /** The last element of `xs + ys` is that of a non-empty `ys`, and the rest is `xs` and the rest of `ys`. */
  lemma ConcatLast(xs: seq<Cand>, ys: seq<Cand>)
    requires |ys| > 0
    ensures (xs + ys)[..|xs + ys| - 1] == xs + ys[..|ys| - 1]
    ensures (xs + ys)[|xs + ys| - 1] == ys[|ys| - 1]
  {
    assert (xs + ys)[..|xs + ys| - 1] == xs + ys[..|ys| - 1];
  }

  lemma ConcatAssoc(a: seq<Cand>, b: seq<Cand>, c: seq<Cand>)
    ensures (a + b) + c == a + (b + c)
  {
  }

  lemma PairsOfConcat(xs: seq<Cand>, ys: seq<Cand>)
    ensures PairsOf(xs + ys) == PairsOf(xs) + PairsOf(ys)
  {}

  /**
   * Pruning keeps the tracked pairs an order-preserving subsequence: the
   * result's pairs all come from the input and stay in row-major order.
   */
  lemma {:induction false} PruneKeepsOrder(rule: Rule, bonded: Bonded, f: nat, tr: seq<Cand>)
    requires Ordered(PairsOf(tr))
    ensures Ordered(PairsOf(Prune(rule, bonded, f, tr)))
    ensures forall c :: c in Prune(rule, bonded, f, tr) ==> c.pair in PairsOf(tr)
  {
    if |tr| > 0 {
      var init := tr[..|tr| - 1];
      assert PairsOf(init) == PairsOf(tr)[..|tr| - 1];
      PruneKeepsOrder(rule, bonded, f, init);
      PruneMembersLink(rule, bonded, f, tr);
      PruneOrderLink(rule, bonded, f, tr);
    }
  }

  /** The inductive step of `PruneKeepsOrder`, membership half. */
  lemma PruneMembersLink(rule: Rule, bonded: Bonded, f: nat, tr: seq<Cand>)
    requires |tr| > 0
    requires forall c :: c in Prune(rule, bonded, f, tr[..|tr| - 1]) ==> c.pair in PairsOf(tr[..|tr| - 1])
    ensures forall c :: c in Prune(rule, bonded, f, tr) ==> c.pair in PairsOf(tr)
  {
    var init, last := tr[..|tr| - 1], tr[|tr| - 1];
    var front, back := Prune(rule, bonded, f, init), Next(rule, bonded, f, last);
    assert Prune(rule, bonded, f, tr) == front + back;
    assert PairsOf(init) == PairsOf(tr)[..|tr| - 1];
    assert PairsOf(tr)[|tr| - 1] == last.pair;
    NextKeepsPair(rule, bonded, f, last);
    forall c: Cand | c in front + back
      ensures c.pair in PairsOf(tr)
    {
      if c in front {
        TakeMember(PairsOf(tr), |tr| - 1, c.pair);
      }
    }
  }

  /** A member of a prefix is a member of the whole. */
  lemma TakeMember(s: seq<Pair>, n: nat, x: Pair)
    requires n <= |s| && x in s[..n]
    ensures x in s
  {
    var k :| 0 <= k < n && s[..n][k] == x;
    assert s[k] == x;
  }

  /** Whatever `Next` keeps of a candidate has its pair. */
  lemma NextKeepsPair(rule: Rule, bonded: Bonded, f: nat, c: Cand)
    ensures forall d :: d in Next(rule, bonded, f, c) ==> d.pair == c.pair
  {
  }

  /** The inductive step of `PruneKeepsOrder`, order half. */
  lemma PruneOrderLink(rule: Rule, bonded: Bonded, f: nat, tr: seq<Cand>)
    requires |tr| > 0 && Ordered(PairsOf(tr))
    requires Ordered(PairsOf(Prune(rule, bonded, f, tr[..|tr| - 1])))
    requires forall c :: c in Prune(rule, bonded, f, tr[..|tr| - 1]) ==> c.pair in PairsOf(tr[..|tr| - 1])
    ensures Ordered(PairsOf(Prune(rule, bonded, f, tr)))
  {
    var init, last := tr[..|tr| - 1], tr[|tr| - 1];
    var front, back := Prune(rule, bonded, f, init), Next(rule, bonded, f, last);
    assert Prune(rule, bonded, f, tr) == front + back;
    PairsOfConcat(front, back);
    PairsWithin(front, PairsOf(init));
    NextKeepsPair(rule, bonded, f, last);
    PairsWithin(back, [last.pair]);
    forall x, y | x in PairsOf(front) && y in PairsOf(back)
      ensures Before(x, y)
    {
      BeforeLast(tr, x);
    }
    assert |PairsOf(back)| <= 1;
    OrderedConcat(PairsOf(front), PairsOf(back));
  }

  /** Pairs of candidates whose pairs all lie in `ps` lie in `ps`. */
  lemma PairsWithin(cs: seq<Cand>, ps: seq<Pair>)
    requires forall c :: c in cs ==> c.pair in ps
    ensures forall x :: x in PairsOf(cs) ==> x in ps
  {
    forall x | x in PairsOf(cs)
      ensures x in ps
    {
      var k :| 0 <= k < |cs| && PairsOf(cs)[k] == x;
      assert cs[k] in cs;
    }
  }

  /** In an ordered tracked set every earlier pair comes before the last one. */
  lemma BeforeLast(tr: seq<Cand>, x: Pair)
    requires |tr| > 0 && Ordered(PairsOf(tr))
    requires x in PairsOf(tr[..|tr| - 1])
    ensures Before(x, tr[|tr| - 1].pair)
  {
    var m :| 0 <= m < |tr| - 1 && PairsOf(tr[..|tr| - 1])[m] == x;
    assert PairsOf(tr)[m] == x && PairsOf(tr)[|tr| - 1] == tr[|tr| - 1].pair;
  }

  /**
   * The forgiveness rule (intermittent mode with a truthy `time_cut`): a
   * candidate bonded at `f` has its counter reset to zero, any other has it
   * advanced by `skip * dt`; an aged candidate is kept exactly when its
   * counter is below `time_cut`, so it is dropped exactly when the counter
   * reaches `time_cut`; and with a positive `time_cut` a candidate bonded at
   * `f` is never dropped.
   */
  lemma {:induction false} CutStep(rule: Rule, bonded: Bonded, f: nat, tr: seq<Cand>)
    requires CutActive(rule)
    ensures var r := Prune(rule, bonded, f, tr);
      && (forall c :: c in tr ==> Aged(rule, bonded, f, c).pair == c.pair)
      && (forall c :: c in tr && Survives(bonded, f, c) ==> Aged(rule, bonded, f, c).gone == 0.0)
      && (forall c :: c in tr && !Survives(bonded, f, c) ==> Aged(rule, bonded, f, c).gone == c.gone + rule.lapse)
      && (forall c :: c in r ==> c.gone < rule.timeCut.value)
      && (forall c :: c in tr ==> (Aged(rule, bonded, f, c) in r <==> Aged(rule, bonded, f, c).gone < rule.timeCut.value))
      && (rule.timeCut.value > 0.0 ==>
            forall c :: c in tr && Survives(bonded, f, c) ==> Aged(rule, bonded, f, c) in r)
  {
    if |tr| > 0 {
      var init := tr[..|tr| - 1];
      CutStep(rule, bonded, f, init);
      assert tr == init + [tr[|tr| - 1]];
    }
  }

  // ---------------------------------------------------------------------------
  // Tracked states over a window

  lemma {:induction false} StateShift(rule: Rule, bonded: Bonded, tr: seq<Cand>, fs: seq<nat>, i: nat)
    requires 1 <= i <= |fs|
    ensures StateAt(rule, bonded, tr, fs, i) == StateAt(rule, bonded, Prune(rule, bonded, fs[0], tr), fs[1..], i - 1)
    decreases i
  {
    if i == 1 {
      StateShiftBase(rule, bonded, tr, fs);
    } else {
      StateShift(rule, bonded, tr, fs, i - 1);
      StateShiftLink(rule, bonded, tr, fs, i);
    }
  }

  /** The first step of `StateShift`: after one sample both sides are the first prune. */
  lemma StateShiftBase(rule: Rule, bonded: Bonded, tr: seq<Cand>, fs: seq<nat>)
    requires 1 <= |fs|
    ensures StateAt(rule, bonded, tr, fs, 1) == StateAt(rule, bonded, Prune(rule, bonded, fs[0], tr), fs[1..], 0)
  {
    assert StateAt(rule, bonded, tr, fs, 0) == tr;
  }

  /** The inductive step of `StateShift`: one more prune on both sides. */
  lemma StateShiftLink(rule: Rule, bonded: Bonded, tr: seq<Cand>, fs: seq<nat>, i: nat)
    requires 2 <= i <= |fs|
    requires StateAt(rule, bonded, tr, fs, i - 1) == StateAt(rule, bonded, Prune(rule, bonded, fs[0], tr), fs[1..], i - 2)
    ensures StateAt(rule, bonded, tr, fs, i) == StateAt(rule, bonded, Prune(rule, bonded, fs[0], tr), fs[1..], i - 1)
  {
    assert fs[1..][i - 2] == fs[i - 1];
  }

  /**
   * Each count of a window is the number of candidates of the tracked set at
   * that sample that are bonded at the sampled frame; the early stop changes
   * nothing, since an empty set has no winners.
   */
  lemma {:induction false} TrackCountsState(rule: Rule, bonded: Bonded, tr: seq<Cand>, fs: seq<nat>, i: nat)
    requires i < |fs|
    ensures Track(rule, bonded, tr, fs)[i] == Winners(bonded, fs[i], StateAt(rule, bonded, tr, fs, i))
    decreases |fs|
  {
    if i > 0 {
      var next := Prune(rule, bonded, fs[0], tr);
      if |next| > 0 {
        TrackCountsState(rule, bonded, next, fs[1..], i - 1);
      }
      TrackCountsLink(rule, bonded, tr, fs, i);
    }
  }

  /** The inductive step of `TrackCountsState`: after the first sample the walk restarts from the pruned set. */
  lemma TrackCountsLink(rule: Rule, bonded: Bonded, tr: seq<Cand>, fs: seq<nat>, i: nat)
    requires 0 < i < |fs|
    requires var next := Prune(rule, bonded, fs[0], tr);
      |next| > 0 ==> Track(rule, bonded, next, fs[1..])[i - 1] == Winners(bonded, fs[1..][i - 1], StateAt(rule, bonded, next, fs[1..], i - 1))
    ensures Track(rule, bonded, tr, fs)[i] == Winners(bonded, fs[i], StateAt(rule, bonded, tr, fs, i))
  {
    if |Prune(rule, bonded, fs[0], tr)| == 0 {
      TrackCountsStopped(rule, bonded, tr, fs, i);
    } else {
      TrackTail(rule, bonded, tr, fs, i);
      StateShift(rule, bonded, tr, fs, i);
    }
  }

  /** Once the first sample empties the tracked set, every later count and every later winner count is zero. */
  lemma TrackCountsStopped(rule: Rule, bonded: Bonded, tr: seq<Cand>, fs: seq<nat>, i: nat)
    requires 0 < i < |fs| && |Prune(rule, bonded, fs[0], tr)| == 0
    ensures Track(rule, bonded, tr, fs)[i] == 0
    ensures Winners(bonded, fs[i], StateAt(rule, bonded, tr, fs, i)) == 0
  {
    var next := Prune(rule, bonded, fs[0], tr);
    TrackTail(rule, bonded, tr, fs, i);
    StateShift(rule, bonded, tr, fs, i);
    WinnersOfNone(bonded, fs[i], StateAt(rule, bonded, tr, fs, i));
  }

  lemma WinnersOfNone(bonded: Bonded, f: nat, tr: seq<Cand>)
    requires |tr| == 0
    ensures Winners(bonded, f, tr) == 0
  {
  }

  lemma TrackTail(rule: Rule, bonded: Bonded, tr: seq<Cand>, fs: seq<nat>, i: nat)
    requires 0 < i < |fs|
    ensures var next := Prune(rule, bonded, fs[0], tr);
      && fs[1..][i - 1] == fs[i]
      && Track(rule, bonded, tr, fs)[i] == (if |next| == 0 then 0 else Track(rule, bonded, next, fs[1..])[i - 1])
  {
  }

  /** `s` keeps the pairs of `tr` in row-major order, and draws every pair from `tr`. */
  predicate Descends(s: seq<Cand>, tr: seq<Cand>) {
    Ordered(PairsOf(s)) && forall c :: c in s ==> c.pair in PairsOf(tr)
  }

  /**
   * Every tracked set of a window is an order-preserving subsequence of the
   * starting set (hence of the seed).
   */
  lemma {:induction false} StateInvariant(rule: Rule, bonded: Bonded, tr: seq<Cand>, fs: seq<nat>, i: nat)
    requires i <= |fs|
    requires Ordered(PairsOf(tr))
    ensures Descends(StateAt(rule, bonded, tr, fs, i), tr)
    decreases i
  {
    if i > 0 {
      StateInvariant(rule, bonded, tr, fs, i - 1);
      StateInvariantLink(rule, bonded, tr, fs, i);
    } else {
      PairsOfMembers(tr);
    }
  }

  /** The inductive step of `StateInvariant`. */
  lemma StateInvariantLink(rule: Rule, bonded: Bonded, tr: seq<Cand>, fs: seq<nat>, i: nat)
    requires 0 < i <= |fs|
    requires Descends(StateAt(rule, bonded, tr, fs, i - 1), tr)
    ensures Descends(StateAt(rule, bonded, tr, fs, i), tr)
  {
    var prev := StateAt(rule, bonded, tr, fs, i - 1);
    PruneKeepsOrder(rule, bonded, fs[i - 1], prev);
    PairsTrans(Prune(rule, bonded, fs[i - 1], prev), prev, PairsOf(tr));
  }

  /** Every candidate's pair is among the pairs of its set. */
  lemma PairsOfMembers(tr: seq<Cand>)
    ensures forall c :: c in tr ==> c.pair in PairsOf(tr)
  {
    forall c | c in tr
      ensures c.pair in PairsOf(tr)
    {
      var k :| 0 <= k < |tr| && tr[k] == c;
      assert PairsOf(tr)[k] == c.pair;
    }
  }

  /** Drawing pairs from a set whose pairs are drawn from `ps` draws them from `ps`. */
  lemma PairsTrans(cur: seq<Cand>, prev: seq<Cand>, ps: seq<Pair>)
    requires forall c :: c in cur ==> c.pair in PairsOf(prev)
    requires forall d :: d in prev ==> d.pair in ps
    ensures forall c :: c in cur ==> c.pair in ps
  {
    forall c | c in cur
      ensures c.pair in ps
    {
      var m :| 0 <= m < |prev| && PairsOf(prev)[m] == c.pair;
      assert prev[m] in prev;
    }
  }

  // ---------------------------------------------------------------------------
  // Continuous lifetime

  /** The candidate is bonded at every frame of `fs`. */
  predicate BondedAll(bonded: Bonded, fs: seq<nat>, c: Cand) {
    forall j :: 0 <= j < |fs| ==> Survives(bonded, fs[j], c)
  }

  /** The candidates of `tr` bonded at every frame of `fs`, in their order in `tr`. */
  function Throughout(bonded: Bonded, fs: seq<nat>, tr: seq<Cand>): (r: seq<Cand>)
    ensures |r| <= |tr|
  {
    if |tr| == 0 then []
    else Throughout(bonded, fs, tr[..|tr| - 1]) + (if BondedAll(bonded, fs, tr[|tr| - 1]) then [tr[|tr| - 1]] else [])
  }

  /** `Throughout` keeps exactly the candidates bonded at every frame of `fs`. */
  lemma {:induction false} ThroughoutMembers(bonded: Bonded, fs: seq<nat>, tr: seq<Cand>)
    ensures forall c :: c in Throughout(bonded, fs, tr) <==> c in tr && BondedAll(bonded, fs, c)
  {
    if |tr| > 0 {
      var init, last := tr[..|tr| - 1], tr[|tr| - 1];
      ThroughoutMembers(bonded, fs, init);
      assert tr == init + [last];
    }
  }

  lemma {:induction false} ThroughoutNothing(bonded: Bonded, tr: seq<Cand>)
    ensures Throughout(bonded, [], tr) == tr
  {
    if |tr| > 0 {
      var init, last := tr[..|tr| - 1], tr[|tr| - 1];
      ThroughoutNothing(bonded, init);
      assert BondedAll(bonded, [], last);
      assert Throughout(bonded, [], tr) == Throughout(bonded, [], init) + [last];
      assert tr == init + [last];
    }
  }

  /** One continuous pruning step keeps exactly the candidates also bonded at the new frame. */
  lemma {:induction false} ContinuousStep(rule: Rule, bonded: Bonded, f: nat, fs: seq<nat>, tr: seq<Cand>)
    requires rule.mode == Continuous
    ensures Prune(rule, bonded, f, Throughout(bonded, fs, tr)) == Throughout(bonded, fs + [f], tr)
  {
    if |tr| > 0 {
      var init := tr[..|tr| - 1];
      var c := tr[|tr| - 1];
      var last := if BondedAll(bonded, fs, c) then [c] else [];
      ContinuousStep(rule, bonded, f, fs, init);
      PruneConcat(rule, bonded, f, Throughout(bonded, fs, init), last);
      BondedAllSnoc(bonded, fs, f, c);
      PruneSingle(rule, bonded, f, c);
    }
  }

  /** Bonded at every frame of `fs + [f]` means bonded at every frame of `fs` and at `f`. */
  lemma BondedAllSnoc(bonded: Bonded, fs: seq<nat>, f: nat, c: Cand)
    ensures BondedAll(bonded, fs + [f], c) <==> BondedAll(bonded, fs, c) && Survives(bonded, f, c)
  {
    assert forall j :: 0 <= j < |fs| ==> (fs + [f])[j] == fs[j];
    assert (fs + [f])[|fs|] == f;
  }

  /** Pruning a single candidate is its `Next`. */
  lemma PruneSingle(rule: Rule, bonded: Bonded, f: nat, c: Cand)
    ensures Prune(rule, bonded, f, [c]) == Next(rule, bonded, f, c)
  {
    assert [c][..0] == [];
  }

  /** Extending a prefix by the next element gives the next prefix. */
  lemma PrefixSnoc<T>(fs: seq<T>, i: nat)
    requires i < |fs|
    ensures fs[..i] + [fs[i]] == fs[..i + 1]
  {
  }

  /** Under the continuous rule the tracked set before sample `i` is the starting set bonded at all earlier samples. */
  lemma {:induction false} ContinuousState(rule: Rule, bonded: Bonded, tr: seq<Cand>, fs: seq<nat>, i: nat)
    requires rule.mode == Continuous && i <= |fs|
    ensures StateAt(rule, bonded, tr, fs, i) == Throughout(bonded, fs[..i], tr)
    decreases i
  {
    if i == 0 {
      ThroughoutNothing(bonded, tr);
      assert fs[..0] == [];
    } else {
      ContinuousState(rule, bonded, tr, fs, i - 1);
      ContinuousLink(rule, bonded, tr, fs, i);
    }
  }

  /** The inductive step of `ContinuousState`. */
  lemma ContinuousLink(rule: Rule, bonded: Bonded, tr: seq<Cand>, fs: seq<nat>, i: nat)
    requires rule.mode == Continuous && 0 < i <= |fs|
    requires StateAt(rule, bonded, tr, fs, i - 1) == Throughout(bonded, fs[..i - 1], tr)
    ensures StateAt(rule, bonded, tr, fs, i) == Throughout(bonded, fs[..i], tr)
  {
    ContinuousStep(rule, bonded, fs[i - 1], fs[..i - 1], tr);
    PrefixSnoc(fs, i - 1);
  }

  lemma {:induction false} WinnersArePruned(rule: Rule, bonded: Bonded, f: nat, tr: seq<Cand>)
    requires rule.mode == Continuous
    ensures Winners(bonded, f, tr) == |Prune(rule, bonded, f, tr)|
  {
    if |tr| > 0 {
      WinnersArePruned(rule, bonded, f, tr[..|tr| - 1]);
    }
  }

  /**
   * Continuous lifetime: count `i` is the number of starting candidates
   * bonded at every sampled frame `0 .. i`.
   */
  lemma {:induction false} ContinuousCount(rule: Rule, bonded: Bonded, tr: seq<Cand>, fs: seq<nat>, i: nat)
    requires rule.mode == Continuous && i < |fs|
    ensures Track(rule, bonded, tr, fs)[i] == |Throughout(bonded, fs[..i + 1], tr)|
  {
    var before := Throughout(bonded, fs[..i], tr);
    var after := Throughout(bonded, fs[..i + 1], tr);
    TrackCountsState(rule, bonded, tr, fs, i);
    ContinuousState(rule, bonded, tr, fs, i);
    assert Track(rule, bonded, tr, fs)[i] == Winners(bonded, fs[i], before);
    WinnersArePruned(rule, bonded, fs[i], before);
    ContinuousStep(rule, bonded, fs[i], fs[..i], tr);
    PrefixSnoc(fs, i);
    assert Prune(rule, bonded, fs[i], before) == after;
  }

  /** Continuous lifetime: the counts never increase. */
  lemma {:induction false} ContinuousNonIncreasing(rule: Rule, bonded: Bonded, tr: seq<Cand>, fs: seq<nat>, i: nat)
    requires rule.mode == Continuous && i + 1 < |fs|
    ensures Track(rule, bonded, tr, fs)[i + 1] <= Track(rule, bonded, tr, fs)[i]
  {
    var now := Throughout(bonded, fs[..i + 1], tr);
    var next := Throughout(bonded, fs[..i + 2], tr);
    ContinuousCount(rule, bonded, tr, fs, i);
    ContinuousCount(rule, bonded, tr, fs, i + 1);
    PrefixSnoc(fs, i + 1);
    ContinuousStep(rule, bonded, fs[i + 1], fs[..i + 1], tr);
    assert Prune(rule, bonded, fs[i + 1], now) == next;
    assert |next| <= |now|;
  }

  // ---------------------------------------------------------------------------
  // Intermittent lifetime without a forgiveness window

  lemma {:induction false} PruneKeepsAll(rule: Rule, bonded: Bonded, f: nat, tr: seq<Cand>)
    requires rule.mode == Intermittent && !CutActive(rule)
    ensures Prune(rule, bonded, f, tr) == tr
  {
    if |tr| > 0 {
      PruneKeepsAll(rule, bonded, f, tr[..|tr| - 1]);
      assert tr == tr[..|tr| - 1] + [tr[|tr| - 1]];
    }
  }

  lemma {:induction false} IntermittentState(rule: Rule, bonded: Bonded, tr: seq<Cand>, fs: seq<nat>, i: nat)
    requires rule.mode == Intermittent && !CutActive(rule) && i <= |fs|
    ensures StateAt(rule, bonded, tr, fs, i) == tr
    decreases i
  {
    if i > 0 {
      IntermittentState(rule, bonded, tr, fs, i - 1);
      IntermittentLink(rule, bonded, tr, fs, i);
    }
  }

  /** The inductive step of `IntermittentState`. */
  lemma IntermittentLink(rule: Rule, bonded: Bonded, tr: seq<Cand>, fs: seq<nat>, i: nat)
    requires rule.mode == Intermittent && !CutActive(rule) && 0 < i <= |fs|
    requires StateAt(rule, bonded, tr, fs, i - 1) == tr
    ensures StateAt(rule, bonded, tr, fs, i) == tr
  {
    PruneKeepsAll(rule, bonded, fs[i - 1], tr);
  }

  /**
   * Intermittent lifetime without `time_cut`: the tracked set never changes,
   * and count `i` is the number of starting candidates bonded at sample `i`.
   */
  lemma IntermittentCount(rule: Rule, bonded: Bonded, tr: seq<Cand>, fs: seq<nat>, i: nat)
    requires rule.mode == Intermittent && !CutActive(rule) && i < |fs|
    ensures StateAt(rule, bonded, tr, fs, i) == tr
    ensures Track(rule, bonded, tr, fs)[i] == Winners(bonded, fs[i], tr)
  {
    IntermittentState(rule, bonded, tr, fs, i);
    TrackCountsState(rule, bonded, tr, fs, i);
  }

  /**
   * `if self.time_cut` is a truthiness test: a cut of 0 tracks a window
   * exactly as no cut does.
   */
  lemma ZeroCutIsNoCut(bonded: Bonded, tr: seq<Cand>, fs: seq<nat>, lapse: real)
    ensures Track(Rule(Intermittent, Some(0.0), lapse), bonded, tr, fs) == Track(Rule(Intermittent, None, lapse), bonded, tr, fs)
  {
    var zero, none := Rule(Intermittent, Some(0.0), lapse), Rule(Intermittent, None, lapse);
    forall i | 0 <= i < |fs|
      ensures Track(zero, bonded, tr, fs)[i] == Track(none, bonded, tr, fs)[i]
    {
      IntermittentCount(zero, bonded, tr, fs, i);
      IntermittentCount(none, bonded, tr, fs, i);
    }
  }

  lemma {:induction false} ThroughoutAtMostWinners(bonded: Bonded, fs: seq<nat>, tr: seq<Cand>, j: nat)
    requires j < |fs|
    ensures |Throughout(bonded, fs, tr)| <= Winners(bonded, fs[j], tr)
  {
    if |tr| > 0 {
      ThroughoutAtMostWinners(bonded, fs, tr[..|tr| - 1], j);
    }
  }

  /**
   * From the same starting set and frames, the intermittent count (without
   * `time_cut`) is never below the continuous count.
   */
  lemma IntermittentDominates(cont: Rule, inter: Rule, bonded: Bonded, tr: seq<Cand>, fs: seq<nat>, i: nat)
    requires cont.mode == Continuous
    requires inter.mode == Intermittent && !CutActive(inter)
    requires i < |fs|
    ensures Track(cont, bonded, tr, fs)[i] <= Track(inter, bonded, tr, fs)[i]
  {
    ContinuousCount(cont, bonded, tr, fs, i);
    IntermittentCount(inter, bonded, tr, fs, i);
    ThroughoutAtMostWinners(bonded, fs[..i + 1], tr, i);
  }
}
