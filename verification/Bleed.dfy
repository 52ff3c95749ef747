/** What a run that was never halted cannot have lost. */
module Bleed {
  import opened Arith
  import opened History
  import opened Policy

  /** The policy said Continue after every event of the run. */
  ghost predicate NeverHalted(p: ReconcilePolicy, tl: Timeline) {
    forall i :: 1 <= i <= |tl| ==> !Halts(p, tl[..i])
  }

  // ---------------------------------------------------------------------
  // Every prefix of the pairs is the pairs of some prefix of the run.

  lemma {:induction false} PrefixWithPairs(tl: Timeline, j: nat) returns (i: nat)
    requires 1 <= j <= |Pairs(tl)|
    ensures 1 <= i <= |tl| && Pairs(tl[..i]) == Pairs(tl)[..j]
  {
    if j == |Pairs(tl)| {
      i := |tl|;
      assert tl[..i] == tl;
    } else {
      var front := tl[..|tl| - 1];
      i := PrefixWithPairs(front, j);
      assert front[..i] == tl[..i];
    }
  }

  lemma {:induction false} PrefixWithPositive(ps: seq<Pair>, j: nat) returns (i: nat)
    requires 1 <= j <= |Positive(ps)|
    ensures 1 <= i <= |ps| && Positive(ps[..i]) == Positive(ps)[..j]
  {
    if j == |Positive(ps)| {
      i := |ps|;
      assert ps[..i] == ps;
    } else {
      var front := ps[..|ps| - 1];
      i := PrefixWithPositive(front, j);
      assert front[..i] == ps[..i];
    }
  }

  lemma PrefixWithEligible(tl: Timeline, j: nat) returns (i: nat)
    requires 1 <= j <= |Eligible(tl)|
    ensures 1 <= i <= |tl| && Eligible(tl[..i]) == Eligible(tl)[..j]
  {
    var m := PrefixWithPositive(Pairs(tl), j);
    i := PrefixWithPairs(tl, m);
  }

  // ---------------------------------------------------------------------
  // One guard each: if no prefix of the window sequence trips, the whole is bounded.

  lemma VolumePass(c: VolumeWeightedConfig, qs: seq<Pair>)
    requires |qs| >= c.window && !VolumeTrips(c, qs)
    ensures var w := LastN(qs, c.window);
            TotalRealized(w) as real >= Scale(c.threshold, TotalPredicted(w) as real)
  {
  }

  lemma LastNSplit<T>(s: seq<T>, m: nat, k: nat)
    requires m + k <= |s|
    ensures LastN(s, m + k) == LastN(s[..|s| - k], m) + LastN(s, k)
  {
  }

  lemma VolumeBase(threshold: real, qs: seq<Pair>)
    ensures TotalRealized(LastN(qs, 0)) == TotalPredicted(LastN(qs, 0)) == 0
    ensures Scale(threshold, 0.0) == 0.0
  {
    ScaleAdd(threshold, 0.0, 0.0);
  }

  lemma {:induction false} VolumeBlocks(c: VolumeWeightedConfig, qs: seq<Pair>, blocks: nat)
    requires c.window > 0 && 0 <= Times(blocks, c.window) <= |qs|
    requires forall j :: c.window <= j <= |qs| ==> !VolumeTrips(c, qs[..j])
    ensures var tail := LastN(qs, Times(blocks, c.window));
            TotalRealized(tail) as real >= Scale(c.threshold, TotalPredicted(tail) as real)
    decreases blocks
  {
    hide Times, Scale, VolumeTrips;
    var n, k := |qs|, c.window;
    TimesStep(blocks, k);
    hide LastN, TotalRealized, TotalPredicted;
    if blocks == 0 {
      VolumeBase(c.threshold, qs);
    } else {
      TimesNonNegative(blocks - 1, k);
      var m := Times(blocks - 1, k);
      var front := qs[..n - k];
      assert forall j :: 0 <= j <= |front| ==> front[..j] == qs[..j];
      VolumeBlocks(c, front, blocks - 1);
      LastNSplit(qs, m, k);
      TotalRealizedAppend(LastN(front, m), LastN(qs, k));
      TotalPredictedAppend(LastN(front, m), LastN(qs, k));
      ScaleAdd(c.threshold, TotalPredicted(LastN(front, m)) as real, TotalPredicted(LastN(qs, k)) as real);
      assert qs[..n] == qs;
      VolumePass(c, qs);
    }
  }

  lemma DrawdownPass(c: DrawdownConfig, ps: seq<Pair>)
    requires |ps| >= c.window && !DrawdownTrips(c, ps)
    ensures Slippage(LastN(ps, c.window)) <= c.maxDrawdownLimit
  {
  }

  lemma {:induction false} DrawdownBlocks(c: DrawdownConfig, ps: seq<Pair>, blocks: nat)
    requires c.window > 0 && 0 <= Times(blocks, c.window) <= |ps|
    requires forall j :: c.window <= j <= |ps| ==> !DrawdownTrips(c, ps[..j])
    ensures Slippage(ps) <= Times(blocks, c.maxDrawdownLimit) + Slippage(ps[..|ps| - Times(blocks, c.window)])
    decreases blocks
  {
    hide Times, Slippage, DrawdownTrips;
    var n, k := |ps|, c.window;
    TimesStep(blocks, k);
    TimesStep(blocks, c.maxDrawdownLimit);
    assert ps[..n] == ps;
    if blocks > 0 {
      TimesNonNegative(blocks - 1, k);
      var m := Times(blocks - 1, k);
      var front, last := ps[..n - k], ps[n - k..];
      assert forall j :: 0 <= j <= |front| ==> front[..j] == ps[..j];
      DrawdownBlocks(c, front, blocks - 1);
      assert ps == front + last && LastN(ps, k) == last;
      SlippageAppend(front, last);
      DrawdownPass(c, ps);
    }
  }

  lemma GasLastBlock(c: RevertGasConfig, tl: Timeline)
    requires c.window > 0 && !GasTrips(c, tl)
    ensures GasBurned(tl[if |tl| <= c.window then 0 else |tl| - c.window..]) <= c.budgetLimit
  {
    hide GasBurned;
    assert tl[0..] == tl;
  }

  lemma {:induction false} GasBlocks(c: RevertGasConfig, tl: Timeline)
    requires c.window > 0
    requires forall i :: 1 <= i <= |tl| ==> !GasTrips(c, tl[..i])
    ensures GasBurned(tl) <= Times(CeilDiv(|tl|, c.window), c.budgetLimit)
    decreases |tl|
  {
    hide Times, CeilDiv, GasBurned, GasTrips;
    var k := c.window;
    if tl == [] {
      GasOfNone();
      TimesNonNegative(CeilDiv(0, k), c.budgetLimit);
    } else {
      var n := if |tl| <= k then 0 else |tl| - k;
      var front, last := tl[..n], tl[n..];
      forall i | 1 <= i <= |front| ensures !GasTrips(c, front[..i]) {
        assert front[..i] == tl[..i];
      }
      GasBlocks(c, front);
      assert tl == front + last && tl[..|tl|] == tl;
      GasBurnedAppend(front, last);
      GasLastBlock(c, tl);
      CeilDivStep(|tl|, k);
      TimesStep(CeilDiv(|tl|, k), c.budgetLimit);
    }
  }

  lemma RevertsSnoc(tl: Timeline, e: HistoryEntry)
    ensures |Reverts(tl + [e])| == |Reverts(tl)| + if e.RevertedTx? then 1 else 0
    ensures |Pairs(tl + [e])| == |Pairs(tl)| + if e.RevertedTx? then 0 else 1
    ensures TrailingReverts(tl + [e]) == if e.RevertedTx? then TrailingReverts(tl) + 1 else 0
  {
    assert (tl + [e])[..|tl + [e]| - 1] == tl;
  }

  lemma {:induction false} RevertsBounded(c: RevertBurstConfig, tl: Timeline)
    requires c.limit > 0
    requires forall i :: 1 <= i <= |tl| ==> !BurstTrips(c, tl[..i])
    ensures |Reverts(tl)| <= Times(c.limit - 1, |Pairs(tl)|) + TrailingReverts(tl)
    ensures TrailingReverts(tl) <= c.limit - 1
    decreases |tl|
  {
    hide Times, BurstTrips;
    if tl == [] {
      TimesNonNegative(c.limit - 1, 0);
    } else {
      var front, e := tl[..|tl| - 1], tl[|tl| - 1];
      assert forall i :: 0 <= i <= |front| ==> front[..i] == tl[..i];
      RevertsBounded(c, front);
      assert tl == front + [e] && tl[..|tl|] == tl;
      hide Reverts, Pairs, TrailingReverts;
      RevertsSnoc(front, e);
      BurstByCount(c, tl);
      TimesStepRight(c.limit - 1, |Pairs(front)|);
    }
  }

  function CountGood(qs: seq<Pair>, threshold: real): nat {
    if qs == [] then 0
    else CountGood(qs[..|qs| - 1], threshold) + if Underperforms(qs[|qs| - 1], threshold) then 0 else 1
  }

  lemma {:induction false} CountGoodSplit(qs: seq<Pair>, m: nat, threshold: real)
    requires m <= |qs|
    ensures CountGood(qs, threshold) >= CountGood(qs[..m], threshold)
    ensures (exists k :: m <= k < |qs| && !Underperforms(qs[k], threshold))
            ==> CountGood(qs, threshold) > CountGood(qs[..m], threshold)
  {
    if m < |qs| {
      assert qs[..|qs| - 1][..m] == qs[..m];
      CountGoodSplit(qs[..|qs| - 1], m, threshold);
      if k :| m <= k < |qs| && !Underperforms(qs[k], threshold) {
        if k < |qs| - 1 {
          assert !Underperforms(qs[..|qs| - 1][k], threshold);
        }
      }
    } else {
      assert qs[..m] == qs;
    }
  }

  lemma {:induction false} FastBlocks(c: FastGuardConfig, qs: seq<Pair>, blocks: nat)
    requires c.window > 0 && 0 <= Times(blocks, c.window) <= |qs|
    requires forall j :: c.window <= j <= |qs| ==> !FastTrips(c, qs[..j])
    ensures CountGood(qs, c.threshold) >= blocks
    decreases blocks
  {
    hide Times, Underperforms;
    if blocks > 0 {
      var n, k := |qs|, c.window;
      TimesStep(blocks, k);
      TimesNonNegative(blocks - 1, k);
      var front := qs[..n - k];
      assert forall j :: 0 <= j <= |front| ==> front[..j] == qs[..j];
      FastBlocks(c, front, blocks - 1);
      assert qs[..n] == qs;
      assert !FastTrips(c, qs[..n]);
      CountGoodSplit(qs, n - k, c.threshold);
    }
  }

  lemma SlowPass(c: SlowGuardConfig, qs: seq<Pair>)
    requires forall q :: q in qs ==> q.predicted > 0
    requires |qs| >= c.window && !SlowTrips(c, qs)
    ensures SumReal(Ratios(LastN(qs, c.window))) >= Scale(c.threshold, c.window as real)
  {
  }

  lemma RatioSumSplits(qs: seq<Pair>, m: nat, k: nat)
    requires forall q :: q in qs ==> q.predicted > 0
    requires m + k <= |qs|
    ensures SumReal(Ratios(LastN(qs, m + k)))
            == SumReal(Ratios(LastN(qs[..|qs| - k], m))) + SumReal(Ratios(LastN(qs, k)))
  {
    hide Ratio, SumReal;
    var head, last := LastN(qs[..|qs| - k], m), LastN(qs, k);
    LastNSplit(qs, m, k);
    RatiosAppend(head, last);
    SumRealAppend(Ratios(head), Ratios(last));
  }

  lemma SlowBase(threshold: real, qs: seq<Pair>)
    requires forall q :: q in qs ==> q.predicted > 0
    ensures SumReal(Ratios(LastN(qs, 0))) == 0.0 == Scale(threshold, 0.0)
  {
    ScaleAdd(threshold, 0.0, 0.0);
  }

  lemma {:induction false} SlowBlocks(c: SlowGuardConfig, qs: seq<Pair>, blocks: nat)
    requires c.window > 0 && 0 <= Times(blocks, c.window) <= |qs|
    requires forall q :: q in qs ==> q.predicted > 0
    requires forall j :: c.window <= j <= |qs| ==> !SlowTrips(c, qs[..j])
    ensures SumReal(Ratios(LastN(qs, Times(blocks, c.window))))
            >= Scale(c.threshold, Times(blocks, c.window) as real)
    decreases blocks
  {
    hide Times, Scale, SlowTrips;
    var n, k := |qs|, c.window;
    TimesStep(blocks, k);
    hide Ratios, SumReal, LastN;
    if blocks == 0 {
      SlowBase(c.threshold, qs);
    } else {
      TimesNonNegative(blocks - 1, k);
      var m := Times(blocks - 1, k);
      var front := qs[..n - k];
      assert forall j :: 0 <= j <= |front| ==> front[..j] == qs[..j];
      SlowBlocks(c, front, blocks - 1);
      RatioSumSplits(qs, m, k);
      ScaleAdd(c.threshold, m as real, k as real);
      assert qs[..n] == qs;
      SlowPass(c, qs);
    }
  }

  // ---------------------------------------------------------------------
  // The whole run.

  lemma NoPrefixTrips(p: ReconcilePolicy, tl: Timeline, i: nat, g: Guard)
    requires NeverHalted(p, tl) && 1 <= i <= |tl|
    ensures !Trips(p, g, tl[..i])
  {
    hide Trips;
    assert !Halts(p, tl[..i]);
  }

  lemma NoEligibleWindowTrips(p: ReconcilePolicy, tl: Timeline, j: nat)
    requires p.WellFormed() && NeverHalted(p, tl) && 1 <= j <= |Eligible(tl)|
    ensures !FastTrips(p.fast, Eligible(tl)[..j])
    ensures !SlowTrips(p.slow, Eligible(tl)[..j])
    ensures p.volumeWeighted.Some? ==> !VolumeTrips(p.volumeWeighted.value, Eligible(tl)[..j])
  {
    hide NeverHalted, FastTrips, SlowTrips, VolumeTrips;
    var i := PrefixWithEligible(tl, j);
    NoPrefixTrips(p, tl, i, Fast);
    NoPrefixTrips(p, tl, i, Slow);
    NoPrefixTrips(p, tl, i, Volume);
  }

  /** Over the last whole windows, the realized total is at least the threshold share of the predicted one. */
  predicate VolumeShareKept(c: VolumeWeightedConfig, qs: seq<Pair>)
    requires c.window > 0
  {
    var tail := LastN(qs, (|qs| / c.window) * c.window);
    TotalRealized(tail) as real >= c.threshold * TotalPredicted(tail) as real
  }

  /** As many pairs kept up as there are whole windows. */
  predicate FastKeptUp(c: FastGuardConfig, qs: seq<Pair>)
    requires c.window > 0
  {
    CountGood(qs, c.threshold) >= |qs| / c.window
  }

  /** Over the last whole windows, the ratios average at least the threshold. */
  predicate SlowMeanKept(c: SlowGuardConfig, qs: seq<Pair>)
    requires c.window > 0 && forall q :: q in qs ==> q.predicted > 0
  {
    var covered := (|qs| / c.window) * c.window;
    SumReal(Ratios(LastN(qs, covered))) >= c.threshold * covered as real
  }

  /** At most one cap of slippage per whole window, plus that of the first few pairs. */
  predicate SlippageCapped(c: DrawdownConfig, ps: seq<Pair>)
    requires c.window > 0
  {
    Slippage(ps) <= (|ps| / c.window) * c.maxDrawdownLimit + Slippage(ps[..|ps| % c.window])
  }

  /** At most one budget of revert fees per window of entries, the last one counted whole. */
  predicate GasCapped(c: RevertGasConfig, tl: Timeline)
    requires c.window > 0
  {
    GasBurned(tl) <= CeilDiv(|tl|, c.window) * c.budgetLimit
  }

  /** Fewer than `limit` reverts for each confirmed pair, and once more. */
  predicate RevertsCapped(c: RevertBurstConfig, tl: Timeline)
    requires c.limit > 0
  {
    |Reverts(tl)| <= (c.limit - 1) * (|Pairs(tl)| + 1)
  }

  /** The realized total of the covered positive-prediction pairs is at least the threshold share. */
  lemma BoundedVolumeBleed(p: ReconcilePolicy, tl: Timeline)
    requires p.WellFormed() && NeverHalted(p, tl) && p.volumeWeighted.Some?
    ensures VolumeShareKept(p.volumeWeighted.value, Eligible(tl))
  {
    hide NeverHalted, VolumeTrips, FastTrips, SlowTrips, Eligible;
    var c, qs := p.volumeWeighted.value, Eligible(tl);
    BlocksFit(|qs|, c.window);
    forall j | c.window <= j <= |qs| ensures !VolumeTrips(c, qs[..j]) {
      NoEligibleWindowTrips(p, tl, j);
    }
    VolumeBlocks(c, qs, |qs| / c.window);
  }

  /** At least one pair in every fast window kept up. */
  lemma BoundedFastBleed(p: ReconcilePolicy, tl: Timeline)
    requires p.WellFormed() && NeverHalted(p, tl)
    ensures FastKeptUp(p.fast, Eligible(tl))
  {
    hide NeverHalted, VolumeTrips, FastTrips, SlowTrips, Eligible;
    var c, qs := p.fast, Eligible(tl);
    BlocksFit(|qs|, c.window);
    forall j | c.window <= j <= |qs| ensures !FastTrips(c, qs[..j]) {
      NoEligibleWindowTrips(p, tl, j);
    }
    FastBlocks(c, qs, |qs| / c.window);
  }

  /** The covered ratios average at least the slow threshold. */
  lemma BoundedSlowBleed(p: ReconcilePolicy, tl: Timeline)
    requires p.WellFormed() && NeverHalted(p, tl)
    ensures SlowMeanKept(p.slow, Eligible(tl))
  {
    hide NeverHalted, VolumeTrips, FastTrips, SlowTrips, Eligible;
    var c, qs := p.slow, Eligible(tl);
    BlocksFit(|qs|, c.window);
    forall j | c.window <= j <= |qs| ensures !SlowTrips(c, qs[..j]) {
      NoEligibleWindowTrips(p, tl, j);
    }
    SlowBlocks(c, qs, |qs| / c.window);
  }

  /** Total slippage is at most one cap per window, plus that of the first few pairs. */
  lemma BoundedSlippage(p: ReconcilePolicy, tl: Timeline)
    requires p.WellFormed() && NeverHalted(p, tl) && p.drawdown.Some?
    ensures SlippageCapped(p.drawdown.value, Pairs(tl))
  {
    hide NeverHalted, DrawdownTrips, Pairs;
    var c, ps := p.drawdown.value, Pairs(tl);
    BlocksFit(|ps|, c.window);
    forall j | c.window <= j <= |ps| ensures !DrawdownTrips(c, ps[..j]) {
      var i := PrefixWithPairs(tl, j);
      NoPrefixTrips(p, tl, i, Drawdown);
    }
    DrawdownBlocks(c, ps, |ps| / c.window);
  }

  /** Fees burned on reverts are at most one budget per window of entries. */
  lemma BoundedRevertGas(p: ReconcilePolicy, tl: Timeline)
    requires p.WellFormed() && NeverHalted(p, tl) && p.revertGas.Some?
    ensures GasCapped(p.revertGas.value, tl)
  {
    hide NeverHalted, GasTrips;
    var c := p.revertGas.value;
    forall i | 1 <= i <= |tl| ensures !GasTrips(c, tl[..i]) {
      NoPrefixTrips(p, tl, i, Gas);
    }
    GasBlocks(c, tl);
  }

  /** Fewer than `limit` reverts go before each confirmed pair and after the last. */
  lemma BoundedReverts(p: ReconcilePolicy, tl: Timeline)
    requires p.WellFormed() && NeverHalted(p, tl) && p.revertBurst.Some?
    ensures RevertsCapped(p.revertBurst.value, tl)
  {
    hide NeverHalted, BurstTrips;
    var c := p.revertBurst.value;
    forall i | 1 <= i <= |tl| ensures !BurstTrips(c, tl[..i]) {
      NoPrefixTrips(p, tl, i, Burst);
    }
    RevertsBounded(c, tl);
    TimesStepRight(c.limit - 1, |Pairs(tl)|);
  }
}
