/** What each halt reason tells, and when there is none. */
module Reasons {
  import opened Arith
  import opened History
  import opened Policy

  // Each lemma starts from the decision alone: the limits reported are the
  // configured ones, the numbers are those of the window, and no guard that is
  // evaluated earlier trips.

  predicate BurstOff(p: ReconcilePolicy, tl: Timeline) {
    p.revertBurst.Some? ==>
      var l := p.revertBurst.value.limit;
      |tl| < l || exists k :: |tl| - l <= k < |tl| && tl[k].ConfirmedPair?
  }

  predicate GasOff(p: ReconcilePolicy, tl: Timeline) {
    p.revertGas.Some? ==> GasBurned(LastN(tl, p.revertGas.value.window)) <= p.revertGas.value.budgetLimit
  }

  predicate FastOff(p: ReconcilePolicy, tl: Timeline) {
    var qs := Eligible(tl);
    || |qs| < p.fast.window
    || exists k :: |qs| - p.fast.window <= k < |qs| && Ratio(qs[k]) >= p.fast.threshold
  }

  predicate DrawdownOff(p: ReconcilePolicy, tl: Timeline) {
    p.drawdown.Some? ==>
      var c, ps := p.drawdown.value, Pairs(tl);
      || |ps| < c.window
      || TotalPredicted(LastN(ps, c.window)) - TotalRealized(LastN(ps, c.window)) <= c.maxDrawdownLimit
  }

  predicate VolumeOff(p: ReconcilePolicy, tl: Timeline) {
    p.volumeWeighted.Some? ==>
      var c, qs := p.volumeWeighted.value, Eligible(tl);
      var w := LastN(qs, c.window);
      |qs| < c.window || TotalRealized(w) as real >= c.threshold * TotalPredicted(w) as real
  }

  predicate SlowOff(p: ReconcilePolicy, tl: Timeline) {
    var c, qs := p.slow, Eligible(tl);
    |qs| < c.window || SumReal(Ratios(LastN(qs, c.window))) >= c.threshold * c.window as real
  }

  lemma BurstOffExactly(p: ReconcilePolicy, tl: Timeline)
    requires p.WellFormed()
    ensures Trips(p, Burst, tl) <==> !BurstOff(p, tl)
  {
  }

  lemma FastOffExactly(p: ReconcilePolicy, tl: Timeline)
    requires p.WellFormed()
    ensures Trips(p, Fast, tl) <==> !FastOff(p, tl)
  {
    hide Underperforms, Ratio, Eligible;
    var qs := Eligible(tl);
    forall k | 0 <= k < |qs| ensures Underperforms(qs[k], p.fast.threshold) <==> Ratio(qs[k]) < p.fast.threshold {
      UnderRatio(qs[k], p.fast.threshold);
    }
  }

  lemma DrawdownOffExactly(p: ReconcilePolicy, tl: Timeline)
    requires p.WellFormed()
    ensures Trips(p, Drawdown, tl) <==> !DrawdownOff(p, tl)
  {
    hide Pairs, LastN, Slippage, TotalPredicted, TotalRealized;
    if p.drawdown.Some? {
      SlippageIsDifference(LastN(Pairs(tl), p.drawdown.value.window));
    }
  }

  lemma OthersOffExactly(p: ReconcilePolicy, tl: Timeline)
    requires p.WellFormed()
    ensures Trips(p, Gas, tl) <==> !GasOff(p, tl)
    ensures Trips(p, Volume, tl) <==> !VolumeOff(p, tl)
    ensures Trips(p, Slow, tl) <==> !SlowOff(p, tl)
  {
  }

  lemma OffExactly(p: ReconcilePolicy, tl: Timeline)
    requires p.WellFormed()
    ensures Trips(p, Burst, tl) <==> !BurstOff(p, tl)
    ensures Trips(p, Gas, tl) <==> !GasOff(p, tl)
    ensures Trips(p, Fast, tl) <==> !FastOff(p, tl)
    ensures Trips(p, Drawdown, tl) <==> !DrawdownOff(p, tl)
    ensures Trips(p, Volume, tl) <==> !VolumeOff(p, tl)
    ensures Trips(p, Slow, tl) <==> !SlowOff(p, tl)
  {
    hide Trips, BurstOff, GasOff, FastOff, DrawdownOff, VolumeOff, SlowOff;
    BurstOffExactly(p, tl);
    FastOffExactly(p, tl);
    DrawdownOffExactly(p, tl);
    OthersOffExactly(p, tl);
  }

  /** The policy continues exactly when all six guards are off, each stated on the history itself. */
  lemma ContinuesExactly(p: ReconcilePolicy, tl: Timeline)
    requires p.WellFormed()
    ensures Decide(p, tl) == Continue
            <==> && BurstOff(p, tl) && GasOff(p, tl) && FastOff(p, tl)
                 && DrawdownOff(p, tl) && VolumeOff(p, tl) && SlowOff(p, tl)
  {
    hide Trips, ReasonOf, BurstOff, GasOff, FastOff, DrawdownOff, VolumeOff, SlowOff;
    OffExactly(p, tl);
  }

  /** The guard a reason speaks of. */
  function Source(r: HaltReason): Guard {
    match r
    case RevertBurst(_, _) => Burst
    case RevertGasBudgetExceeded(_, _, _) => Gas
    case FastGuard(_, _) => Fast
    case NetDrawdownExceeded(_, _, _) => Drawdown
    case VolumeWeightedDrift(_, _, _) => Volume
    case SlowGuard(_, _, _) => Slow
  }

  lemma SourceOf(p: ReconcilePolicy, g: Guard, tl: Timeline)
    requires p.WellFormed() && Trips(p, g, tl)
    ensures Source(ReasonOf(p, g, tl)) == g
  {
    hide Trips;
  }

  /** A halt comes from the guard its reason speaks of, and the guards evaluated before that are off. */
  lemma DecidedBy(p: ReconcilePolicy, tl: Timeline, r: HaltReason)
    requires p.WellFormed() && Decide(p, tl) == Halt(r)
    ensures Trips(p, Source(r), tl) && r == ReasonOf(p, Source(r), tl)
    ensures Source(r) != Burst ==> BurstOff(p, tl)
    ensures Source(r) in {Fast, Drawdown, Volume, Slow} ==> GasOff(p, tl)
    ensures Source(r) in {Drawdown, Volume, Slow} ==> FastOff(p, tl)
    ensures Source(r) in {Volume, Slow} ==> DrawdownOff(p, tl)
    ensures Source(r) == Slow ==> VolumeOff(p, tl)
  {
    hide Trips, ReasonOf, Source, BurstOff, GasOff, FastOff, DrawdownOff, VolumeOff, SlowOff;
    OffExactly(p, tl);
    forall g | Trips(p, g, tl) ensures Source(ReasonOf(p, g, tl)) == g {
      SourceOf(p, g, tl);
    }
  }

  /** A burst halt counts the reverts that end the history, and quotes the limit they reach. */
  lemma BurstReason(p: ReconcilePolicy, tl: Timeline, n: nat, limit: nat)
    requires p.WellFormed() && Decide(p, tl) == Halt(RevertBurst(n, limit))
    ensures p.revertBurst == Some(RevertBurstConfig(limit)) && limit <= n <= |tl|
    ensures forall k :: |tl| - n <= k < |tl| ==> tl[k].RevertedTx?
    ensures n < |tl| ==> tl[|tl| - n - 1].ConfirmedPair?
  {
    DecidedBy(p, tl, RevertBurst(n, limit));
    hide Decide, BurstTrips, TrailingReverts;
    BurstByCount(p.revertBurst.value, tl);
    TrailingRevertsUnique(tl, n);
  }

  /** A gas halt reports the fees of the window, and they exceed the budget it quotes. */
  lemma GasReason(p: ReconcilePolicy, tl: Timeline, burned: nat, budget: nat, window: nat)
    requires p.WellFormed() && Decide(p, tl) == Halt(RevertGasBudgetExceeded(burned, budget, window))
    ensures p.revertGas == Some(RevertGasConfig(budget, window))
    ensures burned == GasBurned(LastN(tl, window)) > budget
    ensures BurstOff(p, tl)
  {
    hide Decide, BurstOff, GasBurned, LastN;
    DecidedBy(p, tl, RevertGasBudgetExceeded(burned, budget, window));
  }

  lemma RatioIs(q: Pair)
    requires q.predicted > 0
    ensures Ratio(q) * q.predicted as real == q.realized as real
  {
  }

  /** `r` times the prediction is the realized profit, and `r` is below `t`. */
  predicate RatioBelow(r: real, q: Pair, t: real) {
    r * q.predicted as real == q.realized as real && r < t
  }

  /** Position `i` of the newest `n` ratios. */
  lemma RatioAt(qs: seq<Pair>, n: nat, i: nat, t: real)
    requires i < n <= |qs| && forall q :: q in qs ==> q.predicted > 0
    requires Underperforms(qs[|qs| - n + i], t)
    ensures RatioBelow(Ratios(LastN(qs, n))[i], qs[|qs| - n..][i], t)
  {
    hide Underperforms, Ratio;
    var q := qs[|qs| - n + i];
    UnderRatio(q, t);
    RatioIs(q);
  }

  /** The newest ratios, when the fast guard trips. */
  lemma FastRatios(c: FastGuardConfig, qs: seq<Pair>)
    requires FastTrips(c, qs) && forall q :: q in qs ==> q.predicted > 0
    ensures var w, rs := qs[|qs| - c.window..], Ratios(LastN(qs, c.window));
            |rs| == |w| && forall i :: 0 <= i < |rs| ==> RatioBelow(rs[i], w[i], c.threshold)
  {
    hide Underperforms, Ratio, RatioBelow;
    var w, rs := qs[|qs| - c.window..], Ratios(LastN(qs, c.window));
    forall i | 0 <= i < |rs| ensures RatioBelow(rs[i], w[i], c.threshold) {
      RatioAt(qs, c.window, i, c.threshold);
    }
  }

  lemma FastReasonIs(p: ReconcilePolicy, tl: Timeline)
    requires p.WellFormed() && Trips(p, Fast, tl)
    ensures p.fast.window <= |Eligible(tl)|
    ensures var w, rs := Eligible(tl)[|Eligible(tl)| - p.fast.window..], Ratios(LastN(Eligible(tl), p.fast.window));
            && |rs| == |w| && ReasonOf(p, Fast, tl) == FastGuard(rs, p.fast.threshold)
            && forall i :: 0 <= i < |rs| ==> RatioBelow(rs[i], w[i], p.fast.threshold)
  {
    hide Eligible, Underperforms, Ratio, Ratios, RatioBelow, LastN;
    FastRatios(p.fast, Eligible(tl));
  }

  /** A fast halt lists the newest ratios, oldest first, all below the threshold it quotes. */
  lemma FastReason(p: ReconcilePolicy, tl: Timeline, rs: seq<real>, t: real)
    requires p.WellFormed() && Decide(p, tl) == Halt(FastGuard(rs, t))
    ensures t == p.fast.threshold && |rs| == p.fast.window <= |Eligible(tl)|
    ensures var w := Eligible(tl)[|Eligible(tl)| - |rs|..];
            forall i :: 0 <= i < |rs| ==> rs[i] * w[i].predicted as real == w[i].realized as real && rs[i] < t
    ensures BurstOff(p, tl) && GasOff(p, tl)
  {
    hide Decide, Trips, ReasonOf, Eligible, Ratios, LastN, BurstOff, GasOff, FastOff, DrawdownOff, VolumeOff;
    DecidedBy(p, tl, FastGuard(rs, t));
    FastReasonIs(p, tl);
  }

  /** A drawdown halt reports predicted minus realized of the window, above the cap it quotes. */
  lemma DrawdownReason(p: ReconcilePolicy, tl: Timeline, loss: int, cap: int, window: nat)
    requires p.WellFormed() && Decide(p, tl) == Halt(NetDrawdownExceeded(loss, cap, window))
    ensures p.drawdown == Some(DrawdownConfig(cap, window)) && |Pairs(tl)| >= window
    ensures loss == TotalPredicted(LastN(Pairs(tl), window)) - TotalRealized(LastN(Pairs(tl), window)) > cap
    ensures BurstOff(p, tl) && GasOff(p, tl) && FastOff(p, tl)
  {
    hide Decide, Pairs, LastN, Slippage, TotalPredicted, TotalRealized, BurstOff, GasOff, FastOff;
    DecidedBy(p, tl, NetDrawdownExceeded(loss, cap, window));
    SlippageIsDifference(LastN(Pairs(tl), window));
  }

  lemma QuotientIs(x: real, a: real, b: real, t: real)
    requires b > 0.0 && x == a / b
    ensures x * b == a && (a < t * b <==> x < t)
  {
    QuotientBelow(a, b, t);
  }

  lemma VolumeReasonIs(p: ReconcilePolicy, tl: Timeline)
    requires p.WellFormed() && Trips(p, Volume, tl)
    ensures p.volumeWeighted.Some? && |Eligible(tl)| >= p.volumeWeighted.value.window
    ensures var c := p.volumeWeighted.value;
            var w := LastN(Eligible(tl), c.window);
            && TotalPredicted(w) > 0
            && TotalRealized(w) as real < c.threshold * TotalPredicted(w) as real
            && ReasonOf(p, Volume, tl)
               == VolumeWeightedDrift(TotalRealized(w) as real / TotalPredicted(w) as real, c.threshold, c.window)
  {
    hide Eligible, TotalRealized, TotalPredicted;
    TotalPredictedPositive(LastNPositive(tl, p.volumeWeighted.value.window));
  }

  /** A weighted halt reports the realized share of what the window predicted, below the threshold it quotes. */
  lemma VolumeReason(p: ReconcilePolicy, tl: Timeline, x: real, t: real, window: nat)
    requires p.WellFormed() && Decide(p, tl) == Halt(VolumeWeightedDrift(x, t, window))
    ensures p.volumeWeighted == Some(VolumeWeightedConfig(t, window)) && |Eligible(tl)| >= window
    ensures var w := LastN(Eligible(tl), window);
            x * TotalPredicted(w) as real == TotalRealized(w) as real && x < t
    ensures BurstOff(p, tl) && GasOff(p, tl) && FastOff(p, tl) && DrawdownOff(p, tl)
  {
    hide Decide, Trips, ReasonOf, Eligible, LastN, TotalPredicted, TotalRealized, BurstOff, GasOff, FastOff, DrawdownOff;
    DecidedBy(p, tl, VolumeWeightedDrift(x, t, window));
    VolumeReasonIs(p, tl);
    var w := LastN(Eligible(tl), window);
    QuotientIs(x, TotalRealized(w) as real, TotalPredicted(w) as real, t);
  }

  /** The newest eligible pairs, with what the sums need to know of them. */
  function LastNPositive(tl: Timeline, n: nat): (w: seq<Pair>)
    ensures w == LastN(Eligible(tl), n) && forall q :: q in w ==> q.predicted > 0
  {
    LastN(Eligible(tl), n)
  }

  lemma SlowReasonIs(p: ReconcilePolicy, tl: Timeline)
    requires p.WellFormed() && Trips(p, Slow, tl)
    ensures var sum := SumReal(Ratios(LastNPositive(tl, p.slow.window)));
            && p.slow.window <= |Eligible(tl)| && sum < p.slow.threshold * p.slow.window as real
            && ReasonOf(p, Slow, tl) == SlowGuard(sum / p.slow.window as real, p.slow.window, p.slow.threshold)
  {
    hide Eligible, SumReal, Ratio;
  }

  /** A slow halt reports the mean of the newest ratios, below the threshold it quotes. */
  lemma SlowReason(p: ReconcilePolicy, tl: Timeline, mean: real, window: nat, t: real)
    requires p.WellFormed() && Decide(p, tl) == Halt(SlowGuard(mean, window, t))
    ensures t == p.slow.threshold && window == p.slow.window <= |Eligible(tl)|
    ensures mean * window as real == SumReal(Ratios(LastNPositive(tl, window))) && mean < t
    ensures BurstOff(p, tl) && GasOff(p, tl) && FastOff(p, tl) && DrawdownOff(p, tl) && VolumeOff(p, tl)
  {
    hide Decide, Trips, ReasonOf, Eligible, LastNPositive, SumReal, Ratios;
    hide BurstOff, GasOff, FastOff, DrawdownOff, VolumeOff;
    DecidedBy(p, tl, SlowGuard(mean, window, t));
    SlowReasonIs(p, tl);
    QuotientIs(mean, SumReal(Ratios(LastNPositive(tl, window))), window as real, t);
  }
}
