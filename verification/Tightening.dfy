/** Tightening a policy never un-halts a history. */
module Tightening {
  // The slow window is not monotone; see `SlowWindow`.

  import opened Arith
  import opened History
  import opened Policy
  import opened Guards

  predicate OptionTighter<T(!new)>(a: Option<T>, b: Option<T>, tighter: (T, T) -> bool) {
    a.Some? ==> b.Some? && tighter(a.value, b.value)
  }

  /** `b` enables every guard `a` does, with limits at least as strict. */
  predicate Tighter(a: ReconcilePolicy, b: ReconcilePolicy) {
    && a.fast.threshold <= b.fast.threshold && b.fast.window <= a.fast.window
    && a.slow.threshold <= b.slow.threshold && b.slow.window == a.slow.window
    && OptionTighter(a.revertBurst, b.revertBurst, (x: RevertBurstConfig, y: RevertBurstConfig) =>
         y.limit <= x.limit)
    && OptionTighter(a.revertGas, b.revertGas, (x: RevertGasConfig, y: RevertGasConfig) =>
         y.budgetLimit <= x.budgetLimit && x.window <= y.window)
    && OptionTighter(a.volumeWeighted, b.volumeWeighted, (x: VolumeWeightedConfig, y: VolumeWeightedConfig) =>
         x.threshold <= y.threshold && y.window == x.window)
    && OptionTighter(a.drawdown, b.drawdown, (x: DrawdownConfig, y: DrawdownConfig) =>
         y.maxDrawdownLimit <= x.maxDrawdownLimit && y.window == x.window)
  }

  lemma GasOfMore(tl: Timeline, m: nat, n: nat)
    requires m <= n
    ensures GasBurned(LastN(tl, m)) <= GasBurned(LastN(tl, n))
  {
    var long, short := LastN(tl, n), LastN(tl, m);
    assert long == long[..|long| - |short|] + short;
    hide LastN, GasBurned;
    GasBurnedAppend(long[..|long| - |short|], short);
  }

  lemma ScaleMonotone(s: real, t: real, x: real)
    requires s <= t && x >= 0.0
    ensures s * x <= t * x
  {
  }

  lemma FastTighter(a: FastGuardConfig, b: FastGuardConfig, qs: seq<Pair>)
    requires 0 < b.window <= a.window && a.threshold <= b.threshold
    requires forall q :: q in qs ==> q.predicted > 0
    requires FastTrips(a, qs)
    ensures FastTrips(b, qs)
  {
    forall k | |qs| - b.window <= k < |qs| ensures Underperforms(qs[k], b.threshold) {
      UnderRatio(qs[k], a.threshold);
      UnderRatio(qs[k], b.threshold);
    }
  }

  lemma SlowTighter(a: SlowGuardConfig, b: SlowGuardConfig, qs: seq<Pair>)
    requires b.window == a.window && a.threshold <= b.threshold
    requires forall q :: q in qs ==> q.predicted > 0
    requires SlowTrips(a, qs)
    ensures SlowTrips(b, qs)
  {
    hide SumReal, Ratios;
    ScaleMonotone(a.threshold, b.threshold, a.window as real);
  }

  lemma VolumeTighter(a: VolumeWeightedConfig, b: VolumeWeightedConfig, qs: seq<Pair>)
    requires b.window == a.window > 0 && a.threshold <= b.threshold
    requires forall q :: q in qs ==> q.predicted > 0
    requires VolumeTrips(a, qs)
    ensures VolumeTrips(b, qs)
  {
    var w := LastN(qs, a.window);
    TotalPredictedPositive(w);
    hide TotalPredicted, TotalRealized, LastN;
    ScaleMonotone(a.threshold, b.threshold, TotalPredicted(w) as real);
  }

  lemma TighterTrips(a: ReconcilePolicy, b: ReconcilePolicy, g: Guard, tl: Timeline)
    requires a.WellFormed() && b.WellFormed() && Tighter(a, b) && Trips(a, g, tl)
    ensures Trips(b, g, tl)
  {
    hide FastTrips, SlowTrips, VolumeTrips, GasBurned, Slippage, Eligible, Pairs;
    match g {
      case Burst =>
      case Gas => GasOfMore(tl, a.revertGas.value.window, b.revertGas.value.window);
      case Fast => FastTighter(a.fast, b.fast, Eligible(tl));
      case Drawdown =>
      case Volume => VolumeTighter(a.volumeWeighted.value, b.volumeWeighted.value, Eligible(tl));
      case Slow => SlowTighter(a.slow, b.slow, Eligible(tl));
    }
  }

  /** Tightening never un-halts a history. */
  lemma TighterHalts(a: ReconcilePolicy, b: ReconcilePolicy, tl: Timeline)
    requires a.WellFormed() && b.WellFormed() && Tighter(a, b) && Halts(a, tl)
    ensures Halts(b, tl)
  {
    hide Trips;
    var g :| Trips(a, g, tl);
    TighterTrips(a, b, g, tl);
  }
}
