/** The halt policy: its guards and their order. */
module Policy {
  import opened Arith
  import opened History

  datatype FastGuardConfig = FastGuardConfig(threshold: real, window: nat)
  datatype SlowGuardConfig = SlowGuardConfig(threshold: real, window: nat)
  datatype RevertBurstConfig = RevertBurstConfig(limit: nat)
  datatype RevertGasConfig = RevertGasConfig(budgetLimit: nat, window: nat)
  datatype VolumeWeightedConfig = VolumeWeightedConfig(threshold: real, window: nat)
  datatype DrawdownConfig = DrawdownConfig(maxDrawdownLimit: int, window: nat)

  datatype ReconcilePolicy = ReconcilePolicy(
    fast: FastGuardConfig,
    slow: SlowGuardConfig,
    revertBurst: Option<RevertBurstConfig>,
    revertGas: Option<RevertGasConfig>,
    volumeWeighted: Option<VolumeWeightedConfig>,
    drawdown: Option<DrawdownConfig>)
  {
    /** What the constructors assert; they are the only way to build a policy. */
    predicate WellFormed() {
      && fast.window > 0
      && slow.window > 0
      && (revertBurst.Some? ==> revertBurst.value.limit > 0)
      && (revertGas.Some? ==> revertGas.value.window > 0)
      && (volumeWeighted.Some? ==> volumeWeighted.value.window > 0)
      && (drawdown.Some? ==> drawdown.value.window > 0)
    }

    function WithRevertBurst(config: RevertBurstConfig): (p: ReconcilePolicy)
      requires config.limit > 0
      ensures WellFormed() ==> p.WellFormed()
    {
      this.(revertBurst := Some(config))
    }

    function WithRevertGas(config: RevertGasConfig): (p: ReconcilePolicy)
      requires config.window > 0
      ensures WellFormed() ==> p.WellFormed()
    {
      this.(revertGas := Some(config))
    }

    function WithVolumeWeighted(config: VolumeWeightedConfig): (p: ReconcilePolicy)
      requires config.window > 0
      ensures WellFormed() ==> p.WellFormed()
    {
      this.(volumeWeighted := Some(config))
    }

    function WithDrawdown(config: DrawdownConfig): (p: ReconcilePolicy)
      requires config.window > 0
      ensures WellFormed() ==> p.WellFormed()
    {
      this.(drawdown := Some(config))
    }
  }

  function NewPolicy(fast: FastGuardConfig, slow: SlowGuardConfig): (p: ReconcilePolicy)
    requires fast.window > 0 && slow.window > 0
    ensures p.WellFormed() && p.fast == fast && p.slow == slow
    ensures p.revertBurst.None? && p.revertGas.None? && p.volumeWeighted.None? && p.drawdown.None?
  {
    ReconcilePolicy(fast, slow, None, None, None, None)
  }

  /** The constructors reach every well-formed policy; by their contracts they reach no other. */
  lemma ConstructorsReachAll(p: ReconcilePolicy)
    requires p.WellFormed()
    ensures var a := NewPolicy(p.fast, p.slow);
            var b := if p.revertBurst.Some? then a.WithRevertBurst(p.revertBurst.value) else a;
            var c := if p.revertGas.Some? then b.WithRevertGas(p.revertGas.value) else b;
            var d := if p.volumeWeighted.Some? then c.WithVolumeWeighted(p.volumeWeighted.value) else c;
            var e := if p.drawdown.Some? then d.WithDrawdown(p.drawdown.value) else d;
            e == p
  {
  }

  datatype HaltReason =
    | FastGuard(ratios: seq<real>, threshold: real)
    | SlowGuard(meanRatio: real, windowSize: nat, threshold: real)
    | RevertBurst(consecutiveReverts: nat, limit: nat)
    | RevertGasBudgetExceeded(gasCostBurned: nat, budgetLimit: nat, window: nat)
    | VolumeWeightedDrift(weightedRatio: real, threshold: real, window: nat)
    | NetDrawdownExceeded(netSlippageLoss: int, maxDrawdownLimit: int, window: nat)

  datatype HaltDecision = Continue | Halt(reason: HaltReason)

  // ---------------------------------------------------------------------
  // Sums over a window of pairs.

  function TotalPredicted(ps: seq<Pair>): int {
    if ps == [] then 0 else TotalPredicted(ps[..|ps| - 1]) + ps[|ps| - 1].predicted
  }

  function TotalRealized(ps: seq<Pair>): int {
    if ps == [] then 0 else TotalRealized(ps[..|ps| - 1]) + ps[|ps| - 1].realized
  }

  /** Prediction deficit: the sum of predicted minus realized. */
  function Slippage(ps: seq<Pair>): int {
    if ps == [] then 0
    else Slippage(ps[..|ps| - 1]) + (ps[|ps| - 1].predicted - ps[|ps| - 1].realized)
  }

  function SumReal(rs: seq<real>): real {
    if rs == [] then 0.0 else SumReal(rs[..|rs| - 1]) + rs[|rs| - 1]
  }

  lemma {:induction false} SlippageIsDifference(ps: seq<Pair>)
    ensures Slippage(ps) == TotalPredicted(ps) - TotalRealized(ps)
  {
    if ps != [] {
      SlippageIsDifference(ps[..|ps| - 1]);
    }
  }

  lemma {:induction false} TotalPredictedPositive(ps: seq<Pair>)
    requires ps != [] && forall q :: q in ps ==> q.predicted > 0
    ensures TotalPredicted(ps) > 0
  {
    if |ps| > 1 {
      TotalPredictedPositive(ps[..|ps| - 1]);
    }
  }

  lemma {:induction false} TotalPredictedAppend(a: seq<Pair>, b: seq<Pair>)
    ensures TotalPredicted(a + b) == TotalPredicted(a) + TotalPredicted(b)
    decreases |b|
  {
    if b == [] {
      assert a + b == a;
    } else {
      assert (a + b)[..|a + b| - 1] == a + b[..|b| - 1];
      TotalPredictedAppend(a, b[..|b| - 1]);
    }
  }

  lemma {:induction false} TotalRealizedAppend(a: seq<Pair>, b: seq<Pair>)
    ensures TotalRealized(a + b) == TotalRealized(a) + TotalRealized(b)
    decreases |b|
  {
    if b == [] {
      assert a + b == a;
    } else {
      assert (a + b)[..|a + b| - 1] == a + b[..|b| - 1];
      TotalRealizedAppend(a, b[..|b| - 1]);
    }
  }

  lemma {:induction false} SlippageAppend(a: seq<Pair>, b: seq<Pair>)
    ensures Slippage(a + b) == Slippage(a) + Slippage(b)
    decreases |b|
  {
    if b == [] {
      assert a + b == a;
    } else {
      assert (a + b)[..|a + b| - 1] == a + b[..|b| - 1];
      SlippageAppend(a, b[..|b| - 1]);
    }
  }

  lemma {:induction false} SumRealAppend(a: seq<real>, b: seq<real>)
    ensures SumReal(a + b) == SumReal(a) + SumReal(b)
    decreases |b|
  {
    if b == [] {
      assert a + b == a;
    } else {
      assert (a + b)[..|a + b| - 1] == a + b[..|b| - 1];
      SumRealAppend(a, b[..|b| - 1]);
    }
  }

  lemma RatiosAppend(a: seq<Pair>, b: seq<Pair>)
    requires forall q :: q in a + b ==> q.predicted > 0
    ensures (forall q :: q in a ==> q.predicted > 0) && (forall q :: q in b ==> q.predicted > 0)
    ensures Ratios(a + b) == Ratios(a) + Ratios(b)
  {
    assert forall q :: q in a ==> q in a + b;
    assert forall q :: q in b ==> q in a + b;
  }

  // ---------------------------------------------------------------------
  // When each guard trips, stated without division or iteration.

  function Eligible(tl: Timeline): (qs: seq<Pair>)
    ensures forall q :: q in qs ==> q.predicted > 0
  {
    Positive(Pairs(tl))
  }

  predicate Underperforms(q: Pair, threshold: real) {
    q.realized as real < threshold * q.predicted as real
  }

  /** The last `limit` entries exist and are all reverts. */
  predicate BurstTrips(c: RevertBurstConfig, tl: Timeline) {
    && |tl| >= c.limit
    && forall k :: |tl| - c.limit <= k < |tl| ==> tl[k].RevertedTx?
  }

  predicate GasTrips(c: RevertGasConfig, tl: Timeline) {
    GasBurned(LastN(tl, c.window)) > c.budgetLimit
  }

  predicate FastTrips(c: FastGuardConfig, qs: seq<Pair>) {
    && |qs| >= c.window
    && forall k :: |qs| - c.window <= k < |qs| ==> Underperforms(qs[k], c.threshold)
  }

  predicate DrawdownTrips(c: DrawdownConfig, ps: seq<Pair>) {
    |ps| >= c.window && Slippage(LastN(ps, c.window)) > c.maxDrawdownLimit
  }

  predicate VolumeTrips(c: VolumeWeightedConfig, qs: seq<Pair>) {
    && |qs| >= c.window
    && var w := LastN(qs, c.window);
    TotalRealized(w) as real < c.threshold * TotalPredicted(w) as real
  }

  predicate SlowTrips(c: SlowGuardConfig, qs: seq<Pair>)
    requires forall q :: q in qs ==> q.predicted > 0
  {
    |qs| >= c.window && SumReal(Ratios(LastN(qs, c.window))) < c.threshold * c.window as real
  }

  /** The guards in evaluation order. */
  datatype Guard = Burst | Gas | Fast | Drawdown | Volume | Slow

  function Rank(g: Guard): nat {
    match g
    case Burst => 0
    case Gas => 1
    case Fast => 2
    case Drawdown => 3
    case Volume => 4
    case Slow => 5
  }

  predicate Trips(p: ReconcilePolicy, g: Guard, tl: Timeline) {
    match g
    case Burst => p.revertBurst.Some? && BurstTrips(p.revertBurst.value, tl)
    case Gas => p.revertGas.Some? && GasTrips(p.revertGas.value, tl)
    case Fast => FastTrips(p.fast, Eligible(tl))
    case Drawdown => p.drawdown.Some? && DrawdownTrips(p.drawdown.value, Pairs(tl))
    case Volume => p.volumeWeighted.Some? && VolumeTrips(p.volumeWeighted.value, Eligible(tl))
    case Slow => SlowTrips(p.slow, Eligible(tl))
  }

  ghost predicate Halts(p: ReconcilePolicy, tl: Timeline) {
    exists g :: Trips(p, g, tl)
  }

  /** The structured reason a tripped guard reports. */
  function ReasonOf(p: ReconcilePolicy, g: Guard, tl: Timeline): HaltReason
    requires p.WellFormed() && Trips(p, g, tl)
  {
    match g
    case Burst => RevertBurst(TrailingReverts(tl), p.revertBurst.value.limit)
    case Gas =>
      var c := p.revertGas.value;
      RevertGasBudgetExceeded(GasBurned(LastN(tl, c.window)), c.budgetLimit, c.window)
    case Fast => FastGuard(Ratios(LastN(Eligible(tl), p.fast.window)), p.fast.threshold)
    case Drawdown =>
      var c := p.drawdown.value;
      NetDrawdownExceeded(Slippage(LastN(Pairs(tl), c.window)), c.maxDrawdownLimit, c.window)
    case Volume =>
      var c := p.volumeWeighted.value;
      var w := LastN(Eligible(tl), c.window);
      TotalPredictedPositive(w);
      VolumeWeightedDrift(TotalRealized(w) as real / TotalPredicted(w) as real, c.threshold, c.window)
    case Slow =>
      var c := p.slow;
      SlowGuard(SumReal(Ratios(LastN(Eligible(tl), c.window))) / c.window as real, c.window, c.threshold)
  }

  /** The decision a history calls for: the first tripped guard's reason, if any guard trips. */
  function Decide(p: ReconcilePolicy, tl: Timeline): HaltDecision
    requires p.WellFormed()
  {
    if Trips(p, Burst, tl) then Halt(ReasonOf(p, Burst, tl))
    else if Trips(p, Gas, tl) then Halt(ReasonOf(p, Gas, tl))
    else if Trips(p, Fast, tl) then Halt(ReasonOf(p, Fast, tl))
    else if Trips(p, Drawdown, tl) then Halt(ReasonOf(p, Drawdown, tl))
    else if Trips(p, Volume, tl) then Halt(ReasonOf(p, Volume, tl))
    else if Trips(p, Slow, tl) then Halt(ReasonOf(p, Slow, tl))
    else Continue
  }

  /** A halt means some guard trips, Continue that none does. */
  lemma DecideHalts(p: ReconcilePolicy, tl: Timeline)
    requires p.WellFormed()
    ensures Decide(p, tl).Halt? <==> Halts(p, tl)
  {
    hide Trips, ReasonOf;
    if g :| Trips(p, g, tl) {
      assert g == Burst || g == Gas || g == Fast || g == Drawdown || g == Volume || g == Slow;
    }
  }

  /** A halt names the tripped guard that no earlier guard pre-empts. */
  lemma DecideIsFirstTripped(p: ReconcilePolicy, g: Guard, tl: Timeline)
    requires p.WellFormed() && Trips(p, g, tl)
    requires forall h :: Rank(h) < Rank(g) ==> !Trips(p, h, tl)
    ensures Decide(p, tl) == Halt(ReasonOf(p, g, tl))
  {
    hide Trips, ReasonOf;
    assert Rank(Burst) < Rank(Gas) < Rank(Fast) < Rank(Drawdown) < Rank(Volume) < Rank(Slow);
  }

  /** An empty history is never halted. */
  lemma EmptyContinues(p: ReconcilePolicy)
    requires p.WellFormed()
    ensures Decide(p, []) == Continue
  {
  }

  // ---------------------------------------------------------------------
  // The evaluation itself.

  lemma BurstByCount(c: RevertBurstConfig, tl: Timeline)
    ensures BurstTrips(c, tl) <==> TrailingReverts(tl) >= c.limit
  {
    TrailingRevertsUnique(tl, TrailingReverts(tl));
    if TrailingReverts(tl) < c.limit && |tl| >= c.limit {
      assert tl[|tl| - 1 - TrailingReverts(tl)].ConfirmedPair?;
    }
  }

  lemma UnderRatio(q: Pair, t: real)
    requires q.predicted > 0
    ensures Underperforms(q, t) <==> Ratio(q) < t
  {
    QuotientBelow(q.realized as real, q.predicted as real, t);
  }

  /** The reason guard `g` halts for, if it trips. */
  function Verdict(p: ReconcilePolicy, g: Guard, tl: Timeline): Option<HaltReason>
    requires p.WellFormed()
  {
    if Trips(p, g, tl) then Some(ReasonOf(p, g, tl)) else None
  }

  method CheckBurst(p: ReconcilePolicy, history: ReconcileHistory) returns (r: Option<HaltReason>)
    requires p.WellFormed()
    ensures r == Verdict(p, Burst, history.timeline)
  {
    r := None;
    if p.revertBurst.Some? {
      var burst := p.revertBurst.value;
      var consecutive := history.ConsecutiveReverts();
      BurstByCount(burst, history.timeline);
      if consecutive >= burst.limit {
        r := Some(RevertBurst(consecutive, burst.limit));
      }
    }
  }

  method CheckGas(p: ReconcilePolicy, history: ReconcileHistory) returns (r: Option<HaltReason>)
    requires p.WellFormed()
    ensures r == Verdict(p, Gas, history.timeline)
  {
    r := None;
    if p.revertGas.Some? {
      var gas := p.revertGas.value;
      var burned := history.RecentRevertGasBurned(gas.window);
      if burned > gas.budgetLimit {
        r := Some(RevertGasBudgetExceeded(burned, gas.budgetLimit, gas.window));
      }
    }
  }

  method CheckFast(p: ReconcilePolicy, history: ReconcileHistory) returns (r: Option<HaltReason>)
    requires p.WellFormed() && history.Valid()
    ensures r == Verdict(p, Fast, history.timeline)
  {
    hide Pairs, Positive, Ratio;
    r := None;
    var fastWindow := history.RecentRatios(p.fast.window);
    ghost var qs := Eligible(history.timeline);
    if |fastWindow| == p.fast.window {
      forall i | 0 <= i < p.fast.window
        ensures fastWindow[i] < p.fast.threshold <==> Underperforms(qs[|qs| - p.fast.window + i], p.fast.threshold)
      {
        UnderRatio(qs[|qs| - p.fast.window + i], p.fast.threshold);
      }
    }
    if |fastWindow| == p.fast.window
       && forall i :: 0 <= i < |fastWindow| ==> fastWindow[i] < p.fast.threshold
    {
      forall k | |qs| - p.fast.window <= k < |qs| ensures Underperforms(qs[k], p.fast.threshold) {
        assert fastWindow[k - (|qs| - p.fast.window)] < p.fast.threshold;
      }
      r := Some(FastGuard(fastWindow, p.fast.threshold));
    }
  }

  method CheckDrawdown(p: ReconcilePolicy, history: ReconcileHistory) returns (r: Option<HaltReason>)
    requires p.WellFormed() && history.Valid()
    ensures r == Verdict(p, Drawdown, history.timeline)
  {
    r := None;
    if p.drawdown.Some? {
      var dd := p.drawdown.value;
      var inWindow := LastN(history.pairs, dd.window);
      if |inWindow| == dd.window {
        var loss := Slippage(inWindow);
        if loss > dd.maxDrawdownLimit {
          r := Some(NetDrawdownExceeded(loss, dd.maxDrawdownLimit, dd.window));
        }
      }
    }
  }

  method CheckVolume(p: ReconcilePolicy, history: ReconcileHistory) returns (r: Option<HaltReason>)
    requires p.WellFormed() && history.Valid()
    ensures r == Verdict(p, Volume, history.timeline)
  {
    hide TotalRealized, TotalPredicted, Pairs, Positive;
    r := None;
    if p.volumeWeighted.Some? {
      var vw := p.volumeWeighted.value;
      var validPairs := LastN(Positive(history.pairs), vw.window);
      if |validPairs| == vw.window {
        var totalPredicted := TotalPredicted(validPairs);
        var totalRealized := TotalRealized(validPairs);
        TotalPredictedPositive(validPairs);
        if totalPredicted > 0 {
          var weightedRatio := totalRealized as real / totalPredicted as real;
          QuotientBelow(totalRealized as real, totalPredicted as real, vw.threshold);
          if weightedRatio < vw.threshold {
            r := Some(VolumeWeightedDrift(weightedRatio, vw.threshold, vw.window));
          }
        }
      }
    }
  }

  method CheckSlow(p: ReconcilePolicy, history: ReconcileHistory) returns (r: Option<HaltReason>)
    requires p.WellFormed() && history.Valid()
    ensures r == Verdict(p, Slow, history.timeline)
  {
    hide SumReal, Positive, Pairs, Ratio;
    r := None;
    var slowWindow := history.RecentRatios(p.slow.window);
    if |slowWindow| == p.slow.window {
      var meanRatio := SumReal(slowWindow) / |slowWindow| as real;
      QuotientBelow(SumReal(slowWindow), |slowWindow| as real, p.slow.threshold);
      if meanRatio < p.slow.threshold {
        r := Some(SlowGuard(meanRatio, p.slow.window, p.slow.threshold));
      }
    }
  }

  /** Evaluates the policy on a history object: the guards in order, first trip wins. */
  method Evaluate(p: ReconcilePolicy, history: ReconcileHistory) returns (d: HaltDecision)
    requires p.WellFormed() && history.Valid()
    ensures d == Decide(p, history.timeline)
  {
    hide Trips, ReasonOf;
    var reason := CheckBurst(p, history);
    if reason.Some? { return Halt(reason.value); }
    reason := CheckGas(p, history);
    if reason.Some? { return Halt(reason.value); }
    reason := CheckFast(p, history);
    if reason.Some? { return Halt(reason.value); }
    reason := CheckDrawdown(p, history);
    if reason.Some? { return Halt(reason.value); }
    reason := CheckVolume(p, history);
    if reason.Some? { return Halt(reason.value); }
    reason := CheckSlow(p, history);
    if reason.Some? { return Halt(reason.value); }
    return Continue;
  }
}
