/** How the three ratio guards relate. */
module Guards {
  import opened Arith
  import opened History
  import opened Policy
  import opened Samples

  // ---------------------------------------------------------------------
  // Sums of pairs that all fall below, or all rise above, one threshold.

  lemma UnderScale(q: Pair, t: real)
    ensures Underperforms(q, t) <==> q.realized as real < Scale(t, q.predicted as real)
  {
  }

  /** Pairs that each underperform underperform together. */
  lemma {:induction false} UnderTotal(qs: seq<Pair>, t: real)
    requires qs != [] && forall q :: q in qs ==> Underperforms(q, t)
    ensures TotalRealized(qs) as real < Scale(t, TotalPredicted(qs) as real)
  {
    hide Scale, Underperforms;
    var front, last := qs[..|qs| - 1], qs[|qs| - 1];
    UnderScale(last, t);
    ScaleAdd(t, TotalPredicted(front) as real, last.predicted as real);
    if front != [] {
      UnderTotal(front, t);
    }
  }

  lemma {:induction false} OverTotal(qs: seq<Pair>, t: real)
    requires qs != [] && forall q :: q in qs ==> q.realized as real > Scale(t, q.predicted as real)
    ensures TotalRealized(qs) as real > Scale(t, TotalPredicted(qs) as real)
  {
    hide Scale;
    var front, last := qs[..|qs| - 1], qs[|qs| - 1];
    assert last in qs;
    ScaleAdd(t, TotalPredicted(front) as real, last.predicted as real);
    if front != [] {
      OverTotal(front, t);
    }
  }

  /** Pairs that each underperform have a mean ratio below the threshold. */
  lemma {:induction false} UnderMean(qs: seq<Pair>, t: real)
    requires qs != [] && forall q :: q in qs ==> q.predicted > 0 && Underperforms(q, t)
    ensures SumReal(Ratios(qs)) < Scale(t, |qs| as real)
  {
    hide Scale, Underperforms, Ratio;
    var front, last := qs[..|qs| - 1], qs[|qs| - 1];
    UnderRatio(last, t);
    assert Scale(t, 1.0) == t by { ScaleOne(t); }
    ScaleAdd(t, |front| as real, 1.0);
    assert Ratios(qs)[..|qs| - 1] == Ratios(front);
    if front != [] {
      UnderMean(front, t);
    }
  }

  // ---------------------------------------------------------------------
  // The guards with their products named.

  lemma SlowTripsByScale(t: real, window: nat, qs: seq<Pair>)
    requires forall q :: q in qs ==> q.predicted > 0
    ensures SlowTrips(SlowGuardConfig(t, window), qs)
            <==> |qs| >= window && SumReal(Ratios(LastN(qs, window))) < Scale(t, window as real)
  {
  }

  lemma VolumeTripsByScale(c: VolumeWeightedConfig, qs: seq<Pair>)
    ensures var w := LastN(qs, c.window);
            VolumeTrips(c, qs)
            <==> |qs| >= c.window && TotalRealized(w) as real < Scale(c.threshold, TotalPredicted(w) as real)
  {
  }

  // ---------------------------------------------------------------------
  // Fast against slow.

  lemma UnderWindow(qs: seq<Pair>, low: real, high: real, wide: nat, narrow: nat)
    requires 0 < narrow <= wide <= |qs| && low <= high
    requires forall q :: q in qs ==> q.predicted > 0
    requires forall k :: |qs| - wide <= k < |qs| ==> Underperforms(qs[k], low)
    ensures forall q :: q in LastN(qs, narrow) ==> q.predicted > 0 && Underperforms(q, high)
  {
    var w := LastN(qs, narrow);
    forall i | 0 <= i < |w| ensures w[i].predicted > 0 && Underperforms(w[i], high) {
      var q := qs[|qs| - narrow + i];
      assert q in qs;
      UnderRatio(q, low);
      UnderRatio(q, high);
    }
  }

  /** With a slow window no longer than the fast one, the slow guard sees whatever the fast one sees. */
  lemma FastImpliesSlow(f: FastGuardConfig, s: SlowGuardConfig, tl: Timeline)
    requires 0 < s.window <= f.window && f.threshold <= s.threshold
    requires FastTrips(f, Eligible(tl))
    ensures SlowTrips(s, Eligible(tl))
  {
    hide Eligible, Underperforms, SumReal, Ratios;
    UnderWindow(Eligible(tl), f.threshold, s.threshold, f.window, s.window);
    UnderMean(LastN(Eligible(tl), s.window), s.threshold);
    hide SlowTrips, Scale;
    SlowTripsByScale(s.threshold, s.window, Eligible(tl));
    assert s == SlowGuardConfig(s.threshold, s.window);
  }

  ghost predicate OnlyFast(f: FastGuardConfig, s: SlowGuardConfig, tl: Timeline) {
    |Eligible(tl)| >= s.window && FastTrips(f, Eligible(tl)) && !SlowTrips(s, Eligible(tl))
  }

  /** A large gain just before `f.window` losses: the mean stays up while the last ratios are down. */
  lemma OnlyFastWitness(f: FastGuardConfig, s: SlowGuardConfig) returns (tl: Timeline)
    requires 0 < f.window < s.window
    ensures OnlyFast(f, s, tl)
  {
    hide Eligible, SumReal, Ratio, Ratios, Underperforms;
    var low := IntBelow(f.threshold);
    var losses, bad := Repeat(Trade(1, low), f.window), Repeat(Pair(1, low), f.window);
    EligibleOfRepeat(1, low, f.window);
    var gain := 1 + (s.threshold * s.window as real - SumReal(Ratios(bad))).Floor;
    tl := Repeat(Trade(1, 0), s.window) + [Trade(1, gain)] + losses;
    EligibleAfterLoss(s.window, gain, losses);
    WindowAfterLoss(s.window, gain, bad);
    RatioSumAfterLoss(s.window - 1 - |bad|, gain, bad);
    var head := Repeat(Pair(1, 0), s.window) + [Pair(1, gain)];
    assert Eligible(tl) == head + bad;
    LossesTripFast(f, head, low);
  }

  lemma LossesTripFast(f: FastGuardConfig, head: seq<Pair>, low: int)
    requires low as real < f.threshold
    ensures FastTrips(f, head + Repeat(Pair(1, low), f.window))
  {
    assert Underperforms(Pair(1, low), f.threshold);
  }

  /**
   * For thresholds in the documented order, a history long enough for both
   * guards on which only the fast guard trips exists exactly when the slow
   * window is the longer one.
   */
  lemma FastAddsCoverageExactly(f: FastGuardConfig, s: SlowGuardConfig)
    requires f.window > 0 && s.window > 0 && f.threshold < s.threshold
    ensures (exists tl :: OnlyFast(f, s, tl)) <==> f.window < s.window
  {
    if f.window < s.window {
      var tl := OnlyFastWitness(f, s);
    } else {
      forall tl ensures !OnlyFast(f, s, tl) {
        if FastTrips(f, Eligible(tl)) {
          FastImpliesSlow(f, s, tl);
        }
      }
    }
  }

  /** An integer pair whose ratio lies strictly between two thresholds. */
  lemma PairBetween(low: real, high: real) returns (q: Pair)
    requires low < high
    ensures q.predicted > 0 && !Underperforms(q, low) && Underperforms(q, high)
  {
    var gap := high - low;
    var p := (1.0 / gap).Floor + 1;
    var x := p as real;
    assert x > 1.0 / gap > 0.0;
    InverseGap(x, gap);
    var r := (low * x).Floor + 1;
    q := Pair(p, r);
    assert high * x == low * x + gap * x;
  }

  lemma InverseGap(x: real, gap: real)
    requires gap > 0.0 && x > 1.0 / gap
    ensures gap * x > 1.0
  {
    QuotientBelow(1.0, gap, x);
  }

  /** For every choice of windows, some history trips the slow guard and not the fast one. */
  lemma SlowAddsCoverage(f: FastGuardConfig, s: SlowGuardConfig) returns (tl: Timeline)
    requires f.window > 0 && s.window > 0 && f.threshold < s.threshold
    ensures |Eligible(tl)| >= f.window && |Eligible(tl)| >= s.window
    ensures SlowTrips(s, Eligible(tl)) && !FastTrips(f, Eligible(tl))
  {
    hide Eligible, SumReal, Ratio, Ratios, Underperforms;
    var q := PairBetween(f.threshold, s.threshold);
    var n := f.window + s.window;
    tl := Repeat(Trade(q.predicted, q.realized), n);
    EligibleOfRepeat(q.predicted, q.realized, n);
    var qs := Repeat(q, n);
    assert Eligible(tl) == qs && qs[n - 1] == q;
    UnderMean(LastN(qs, s.window), s.threshold);
    hide SlowTrips, Scale;
    SlowTripsByScale(s.threshold, s.window, qs);
    assert s == SlowGuardConfig(s.threshold, s.window);
  }

  // ---------------------------------------------------------------------
  // Fast against volume-weighted.

  lemma FastImpliesVolume(f: FastGuardConfig, v: VolumeWeightedConfig, tl: Timeline)
    requires 0 < v.window <= f.window && f.threshold <= v.threshold
    requires FastTrips(f, Eligible(tl))
    ensures VolumeTrips(v, Eligible(tl))
  {
    hide Eligible, Underperforms, TotalRealized, TotalPredicted;
    UnderWindow(Eligible(tl), f.threshold, v.threshold, f.window, v.window);
    UnderTotal(LastN(Eligible(tl), v.window), v.threshold);
    hide VolumeTrips, Scale;
    VolumeTripsByScale(v, Eligible(tl));
  }

  ghost predicate FastWithoutVolume(f: FastGuardConfig, v: VolumeWeightedConfig, tl: Timeline) {
    |Eligible(tl)| >= v.window && FastTrips(f, Eligible(tl)) && !VolumeTrips(v, Eligible(tl))
  }

  lemma FastWithoutVolumeWitness(f: FastGuardConfig, v: VolumeWeightedConfig) returns (tl: Timeline)
    requires 0 < f.window < v.window
    ensures FastWithoutVolume(f, v, tl)
  {
    hide Eligible, TotalRealized, TotalPredicted, Underperforms;
    var low := IntBelow(f.threshold);
    var losses, bad := Repeat(Trade(1, low), f.window), Repeat(Pair(1, low), f.window);
    EligibleOfRepeat(1, low, f.window);
    var total := v.window - |bad| + TotalPredicted(bad);
    var gain := 1 + (v.threshold * total as real - TotalRealized(bad) as real).Floor;
    tl := Repeat(Trade(1, 0), v.window) + [Trade(1, gain)] + losses;
    EligibleAfterLoss(v.window, gain, losses);
    WindowAfterLoss(v.window, gain, bad);
    TotalsAfterLoss(v.window - 1 - |bad|, gain, bad);
    var head := Repeat(Pair(1, 0), v.window) + [Pair(1, gain)];
    assert Eligible(tl) == head + bad;
    LossesTripFast(f, head, low);
  }

  /** With `T_f <= T_v`, the weighted guard covers the fast one exactly when its window is no longer. */
  lemma FastAddsToVolumeExactly(f: FastGuardConfig, v: VolumeWeightedConfig)
    requires f.window > 0 && v.window > 0 && f.threshold <= v.threshold
    ensures (exists tl :: FastWithoutVolume(f, v, tl)) <==> f.window < v.window
  {
    if f.window < v.window {
      var tl := FastWithoutVolumeWitness(f, v);
    } else {
      forall tl ensures !FastWithoutVolume(f, v, tl) {
        if FastTrips(f, Eligible(tl)) {
          FastImpliesVolume(f, v, tl);
        }
      }
    }
  }

  // ---------------------------------------------------------------------
  // What the weighted ratio is.

  function WeightedRatio(qs: seq<Pair>): real
    requires qs != [] && forall q :: q in qs ==> q.predicted > 0
  {
    TotalPredictedPositive(qs);
    TotalRealized(qs) as real / TotalPredicted(qs) as real
  }

  lemma WeightedRatioScale(qs: seq<Pair>)
    requires qs != [] && forall q :: q in qs ==> q.predicted > 0
    ensures TotalRealized(qs) as real == Scale(WeightedRatio(qs), TotalPredicted(qs) as real)
  {
    TotalPredictedPositive(qs);
  }

  lemma RatioScale(q: Pair, t: real)
    requires q.predicted > 0
    ensures Ratio(q) > t <==> q.realized as real > Scale(t, q.predicted as real)
  {
    var x, y := q.realized as real, q.predicted as real;
    assert x == (x / y) * y;
    if x / y > t {
      assert (x / y) * y > t * y;
    } else {
      assert (x / y) * y <= t * y;
    }
  }

  /** The weighted ratio lies between the least and the greatest ratio of its window. */
  lemma WeightedBetween(qs: seq<Pair>)
    requires qs != [] && forall q :: q in qs ==> q.predicted > 0
    ensures exists q :: q in qs && Ratio(q) <= WeightedRatio(qs)
    ensures exists q :: q in qs && Ratio(q) >= WeightedRatio(qs)
  {
    hide Scale, Underperforms, Ratio, WeightedRatio, TotalRealized, TotalPredicted;
    var t := WeightedRatio(qs);
    WeightedRatioScale(qs);
    if forall q :: q in qs ==> Ratio(q) < t {
      forall q | q in qs ensures Underperforms(q, t) {
        UnderRatio(q, t);
      }
      UnderTotal(qs, t);
    }
    if forall q :: q in qs ==> Ratio(q) > t {
      forall q | q in qs ensures q.realized as real > Scale(t, q.predicted as real) {
        RatioScale(q, t);
      }
      OverTotal(qs, t);
    }
  }

  lemma {:induction false} EqualPredictionTotals(qs: seq<Pair>, d: int)
    requires d > 0 && forall q :: q in qs ==> q.predicted == d
    ensures TotalPredicted(qs) as real == Scale(d as real, |qs| as real)
    ensures TotalRealized(qs) as real == Scale(d as real, SumReal(Ratios(qs)))
  {
    hide Scale, Ratio;
    if qs == [] {
      ScaleAdd(d as real, 0.0, 0.0);
    } else {
      var front, last := qs[..|qs| - 1], qs[|qs| - 1];
      EqualPredictionTotals(front, d);
      assert Ratios(qs)[..|qs| - 1] == Ratios(front);
      ScaleAdd(d as real, SumReal(Ratios(front)), Ratio(last));
      ScaleAdd(d as real, |front| as real, 1.0);
      ScaleOne(d as real);
      RatioTimes(last);
    }
  }

  lemma RatioTimes(q: Pair)
    requires q.predicted > 0
    ensures Scale(q.predicted as real, Ratio(q)) == q.realized as real
    ensures Scale(q.predicted as real, 1.0) == q.predicted as real
  {
  }

  /** When all predictions are equal the weighted ratio is the mean ratio. */
  lemma WeightedIsMean(qs: seq<Pair>, d: int)
    requires qs != [] && d > 0 && forall q :: q in qs ==> q.predicted == d
    ensures WeightedRatio(qs) == SumReal(Ratios(qs)) / |qs| as real
  {
    hide Ratios, SumReal, TotalRealized, TotalPredicted;
    EqualPredictionTotals(qs, d);
    TotalPredictedPositive(qs);
    CancelFactor(d as real, SumReal(Ratios(qs)), |qs| as real);
  }

  lemma CancelFactor(d: real, x: real, y: real)
    requires d > 0.0 && y > 0.0
    ensures Scale(d, y) > 0.0 && Scale(d, x) / Scale(d, y) == x / y
  {
    var z := x / y;
    assert x == z * y;
    assert d * x == z * (d * y);
  }

  /** The weighted guard is a cap on slippage relative to predicted volume. */
  lemma VolumeIsRelativeSlippage(v: VolumeWeightedConfig, qs: seq<Pair>)
    requires |qs| >= v.window
    ensures var w := LastN(qs, v.window);
            VolumeTrips(v, qs) <==> Slippage(w) as real > (1.0 - v.threshold) * TotalPredicted(w) as real
  {
    hide LastN;
    SlippageIsDifference(LastN(qs, v.window));
  }
}
