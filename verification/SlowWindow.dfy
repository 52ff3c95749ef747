/** When shortening the slow window loses no catch: exactly for divisors. */
module SlowWindow {
  import opened Arith
  import opened Bytes
  import opened History
  import opened Policy
  import opened Records
  import opened Samples
  import opened Guards
  import opened Bleed

  /** The policy of the fast guard and a slow guard with this window. */
  function Dual(f: FastGuardConfig, t: real, window: nat): (p: ReconcilePolicy)
    requires f.window > 0 && window > 0
    ensures p.WellFormed()
  {
    NewPolicy(f, SlowGuardConfig(t, window))
  }

  /** Every history the policy with the longer window halts on somewhere, so does the one with the shorter. */
  ghost predicate LosesNoCatch(f: FastGuardConfig, t: real, long: nat, short: nat)
    requires f.window > 0 && long > 0 && short > 0
  {
    forall tl :: NeverHalted(Dual(f, t, short), tl) ==> NeverHalted(Dual(f, t, long), tl)
  }

  lemma DualGuards(f: FastGuardConfig, t: real, window: nat, tl: Timeline)
    requires f.window > 0 && window > 0
    ensures Halts(Dual(f, t, window), tl)
            <==> FastTrips(f, Eligible(tl)) || SlowTrips(SlowGuardConfig(t, window), Eligible(tl))
  {
    hide FastTrips, SlowTrips, Eligible;
    var p := Dual(f, t, window);
    assert Trips(p, Fast, tl) <==> FastTrips(f, Eligible(tl));
    assert Trips(p, Slow, tl) <==> SlowTrips(SlowGuardConfig(t, window), Eligible(tl));
  }

  // ---------------------------------------------------------------------
  // A divisor loses nothing: the long window is a row of short ones.

  lemma LongPasses(f: FastGuardConfig, t: real, short: nat, blocks: nat, tl: Timeline, i: nat)
    requires f.window > 0 && short > 0 && Times(blocks, short) > 0 && 1 <= i <= |tl|
    requires NeverHalted(Dual(f, t, short), tl)
    ensures !SlowTrips(SlowGuardConfig(t, Times(blocks, short)), Eligible(tl[..i]))
  {
    hide Times, Scale, SumReal, Ratios, LastN, Eligible, NeverHalted, SlowTrips, FastTrips;
    var long, all, qs := Times(blocks, short), Eligible(tl), Eligible(tl[..i]);
    assert tl == tl[..i] + tl[i..];
    EligibleAppend(tl[..i], tl[i..]);
    SlowTripsByScale(t, long, qs);
    if |qs| >= long {
      forall j | short <= j <= |qs| ensures !SlowTrips(SlowGuardConfig(t, short), qs[..j]) {
        NoEligibleWindowTrips(Dual(f, t, short), tl, j);
        assert qs[..j] == all[..j];
      }
      SlowBlocks(SlowGuardConfig(t, short), qs, blocks);
    }
  }

  lemma DivisorLosesNoCatch(f: FastGuardConfig, t: real, short: nat, blocks: nat, tl: Timeline)
    requires f.window > 0 && short > 0 && Times(blocks, short) > 0
    requires NeverHalted(Dual(f, t, short), tl)
    ensures NeverHalted(Dual(f, t, Times(blocks, short)), tl)
  {
    hide Halts, Times, Eligible, FastTrips, SlowTrips, Dual;
    forall i | 1 <= i <= |tl| ensures !Halts(Dual(f, t, Times(blocks, short)), tl[..i]) {
      LongPasses(f, t, short, blocks, tl, i);
      DualGuards(f, t, short, tl[..i]);
      DualGuards(f, t, Times(blocks, short), tl[..i]);
    }
  }

  // ---------------------------------------------------------------------
  // Otherwise a catch is lost. All predictions are `d`; with period `short`,
  // the first `long % short` profits of each period dip and the rest make up
  // for them exactly, so that only the incomplete last period of the long
  // window is left uncompensated. No single ratio falls to the fast threshold.

  datatype Shape = Shape(d: int, low: int, high: int, period: nat, dips: nat)
  {
    predicate Valid() { d > 0 && period > 0 }
  }

  function Wave(c: Shape, i: nat): Pair
    requires c.Valid()
  {
    Pair(c.d, if i % c.period < c.dips then c.low else c.high)
  }

  function WaveRun(c: Shape, n: nat): (qs: seq<Pair>)
    requires c.Valid()
    ensures |qs| == n && forall q :: q in qs ==> q.predicted == c.d
    ensures forall i :: 0 <= i < n ==> qs[i] == Wave(c, i)
  {
    seq(n, i requires 0 <= i < n => Wave(c, i))
  }

  lemma PeriodShift(j: nat, k: nat)
    requires 0 < k <= j
    ensures j % k == (j - k) % k
  {
    DivUnique(j, k, (j - k) / k + 1, (j - k) % k);
  }

  lemma WaveRepeats(c: Shape, n: nat, j: nat)
    requires c.Valid() && c.period <= j < n
    ensures WaveRun(c, n)[j] == WaveRun(c, n)[j - c.period]
  {
    PeriodShift(j, c.period);
  }

  lemma WindowSlides(qs: seq<Pair>, j: nat, k: nat)
    requires 0 < k <= j < |qs| && qs[j] == qs[j - k]
    ensures TotalRealized(qs[j - k..j]) == TotalRealized(qs[j + 1 - k..j + 1])
  {
    var before, mid, after := qs[j - k..j], qs[j + 1 - k..j], qs[j + 1 - k..j + 1];
    assert before == [qs[j - k]] + mid && after == mid + [qs[j]];
    hide TotalRealized;
    TotalRealizedAppend([qs[j - k]], mid);
    TotalRealizedAppend(mid, [qs[j]]);
  }

  /** Every window of one period realizes the same. */
  lemma {:induction false} WaveWindows(c: Shape, n: nat, j: nat)
    requires c.Valid() && c.period <= j <= n
    ensures TotalRealized(WaveRun(c, n)[j - c.period..j]) == TotalRealized(WaveRun(c, n)[..c.period])
    decreases j
  {
    hide Wave, WaveRun, TotalRealized;
    if j > c.period {
      WaveWindows(c, n, j - 1);
      WaveRepeats(c, n, j - 1);
      WindowSlides(WaveRun(c, n), j - 1, c.period);
    }
  }

  lemma TotalSnoc(qs: seq<Pair>, m: nat)
    requires 0 < m <= |qs|
    ensures TotalRealized(qs[..m]) == TotalRealized(qs[..m - 1]) + qs[m - 1].realized
  {
    assert qs[..m][..m - 1] == qs[..m - 1];
  }

  lemma {:induction false} WavePeriod(c: Shape, n: nat, m: nat)
    requires c.Valid() && c.dips <= c.period && m <= c.period && m <= n
    ensures TotalRealized(WaveRun(c, n)[..m])
            == if m <= c.dips then Times(m, c.low) else Times(c.dips, c.low) + Times(m - c.dips, c.high)
  {
    hide Times, WaveRun;
    TimesStep(m, c.low);
    TimesStep(m - c.dips, c.high);
    TimesStep(1, c.high);
    if m > 0 {
      WavePeriod(c, n, m - 1);
      DivUnique(m - 1, c.period, 0, m - 1);
      hide TotalRealized;
      TotalSnoc(WaveRun(c, n), m);
    }
  }

  lemma WaveLastPeriod(c: Shape, n: nat)
    requires c.Valid() && c.period <= n
    ensures TotalRealized(WaveRun(c, n))
            == TotalRealized(WaveRun(c, n - c.period)) + TotalRealized(WaveRun(c, n)[..c.period])
  {
    hide Wave;
    var qs, shorter := WaveRun(c, n), WaveRun(c, n - c.period);
    assert qs == shorter + qs[n - c.period..n];
    hide TotalRealized, WaveRun;
    TotalRealizedAppend(shorter, qs[n - c.period..n]);
    WaveWindows(c, n, n);
  }

  lemma {:induction false} WaveTotal(c: Shape, blocks: nat)
    requires c.Valid() && 0 < c.dips <= c.period
    requires Times(blocks, c.period) >= 0
    ensures TotalRealized(WaveRun(c, Times(blocks, c.period) + c.dips))
            == Times(blocks, Times(c.dips, c.low) + Times(c.period - c.dips, c.high)) + Times(c.dips, c.low)
    decreases blocks
  {
    hide Times, WaveRun, TotalRealized;
    var n := Times(blocks, c.period) + c.dips;
    TimesStep(blocks, c.period);
    TimesStep(blocks, Times(c.dips, c.low) + Times(c.period - c.dips, c.high));
    if blocks == 0 {
      WavePeriod(c, n, c.dips);
      var qs := WaveRun(c, n);
      assert qs[..c.dips] == qs;
    } else {
      TimesNonNegative(blocks - 1, c.period);
      WaveTotal(c, blocks - 1);
      WaveLastPeriod(c, n);
      WavePeriod(c, n, c.period);
      TimesStep(0, c.high);
    }
  }

  // ---------------------------------------------------------------------
  // Choosing the wave.

  /** Dips of depth `rest * x` and rises of height `dips * x` around `a` cancel over a period. */
  lemma PeriodBalances(a: int, x: int, dips: nat, rest: nat)
    ensures Times(dips, a - rest * x) + Times(rest, a + dips * x) == Times(dips + rest, a)
    ensures Times(dips, a - rest * x) == Times(dips, a) - Times(dips * rest, x)
  {
  }

  lemma TimesAssociates(a: int, b: int, c: int)
    ensures Times(a, Times(b, c)) == Times(Times(a, b), c)
  {
  }

  lemma TimesDistributes(a: int, b: int, c: int)
    ensures Times(a + b, c) == Times(a, c) + Times(b, c)
  {
  }

  lemma DipAtLeast(dips: nat, rest: nat, x: nat)
    requires dips >= 1 && rest >= 1
    ensures Times(dips * rest, x) >= x
  {
    TimesMonotone(1, dips, rest);
    TimesMonotone(1, dips * rest, x);
  }

  lemma TimesScale(n: nat, c: int)
    ensures Times(n, c) as real == Scale(c as real, n as real)
  {
  }

  lemma ScaleOrder(s: real, t: real, x: real)
    requires s <= t && x >= 0.0
    ensures Scale(s, x) <= Scale(t, x)
    ensures t - s <= 1.0 ==> Scale(t, x) - Scale(s, x) <= x
  {
    assert t * x - s * x == (t - s) * x;
  }

  /** A prediction so large that a dip of `depth` is small beside the gap between the thresholds. */
  lemma LargePrediction(low: real, high: real, depth: nat) returns (d: int)
    requires low < high
    ensures d > 0 && depth as real < (high - low) * d as real
    ensures d as real <= depth as real / (high - low) + 1.0
  {
    var gap := high - low;
    var need := depth as real / gap;
    assert need >= 0.0;
    d := need.Floor + 1;
    QuotientBelow(depth as real, gap, d as real);
  }

  /** The shape for a prediction `d`: on average just above the slow threshold's share of it. */
  function Chosen(t: real, long: nat, short: nat, d: int): Shape
    requires short > 0
  {
    var dips, x, a := long % short, long + 1, Scale(t, d as real).Floor + 1;
    Shape(d, a - (short - dips) * x, a + dips * x, short, dips)
  }

  lemma DepthBound(rest: nat, short: nat, x: nat)
    requires rest <= short
    ensures rest * x <= short * x
  {
  }

  /** No pair of the chosen wave underperforms the fast threshold. */
  lemma ChosenKeepsUp(low: real, t: real, long: nat, short: nat, d: int, i: nat)
    requires d > 0 && short > 0
    requires (short * (long + 1)) as real < (t - low) * d as real
    ensures !Underperforms(Wave(Chosen(t, long, short, d), i), low)
  {
    var c, dips, x := Chosen(t, long, short, d), long % short, long + 1;
    var a := Scale(t, d as real).Floor + 1;
    DepthBound(short - dips, short, x);
    TimesNonNegative(dips, x);
    TimesNonNegative(short - dips, x);
    assert (t - low) * d as real == t * d as real - low * d as real;
    assert c.low <= c.high;
    assert c.low as real > low * d as real;
  }

  function Abs(x: real): real { if x < 0.0 then -x else x }

  /** The greatest prediction and the greatest profit the chosen wave can need. */
  function PredictionSize(f: FastGuardConfig, t: real, long: nat, short: nat): real
    requires f.threshold < t
  {
    (short * (long + 1)) as real / (t - f.threshold) + 1.0
  }

  function ProfitSize(f: FastGuardConfig, t: real, long: nat, short: nat): real
    requires f.threshold < t
  {
    Abs(t) * PredictionSize(f, t, long, short) + (short * (long + 1)) as real + 1.0
  }

  /** Both fit the source's signed 128-bit integers. */
  predicate InWidth(f: FastGuardConfig, t: real, long: nat, short: nat)
    requires f.threshold < t
  {
    PredictionSize(f, t, long, short) < TWO_127 as real && ProfitSize(f, t, long, short) < TWO_127 as real
  }

  lemma ScaleBounded(t: real, d: real, size: real)
    requires 0.0 <= d <= size
    ensures -(Abs(t) * size) <= Scale(t, d) <= Abs(t) * size
  {
    var a := Abs(t);
    assert a * d <= a * size;
    assert -(a * d) <= t * d <= a * d;
  }

  lemma ChosenSize(t: real, long: nat, short: nat, d: int, i: nat)
    requires d > 0 && short > 0
    ensures var depth, u, q := (short * (long + 1)) as real, Scale(t, d as real), Wave(Chosen(t, long, short, d), i);
            q.predicted == d && u - depth <= q.realized as real <= u + depth + 1.0
  {
    hide Scale;
    var dips, x := long % short, long + 1;
    DepthBound(short - dips, short, x);
    DepthBound(dips, short, x);
    TimesNonNegative(dips, x);
    TimesNonNegative(short - dips, x);
  }

  lemma NearFits(r: int, u: real, depth: real, bound: real)
    requires -bound <= u <= bound && u - depth <= r as real <= u + depth + 1.0
    requires bound + depth + 1.0 < TWO_127 as real
    ensures -TWO_127 <= r < TWO_127
  {
    assert -(TWO_127 as real) < r as real < TWO_127 as real;
  }

  lemma ChosenFits(f: FastGuardConfig, t: real, long: nat, short: nat, d: int, i: nat)
    requires d > 0 && short > 0 && f.threshold < t && InWidth(f, t, long, short)
    requires d as real <= PredictionSize(f, t, long, short)
    ensures Chosen(t, long, short, d).Valid()
    ensures var q := Wave(Chosen(t, long, short, d), i);
            0 < q.predicted < TWO_127 && -TWO_127 <= q.realized < TWO_127
  {
    hide Wave, Scale, Chosen, Abs, PredictionSize;
    ChosenFields(t, long, short, d);
    var size := PredictionSize(f, t, long, short);
    ScaleBounded(t, d as real, size);
    ChosenSize(t, long, short, d, i);
    NearFits(Wave(Chosen(t, long, short, d), i).realized, Scale(t, d as real),
      (short * (long + 1)) as real, Abs(t) * size);
  }

  lemma ChosenEncodable(f: FastGuardConfig, t: real, long: nat, short: nat, d: int)
    requires d > 0 && short > 0 && f.threshold < t && InWidth(f, t, long, short)
    requires d as real <= PredictionSize(f, t, long, short)
    ensures AllEncodable(SequenceTimeline(WaveRun(Chosen(t, long, short, d), long)))
  {
    hide Wave, Scale, Chosen, Abs, PredictionSize, InWidth;
    ChosenFields(t, long, short, d);
    var s := WaveRun(Chosen(t, long, short, d), long);
    forall i | 0 <= i < |s| ensures Encodable(SequenceTimeline(s)[i]) {
      ChosenFits(f, t, long, short, d, i);
      assert s[i] == Wave(Chosen(t, long, short, d), i);
    }
  }

  lemma WaveBalances(t: real, long: nat, short: nat, d: int)
    requires d > 0 && short > 0 && long % short != 0
    ensures var c, a := Chosen(t, long, short, d), Scale(t, d as real).Floor + 1;
            && c.Valid() && c.period == short && c.dips == long % short
            && Times(c.dips, c.low) + Times(short - c.dips, c.high) == Times(short, a)
            && Times(c.dips, c.low) <= Times(c.dips, a) - (long + 1)
  {
    hide Times, Scale;
    var dips, x, a := long % short, long + 1, Scale(t, d as real).Floor + 1;
    PeriodBalances(a, x, dips, short - dips);
    DipAtLeast(dips, short - dips, x);
  }

  /** The long window falls short of the threshold. */
  lemma ChosenTotal(t: real, long: nat, short: nat, d: int)
    requires d > 0 && short > 0 && long % short != 0
    ensures var c := Chosen(t, long, short, d);
            c.Valid() && TotalRealized(WaveRun(c, long)) as real < Scale(Scale(t, d as real), long as real)
  {
    hide Times, Scale, Wave, WaveRun, TotalRealized, Chosen;
    var blocks, u, c := long / short, Scale(t, d as real), Chosen(t, long, short, d);
    var a := u.Floor + 1;
    BlocksFit(long, short);
    WaveBalances(t, long, short, d);
    WaveTotal(c, blocks);
    TimesAssociates(blocks, short, a);
    TimesDistributes(Times(blocks, short), c.dips, a);
    TimesScale(long, a);
    ScaleOrder(u, a as real, long as real);
  }

  /** One period does not. */
  lemma ChosenPeriod(t: real, long: nat, short: nat, d: int)
    requires d > 0 && short > 0 && long % short != 0 && long >= short
    ensures var c := Chosen(t, long, short, d);
            && c.Valid()
            && TotalRealized(WaveRun(c, long)[..short]) as real >= Scale(Scale(t, d as real), short as real)
  {
    hide Times, Scale, Wave, WaveRun, TotalRealized, Chosen;
    var u, c := Scale(t, d as real), Chosen(t, long, short, d);
    var a := u.Floor + 1;
    WaveBalances(t, long, short, d);
    WavePeriod(c, long, short);
    TimesStep(0, c.high);
    TimesScale(short, a);
    ScaleOrder(u, a as real, short as real);
  }

  // ---------------------------------------------------------------------
  // The guards on a run of equal predictions.

  lemma ScaleBoth(d: real, s: real, t: real, k: real)
    requires d > 0.0
    ensures s < Scale(t, k) <==> Scale(d, s) < Scale(Scale(t, d), k)
  {
    var y := t * k;
    assert (t * d) * k == d * y;
    if s < y { assert d * s < d * y; } else { assert d * s >= d * y; }
  }

  /** With equal predictions the mean test is a test of the total. */
  lemma SlowByTotal(t: real, window: nat, qs: seq<Pair>, d: int)
    requires d > 0 && forall q :: q in qs ==> q.predicted == d
    ensures SlowTrips(SlowGuardConfig(t, window), qs)
            <==> && |qs| >= window
                 && TotalRealized(LastN(qs, window)) as real < Scale(Scale(t, d as real), window as real)
  {
    hide Scale, SumReal, Ratios, TotalRealized, SlowTrips;
    SlowTripsByScale(t, window, qs);
    var w := LastN(qs, window);
    EqualPredictionTotals(w, d);
    ScaleBoth(d as real, SumReal(Ratios(w)), t, window as real);
  }

  lemma ShortNeverTrips(t: real, long: nat, short: nat, d: int, j: nat)
    requires d > 0 && short > 0 && long % short != 0 && j <= long
    ensures !SlowTrips(SlowGuardConfig(t, short), WaveRun(Chosen(t, long, short, d), long)[..j])
  {
    hide Scale, Wave, Chosen, TotalRealized, SlowTrips, WaveRun;
    var c := Chosen(t, long, short, d);
    ChosenFields(t, long, short, d);
    var qs := WaveRun(c, long);
    SlowByTotal(t, short, qs[..j], d);
    if j >= short {
      ChosenPeriod(t, long, short, d);
      WaveWindows(c, long, j);
      assert LastN(qs[..j], short) == qs[j - short..j];
    }
  }

  lemma ChosenFields(t: real, long: nat, short: nat, d: int)
    requires short > 0
    ensures Chosen(t, long, short, d).d == d && Chosen(t, long, short, d).period == short
    ensures d > 0 ==> Chosen(t, long, short, d).Valid()
  {
  }

  lemma FastNeverTrips(f: FastGuardConfig, t: real, long: nat, short: nat, d: int, j: nat)
    requires d > 0 && short > 0 && f.window > 0 && j <= long
    requires (short * (long + 1)) as real < (t - f.threshold) * d as real
    ensures Chosen(t, long, short, d).Valid()
    ensures !FastTrips(f, WaveRun(Chosen(t, long, short, d), long)[..j])
  {
    hide Wave, Underperforms, Scale;
    var c := Chosen(t, long, short, d);
    var qs := WaveRun(c, long)[..j];
    if j >= f.window {
      ChosenKeepsUp(f.threshold, t, long, short, d, j - 1);
      assert qs[j - 1] == Wave(c, j - 1);
    }
  }

  /** A run of `long` trades that the policy with the long window halts on at its end, and the other never. */
  lemma MissedByShorter(f: FastGuardConfig, t: real, long: nat, short: nat) returns (s: Sequence)
    requires f.window > 0 && long > 0 && short > 0 && f.threshold < t && long % short != 0
    ensures |s| == long && forall q :: q in s ==> q.predicted > 0
    ensures NeverHalted(Dual(f, t, short), SequenceTimeline(s))
    ensures Halts(Dual(f, t, long), SequenceTimeline(s))
    ensures InWidth(f, t, long, short) ==> AllEncodable(SequenceTimeline(s))
  {
    hide InWidth, Encodable, Wave, Chosen, Scale, Halts, FastTrips, SlowTrips, Eligible, Dual,
      SequenceTimeline, TotalRealized, WaveRun;
    var d := LargePrediction(f.threshold, t, short * (long + 1));
    ChosenTotal(t, long, short, d);
    ChosenFields(t, long, short, d);
    s := WaveRun(Chosen(t, long, short, d), long);
    if InWidth(f, t, long, short) {
      ChosenEncodable(f, t, long, short, d);
    }
    EligibleOfSequence(s);
    assert LastN(s, long) == s;
    SlowByTotal(t, long, s, d);
    DualGuards(f, t, long, SequenceTimeline(s));
    forall j | 1 <= j <= |s| ensures !Halts(Dual(f, t, short), SequenceTimeline(s)[..j]) {
      SequencePrefix(s, j);
      EligibleOfSequence(s[..j]);
      ShortNeverTrips(t, long, short, d, j);
      FastNeverTrips(f, t, long, short, d, j);
      DualGuards(f, t, short, SequenceTimeline(s)[..j]);
    }
  }

  /**
   * With the thresholds in the order the constructor asserts, shortening the
   * slow window never loses a catch, over all histories and for every fast
   * guard, exactly when the shorter window divides the longer one.
   */
  lemma SlowWindowShrinksSafelyExactly(f: FastGuardConfig, t: real, long: nat, short: nat)
    requires f.window > 0 && long > 0 && short > 0 && f.threshold < t
    ensures LosesNoCatch(f, t, long, short) <==> long % short == 0
  {
    hide NeverHalted, Dual;
    if long % short == 0 {
      BlocksFit(long, short);
      var blocks := long / short;
      forall tl | NeverHalted(Dual(f, t, short), tl) ensures NeverHalted(Dual(f, t, long), tl) {
        DivisorLosesNoCatch(f, t, short, blocks, tl);
      }
    } else {
      var s := MissedByShorter(f, t, long, short);
      HaltedIsHalted(Dual(f, t, long), SequenceTimeline(s));
    }
  }

  /** The same over histories of 128-bit profits, unless the window or the gap between the thresholds is extreme. */
  ghost predicate LosesNoEncodableCatch(f: FastGuardConfig, t: real, long: nat, short: nat)
    requires f.window > 0 && long > 0 && short > 0
  {
    forall tl | AllEncodable(tl) :: NeverHalted(Dual(f, t, short), tl) ==> NeverHalted(Dual(f, t, long), tl)
  }

  lemma SlowWindowShrinksSafelyInWidth(f: FastGuardConfig, t: real, long: nat, short: nat)
    requires f.window > 0 && long > 0 && short > 0 && f.threshold < t && InWidth(f, t, long, short)
    ensures LosesNoEncodableCatch(f, t, long, short) <==> long % short == 0
  {
    hide NeverHalted, Dual, InWidth, AllEncodable, SequenceTimeline;
    if long % short == 0 {
      SlowWindowShrinksSafelyExactly(f, t, long, short);
    } else {
      var s := MissedByShorter(f, t, long, short);
      HaltedIsHalted(Dual(f, t, long), SequenceTimeline(s));
    }
  }

  /** The shipped default thresholds and windows are far inside. */
  lemma DefaultsInWidth(short: nat)
    requires 0 < short <= 20
    ensures InWidth(FastGuardConfig(0.5, 3), 0.7, 20, short)
  {
    var depth := (short * 21) as real;
    assert depth <= 420.0;
    assert depth / 0.2 <= 2100.0;
  }

  lemma HaltedIsHalted(p: ReconcilePolicy, tl: Timeline)
    requires Halts(p, tl) && tl != []
    ensures !NeverHalted(p, tl)
  {
    assert tl[..|tl|] == tl;
  }
}
