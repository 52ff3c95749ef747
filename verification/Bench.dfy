/** The benchmark's parameter sweep, and its agreement with the batch engine. */
module Bench {
  import opened Arith
  import opened History
  import opened Policy
  import opened Tightening
  import opened Samples
  import opened Bleed
  import opened SlowWindow
  import opened Replay
  import opened Batch
  import opened Columns

  /** One more than the index of the first halt. */
  function TimeToHalt(p: ReconcilePolicy, s: Sequence): Option<nat>
    requires p.WellFormed()
  {
    match FirstHalt(p, SequenceTimeline(s))
    case None => None
    case Some(i) => Some(i + 1)
  }

  /** The shortest part of the sequence the policy halts on has `n` trades. */
  ghost predicate HaltsFirstAt(p: ReconcilePolicy, s: Sequence, n: nat) {
    && 1 <= n <= |s| && Halts(p, SequenceTimeline(s)[..n])
    && forall m :: 1 <= m < n ==> !Halts(p, SequenceTimeline(s)[..m])
  }

  lemma TimeToHaltMeans(p: ReconcilePolicy, s: Sequence)
    requires p.WellFormed()
    ensures TimeToHalt(p, s).None? <==> NeverHalted(p, SequenceTimeline(s))
    ensures forall n: nat :: TimeToHalt(p, s) == Some(n) <==> HaltsFirstAt(p, s, n)
  {
    var tl := SequenceTimeline(s);
    FirstHaltIsFirst(p, tl, FirstHalt(p, tl));
    hide FirstHalt, SequenceTimeline, Decide, Halts;
    forall i | 1 <= i <= |tl| ensures Halts(p, tl[..i]) <==> HaltsAfter(p, tl, i - 1) {
      DecideHalts(p, tl[..i]);
    }
    if TimeToHalt(p, s).Some? {
      HaltIsUnique(p, s, TimeToHalt(p, s).value);
    }
  }

  lemma HaltIsUnique(p: ReconcilePolicy, s: Sequence, n: nat)
    requires HaltsFirstAt(p, s, n)
    ensures forall m: nat :: HaltsFirstAt(p, s, m) ==> m == n
  {
    hide Halts, SequenceTimeline;
  }

  lemma FoundFirst(p: ReconcilePolicy, s: Sequence, o: Option<nat>)
    requires p.WellFormed() && IsFirstHalt(p, SequenceTimeline(s), o)
    ensures TimeToHalt(p, s) == match o case None => None case Some(i) => Some(i + 1)
    ensures o.None? <==> NeverHalted(p, SequenceTimeline(s))
    ensures o.Some? ==> HaltsFirstAt(p, s, o.value + 1)
  {
    FirstHaltIsFirst(p, SequenceTimeline(s), o);
    TimeToHaltMeans(p, s);
    hide NeverHalted, HaltsFirstAt, FirstHalt, SequenceTimeline;
  }

  /** Replays the sequence and stops at the first halt, reporting its 1-based count. */
  method RunToFirstHalt(p: ReconcilePolicy, s: Sequence) returns (r: Option<nat>)
    requires p.WellFormed()
    ensures r.Some? ==> r.value > 0
    ensures IsFirstHalt(p, SequenceTimeline(s), if r.Some? then Some(r.value - 1) else None)
    ensures r == TimeToHalt(p, s)
    ensures r.None? <==> NeverHalted(p, SequenceTimeline(s))
    ensures r.Some? ==> HaltsFirstAt(p, s, r.value)
  {
    hide Decide, TimeToHalt, NeverHalted, HaltsFirstAt, Halts, Pairs, Reverts;
    var history := new ReconcileHistory();
    ghost var tl := SequenceTimeline(s);
    for i := 0 to |s|
      invariant fresh(history) && history.Valid() && history.timeline == tl[..i]
      invariant forall k :: 0 <= k < i ==> !HaltsAfter(p, tl, k)
    {
      history.Append(s[i].predicted, s[i].realized);
      assert tl[..i + 1] == tl[..i] + [tl[i]];
      var d := Evaluate(p, history);
      if d.Halt? {
        assert HaltsAfter(p, tl, i);
        FoundFirst(p, s, Some(i));
        return Some(i + 1);
      }
    }
    FoundFirst(p, s, None);
    return None;
  }

  // ---------------------------------------------------------------------
  // Batches.

  /** Times to halt of the sequences the policy halts on, in batch order. */
  function CatchTimes(p: ReconcilePolicy, batch: seq<Sequence>): (times: seq<nat>)
    requires p.WellFormed()
    ensures |times| <= |batch|
  {
    if batch == [] then []
    else
      var last := TimeToHalt(p, batch[|batch| - 1]);
      CatchTimes(p, batch[..|batch| - 1]) + if last.Some? then [last.value] else []
  }

  function Sum(ns: seq<nat>): nat {
    if ns == [] then 0 else Sum(ns[..|ns| - 1]) + ns[|ns| - 1]
  }

  /** A fraction of a batch; None, not a number, for an empty batch. */
  function Rate(count: nat, total: nat): Option<real> {
    if total == 0 then None else Some(count as real / total as real)
  }

  /** None, not a number, when nothing was caught. */
  function Mean(times: seq<nat>): Option<real> {
    if times == [] then None else Some(Sum(times) as real / |times| as real)
  }

  datatype BenchResult = BenchResult(
    fast: FastGuardConfig,
    slow: SlowGuardConfig,
    falseHaltRate: Option<real>,
    missedCatchRate: Option<real>,
    meanTimeToCatch: Option<real>)

  datatype GridPoint = GridPoint(fast: FastGuardConfig, slow: SlowGuardConfig)
  {
    predicate WellFormed() { fast.window > 0 && slow.window > 0 }
  }

  /** What the sweep reports for one policy. */
  function Report(pt: GridPoint, healthy: seq<Sequence>, drifted: seq<Sequence>): BenchResult
    requires pt.WellFormed()
  {
    var p := NewPolicy(pt.fast, pt.slow);
    var times := CatchTimes(p, drifted);
    BenchResult(
      pt.fast, pt.slow,
      Rate(|CatchTimes(p, healthy)|, |healthy|),
      Rate(|drifted| - |times|, |drifted|),
      Mean(times))
  }

  method CollectTimes(p: ReconcilePolicy, batch: seq<Sequence>) returns (times: seq<nat>)
    requires p.WellFormed()
    ensures times == CatchTimes(p, batch)
  {
    times := [];
    for i := 0 to |batch|
      invariant times == CatchTimes(p, batch[..i])
    {
      hide IsFirstHalt, FirstHalt, SequenceTimeline;
      assert batch[..i + 1][..i] == batch[..i];
      var r := RunToFirstHalt(p, batch[i]);
      if r.Some? {
        times := times + [r.value];
      }
    }
    assert batch[..|batch|] == batch;
  }

  lemma ReportOf(pt: GridPoint, healthy: seq<Sequence>, drifted: seq<Sequence>)
    requires pt.WellFormed()
    ensures var p := NewPolicy(pt.fast, pt.slow);
            var times := CatchTimes(p, drifted);
            Report(pt, healthy, drifted)
            == BenchResult(
                 pt.fast, pt.slow,
                 Rate(|CatchTimes(p, healthy)|, |healthy|),
                 Rate(|drifted| - |times|, |drifted|),
                 Mean(times))
  {
    hide Mean, Rate, CatchTimes;
  }

  // What the numbers of a report mean.

  /** How many sequences of the batch the policy halts on somewhere. */
  ghost function Halted(p: ReconcilePolicy, batch: seq<Sequence>): nat {
    |set j | 0 <= j < |batch| && !NeverHalted(p, SequenceTimeline(batch[j]))|
  }

  /** The length of the shortest halting part, or 0 if there is none. */
  ghost function Delay(p: ReconcilePolicy, s: Sequence): nat {
    if n: nat :| HaltsFirstAt(p, s, n) then n else 0
  }

  /** These lengths, added up over a batch. */
  ghost function Delays(p: ReconcilePolicy, batch: seq<Sequence>): nat {
    if batch == [] then 0 else Delays(p, batch[..|batch| - 1]) + Delay(p, batch[|batch| - 1])
  }

  lemma HaltedSnoc(p: ReconcilePolicy, batch: seq<Sequence>)
    requires batch != []
    ensures var n := |batch| - 1;
            Halted(p, batch) == Halted(p, batch[..n]) + if NeverHalted(p, SequenceTimeline(batch[n])) then 0 else 1
  {
    hide NeverHalted, SequenceTimeline;
    var n, front := |batch| - 1, batch[..|batch| - 1];
    var before := set j | 0 <= j < |front| && !NeverHalted(p, SequenceTimeline(front[j]));
    var after := set j | 0 <= j < |batch| && !NeverHalted(p, SequenceTimeline(batch[j]));
    assert forall j :: 0 <= j < n ==> front[j] == batch[j];
    if NeverHalted(p, SequenceTimeline(batch[n])) {
      assert after == before;
    } else {
      assert after == before + {n};
    }
  }

  lemma SumSnoc(ns: seq<nat>, n: nat)
    ensures Sum(ns + [n]) == Sum(ns) + n
  {
  }

  lemma {:induction false} CatchTimesMean(p: ReconcilePolicy, batch: seq<Sequence>)
    requires p.WellFormed()
    ensures |CatchTimes(p, batch)| == Halted(p, batch) && Sum(CatchTimes(p, batch)) == Delays(p, batch)
  {
    hide TimeToHalt, NeverHalted, SequenceTimeline, HaltsFirstAt;
    if batch == [] {
      HaltedAtMost(p, batch);
    } else {
      var n, front := |batch| - 1, batch[..|batch| - 1];
      CatchTimesMean(p, front);
      HaltedSnoc(p, batch);
      hide Halted;
      TimeToHaltMeans(p, batch[n]);
      if TimeToHalt(p, batch[n]).Some? {
        SumSnoc(CatchTimes(p, front), TimeToHalt(p, batch[n]).value);
        HaltIsUnique(p, batch[n], TimeToHalt(p, batch[n]).value);
      } else {
        assert CatchTimes(p, batch) == CatchTimes(p, front);
      }
    }
  }

  lemma HaltedAtMost(p: ReconcilePolicy, batch: seq<Sequence>)
    ensures Halted(p, batch) <= |batch|
    ensures Halted(p, batch) == 0 <==> forall j :: 0 <= j < |batch| ==> NeverHalted(p, SequenceTimeline(batch[j]))
  {
    hide NeverHalted, SequenceTimeline;
    var caught := set j | 0 <= j < |batch| && !NeverHalted(p, SequenceTimeline(batch[j]));
    AtMostRange(caught, |batch|);
    if caught != {} {
      var j :| j in caught;
    } else {
      forall j | 0 <= j < |batch| ensures NeverHalted(p, SequenceTimeline(batch[j])) {
        assert j !in caught;
      }
    }
  }

  /**
   * A result for one policy: the share of healthy sequences it halts on, the
   * share of drifted ones it does not, and the mean number of trades up to the
   * first halt over the drifted ones it does.
   */
  ghost predicate ResultSays(r: BenchResult, pt: GridPoint, healthy: seq<Sequence>, drifted: seq<Sequence>)
    requires pt.WellFormed()
  {
    var p := NewPolicy(pt.fast, pt.slow);
    && r.fast == pt.fast && r.slow == pt.slow
    && (r.falseHaltRate.None? <==> healthy == [])
    && (r.falseHaltRate.Some? ==> r.falseHaltRate.value * |healthy| as real == Halted(p, healthy) as real)
    && (r.missedCatchRate.None? <==> drifted == [])
    && (r.missedCatchRate.Some? ==>
          r.missedCatchRate.value * |drifted| as real == (|drifted| - Halted(p, drifted)) as real)
    && (r.meanTimeToCatch.None? <==>
          forall j :: 0 <= j < |drifted| ==> NeverHalted(p, SequenceTimeline(drifted[j])))
    && (r.meanTimeToCatch.Some? ==>
          r.meanTimeToCatch.value * Halted(p, drifted) as real == Delays(p, drifted) as real)
  }

  lemma RateMeans(count: nat, total: nat)
    ensures Rate(count, total).None? <==> total == 0
    ensures total > 0 ==> Rate(count, total).value * total as real == count as real
  {
  }

  lemma MeanMeans(times: seq<nat>)
    ensures Mean(times).None? <==> |times| == 0
    ensures |times| > 0 ==> Mean(times).value * |times| as real == Sum(times) as real
  {
  }

  lemma ReportSays(pt: GridPoint, healthy: seq<Sequence>, drifted: seq<Sequence>)
    requires pt.WellFormed()
    ensures ResultSays(Report(pt, healthy, drifted), pt, healthy, drifted)
  {
    hide Rate, Mean, Sum, CatchTimes, Halted, Delays, NeverHalted, SequenceTimeline, NewPolicy;
    var p := NewPolicy(pt.fast, pt.slow);
    CatchTimesMean(p, healthy);
    CatchTimesMean(p, drifted);
    HaltedAtMost(p, drifted);
    RateMeans(Halted(p, healthy), |healthy|);
    RateMeans(|drifted| - Halted(p, drifted), |drifted|);
    MeanMeans(CatchTimes(p, drifted));
  }

  method Sweep(healthy: seq<Sequence>, drifted: seq<Sequence>, grid: seq<GridPoint>)
    returns (results: seq<BenchResult>)
    requires forall k :: 0 <= k < |grid| ==> grid[k].WellFormed()
    ensures |results| == |grid|
    ensures forall k :: 0 <= k < |grid| ==> results[k] == Report(grid[k], healthy, drifted)
    ensures forall k :: 0 <= k < |grid| ==> ResultSays(results[k], grid[k], healthy, drifted)
  {
    hide CatchTimes, Mean, Report, Rate, NewPolicy, ResultSays;
    results := [];
    for i := 0 to |grid|
      invariant |results| == i
      invariant forall k :: 0 <= k < i ==> ResultSays(results[k], grid[k], healthy, drifted)
      invariant forall k :: 0 <= k < i ==> results[k] == Report(grid[k], healthy, drifted)
    {
      var p := NewPolicy(grid[i].fast, grid[i].slow);
      ReportOf(grid[i], healthy, drifted);
      ReportSays(grid[i], healthy, drifted);
      var falseHalts := CollectTimes(p, healthy);
      var times := CollectTimes(p, drifted);
      results := results + [BenchResult(
        grid[i].fast, grid[i].slow,
        Rate(|falseHalts|, |healthy|),
        Rate(|drifted| - |times|, |drifted|),
        Mean(times))];
    }
  }

  // ---------------------------------------------------------------------
  // Tightening, over batches.

  /** A policy that halts on every sequence of the batch another halts on has at least as many catches. */
  lemma {:induction false} CatchesMore(a: ReconcilePolicy, b: ReconcilePolicy, batch: seq<Sequence>)
    requires a.WellFormed() && b.WellFormed()
    requires forall s :: s in batch && TimeToHalt(a, s).Some? ==> TimeToHalt(b, s).Some?
    ensures |CatchTimes(a, batch)| <= |CatchTimes(b, batch)|
  {
    hide TimeToHalt;
    if batch != [] {
      assert batch[|batch| - 1] in batch;
      CatchesMore(a, b, batch[..|batch| - 1]);
    }
  }

  lemma TighterCatches(a: ReconcilePolicy, b: ReconcilePolicy, s: Sequence)
    requires a.WellFormed() && b.WellFormed() && Tighter(a, b) && TimeToHalt(a, s).Some?
    ensures TimeToHalt(b, s).Some?
  {
    hide Tighter, FirstHalt, IsFirstHalt, SequenceTimeline;
    var tl := SequenceTimeline(s);
    FirstHaltIsFirst(a, tl, FirstHalt(a, tl));
    FirstHaltIsFirst(b, tl, FirstHalt(b, tl));
    TighterHaltsNoLater(a, b, tl, FirstHalt(a, tl), FirstHalt(b, tl));
  }

  lemma RateMonotone(m: nat, n: nat, total: nat)
    requires m <= n && total > 0
    ensures Rate(m, total).value <= Rate(n, total).value
  {
    var x, y, d := m as real, n as real, total as real;
    assert y / d - x / d == (y - x) / d;
  }

  /** On these batches `b` misses no more than `a` and halts falsely no less. */
  predicate RatesTighten(a: GridPoint, b: GridPoint, healthy: seq<Sequence>, drifted: seq<Sequence>)
    requires a.WellFormed() && b.WellFormed() && healthy != [] && drifted != []
  {
    var x, y := Report(a, healthy, drifted), Report(b, healthy, drifted);
    && y.missedCatchRate.value <= x.missedCatchRate.value
    && x.falseHaltRate.value <= y.falseHaltRate.value
  }

  lemma CatchesMoreRates(a: GridPoint, b: GridPoint, healthy: seq<Sequence>, drifted: seq<Sequence>)
    requires a.WellFormed() && b.WellFormed() && healthy != [] && drifted != []
    requires forall s :: TimeToHalt(NewPolicy(a.fast, a.slow), s).Some?
                         ==> TimeToHalt(NewPolicy(b.fast, b.slow), s).Some?
    ensures RatesTighten(a, b, healthy, drifted)
  {
    hide CatchTimes, Mean, TimeToHalt, NewPolicy;
    var p, q := NewPolicy(a.fast, a.slow), NewPolicy(b.fast, b.slow);
    CatchesMore(p, q, healthy);
    CatchesMore(p, q, drifted);
    RateMonotone(|CatchTimes(p, healthy)|, |CatchTimes(q, healthy)|, |healthy|);
    RateMonotone(|drifted| - |CatchTimes(q, drifted)|, |drifted| - |CatchTimes(p, drifted)|, |drifted|);
  }

  /** Raising thresholds and shrinking the fast window tightens the rates of every two batches. */
  lemma TighterReport(a: GridPoint, b: GridPoint, healthy: seq<Sequence>, drifted: seq<Sequence>)
    requires a.WellFormed() && b.WellFormed()
    requires a.fast.threshold <= b.fast.threshold && b.fast.window <= a.fast.window
    requires a.slow.threshold <= b.slow.threshold && b.slow.window == a.slow.window
    requires healthy != [] && drifted != []
    ensures RatesTighten(a, b, healthy, drifted)
  {
    hide RatesTighten, TimeToHalt;
    var p, q := NewPolicy(a.fast, a.slow), NewPolicy(b.fast, b.slow);
    assert Tighter(p, q);
    forall s | TimeToHalt(p, s).Some? ensures TimeToHalt(q, s).Some? {
      TighterCatches(p, q, s);
    }
    CatchesMoreRates(a, b, healthy, drifted);
  }

  // ---------------------------------------------------------------------
  // Shrinking the slow window, over batches.

  function SlowPoint(f: FastGuardConfig, t: real, window: nat): (pt: GridPoint)
    requires f.window > 0 && window > 0
    ensures pt.WellFormed()
  {
    GridPoint(f, SlowGuardConfig(t, window))
  }

  /** Shrinking the slow window from `long` to `short` tightens the rates of every two batches. */
  ghost predicate ShrinkingTightens(f: FastGuardConfig, t: real, long: nat, short: nat)
    requires f.window > 0 && long > 0 && short > 0
  {
    forall healthy, drifted :: healthy != [] && drifted != [] ==>
      RatesTighten(SlowPoint(f, t, long), SlowPoint(f, t, short), healthy, drifted)
  }

  lemma DivisorTightens(f: FastGuardConfig, t: real, long: nat, short: nat)
    requires f.window > 0 && long > 0 && short > 0 && f.threshold < t && long % short == 0
    ensures ShrinkingTightens(f, t, long, short)
  {
    hide NeverHalted, RatesTighten, TimeToHalt, SequenceTimeline;
    SlowWindowShrinksSafelyExactly(f, t, long, short);
    var p, q := Dual(f, t, long), Dual(f, t, short);
    forall s | TimeToHalt(p, s).Some? ensures TimeToHalt(q, s).Some? {
      TimeToHaltMeans(p, s);
      TimeToHaltMeans(q, s);
    }
    forall healthy, drifted: seq<Sequence> | healthy != [] && drifted != []
      ensures RatesTighten(SlowPoint(f, t, long), SlowPoint(f, t, short), healthy, drifted)
    {
      CatchesMoreRates(SlowPoint(f, t, long), SlowPoint(f, t, short), healthy, drifted);
    }
  }

  lemma CatchTimesOfOne(p: ReconcilePolicy, s: Sequence)
    requires p.WellFormed()
    ensures |CatchTimes(p, [s])| == if NeverHalted(p, SequenceTimeline(s)) then 0 else 1
  {
    TimeToHaltMeans(p, s);
    assert [s][..0] == [];
    hide NeverHalted, SequenceTimeline, TimeToHalt;
  }

  /** A drifted batch of one sequence: caught with the long window, missed with the short one. */
  lemma RatesOfMissed(f: FastGuardConfig, t: real, long: nat, short: nat) returns (s: Sequence)
    requires f.window > 0 && long > 0 && short > 0 && f.threshold < t && long % short != 0
    ensures Report(SlowPoint(f, t, long), [s], [s]).missedCatchRate == Some(0.0)
    ensures Report(SlowPoint(f, t, short), [s], [s]).missedCatchRate == Some(1.0)
  {
    hide NeverHalted, CatchTimes, Mean, Halts, SequenceTimeline;
    s := MissedByShorter(f, t, long, short);
    HaltedIsHalted(Dual(f, t, long), SequenceTimeline(s));
    CatchTimesOfOne(Dual(f, t, long), s);
    CatchTimesOfOne(Dual(f, t, short), s);
  }

  /**
   * Shrinking the slow window lowers missed catches and raises false halts,
   * on every two batches, exactly when the new window divides the old.
   */
  lemma SlowWindowRatesExactly(f: FastGuardConfig, t: real, long: nat, short: nat)
    requires f.window > 0 && long > 0 && short > 0 && f.threshold < t
    ensures ShrinkingTightens(f, t, long, short) <==> long % short == 0
  {
    hide Report;
    if long % short == 0 {
      DivisorTightens(f, t, long, short);
    } else {
      var s := RatesOfMissed(f, t, long, short);
      assert !RatesTighten(SlowPoint(f, t, long), SlowPoint(f, t, short), [s], [s]);
    }
  }

  // ---------------------------------------------------------------------
  // The two engines agree.

  /** The confirmed pairs of a trade table without reverts. */
  function PairsOf(t: Trades): Sequence
    requires t.Aligned()
  {
    seq(|t.predicted|, i requires 0 <= i < |t.predicted| => Pair(t.predicted[i], t.realized[i]))
  }

  lemma BurstNeverTrips(pt: Point, tl: Timeline, i: nat)
    requires pt.limit > 0 && i < |tl|
    requires forall k :: 0 <= k < |tl| ==> tl[k].ConfirmedPair?
    ensures HaltsAfter(PointPolicy(pt), tl, i)
            == HaltsAfter(PairPolicy(pt), tl, i)
  {
    hide FastTrips, SlowTrips, Eligible;
    var prefix := tl[..i + 1];
    assert prefix[i].ConfirmedPair?;
    assert !BurstTrips(RevertBurstConfig(pt.limit), prefix);
  }

  /**
   * Without reverts, a batch row's first halt index is `i` exactly when the
   * benchmark's replay with the same windows reports a halt at `i + 1`.
   */
  lemma EnginesAgree(t: Trades, pt: Point, row: SweepResult, r: Option<nat>)
    requires t.Aligned() && forall k :: 0 <= k < |t.isRevert| ==> !t.isRevert[k]
    requires IsRow(t, pt, row)
    requires r == TimeToHalt(PairPolicy(pt), PairsOf(t))
    ensures forall i: nat :: row.firstHaltIndex == Some(i) <==> r == Some(i + 1)
  {
    hide IsFirstHalt, FirstHalt, PairPolicy, PointPolicy, HaltSet, Prevented, SequenceTimeline, PairsOf;
    SameTimeline(t);
    SameFirstHalt(pt, SequenceTimeline(PairsOf(t)), row.firstHaltIndex);
  }

  lemma SameTimeline(t: Trades)
    requires t.Aligned() && forall k :: 0 <= k < |t.isRevert| ==> !t.isRevert[k]
    ensures t.Timeline() == SequenceTimeline(PairsOf(t))
    ensures forall k :: 0 <= k < |t.Timeline()| ==> t.Timeline()[k].ConfirmedPair?
  {
  }

  lemma SameFirstHalt(pt: Point, tl: History.Timeline, o: Option<nat>)
    requires pt.limit > 0 && forall k :: 0 <= k < |tl| ==> tl[k].ConfirmedPair?
    requires IsFirstHalt(PointPolicy(pt), tl, o)
    ensures o == FirstHalt(PairPolicy(pt), tl)
  {
    hide HaltsAfter, FirstHalt, PointPolicy, PairPolicy;
    var p, q := PointPolicy(pt), PairPolicy(pt);
    forall i | 0 <= i < |tl| ensures HaltsAfter(p, tl, i) == HaltsAfter(q, tl, i) {
      BurstNeverTrips(pt, tl, i);
    }
    FirstHaltIsFirst(q, tl, o);
  }
}
