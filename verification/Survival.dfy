/** Which decisions survive the loss of old history. */
module Survival {
  import opened Arith
  import opened Bytes
  import opened History
  import opened Policy
  import opened Records
  import opened Samples

  // Compaction followed by a restart replaces a history `dropped + kept` by
  // `kept`; later events `later` are appended to either.

  // ---------------------------------------------------------------------
  // The entries that may have been dropped, or may follow: those that fit the
  // source's integer widths and a bound on single profits and fees. With a
  // small bound no window sum overflows (see `Overflow`).

  datatype Limits = Limits(profit: nat, fee: nat)
  {
    predicate Valid() { 0 < profit < TWO_127 && fee < TWO_128 }

    /** The greatest single loss. */
    function Loss(): int { 0 - profit }
  }

  predicate PairFits(b: Limits, q: Pair) {
    b.Loss() <= q.predicted <= b.profit && b.Loss() <= q.realized <= b.profit
  }

  predicate Fits(b: Limits, e: HistoryEntry) {
    && Encodable(e)
    && match e
       case ConfirmedPair(p, r) => PairFits(b, Pair(p, r))
       case RevertedTx(ev) => ev.gasUsed * ev.effectiveGasPrice <= b.fee
  }

  predicate AllFit(b: Limits, tl: Timeline) {
    forall i :: 0 <= i < |tl| ==> Fits(b, tl[i])
  }

  predicate SameVerdict(p: ReconcilePolicy, g: Guard, dropped: Timeline, kept: Timeline, later: Timeline) {
    Trips(p, g, dropped + kept + later) <==> Trips(p, g, kept + later)
  }

  /** The guard never notices what was dropped, whatever that was and whatever follows. */
  ghost predicate NeverNotices(b: Limits, p: ReconcilePolicy, g: Guard, kept: Timeline) {
    forall dropped, later :: AllFit(b, dropped) && AllFit(b, later) ==> SameVerdict(p, g, dropped, kept, later)
  }

  /** How many confirmed pairs a guard waits for before it can trip. */
  function PairsNeeded(p: ReconcilePolicy, g: Guard): nat {
    match g
    case Burst => 0
    case Gas => 0
    case Fast => p.fast.window
    case Drawdown => if p.drawdown.Some? then p.drawdown.value.window else 0
    case Volume => if p.volumeWeighted.Some? then p.volumeWeighted.value.window else 0
    case Slow => p.slow.window
  }

  /**
   * What was dropped would make the guard trip right away, and without it the
   * guard does not; and it holds no more pairs than the guard waits for.
   */
  predicate Noticed(b: Limits, p: ReconcilePolicy, g: Guard, dropped: Timeline, kept: Timeline) {
    && AllFit(b, dropped) && Trips(p, g, dropped + kept) && !Trips(p, g, kept)
    && |Pairs(dropped)| <= PairsNeeded(p, g)
  }

  lemma {:induction false} NoPairsInReverts(fee: nat, n: nat)
    ensures Pairs(Repeat(CostlyRevert(fee), n)) == []
  {
    if n > 0 {
      RepeatSnoc(CostlyRevert(fee), n);
      NoPairsInReverts(fee, n - 1);
    }
  }

  lemma {:induction false} PairsShorter(tl: Timeline)
    ensures |Pairs(tl)| <= |tl|
  {
    if tl != [] {
      PairsShorter(tl[..|tl| - 1]);
    }
  }

  lemma NoticedWith(b: Limits, p: ReconcilePolicy, g: Guard, dropped: Timeline, kept: Timeline)
    requires Noticed(b, p, g, dropped, kept)
    ensures !NeverNotices(b, p, g, kept)
  {
    hide Trips, Fits;
    assert dropped + kept + [] == dropped + kept && kept + [] == kept;
    assert !SameVerdict(p, g, dropped, kept, []);
  }

  /**
   * What the kept entries must be like, guard by guard: a guard that is off is
   * immune; otherwise they fill its window, or decide it whatever else is in
   * it, or leave too little room in it for entries within the limits to matter.
   */
  predicate Immune(b: Limits, p: ReconcilePolicy, g: Guard, kept: Timeline) {
    var qs := Eligible(kept);
    match g
    case Burst => p.revertBurst.Some? ==>
      || |kept| >= p.revertBurst.value.limit
      || exists k :: 0 <= k < |kept| && kept[k].ConfirmedPair?
    case Gas => p.revertGas.Some? ==>
      var c := p.revertGas.value;
      || |kept| >= c.window
      || GasBurned(kept) > c.budgetLimit
      || GasBurned(kept) + (c.window - |kept|) * b.fee <= c.budgetLimit
    case Fast =>
      || |qs| >= p.fast.window
      || SomeKeepsUp(p.fast, qs)
      || p.fast.threshold <= -(b.profit as real)
    case Drawdown => p.drawdown.Some? ==>
      var c, ps := p.drawdown.value, Pairs(kept);
      |ps| >= c.window || Slippage(ps) + (c.window - |ps|) * (2 * b.profit) <= c.maxDrawdownLimit
    case Volume => p.volumeWeighted.Some? ==>
      var c := p.volumeWeighted.value;
      || |qs| >= c.window
      || TotalRealized(qs) as real - c.threshold * TotalPredicted(qs) as real >= VolumeRoom(b, c, qs)
    case Slow =>
      var c := p.slow;
      || |qs| >= c.window
      || SumReal(Ratios(qs)) - ((c.window - |qs|) * b.profit) as real >= c.threshold * c.window as real
  }

  /** Some kept positive pair keeps up with the threshold. */
  predicate SomeKeepsUp(c: FastGuardConfig, qs: seq<Pair>) {
    exists k :: 0 <= k < |qs| && !Underperforms(qs[k], c.threshold)
  }

  /** What the pairs that may fill the open part of the weighted window can at most cost it. */
  function VolumeRoom(b: Limits, c: VolumeWeightedConfig, s: seq<Pair>): real {
    (c.window - |s|) as real
    * (b.profit as real + c.threshold * (if c.threshold > 0.0 then b.profit as real else 1.0))
  }

  lemma RepeatFits(b: Limits, e: HistoryEntry, n: nat)
    requires Fits(b, e)
    ensures AllFit(b, Repeat(e, n))
  {
  }

  lemma LastNSplits<T>(a: seq<T>, b: seq<T>, n: nat)
    requires |b| <= n
    ensures LastN(a + b, n) == LastN(a, n - |b|) + b
  {
  }

  // ---------------------------------------------------------------------
  // The burst guard.

  lemma BurstOfSuffix(c: RevertBurstConfig, dropped: Timeline, kept: Timeline, later: Timeline)
    requires |kept| >= c.limit || exists k :: 0 <= k < |kept| && kept[k].ConfirmedPair?
    ensures BurstTrips(c, dropped + kept + later) <==> BurstTrips(c, kept + later)
  {
    var short, long := kept + later, dropped + kept + later;
    assert forall k :: 0 <= k < |short| ==> long[|dropped| + k] == short[k];
    if |short| >= c.limit {
      if BurstTrips(c, short) {
        forall k | |long| - c.limit <= k < |long| ensures long[k].RevertedTx? {
          assert long[k] == short[k - |dropped|];
        }
      }
      if BurstTrips(c, long) {
        forall k | |short| - c.limit <= k < |short| ensures short[k].RevertedTx? {
          assert long[|dropped| + k] == short[k];
        }
      }
    } else {
      var k :| 0 <= k < |kept| && kept[k].ConfirmedPair?;
      assert long[|dropped| + k] == kept[k];
    }
  }

  /** The burst guard never notices exactly when the kept entries reach the limit or hold a pair. */
  lemma BurstSurvivesExactly(b: Limits, p: ReconcilePolicy, kept: Timeline)
    requires b.Valid() && p.WellFormed() && p.revertBurst.Some?
    ensures NeverNotices(b, p, Burst, kept) <==> Immune(b, p, Burst, kept)
  {
    if Immune(b, p, Burst, kept) {
      forall dropped, later | AllFit(b, dropped) && AllFit(b, later)
        ensures SameVerdict(p, Burst, dropped, kept, later)
      {
        BurstOfSuffix(p.revertBurst.value, dropped, kept, later);
      }
    } else {
      var dropped := BurstNotices(b, p, kept);
      NoticedWith(b, p, Burst, dropped, kept);
    }
  }

  lemma BurstNotices(b: Limits, p: ReconcilePolicy, kept: Timeline) returns (dropped: Timeline)
    requires b.Valid() && p.WellFormed() && !Immune(b, p, Burst, kept)
    ensures Noticed(b, p, Burst, dropped, kept)
  {
    var c := p.revertBurst.value;
    dropped := Repeat(CostlyRevert(0), c.limit);
    RepeatFits(b, CostlyRevert(0), c.limit);
    NoPairsInReverts(0, c.limit);
    assert BurstTrips(c, dropped + kept);
  }

  // ---------------------------------------------------------------------
  // The gas guard.

  lemma {:induction false} GasAtMost(b: Limits, tl: Timeline)
    requires AllFit(b, tl)
    ensures GasBurned(tl) <= Times(|tl|, b.fee)
  {
    hide Times;
    TimesStep(|tl|, b.fee);
    if tl != [] {
      GasAtMost(b, tl[..|tl| - 1]);
      assert Fits(b, tl[|tl| - 1]);
      TimesNonNegative(|tl| - 1, b.fee);
    }
  }

  lemma {:induction false} GasOfRepeat(fee: nat, n: nat)
    ensures GasBurned(Repeat(CostlyRevert(fee), n)) == Times(n, fee)
  {
    hide Times;
    TimesStep(n, fee);
    if n > 0 {
      RepeatSnoc(CostlyRevert(fee), n);
      GasOfRepeat(fee, n - 1);
    }
  }

  lemma GasOfSum(b: Limits, oldest: Timeline, kept: Timeline, later: Timeline)
    requires AllFit(b, oldest) && AllFit(b, later)
    ensures GasBurned(kept) <= GasBurned(kept + later) <= GasBurned(oldest + (kept + later))
    ensures GasBurned(oldest + (kept + later)) <= GasBurned(kept) + Times(|oldest| + |later|, b.fee)
  {
    hide GasBurned, Times, AllFit;
    GasBurnedAppend(oldest, kept + later);
    GasBurnedAppend(kept, later);
    GasAtMost(b, oldest);
    GasAtMost(b, later);
    TimesSum(|oldest|, |later|, b.fee);
  }

  lemma LastNFits(b: Limits, tl: Timeline, n: nat)
    requires AllFit(b, tl)
    ensures AllFit(b, LastN(tl, n))
  {
    hide Fits;
  }

  /** What the dropped and later entries can add to the fees of a window the kept ones leave open. */
  lemma GasRoom(b: Limits, window: nat, dropped: Timeline, kept: Timeline, later: Timeline)
    requires AllFit(b, dropped) && AllFit(b, later) && |kept + later| <= window
    ensures GasBurned(kept) <= GasBurned(kept + later) <= GasBurned(LastN(dropped + (kept + later), window))
    ensures GasBurned(LastN(dropped + (kept + later), window)) <= GasBurned(kept) + Times(window - |kept|, b.fee)
  {
    hide GasBurned, Times, AllFit;
    var open := window - |kept + later|;
    LastNSplits(dropped, kept + later, window);
    LastNFits(b, dropped, open);
    var oldest := LastN(dropped, open);
    hide LastN;
    GasOfSum(b, oldest, kept, later);
    TimesGrows(|oldest| + |later|, window - |kept|, b.fee);
  }

  lemma LastNWhole<T>(s: seq<T>, n: nat)
    requires |s| <= n
    ensures LastN(s, n) == s
  {
  }

  lemma Regroup<T>(a: seq<T>, b: seq<T>, c: seq<T>)
    ensures a + b + c == a + (b + c)
  {
  }

  lemma GasSurvivesWhen(b: Limits, c: RevertGasConfig, dropped: Timeline, kept: Timeline, later: Timeline)
    requires AllFit(b, dropped) && AllFit(b, later)
    requires || |kept| >= c.window || GasBurned(kept) > c.budgetLimit
             || GasBurned(kept) + Times(c.window - |kept|, b.fee) <= c.budgetLimit
    ensures GasTrips(c, dropped + kept + later) <==> GasTrips(c, kept + later)
  {
    hide GasBurned, Times, AllFit, LastN;
    Regroup(dropped, kept, later);
    var recent := kept + later;
    if |recent| >= c.window {
      LastNOfSuffix(dropped, recent, c.window);
    } else {
      GasRoom(b, c.window, dropped, kept, later);
      LastNWhole(recent, c.window);
    }
  }

  lemma GasNotices(b: Limits, p: ReconcilePolicy, kept: Timeline) returns (dropped: Timeline)
    requires b.Valid() && p.WellFormed() && !Immune(b, p, Gas, kept)
    ensures Noticed(b, p, Gas, dropped, kept)
  {
    hide GasBurned, Times, Fits, AllFit, Eligible, Pairs;
    var c := p.revertGas.value;
    TimesIs(c.window - |kept|, b.fee);
    dropped := Repeat(CostlyRevert(b.fee), c.window);
    var open := Repeat(CostlyRevert(b.fee), c.window - |kept|);
    CostlyRevertFits(b);
    RepeatFits(b, CostlyRevert(b.fee), c.window);
    NoPairsInReverts(b.fee, c.window);
    LastNSplits(dropped, kept, c.window);
    assert LastN(dropped, c.window - |kept|) == open;
    hide LastN, Repeat;
    GasBurnedAppend(open, kept);
    GasOfRepeat(b.fee, c.window - |kept|);
    LastNWhole(kept, c.window);
  }

  /**
   * The gas guard never notices exactly when the kept entries fill the window,
   * or already exceed the budget, or leave too little room to exceed it.
   */
  lemma GasSurvivesExactly(b: Limits, p: ReconcilePolicy, kept: Timeline)
    requires b.Valid() && p.WellFormed() && p.revertGas.Some?
    ensures NeverNotices(b, p, Gas, kept) <==> Immune(b, p, Gas, kept)
  {
    hide GasBurned, Times, AllFit, GasTrips, Eligible;
    var c := p.revertGas.value;
    TimesIs(c.window - |kept|, b.fee);
    if Immune(b, p, Gas, kept) {
      forall dropped, later | AllFit(b, dropped) && AllFit(b, later)
        ensures SameVerdict(p, Gas, dropped, kept, later)
      {
        GasSurvivesWhen(b, c, dropped, kept, later);
      }
    } else {
      var dropped := GasNotices(b, p, kept);
      NoticedWith(b, p, Gas, dropped, kept);
    }
  }

  lemma CostlyRevertFits(b: Limits)
    requires b.Valid()
    ensures Fits(b, CostlyRevert(b.fee))
  {
  }

  // ---------------------------------------------------------------------
  // Pairs within the limits.

  lemma {:induction false} PairsFit(b: Limits, tl: Timeline)
    requires AllFit(b, tl)
    ensures forall q :: q in Pairs(tl) ==> PairFits(b, q)
  {
    hide Encodable, PairFits;
    if tl != [] {
      PairsFit(b, tl[..|tl| - 1]);
      assert Fits(b, tl[|tl| - 1]);
    }
  }

  lemma {:induction false} PositiveAmong(ps: seq<Pair>)
    ensures forall q :: q in Positive(ps) ==> q in ps
  {
    if ps != [] {
      PositiveAmong(ps[..|ps| - 1]);
      assert forall q :: q in ps[..|ps| - 1] ==> q in ps;
    }
  }

  lemma EligibleFit(b: Limits, tl: Timeline)
    requires AllFit(b, tl)
    ensures forall q :: q in Eligible(tl) ==> PairFits(b, q) && q.predicted > 0
  {
    hide Positive, Pairs, PairFits, AllFit;
    PairsFit(b, tl);
    PositiveAmong(Pairs(tl));
  }

  lemma TradeFits(b: Limits, q: Pair)
    requires b.Valid() && PairFits(b, q)
    ensures Fits(b, Trade(q.predicted, q.realized))
  {
  }

  // ---------------------------------------------------------------------
  // The fast guard.

  lemma FastOfSuffix(c: FastGuardConfig, a: seq<Pair>, b: seq<Pair>)
    requires |b| >= c.window
    ensures FastTrips(c, a + b) <==> FastTrips(c, b)
  {
    assert forall k :: 0 <= k < |b| ==> (a + b)[|a| + k] == b[k];
    if FastTrips(c, a + b) {
      forall k | |b| - c.window <= k < |b| ensures Underperforms(b[k], c.threshold) {
        assert (a + b)[|a| + k] == b[k];
      }
    }
  }

  lemma FastSurvivesWhenKept(c: FastGuardConfig, dropped: Timeline, kept: Timeline, later: Timeline)
    requires |Eligible(kept)| >= c.window || SomeKeepsUp(c, Eligible(kept))
    ensures FastTrips(c, Eligible(dropped + kept + later)) <==> FastTrips(c, Eligible(kept + later))
  {
    hide Eligible, Underperforms;
    EligibleAppend(kept, later);
    EligibleAppend3(dropped, kept, later);
    var d, s, l := Eligible(dropped), Eligible(kept), Eligible(later);
    if |s + l| >= c.window {
      FastOfSuffix(c, d, s + l);
    } else {
      var k :| 0 <= k < |s| && !Underperforms(s[k], c.threshold);
      assert (d + (s + l))[|d| + k] == s[k];
    }
  }

  lemma FloorKeepsUp(b: Limits, t: real, q: Pair)
    requires t <= -(b.profit as real) && PairFits(b, q) && q.predicted > 0
    ensures !Underperforms(q, t)
  {
    ScaleFloor(t, b.profit as real, q.predicted as real);
  }

  lemma ScaleFloor(t: real, bound: real, x: real)
    requires bound >= 0.0 && t <= -bound && x >= 1.0
    ensures t * x <= -bound
  {
  }

  lemma FastFloorNeverTrips(b: Limits, c: FastGuardConfig, dropped: Timeline, kept: Timeline, later: Timeline)
    requires c.window > 0 && AllFit(b, dropped) && AllFit(b, later)
    requires |Eligible(kept)| < c.window && c.threshold <= -(b.profit as real)
    ensures FastTrips(c, Eligible(dropped + kept + later)) <==> FastTrips(c, Eligible(kept + later))
  {
    hide Eligible, Underperforms, AllFit;
    EligibleAppend(kept, later);
    EligibleAppend3(dropped, kept, later);
    EligibleFit(b, dropped);
    EligibleFit(b, later);
    var d, s, l := Eligible(dropped), Eligible(kept), Eligible(later);
    if |s + l| >= c.window {
      FastOfSuffix(c, d, s + l);
    } else if |d + (s + l)| >= c.window {
      var k := |d + (s + l)| - c.window;
      assert k < |d| && (d + (s + l))[k] == d[k] && d[k] in d;
      FloorKeepsUp(b, c.threshold, d[k]);
    }
  }

  /**
   * The fast guard never notices exactly when the kept positive pairs fill the
   * window, or one of them keeps up, or no pair within the limits can underperform.
   */
  lemma FastSurvivesExactly(b: Limits, p: ReconcilePolicy, kept: Timeline)
    requires b.Valid() && p.WellFormed()
    ensures NeverNotices(b, p, Fast, kept) <==> Immune(b, p, Fast, kept)
  {
    hide Eligible, FastTrips, Fits, SomeKeepsUp;
    var c, s := p.fast, Eligible(kept);
    if |s| >= c.window || SomeKeepsUp(c, s) {
      forall dropped, later ensures SameVerdict(p, Fast, dropped, kept, later) {
        FastSurvivesWhenKept(c, dropped, kept, later);
      }
    } else if c.threshold <= -(b.profit as real) {
      forall dropped, later | AllFit(b, dropped) && AllFit(b, later)
        ensures SameVerdict(p, Fast, dropped, kept, later)
      {
        FastFloorNeverTrips(b, c, dropped, kept, later);
      }
    } else {
      var dropped := FastNotices(b, p, kept);
      NoticedWith(b, p, Fast, dropped, kept);
    }
  }

  lemma FastNotices(b: Limits, p: ReconcilePolicy, kept: Timeline) returns (dropped: Timeline)
    requires b.Valid() && p.WellFormed() && !Immune(b, p, Fast, kept)
    ensures Noticed(b, p, Fast, dropped, kept)
  {
    hide Eligible, Fits;
    var c, s, low := p.fast, Eligible(kept), Pair(1, b.Loss());
    dropped := Repeat(Trade(1, b.Loss()), c.window);
    var d := Repeat(low, c.window);
    TradeFits(b, low);
    RepeatFits(b, Trade(1, b.Loss()), c.window);
    EligibleAppend(dropped, kept);
    EligibleOfRepeat(1, b.Loss(), c.window);
    PairsShorter(dropped);
    assert Underperforms(low, c.threshold);
    forall k | 0 <= k < |d + s| ensures Underperforms((d + s)[k], c.threshold) {
    }
    assert FastTrips(c, d + s) && !FastTrips(c, s);
  }

  // ---------------------------------------------------------------------
  // The three guards that compare a window's total with a floor.

  /** What a pair contributes: its gain over the prediction, over a share of it, or its ratio. */
  datatype Score = Gain | Excess(threshold: real) | Quotient

  function Value(k: Score, q: Pair): real {
    match k
    case Gain => (q.realized - q.predicted) as real
    case Excess(t) => q.realized as real - Scale(t, q.predicted as real)
    case Quotient => if q.predicted > 0 then Ratio(q) else 0.0
  }

  function Total(k: Score, qs: seq<Pair>): real {
    if qs == [] then 0.0 else Total(k, qs[..|qs| - 1]) + Value(k, qs[|qs| - 1])
  }

  /** There are pairs enough and the newest total less than the floor. */
  predicate BelowFloor(k: Score, window: nat, floor: real, qs: seq<Pair>) {
    |qs| >= window && Total(k, LastN(qs, window)) < floor
  }

  lemma {:induction false} TotalAppend(k: Score, a: seq<Pair>, b: seq<Pair>)
    ensures Total(k, a + b) == Total(k, a) + Total(k, b)
    decreases |b|
  {
    hide Value;
    if b == [] {
      assert a + b == a;
    } else {
      assert (a + b)[..|a + b| - 1] == a + b[..|b| - 1];
      TotalAppend(k, a, b[..|b| - 1]);
    }
  }

  lemma {:induction false} TotalAtLeast(k: Score, least: real, qs: seq<Pair>)
    requires forall q :: q in qs ==> Value(k, q) >= least
    ensures Total(k, qs) >= Scale(least, |qs| as real)
  {
    hide Value, Scale;
    ScaleAdd(least, 0.0, 0.0);
    if qs != [] {
      var front := qs[..|qs| - 1];
      assert qs[|qs| - 1] in qs && forall q :: q in front ==> q in qs;
      TotalAtLeast(k, least, front);
      ScaleAdd(least, |front| as real, 1.0);
      ScaleOne(least);
    }
  }

  lemma {:induction false} TotalOfRepeat(k: Score, q: Pair, n: nat)
    ensures Total(k, Repeat(q, n)) == Scale(Value(k, q), n as real)
  {
    hide Value, Scale;
    var v := Value(k, q);
    ScaleAdd(v, 0.0, 0.0);
    if n > 0 {
      RepeatSnoc(q, n);
      TotalOfRepeat(k, q, n - 1);
      ScaleAdd(v, (n - 1) as real, 1.0);
      ScaleOne(v);
    }
  }

  /** What the open part of a window can make of it, when no pair is worth less than `least`. */
  predicate OutOfReach(k: Score, window: nat, floor: real, least: real, s: seq<Pair>) {
    |s| >= window || Total(k, s) + Scale(least, (window - |s|) as real) >= floor
  }

  lemma FloorOutOfReach(k: Score, window: nat, floor: real, least: real, d: seq<Pair>, s: seq<Pair>, l: seq<Pair>)
    requires OutOfReach(k, window, floor, least, s)
    requires forall q :: q in d || q in l ==> Value(k, q) >= least
    ensures BelowFloor(k, window, floor, d + (s + l)) <==> BelowFloor(k, window, floor, s + l)
  {
    hide Total, Value, Scale;
    if |s + l| >= window {
      LastNOfSuffix(d, s + l, window);
    } else if |d + (s + l)| >= window {
      var open := LastN(d, window - |s + l|);
      LastNSplits(d, s + l, window);
      TotalAppend(k, open, s + l);
      TotalAppend(k, s, l);
      TotalAtLeast(k, least, open);
      TotalAtLeast(k, least, l);
      ScaleAdd(least, |open| as real, |l| as real);
    }
  }

  lemma FloorReached(k: Score, window: nat, floor: real, q: Pair, s: seq<Pair>)
    requires !OutOfReach(k, window, floor, Value(k, q), s)
    ensures BelowFloor(k, window, floor, Repeat(q, window) + s) && !BelowFloor(k, window, floor, s)
  {
    hide Total, Value, Scale;
    var open := Repeat(q, window - |s|);
    LastNSplits(Repeat(q, window), s, window);
    assert LastN(Repeat(q, window), window - |s|) == open;
    TotalAppend(k, open, s);
    TotalOfRepeat(k, q, window - |s|);
  }

  // The totals the guards compute.

  lemma {:induction false} TotalGain(qs: seq<Pair>)
    ensures Total(Gain, qs) == -(Slippage(qs) as real)
  {
    if qs != [] {
      TotalGain(qs[..|qs| - 1]);
    }
  }

  lemma {:induction false} TotalExcess(t: real, qs: seq<Pair>)
    ensures Total(Excess(t), qs) == TotalRealized(qs) as real - Scale(t, TotalPredicted(qs) as real)
  {
    hide Scale;
    ScaleAdd(t, 0.0, 0.0);
    if qs != [] {
      var front, last := qs[..|qs| - 1], qs[|qs| - 1];
      TotalExcess(t, front);
      ScaleAdd(t, TotalPredicted(front) as real, last.predicted as real);
    }
  }

  lemma {:induction false} TotalQuotient(qs: seq<Pair>)
    requires forall q :: q in qs ==> q.predicted > 0
    ensures Total(Quotient, qs) == SumReal(Ratios(qs))
  {
    hide Ratio;
    if qs != [] {
      TotalQuotient(qs[..|qs| - 1]);
      assert Ratios(qs)[..|qs| - 1] == Ratios(qs[..|qs| - 1]);
    }
  }

  /** The pair within the limits that is worth least. */
  function Worst(k: Score, b: Limits): Pair {
    match k
    case Gain => Pair(b.profit, b.Loss())
    case Excess(t) => Pair(if t > 0.0 then b.profit else 1, b.Loss())
    case Quotient => Pair(1, b.Loss())
  }

  lemma WorstFits(k: Score, b: Limits)
    requires b.Valid()
    ensures PairFits(b, Worst(k, b)) && Worst(k, b).predicted > 0
  {
  }

  lemma ScaleSides(t: real, x: real, y: real)
    requires x <= y
    ensures t > 0.0 ==> Scale(t, x) <= Scale(t, y)
    ensures t <= 0.0 ==> Scale(t, x) >= Scale(t, y)
  {
  }

  lemma RatioFloor(q: Pair, bound: nat)
    requires q.predicted > 0 && q.realized + bound >= 0
    ensures Ratio(q) >= -(bound as real)
  {
    QuotientBelow(q.realized as real, q.predicted as real, -(bound as real));
    ScaleFloor(-(bound as real), bound as real, q.predicted as real);
  }

  lemma WorstIsLeast(k: Score, b: Limits, q: Pair)
    requires PairFits(b, q) && (q.predicted > 0 || k.Gain?)
    ensures Value(k, q) >= Value(k, Worst(k, b))
  {
    hide Scale, Ratio;
    match k {
      case Gain =>
      case Excess(t) =>
        ScaleSides(t, q.predicted as real, b.profit as real);
        ScaleSides(t, 1.0, q.predicted as real);
      case Quotient =>
        RatioFloor(q, b.profit);
        RatioOfUnit(b.Loss());
    }
  }

  lemma ScaleIs(t: real, x: real)
    ensures Scale(t, x) == t * x
  {
  }

  lemma WorstValues(b: Limits, t: real)
    ensures Value(Gain, Worst(Gain, b)) == -((2 * b.profit) as real)
    ensures Value(Excess(t), Worst(Excess(t), b))
            == -(b.profit as real) - t * (if t > 0.0 then b.profit as real else 1.0)
    ensures Value(Quotient, Worst(Quotient, b)) == -(b.profit as real)
  {
    RatioOfUnit(b.Loss());
  }

  // ---------------------------------------------------------------------
  // The drawdown guard.

  lemma DrawdownByFloor(c: DrawdownConfig, ps: seq<Pair>)
    ensures DrawdownTrips(c, ps) <==> BelowFloor(Gain, c.window, -(c.maxDrawdownLimit as real), ps)
  {
    hide Slippage, Total, LastN;
    TotalGain(LastN(ps, c.window));
  }

  lemma DrawdownSurvivesWhen(b: Limits, c: DrawdownConfig, dropped: Timeline, kept: Timeline, later: Timeline)
    requires AllFit(b, dropped) && AllFit(b, later)
    requires OutOfReach(Gain, c.window, -(c.maxDrawdownLimit as real), Value(Gain, Worst(Gain, b)), Pairs(kept))
    ensures DrawdownTrips(c, Pairs(dropped + kept + later)) <==> DrawdownTrips(c, Pairs(kept + later))
  {
    hide Pairs, Eligible, OutOfReach, BelowFloor, DrawdownTrips, Value, Worst, AllFit;
    EligibleAppend(kept, later);
    EligibleAppend3(dropped, kept, later);
    var d, s, l := Pairs(dropped), Pairs(kept), Pairs(later);
    PairsFit(b, dropped);
    PairsFit(b, later);
    forall q | q in d || q in l ensures Value(Gain, q) >= Value(Gain, Worst(Gain, b)) {
      WorstIsLeast(Gain, b, q);
    }
    FloorOutOfReach(Gain, c.window, -(c.maxDrawdownLimit as real), Value(Gain, Worst(Gain, b)), d, s, l);
    DrawdownByFloor(c, d + (s + l));
    DrawdownByFloor(c, s + l);
  }

  lemma DrawdownReach(b: Limits, c: DrawdownConfig, s: seq<Pair>)
    ensures OutOfReach(Gain, c.window, -(c.maxDrawdownLimit as real), Value(Gain, Worst(Gain, b)), s)
            <==> |s| >= c.window || Slippage(s) + (c.window - |s|) * (2 * b.profit) <= c.maxDrawdownLimit
  {
    hide Value, Worst, Slippage, Total, Scale;
    TotalGain(s);
    WorstValues(b, 0.0);
    ScaleOfInts(-(2 * b.profit), c.window - |s|);
    NegatedProduct(2 * b.profit, c.window - |s|);
  }

  lemma NegatedProduct(a: int, n: int)
    ensures -a * n == -(n * a)
  {
  }

  lemma ScaleOfInts(a: int, n: int)
    ensures Scale(a as real, n as real) == (a * n) as real
  {
  }

  lemma DrawdownNotices(b: Limits, p: ReconcilePolicy, kept: Timeline) returns (dropped: Timeline)
    requires b.Valid() && p.WellFormed() && !Immune(b, p, Drawdown, kept)
    ensures Noticed(b, p, Drawdown, dropped, kept)
  {
    hide Pairs, Eligible, OutOfReach, BelowFloor, DrawdownTrips, Value, Fits, Slippage;
    var c, q := p.drawdown.value, Worst(Gain, b);
    DrawdownReach(b, c, Pairs(kept));
    dropped := Repeat(Trade(q.predicted, q.realized), c.window);
    WorstFits(Gain, b);
    TradeFits(b, q);
    RepeatFits(b, Trade(q.predicted, q.realized), c.window);
    EligibleAppend(dropped, kept);
    PairsOfRepeat(q.predicted, q.realized, c.window);
    FloorReached(Gain, c.window, -(c.maxDrawdownLimit as real), q, Pairs(kept));
    DrawdownByFloor(c, Pairs(dropped) + Pairs(kept));
    DrawdownByFloor(c, Pairs(kept));
  }

  /**
   * The drawdown guard never notices exactly when the kept pairs fill the
   * window or the pairs that may fill its open part cannot exceed the cap.
   */
  lemma DrawdownSurvivesExactly(b: Limits, p: ReconcilePolicy, kept: Timeline)
    requires b.Valid() && p.WellFormed() && p.drawdown.Some?
    ensures NeverNotices(b, p, Drawdown, kept) <==> Immune(b, p, Drawdown, kept)
  {
    hide Pairs, Eligible, OutOfReach, DrawdownTrips, Slippage, Value, Worst, AllFit;
    var c, s := p.drawdown.value, Pairs(kept);
    DrawdownReach(b, c, s);
    if OutOfReach(Gain, c.window, -(c.maxDrawdownLimit as real), Value(Gain, Worst(Gain, b)), s) {
      forall dropped, later | AllFit(b, dropped) && AllFit(b, later)
        ensures SameVerdict(p, Drawdown, dropped, kept, later)
      {
        DrawdownSurvivesWhen(b, c, dropped, kept, later);
      }
    } else {
      var dropped := DrawdownNotices(b, p, kept);
      NoticedWith(b, p, Drawdown, dropped, kept);
    }
  }

  // ---------------------------------------------------------------------
  // The weighted and the slow guard, over the positive pairs.

  lemma VolumeByFloor(c: VolumeWeightedConfig, qs: seq<Pair>)
    ensures VolumeTrips(c, qs) <==> BelowFloor(Excess(c.threshold), c.window, 0.0, qs)
  {
    hide TotalRealized, TotalPredicted, Total, LastN;
    TotalExcess(c.threshold, LastN(qs, c.window));
  }

  lemma SlowByFloor(c: SlowGuardConfig, qs: seq<Pair>)
    requires forall q :: q in qs ==> q.predicted > 0
    ensures SlowTrips(c, qs) <==> BelowFloor(Quotient, c.window, c.threshold * c.window as real, qs)
  {
    hide SumReal, Ratios, Total;
    TotalQuotient(LastN(qs, c.window));
  }

  predicate FloorSurvives(k: Score, window: nat, floor: real, dropped: Timeline, kept: Timeline, later: Timeline) {
    BelowFloor(k, window, floor, Eligible(dropped + kept + later)) <==> BelowFloor(k, window, floor, Eligible(kept + later))
  }

  lemma EligibleOutOfReach(
    b: Limits, k: Score, window: nat, floor: real, dropped: Timeline, kept: Timeline, later: Timeline)
    requires AllFit(b, dropped) && AllFit(b, later)
    requires OutOfReach(k, window, floor, Value(k, Worst(k, b)), Eligible(kept))
    ensures FloorSurvives(k, window, floor, dropped, kept, later)
  {
    hide Eligible, Pairs, OutOfReach, BelowFloor, Value, Worst, AllFit;
    EligibleAppend(kept, later);
    EligibleAppend3(dropped, kept, later);
    var d, s, l := Eligible(dropped), Eligible(kept), Eligible(later);
    EligibleFit(b, dropped);
    EligibleFit(b, later);
    forall q | q in d || q in l ensures Value(k, q) >= Value(k, Worst(k, b)) {
      WorstIsLeast(k, b, q);
    }
    FloorOutOfReach(k, window, floor, Value(k, Worst(k, b)), d, s, l);
  }

  /** Entries that, dropped before `kept`, put the total of a window below a floor that is within reach. */
  lemma EligibleReached(b: Limits, k: Score, window: nat, floor: real, kept: Timeline) returns (dropped: Timeline)
    requires b.Valid() && !OutOfReach(k, window, floor, Value(k, Worst(k, b)), Eligible(kept))
    ensures AllFit(b, dropped) && |Pairs(dropped)| <= window
    ensures BelowFloor(k, window, floor, Eligible(dropped + kept)) && !BelowFloor(k, window, floor, Eligible(kept))
  {
    hide Eligible, Pairs, OutOfReach, BelowFloor, Value, Worst, Fits;
    var q := Worst(k, b);
    dropped := Repeat(Trade(q.predicted, q.realized), window);
    WorstFits(k, b);
    TradeFits(b, q);
    RepeatFits(b, Trade(q.predicted, q.realized), window);
    EligibleAppend(dropped, kept);
    EligibleOfRepeat(q.predicted, q.realized, window);
    PairsShorter(dropped);
    FloorReached(k, window, floor, q, Eligible(kept));
  }

  lemma VolumeReach(b: Limits, c: VolumeWeightedConfig, s: seq<Pair>)
    ensures OutOfReach(Excess(c.threshold), c.window, 0.0, Value(Excess(c.threshold), Worst(Excess(c.threshold), b)), s)
            <==> || |s| >= c.window
                 || TotalRealized(s) as real - c.threshold * TotalPredicted(s) as real >= VolumeRoom(b, c, s)
  {
    hide Value, Worst, Total, TotalRealized, TotalPredicted, Scale;
    TotalExcess(c.threshold, s);
    WorstValues(b, c.threshold);
    ScaleIs(c.threshold, TotalPredicted(s) as real);
    var least := b.profit as real + c.threshold * (if c.threshold > 0.0 then b.profit as real else 1.0);
    NegatedScale(least, (c.window - |s|) as real);
  }

  lemma NegatedScale(t: real, x: real)
    ensures Scale(-t, x) == -(x * t)
  {
  }

  /**
   * The weighted guard never notices exactly when the kept positive pairs fill
   * the window or are so far above the threshold that no others can undo it.
   */
  lemma VolumeSurvivesExactly(b: Limits, p: ReconcilePolicy, kept: Timeline)
    requires b.Valid() && p.WellFormed() && p.volumeWeighted.Some?
    ensures NeverNotices(b, p, Volume, kept) <==> Immune(b, p, Volume, kept)
  {
    hide Eligible, BelowFloor, OutOfReach, VolumeTrips, VolumeRoom, TotalRealized, TotalPredicted, Value, Worst, Fits;
    var c, s := p.volumeWeighted.value, Eligible(kept);
    var k := Excess(c.threshold);
    VolumeReach(b, c, s);
    if OutOfReach(k, c.window, 0.0, Value(k, Worst(k, b)), s) {
      forall dropped, later | AllFit(b, dropped) && AllFit(b, later)
        ensures SameVerdict(p, Volume, dropped, kept, later)
      {
        EligibleOutOfReach(b, k, c.window, 0.0, dropped, kept, later);
        VolumeByFloor(c, Eligible(dropped + kept + later));
        VolumeByFloor(c, Eligible(kept + later));
      }
    } else {
      var dropped := VolumeNotices(b, p, kept);
      NoticedWith(b, p, Volume, dropped, kept);
    }
  }

  lemma VolumeNotices(b: Limits, p: ReconcilePolicy, kept: Timeline) returns (dropped: Timeline)
    requires b.Valid() && p.WellFormed() && !Immune(b, p, Volume, kept)
    ensures Noticed(b, p, Volume, dropped, kept)
  {
    hide Eligible, BelowFloor, OutOfReach, VolumeTrips, VolumeRoom, TotalRealized, TotalPredicted, Value, Worst, AllFit;
    var c := p.volumeWeighted.value;
    VolumeReach(b, c, Eligible(kept));
    dropped := EligibleReached(b, Excess(c.threshold), c.window, 0.0, kept);
    VolumeByFloor(c, Eligible(dropped + kept));
    VolumeByFloor(c, Eligible(kept));
  }

  lemma SlowReach(b: Limits, c: SlowGuardConfig, s: seq<Pair>)
    requires forall q :: q in s ==> q.predicted > 0
    ensures OutOfReach(Quotient, c.window, c.threshold * c.window as real, Value(Quotient, Worst(Quotient, b)), s)
            <==> || |s| >= c.window
                 || SumReal(Ratios(s)) - ((c.window - |s|) * b.profit) as real >= c.threshold * c.window as real
  {
    hide Value, Worst, Total, SumReal, Ratios, Scale;
    TotalQuotient(s);
    WorstValues(b, 0.0);
    ScaleOfInts(b.Loss(), c.window - |s|);
    NegatedProduct(b.profit, c.window - |s|);
  }

  /**
   * The slow guard never notices exactly when the kept positive pairs fill the
   * window or their ratios are so high that no others can undo it.
   */
  lemma SlowSurvivesExactly(b: Limits, p: ReconcilePolicy, kept: Timeline)
    requires b.Valid() && p.WellFormed()
    ensures NeverNotices(b, p, Slow, kept) <==> Immune(b, p, Slow, kept)
  {
    hide Eligible, BelowFloor, OutOfReach, SlowTrips, SumReal, Ratios, Value, Worst, Fits;
    var c, s := p.slow, Eligible(kept);
    var floor := c.threshold * c.window as real;
    SlowReach(b, c, s);
    if OutOfReach(Quotient, c.window, floor, Value(Quotient, Worst(Quotient, b)), s) {
      forall dropped, later | AllFit(b, dropped) && AllFit(b, later)
        ensures SameVerdict(p, Slow, dropped, kept, later)
      {
        EligibleOutOfReach(b, Quotient, c.window, floor, dropped, kept, later);
        SlowByFloor(c, Eligible(dropped + kept + later));
        SlowByFloor(c, Eligible(kept + later));
      }
    } else {
      var dropped := SlowNotices(b, p, kept);
      NoticedWith(b, p, Slow, dropped, kept);
    }
  }

  lemma SlowNotices(b: Limits, p: ReconcilePolicy, kept: Timeline) returns (dropped: Timeline)
    requires b.Valid() && p.WellFormed() && !Immune(b, p, Slow, kept)
    ensures Noticed(b, p, Slow, dropped, kept)
  {
    hide Eligible, BelowFloor, OutOfReach, SlowTrips, SumReal, Ratios, Value, Worst, AllFit;
    var c := p.slow;
    SlowReach(b, c, Eligible(kept));
    dropped := EligibleReached(b, Quotient, c.window, c.threshold * c.window as real, kept);
    SlowByFloor(c, Eligible(dropped + kept));
    SlowByFloor(c, Eligible(kept));
  }

  // ---------------------------------------------------------------------
  // All guards together: whether the policy halts.

  /** Every guard never notices exactly under its condition; one that is off never does. */
  lemma GuardSurvivesExactly(b: Limits, p: ReconcilePolicy, g: Guard, kept: Timeline)
    requires b.Valid() && p.WellFormed()
    ensures NeverNotices(b, p, g, kept) <==> Immune(b, p, g, kept)
  {
    match g {
      case Burst => if p.revertBurst.Some? { BurstSurvivesExactly(b, p, kept); }
      case Gas => if p.revertGas.Some? { GasSurvivesExactly(b, p, kept); }
      case Fast => FastSurvivesExactly(b, p, kept);
      case Drawdown => if p.drawdown.Some? { DrawdownSurvivesExactly(b, p, kept); }
      case Volume => if p.volumeWeighted.Some? { VolumeSurvivesExactly(b, p, kept); }
      case Slow => SlowSurvivesExactly(b, p, kept);
    }
  }

  lemma GuardNotices(b: Limits, p: ReconcilePolicy, g: Guard, kept: Timeline) returns (dropped: Timeline)
    requires b.Valid() && p.WellFormed() && !Immune(b, p, g, kept)
    ensures Noticed(b, p, g, dropped, kept)
  {
    hide Noticed;
    match g {
      case Burst => dropped := BurstNotices(b, p, kept);
      case Gas => dropped := GasNotices(b, p, kept);
      case Fast => dropped := FastNotices(b, p, kept);
      case Drawdown => dropped := DrawdownNotices(b, p, kept);
      case Volume => dropped := VolumeNotices(b, p, kept);
      case Slow => dropped := SlowNotices(b, p, kept);
    }
  }

  predicate SameOutcome(p: ReconcilePolicy, dropped: Timeline, kept: Timeline, later: Timeline)
    requires p.WellFormed()
  {
    Decide(p, dropped + kept + later).Halt? <==> Decide(p, kept + later).Halt?
  }

  /** Whether the policy halts never depends on what was dropped, whatever that was and whatever follows. */
  ghost predicate OutcomeNeverChanges(b: Limits, p: ReconcilePolicy, kept: Timeline)
    requires p.WellFormed()
  {
    forall dropped, later :: AllFit(b, dropped) && AllFit(b, later) ==> SameOutcome(p, dropped, kept, later)
  }

  lemma SameVerdictsSameOutcome(p: ReconcilePolicy, dropped: Timeline, kept: Timeline, later: Timeline)
    requires p.WellFormed() && forall g :: SameVerdict(p, g, dropped, kept, later)
    ensures SameOutcome(p, dropped, kept, later)
  {
    hide Trips, Decide;
    forall g ensures Trips(p, g, dropped + kept + later) <==> Trips(p, g, kept + later) {
      assert SameVerdict(p, g, dropped, kept, later);
    }
    SameTripsSameHalt(p, dropped + kept + later, kept + later);
  }

  lemma SameTripsSameHalt(p: ReconcilePolicy, x: Timeline, y: Timeline)
    requires p.WellFormed() && forall g :: Trips(p, g, x) <==> Trips(p, g, y)
    ensures Decide(p, x).Halt? <==> Decide(p, y).Halt?
  {
    hide Trips, Decide;
    DecideHalts(p, x);
    DecideHalts(p, y);
  }

  lemma OutcomeNoticed(b: Limits, p: ReconcilePolicy, g: Guard, kept: Timeline)
    requires b.Valid() && p.WellFormed() && !Decide(p, kept).Halt? && !Immune(b, p, g, kept)
    ensures !OutcomeNeverChanges(b, p, kept)
  {
    hide Decide, Immune, Trips, Fits;
    var dropped := GuardNotices(b, p, g, kept);
    assert dropped + kept + [] == dropped + kept && kept + [] == kept;
    DecideHalts(p, dropped + kept);
    assert !SameOutcome(p, dropped, kept, []);
  }

  /**
   * For a process that has not halted on what compaction keeps, whether it
   * halts never depends on what was dropped exactly when every guard is immune.
   */
  lemma OutcomeSurvivesExactly(b: Limits, p: ReconcilePolicy, kept: Timeline)
    requires b.Valid() && p.WellFormed() && Decide(p, kept) == Continue
    ensures OutcomeNeverChanges(b, p, kept) <==> forall g :: Immune(b, p, g, kept)
  {
    hide Decide, Immune, AllFit, SameVerdict, SameOutcome;
    if forall g :: Immune(b, p, g, kept) {
      forall dropped, later | AllFit(b, dropped) && AllFit(b, later)
        ensures SameOutcome(p, dropped, kept, later)
      {
        forall g ensures SameVerdict(p, g, dropped, kept, later) {
          GuardSurvivesExactly(b, p, g, kept);
          assert NeverNotices(b, p, g, kept);
        }
        SameVerdictsSameOutcome(p, dropped, kept, later);
      }
    } else {
      var g :| !Immune(b, p, g, kept);
      OutcomeNoticed(b, p, g, kept);
    }
  }

  // ---------------------------------------------------------------------
  // Losing history is one-sided: what trips on the newest entries trips on all.

  lemma SuffixGas(c: RevertGasConfig, a: Timeline, b: Timeline)
    requires GasTrips(c, b)
    ensures GasTrips(c, a + b)
  {
    hide GasBurned;
    if |b| >= c.window {
      LastNOfSuffix(a, b, c.window);
    } else {
      LastNSplits(a, b, c.window);
      LastNWhole(b, c.window);
      GasBurnedAppend(LastN(a, c.window - |b|), b);
    }
  }

  lemma SuffixBurst(c: RevertBurstConfig, a: Timeline, b: Timeline)
    requires BurstTrips(c, b)
    ensures BurstTrips(c, a + b)
  {
    forall k | |a + b| - c.limit <= k < |a + b| ensures (a + b)[k].RevertedTx? {
      assert (a + b)[k] == b[k - |a|];
    }
  }

  lemma SuffixTrips(p: ReconcilePolicy, g: Guard, a: Timeline, b: Timeline)
    requires p.WellFormed() && Trips(p, g, b)
    ensures Trips(p, g, a + b)
  {
    hide GasTrips, BurstTrips, Eligible, Pairs, Slippage, TotalRealized, TotalPredicted, SumReal, Ratio, LastN, Underperforms;
    EligibleAppend(a, b);
    match g {
      case Burst => SuffixBurst(p.revertBurst.value, a, b);
      case Gas => SuffixGas(p.revertGas.value, a, b);
      case Fast => FastOfSuffix(p.fast, Eligible(a), Eligible(b));
      case Drawdown => LastNOfSuffix(Pairs(a), Pairs(b), p.drawdown.value.window);
      case Volume => LastNOfSuffix(Eligible(a), Eligible(b), p.volumeWeighted.value.window);
      case Slow => LastNOfSuffix(Eligible(a), Eligible(b), p.slow.window);
    }
  }

  /** Whatever halts on a suffix halts on the whole history. */
  lemma SuffixHalts(p: ReconcilePolicy, a: Timeline, b: Timeline)
    requires p.WellFormed() && Halts(p, b)
    ensures Halts(p, a + b)
  {
    hide Trips;
    var g :| Trips(p, g, b);
    SuffixTrips(p, g, a, b);
  }

  lemma AllFitAppend(b: Limits, x: Timeline, y: Timeline)
    requires AllFit(b, x) && AllFit(b, y)
    ensures AllFit(b, x + y)
  {
    hide Fits;
  }

  /**
   * For any kept entries, halting or not: the outcome never depends on what was
   * dropped exactly when every guard is immune at each later point where the
   * policy would continue.
   */
  lemma OutcomeSurvivesFrom(b: Limits, p: ReconcilePolicy, kept: Timeline)
    requires b.Valid() && p.WellFormed()
    ensures OutcomeNeverChanges(b, p, kept)
            <==> forall later, g :: AllFit(b, later) && Decide(p, kept + later) == Continue ==> Immune(b, p, g, kept + later)
  {
    hide Decide, Immune, AllFit, SameVerdict, SameOutcome, Halts, NeverNotices;
    if OutcomeNeverChanges(b, p, kept) {
      forall later, g | AllFit(b, later) && Decide(p, kept + later) == Continue
        ensures Immune(b, p, g, kept + later)
      {
        OutcomeAfter(b, p, kept, later);
        OutcomeSurvivesExactly(b, p, kept + later);
      }
    }
    if forall later, g :: AllFit(b, later) && Decide(p, kept + later) == Continue ==> Immune(b, p, g, kept + later) {
      forall dropped, later | AllFit(b, dropped) && AllFit(b, later)
        ensures SameOutcome(p, dropped, kept, later)
      {
        if Decide(p, kept + later) == Continue {
          assert forall g :: Immune(b, p, g, kept + later);
          OutcomeSurvivesExactly(b, p, kept + later);
          OutcomeNow(b, p, dropped, kept, later);
        } else {
          HaltedBoth(p, dropped, kept, later);
        }
      }
    }
  }

  lemma OutcomeAfter(b: Limits, p: ReconcilePolicy, kept: Timeline, later: Timeline)
    requires p.WellFormed() && OutcomeNeverChanges(b, p, kept) && AllFit(b, later)
    ensures OutcomeNeverChanges(b, p, kept + later)
  {
    hide Decide, AllFit;
    forall dropped, more | AllFit(b, dropped) && AllFit(b, more)
      ensures SameOutcome(p, dropped, kept + later, more)
    {
      AllFitAppend(b, later, more);
      assert SameOutcome(p, dropped, kept, later + more);
      assert dropped + kept + (later + more) == dropped + (kept + later) + more;
      assert kept + (later + more) == kept + later + more;
    }
  }

  lemma OutcomeNow(b: Limits, p: ReconcilePolicy, dropped: Timeline, kept: Timeline, later: Timeline)
    requires p.WellFormed() && OutcomeNeverChanges(b, p, kept + later) && AllFit(b, dropped)
    ensures SameOutcome(p, dropped, kept, later)
  {
    hide Decide, Fits;
    assert SameOutcome(p, dropped, kept + later, []);
    assert dropped + (kept + later) + [] == dropped + kept + later && kept + later + [] == kept + later;
  }

  lemma HaltedBoth(p: ReconcilePolicy, dropped: Timeline, kept: Timeline, later: Timeline)
    requires p.WellFormed() && Decide(p, kept + later).Halt?
    ensures SameOutcome(p, dropped, kept, later)
  {
    hide Decide, Halts;
    DecideHalts(p, kept + later);
    SuffixHalts(p, dropped, kept + later);
    Regroup(dropped, kept, later);
    DecideHalts(p, dropped + kept + later);
  }

  // ---------------------------------------------------------------------
  // The whole decision, reason and all.

  /** The kept entries fill every window the policy looks at. */
  predicate FillsWindows(p: ReconcilePolicy, kept: Timeline) {
    && |Eligible(kept)| >= p.fast.window
    && |Eligible(kept)| >= p.slow.window
    && (p.volumeWeighted.Some? ==> |Eligible(kept)| >= p.volumeWeighted.value.window)
    && (p.drawdown.Some? ==> |Pairs(kept)| >= p.drawdown.value.window)
    && (p.revertGas.Some? ==> |kept| >= p.revertGas.value.window)
  }

  lemma {:induction false} SomePair(tl: Timeline) returns (k: nat)
    requires Pairs(tl) != []
    ensures k < |tl| && tl[k].ConfirmedPair?
  {
    if tl[|tl| - 1].ConfirmedPair? {
      k := |tl| - 1;
    } else {
      k := SomePair(tl[..|tl| - 1]);
    }
  }

  lemma {:induction false} PositiveShorter(ps: seq<Pair>)
    ensures |Positive(ps)| <= |ps|
  {
    if ps != [] {
      PositiveShorter(ps[..|ps| - 1]);
    }
  }

  lemma TrailingRevertsOfSuffix(a: Timeline, b: Timeline, k: nat)
    requires k < |b| && b[k].ConfirmedPair?
    ensures TrailingReverts(a + b) == TrailingReverts(b)
  {
    var n := TrailingReverts(b);
    TrailingRevertsUnique(b, n);
    assert n != |b|;
    assert forall i :: 0 <= i < |b| ==> (a + b)[|a| + i] == b[i];
    assert (a + b)[|a + b| - 1 - n] == b[|b| - 1 - n];
    forall i | |a + b| - n <= i < |a + b| ensures (a + b)[i].RevertedTx? {
      assert (a + b)[i] == b[i - |a|];
    }
    TrailingRevertsUnique(a + b, n);
  }

  lemma BurstVerdictSurvives(p: ReconcilePolicy, dropped: Timeline, kept: Timeline, later: Timeline)
    requires p.WellFormed() && FillsWindows(p, kept)
    ensures Verdict(p, Burst, dropped + kept + later) == Verdict(p, Burst, kept + later)
  {
    PositiveShorter(Pairs(kept));
    var k := SomePair(kept);
    assert dropped + kept + later == dropped + (kept + later);
    assert (kept + later)[k] == kept[k];
    TrailingRevertsOfSuffix(dropped, kept + later, k);
    if p.revertBurst.Some? {
      BurstByCount(p.revertBurst.value, dropped + kept + later);
      BurstByCount(p.revertBurst.value, kept + later);
    }
  }

  lemma GasVerdictSurvives(p: ReconcilePolicy, dropped: Timeline, kept: Timeline, later: Timeline)
    requires p.WellFormed() && FillsWindows(p, kept)
    ensures Verdict(p, Gas, dropped + kept + later) == Verdict(p, Gas, kept + later)
  {
    hide Eligible, Pairs;
    if p.revertGas.Some? {
      assert dropped + kept + later == dropped + (kept + later);
      LastNOfSuffix(dropped, kept + later, p.revertGas.value.window);
    }
  }

  lemma FastVerdictSurvives(p: ReconcilePolicy, dropped: Timeline, kept: Timeline, later: Timeline)
    requires p.WellFormed() && FillsWindows(p, kept)
    ensures Verdict(p, Fast, dropped + kept + later) == Verdict(p, Fast, kept + later)
  {
    hide Eligible, Ratio, Underperforms;
    FastSurvivesWhenKept(p.fast, dropped, kept, later);
    EligibleAppend(kept, later);
    EligibleAppend3(dropped, kept, later);
    LastNOfSuffix(Eligible(dropped), Eligible(kept) + Eligible(later), p.fast.window);
  }

  lemma DrawdownVerdictSurvives(p: ReconcilePolicy, dropped: Timeline, kept: Timeline, later: Timeline)
    requires p.WellFormed() && FillsWindows(p, kept)
    ensures Verdict(p, Drawdown, dropped + kept + later) == Verdict(p, Drawdown, kept + later)
  {
    hide Eligible, Slippage, Pairs;
    EligibleAppend(kept, later);
    EligibleAppend3(dropped, kept, later);
    if p.drawdown.Some? {
      LastNOfSuffix(Pairs(dropped), Pairs(kept) + Pairs(later), p.drawdown.value.window);
    }
  }

  lemma VolumeVerdictSurvives(p: ReconcilePolicy, dropped: Timeline, kept: Timeline, later: Timeline)
    requires p.WellFormed() && FillsWindows(p, kept)
    ensures Verdict(p, Volume, dropped + kept + later) == Verdict(p, Volume, kept + later)
  {
    hide Eligible, TotalRealized, TotalPredicted;
    EligibleAppend(kept, later);
    EligibleAppend3(dropped, kept, later);
    if p.volumeWeighted.Some? {
      LastNOfSuffix(Eligible(dropped), Eligible(kept) + Eligible(later), p.volumeWeighted.value.window);
    }
  }

  lemma SlowVerdictSurvives(p: ReconcilePolicy, dropped: Timeline, kept: Timeline, later: Timeline)
    requires p.WellFormed() && FillsWindows(p, kept)
    ensures Verdict(p, Slow, dropped + kept + later) == Verdict(p, Slow, kept + later)
  {
    hide Eligible, SumReal, Ratio;
    EligibleAppend(kept, later);
    EligibleAppend3(dropped, kept, later);
    LastNOfSuffix(Eligible(dropped), Eligible(kept) + Eligible(later), p.slow.window);
  }

  /**
   * If the kept entries fill every window, no later decision can tell whether
   * the older entries were dropped: not its outcome, its guard, nor its numbers.
   */
  lemma DecisionSurvives(p: ReconcilePolicy, dropped: Timeline, kept: Timeline, later: Timeline)
    requires p.WellFormed() && FillsWindows(p, kept)
    ensures Decide(p, dropped + kept + later) == Decide(p, kept + later)
  {
    hide Trips, ReasonOf, FillsWindows;
    BurstVerdictSurvives(p, dropped, kept, later);
    GasVerdictSurvives(p, dropped, kept, later);
    FastVerdictSurvives(p, dropped, kept, later);
    DrawdownVerdictSurvives(p, dropped, kept, later);
    VolumeVerdictSurvives(p, dropped, kept, later);
    SlowVerdictSurvives(p, dropped, kept, later);
  }
}
