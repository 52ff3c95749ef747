/** The Python binding's grid sweep over recorded trades. */
module Batch {
  import opened History
  import opened Policy
  import opened Tightening
  import opened Samples
  import opened Replay
  import opened Columns

  const FAST_WINDOW := 3
  const SLOW_WINDOW := 20

  datatype SweepResult = SweepResult(
    fastThreshold: real, fastWindow: nat,
    slowThreshold: real, slowWindow: nat,
    revertLimit: nat,
    totalHalts: nat,
    firstHaltIndex: Option<nat>,
    totalDrawdownPrevented: int)

  /** A length mismatch is an error value; a zero revert limit is the policy's own panic. */
  datatype SweepOutcome = Rows(rows: seq<SweepResult>) | LengthMismatch | RevertLimitPanic

  datatype Point = Point(fast: real, slow: real, limit: nat)

  function PointPolicy(pt: Point): (p: ReconcilePolicy)
    requires pt.limit > 0
    ensures p.WellFormed()
  {
    PairPolicy(pt).WithRevertBurst(RevertBurstConfig(pt.limit))
  }

  /** The same ratio guards with no revert guard. */
  function PairPolicy(pt: Point): (p: ReconcilePolicy)
    ensures p.WellFormed()
  {
    NewPolicy(FastGuardConfig(pt.fast, FAST_WINDOW), SlowGuardConfig(pt.slow, SLOW_WINDOW))
  }

  // ---------------------------------------------------------------------
  // The grid, in loop order.

  function LimitPoints(fast: real, slow: real, limits: seq<nat>): seq<Point> {
    if limits == [] then []
    else LimitPoints(fast, slow, limits[..|limits| - 1]) + [Point(fast, slow, limits[|limits| - 1])]
  }

  function SlowPoints(fast: real, slows: seq<real>, limits: seq<nat>): seq<Point> {
    if slows == [] then []
    else
      var slow := slows[|slows| - 1];
      SlowPoints(fast, slows[..|slows| - 1], limits)
      + if fast >= slow then [] else LimitPoints(fast, slow, limits)
  }

  function Grid(fasts: seq<real>, slows: seq<real>, limits: seq<nat>): seq<Point> {
    if fasts == [] then []
    else Grid(fasts[..|fasts| - 1], slows, limits) + SlowPoints(fasts[|fasts| - 1], slows, limits)
  }

  lemma {:induction false} LimitPointsHold(fast: real, slow: real, limits: seq<nat>, pt: Point)
    ensures pt in LimitPoints(fast, slow, limits) <==> pt.fast == fast && pt.slow == slow && pt.limit in limits
    ensures |LimitPoints(fast, slow, limits)| == |limits|
  {
    if limits != [] {
      LimitPointsHold(fast, slow, limits[..|limits| - 1], pt);
      assert limits == limits[..|limits| - 1] + [limits[|limits| - 1]];
    }
  }

  lemma {:induction false} SlowPointsHold(fast: real, slows: seq<real>, limits: seq<nat>, pt: Point)
    ensures pt in SlowPoints(fast, slows, limits)
            <==> pt.fast == fast && pt.slow in slows && pt.limit in limits && pt.fast < pt.slow
  {
    if slows != [] {
      var front, slow := slows[..|slows| - 1], slows[|slows| - 1];
      assert slows == front + [slow];
      LimitPointsHold(fast, slow, limits, pt);
      hide LimitPoints;
      SlowPointsHold(fast, front, limits, pt);
    }
  }

  /** The grid holds exactly the combinations whose fast threshold is below the slow one. */
  lemma {:induction false} GridHolds(fasts: seq<real>, slows: seq<real>, limits: seq<nat>, pt: Point)
    ensures pt in Grid(fasts, slows, limits)
            <==> pt.fast in fasts && pt.slow in slows && pt.limit in limits && pt.fast < pt.slow
  {
    if fasts != [] {
      GridHolds(fasts[..|fasts| - 1], slows, limits, pt);
      SlowPointsHold(fasts[|fasts| - 1], slows, limits, pt);
      assert fasts == fasts[..|fasts| - 1] + [fasts[|fasts| - 1]];
    }
  }

  /** Positions in the three lists, compared as nested loops run through them. */
  datatype Turn = Turn(f: nat, s: nat, l: nat)

  predicate Earlier(a: Turn, b: Turn) {
    a.f < b.f || (a.f == b.f && (a.s < b.s || (a.s == b.s && a.l < b.l)))
  }

  /** The turns taken so far stand for these points, in loop order, and skip only disordered thresholds. */
  ghost predicate Visits(ts: seq<Turn>, points: seq<Point>, fasts: seq<real>, slows: seq<real>, limits: seq<nat>) {
    && |ts| == |points|
    && (forall k :: 0 <= k < |ts| ==>
          && ts[k].f < |fasts| && ts[k].s < |slows| && ts[k].l < |limits|
          && fasts[ts[k].f] < slows[ts[k].s]
          && points[k] == Point(fasts[ts[k].f], slows[ts[k].s], limits[ts[k].l]))
    && forall j, k :: 0 <= j < k < |ts| ==> Earlier(ts[j], ts[k])
  }

  predicate AllEarlier(ts: seq<Turn>, us: seq<Turn>) {
    forall j, k :: 0 <= j < |ts| && 0 <= k < |us| ==> Earlier(ts[j], us[k])
  }

  lemma VisitsAppend(
    ts: seq<Turn>, ps: seq<Point>, us: seq<Turn>, qs: seq<Point>, fasts: seq<real>, slows: seq<real>, limits: seq<nat>)
    requires Visits(ts, ps, fasts, slows, limits) && Visits(us, qs, fasts, slows, limits) && AllEarlier(ts, us)
    ensures Visits(ts + us, ps + qs, fasts, slows, limits)
  {
    hide Earlier;
    var all := ts + us;
    forall j, k | 0 <= j < k < |all| ensures Earlier(all[j], all[k]) {
      if k < |ts| {
        assert Earlier(ts[j], ts[k]);
      } else if j >= |ts| {
        assert Earlier(us[j - |ts|], us[k - |ts|]);
      } else {
        assert Earlier(ts[j], us[k - |ts|]);
      }
    }
  }

  /** Every combination of the first `n` slow thresholds with a limit has had its turn. */
  predicate SlowsCovered(ts: seq<Turn>, fasts: seq<real>, slows: seq<real>, limits: seq<nat>, f: nat, n: nat)
    requires f < |fasts| && n <= |slows|
  {
    forall s, l :: 0 <= s < n && fasts[f] < slows[s] && 0 <= l < |limits| ==> Turn(f, s, l) in ts
  }

  predicate FastsCovered(ts: seq<Turn>, fasts: seq<real>, slows: seq<real>, limits: seq<nat>, n: nat)
    requires n <= |fasts|
  {
    forall f :: 0 <= f < n ==> SlowsCovered(ts, fasts, slows, limits, f, |slows|)
  }

  lemma {:induction false} LimitTurns(fasts: seq<real>, slows: seq<real>, limits: seq<nat>, f: nat, s: nat, n: nat)
    returns (ts: seq<Turn>)
    requires f < |fasts| && s < |slows| && fasts[f] < slows[s] && n <= |limits|
    ensures Visits(ts, LimitPoints(fasts[f], slows[s], limits[..n]), fasts, slows, limits)
    ensures forall k :: 0 <= k < |ts| ==> ts[k].f == f && ts[k].s == s && ts[k].l < n
    ensures forall l :: 0 <= l < n ==> Turn(f, s, l) in ts
  {
    if n == 0 {
      ts := [];
    } else {
      var front := LimitTurns(fasts, slows, limits, f, s, n - 1);
      assert limits[..n][..n - 1] == limits[..n - 1];
      ts := front + [Turn(f, s, n - 1)];
    }
  }

  lemma SlowsMore(
    front: seq<Turn>, more: seq<Turn>, fasts: seq<real>, slows: seq<real>, limits: seq<nat>, f: nat, n: nat)
    requires f < |fasts| && 0 < n <= |slows| && SlowsCovered(front, fasts, slows, limits, f, n - 1)
    requires forall s, l :: s == n - 1 && fasts[f] < slows[s] && 0 <= l < |limits| ==> Turn(f, s, l) in more
    ensures SlowsCovered(front + more, fasts, slows, limits, f, n)
  {
    forall s, l | 0 <= s < n && fasts[f] < slows[s] && 0 <= l < |limits| ensures Turn(f, s, l) in front + more {
      assert s < n - 1 ==> Turn(f, s, l) in front;
    }
  }

  lemma {:induction false} SlowTurns(fasts: seq<real>, slows: seq<real>, limits: seq<nat>, f: nat, n: nat)
    returns (ts: seq<Turn>)
    requires f < |fasts| && n <= |slows|
    ensures Visits(ts, SlowPoints(fasts[f], slows[..n], limits), fasts, slows, limits)
    ensures forall k :: 0 <= k < |ts| ==> ts[k].f == f && ts[k].s < n
    ensures SlowsCovered(ts, fasts, slows, limits, f, n)
  {
    if n == 0 {
      ts := [];
    } else {
      hide LimitPoints, Visits, SlowsCovered;
      var front := SlowTurns(fasts, slows, limits, f, n - 1);
      assert slows[..n][..n - 1] == slows[..n - 1];
      if fasts[f] >= slows[n - 1] {
        SlowsMore(front, [], fasts, slows, limits, f, n);
        assert front + [] == front;
        ts := front;
      } else {
        var more := LimitTurns(fasts, slows, limits, f, n - 1, |limits|);
        assert limits[..|limits|] == limits;
        SlowsMore(front, more, fasts, slows, limits, f, n);
        VisitsAppend(front, SlowPoints(fasts[f], slows[..n - 1], limits),
          more, LimitPoints(fasts[f], slows[n - 1], limits), fasts, slows, limits);
        ts := front + more;
      }
    }
  }

  lemma CoveredMore(
    front: seq<Turn>, more: seq<Turn>, fasts: seq<real>, slows: seq<real>, limits: seq<nat>, n: nat)
    requires 0 < n <= |fasts| && FastsCovered(front, fasts, slows, limits, n - 1)
    requires SlowsCovered(more, fasts, slows, limits, n - 1, |slows|)
    ensures FastsCovered(front + more, fasts, slows, limits, n)
  {
    forall f | 0 <= f < n ensures SlowsCovered(front + more, fasts, slows, limits, f, |slows|) {
      if f < n - 1 {
        assert SlowsCovered(front, fasts, slows, limits, f, |slows|);
      }
    }
  }

  lemma {:induction false} GridTurns(fasts: seq<real>, slows: seq<real>, limits: seq<nat>, n: nat)
    returns (ts: seq<Turn>)
    requires n <= |fasts|
    ensures Visits(ts, Grid(fasts[..n], slows, limits), fasts, slows, limits)
    ensures forall k :: 0 <= k < |ts| ==> ts[k].f < n
    ensures FastsCovered(ts, fasts, slows, limits, n)
  {
    if n == 0 {
      ts := [];
    } else {
      var front := GridTurns(fasts, slows, limits, n - 1);
      assert fasts[..n][..n - 1] == fasts[..n - 1];
      var more := SlowTurns(fasts, slows, limits, n - 1, |slows|);
      assert slows[..|slows|] == slows;
      hide SlowPoints, Visits;
      VisitsAppend(front, Grid(fasts[..n - 1], slows, limits),
        more, SlowPoints(fasts[n - 1], slows, limits), fasts, slows, limits);
      ts := front + more;
      CoveredMore(front, more, fasts, slows, limits, n);
    }
  }

  /** The grid takes the combinations in the order of the nested loops, each exactly once. */
  lemma GridInLoopOrder(fasts: seq<real>, slows: seq<real>, limits: seq<nat>) returns (ts: seq<Turn>)
    ensures Visits(ts, Grid(fasts, slows, limits), fasts, slows, limits)
    ensures forall f, s, l :: 0 <= f < |fasts| && 0 <= s < |slows| && fasts[f] < slows[s] && 0 <= l < |limits|
                              ==> Turn(f, s, l) in ts
  {
    ts := GridTurns(fasts, slows, limits, |fasts|);
    assert fasts[..|fasts|] == fasts;
    hide Visits, Grid;
    forall f, s, l | 0 <= f < |fasts| && 0 <= s < |slows| && fasts[f] < slows[s] && 0 <= l < |limits|
      ensures Turn(f, s, l) in ts
    {
      assert SlowsCovered(ts, fasts, slows, limits, f, |slows|);
    }
  }

  // ---------------------------------------------------------------------
  // One row, and the sweep.

  /** The row reports this grid point, and its accumulators match the declarative account. */
  predicate IsRow(t: Trades, pt: Point, row: SweepResult)
    requires t.Aligned()
  {
    && row.fastThreshold == pt.fast && row.fastWindow == FAST_WINDOW
    && row.slowThreshold == pt.slow && row.slowWindow == SLOW_WINDOW
    && row.revertLimit == pt.limit > 0
    && var p, tl := PointPolicy(pt), t.Timeline();
    && row.totalHalts == |HaltSet(p, tl)|
    && IsFirstHalt(p, tl, row.firstHaltIndex)
    && row.totalDrawdownPrevented == Prevented(p, tl)
  }

  method ReplayRow(t: Trades, p: ReconcilePolicy)
    returns (totalHalts: nat, firstHaltIndex: Option<nat>, totalDrawdown: int)
    requires t.Aligned() && p.WellFormed()
    ensures totalHalts == |HaltSet(p, t.Timeline())|
    ensures IsFirstHalt(p, t.Timeline(), firstHaltIndex)
    ensures totalDrawdown == Prevented(p, t.Timeline())
  {
    hide Decide, HaltSet, IsFirstHalt, Prevented, Pairs, Reverts;
    var history := new ReconcileHistory();
    totalHalts, firstHaltIndex, totalDrawdown := 0, None, 0;
    EmptyReplay(p);
    ghost var tl := t.Timeline();
    assert tl[..0] == [];
    for i := 0 to |t.predicted|
      invariant fresh(history) && history.Valid() && history.timeline == tl[..i]
      invariant totalHalts == |HaltSet(p, tl[..i])|
      invariant IsFirstHalt(p, tl[..i], firstHaltIndex)
      invariant totalDrawdown == Prevented(p, tl[..i])
    {
      if t.isRevert[i] {
        var gu := if i < |t.gasUsed| then t.gasUsed[i] else DEFAULT_GAS_USED;
        var gp := if i < |t.gasPrice| then t.gasPrice[i] else 0;
        history.RecordRevert(RevertEvent(Repeat(0, 32), i, None, gu, gp));
      } else {
        history.Append(t.predicted[i], t.realized[i]);
      }
      assert tl[..i + 1] == tl[..i] + [t.Entry(i)];
      ReplaySnoc(p, tl[..i], t.Entry(i), firstHaltIndex);
      var decision := Evaluate(p, history);
      match decision {
        case Continue =>
        case Halt(_) =>
          totalHalts := totalHalts + 1;
          if firstHaltIndex.None? {
            firstHaltIndex := Some(i);
          }
          if !t.isRevert[i] && t.predicted[i] > t.realized[i] {
            totalDrawdown := totalDrawdown + (t.predicted[i] - t.realized[i]);
          }
      }
    }
    assert tl[..|t.predicted|] == tl;
  }

  lemma ReplaySnoc(p: ReconcilePolicy, tl: History.Timeline, e: HistoryEntry, first: Option<nat>)
    requires p.WellFormed() && IsFirstHalt(p, tl, first)
    ensures var halts := Decide(p, tl + [e]).Halt?;
            && |HaltSet(p, tl + [e])| == |HaltSet(p, tl)| + (if halts then 1 else 0)
            && IsFirstHalt(p, tl + [e], if first.None? && halts then Some(|tl|) else first)
            && Prevented(p, tl + [e]) == Prevented(p, tl) + if halts then Shortfall(e) else 0
  {
    hide Decide, HaltSet, IsFirstHalt, Prevented;
    HaltSetSnoc(p, tl, e);
    FirstHaltSnoc(p, tl, e, first);
    PreventedSnoc(p, tl, e);
  }

  lemma EmptyReplay(p: ReconcilePolicy)
    requires p.WellFormed()
    ensures HaltSet(p, []) == {} && IsFirstHalt(p, [], None) && Prevented(p, []) == 0
  {
  }

  /** `rows` report the grid points `points`, in order. */
  predicate AreRows(t: Trades, points: seq<Point>, rows: seq<SweepResult>)
    requires t.Aligned()
  {
    |rows| == |points| && forall k :: 0 <= k < |rows| ==> IsRow(t, points[k], rows[k])
  }

  predicate AllPositive(points: seq<Point>) {
    forall k :: 0 <= k < |points| ==> points[k].limit > 0
  }

  lemma AllPositiveAppend(a: seq<Point>, b: seq<Point>)
    ensures AllPositive(a + b) <==> AllPositive(a) && AllPositive(b)
  {
    if AllPositive(a + b) {
      forall k | 0 <= k < |a| ensures a[k].limit > 0 { assert (a + b)[k] == a[k]; }
      forall k | 0 <= k < |b| ensures b[k].limit > 0 { assert (a + b)[|a| + k] == b[k]; }
    }
  }

  /** Of a grid point's policy only the burst, the fast and the slow guard are on. */
  lemma PointHalts(pt: Point, tl: History.Timeline)
    requires pt.limit > 0
    ensures Decide(PointPolicy(pt), tl).Halt?
            <==> || BurstTrips(RevertBurstConfig(pt.limit), tl)
                 || FastTrips(FastGuardConfig(pt.fast, 3), Eligible(tl))
                 || SlowTrips(SlowGuardConfig(pt.slow, 20), Eligible(tl))
  {
    hide Eligible, FastTrips, SlowTrips, BurstTrips, Decide;
    var p := PointPolicy(pt);
    DecideHalts(p, tl);
    assert Trips(p, Burst, tl) <==> BurstTrips(RevertBurstConfig(pt.limit), tl);
    assert Trips(p, Fast, tl) <==> FastTrips(FastGuardConfig(pt.fast, 3), Eligible(tl));
    assert Trips(p, Slow, tl) <==> SlowTrips(SlowGuardConfig(pt.slow, 20), Eligible(tl));
  }

  /** The three guards read off the columns. */
  lemma HaltsFromColumns(t: Trades, pt: Point, i: nat)
    requires t.Aligned() && pt.limit > 0 && i < |t.predicted|
    ensures HaltsAfter(PointPolicy(pt), t.Timeline(), i) <==> RowHalts(t, pt.fast, pt.slow, pt.limit, i)
  {
    hide Eligible, FastTrips, SlowTrips, BurstTrips, RatioTotal, GoodRows, RowPairs, Decide, PointPolicy;
    PointHalts(pt, t.Timeline()[..i + 1]);
    EligibleOfRows(t, i + 1);
    BurstOfRows(t, pt.limit, i);
    FastOfRows(t, GoodRows(t, i + 1), pt.fast);
    SlowOfRows(t, GoodRows(t, i + 1), pt.slow);
  }

  /** What a result row says, in terms of the columns and the grid point alone. */
  ghost predicate RowSays(t: Trades, pt: Point, row: SweepResult)
    requires t.Aligned()
  {
    && row.fastThreshold == pt.fast && row.fastWindow == 3
    && row.slowThreshold == pt.slow && row.slowWindow == 20 && row.revertLimit == pt.limit
    && row.totalHalts == |set i | 0 <= i < |t.predicted| && RowHalts(t, pt.fast, pt.slow, pt.limit, i)|
    && (forall k :: row.firstHaltIndex == Some(k) ==>
          && k < |t.predicted| && RowHalts(t, pt.fast, pt.slow, pt.limit, k)
          && forall i :: 0 <= i < k ==> !RowHalts(t, pt.fast, pt.slow, pt.limit, i))
    && (row.firstHaltIndex.None? ==>
          forall i :: 0 <= i < |t.predicted| ==> !RowHalts(t, pt.fast, pt.slow, pt.limit, i))
    && row.totalDrawdownPrevented == ColumnLoss(t, pt.fast, pt.slow, pt.limit, |t.predicted|)
  }

  lemma {:induction false} LossFromColumns(t: Trades, pt: Point, n: nat)
    requires t.Aligned() && pt.limit > 0 && n <= |t.predicted|
    ensures Prevented(PointPolicy(pt), t.Timeline()[..n]) == ColumnLoss(t, pt.fast, pt.slow, pt.limit, n)
  {
    hide Decide, RowHalts, PointPolicy;
    if n > 0 {
      LossFromColumns(t, pt, n - 1);
      HaltsFromColumns(t, pt, n - 1);
      assert t.Timeline()[..n][..n - 1] == t.Timeline()[..n - 1];
    }
  }

  lemma RowFromColumns(t: Trades, pt: Point, row: SweepResult)
    requires t.Aligned() && IsRow(t, pt, row)
    ensures RowSays(t, pt, row)
  {
    hide HaltsAfter, RowHalts, PointPolicy, ColumnLoss, Prevented;
    var p, tl := PointPolicy(pt), t.Timeline();
    forall i | 0 <= i < |tl| ensures HaltsAfter(p, tl, i) <==> RowHalts(t, pt.fast, pt.slow, pt.limit, i) {
      HaltsFromColumns(t, pt, i);
    }
    assert HaltSet(p, tl) == set i | 0 <= i < |t.predicted| && RowHalts(t, pt.fast, pt.slow, pt.limit, i);
    LossFromColumns(t, pt, |tl|);
    assert tl[..|tl|] == tl;
  }

  lemma SameRowSays(t: Trades, u: Trades, pt: Point, row: SweepResult)
    requires t.Aligned() && SameButGas(t, u) && RowSays(t, pt, row)
    ensures RowSays(u, pt, row)
  {
    hide RowHalts, ColumnLoss;
    var n := |t.predicted|;
    forall i | 0 <= i < n
      ensures RowHalts(t, pt.fast, pt.slow, pt.limit, i) <==> RowHalts(u, pt.fast, pt.slow, pt.limit, i)
    {
      SameRowHalts(t, u, pt.fast, pt.slow, pt.limit, i);
    }
    SameColumnLoss(t, u, pt.fast, pt.slow, pt.limit, n);
    assert (set i | 0 <= i < n && RowHalts(t, pt.fast, pt.slow, pt.limit, i))
        == (set i | 0 <= i < n && RowHalts(u, pt.fast, pt.slow, pt.limit, i));
  }

  /** What a row says determines it. */
  lemma RowSaysUnique(t: Trades, pt: Point, row: SweepResult, other: SweepResult)
    requires t.Aligned() && RowSays(t, pt, row) && RowSays(t, pt, other)
    ensures row == other
  {
    hide RowHalts, ColumnLoss;
    if row.firstHaltIndex.Some? && other.firstHaltIndex.Some? {
      var j, k := row.firstHaltIndex.value, other.firstHaltIndex.value;
      assert !(j < k) && !(k < j);
    }
  }

  /** The gas columns, present or defaulted, never change a row. */
  lemma GasNeverMatters(t: Trades, u: Trades, pt: Point, row: SweepResult, other: SweepResult)
    requires t.Aligned() && SameButGas(t, u) && IsRow(t, pt, row) && IsRow(u, pt, other)
    ensures row == other
  {
    RowFromColumns(t, pt, row);
    RowFromColumns(u, pt, other);
    hide IsRow, RowSays;
    SameRowSays(t, u, pt, row);
    RowSaysUnique(u, pt, row, other);
  }

  lemma AreRowsAppend(t: Trades, a: seq<Point>, b: seq<Point>, x: seq<SweepResult>, y: seq<SweepResult>)
    requires t.Aligned() && AreRows(t, a, x) && AreRows(t, b, y)
    ensures AreRows(t, a + b, x + y)
  {
    hide IsRow;
  }

  /** The innermost loop: one row per revert limit. None is the zero-limit panic. */
  method SweepLimits(t: Trades, fast: real, slow: real, limits: seq<nat>)
    returns (rows: Option<seq<SweepResult>>)
    requires t.Aligned()
    ensures rows.Some? <==> AllPositive(LimitPoints(fast, slow, limits))
    ensures rows.Some? ==> AreRows(t, LimitPoints(fast, slow, limits), rows.value)
  {
    hide IsRow, AllPositive, AreRows, LimitPoints, IsFirstHalt, HaltSet, Prevented, PointPolicy;
    var results: seq<SweepResult> := [];
    EmptySweep(t);
    LimitPointsNone(fast, slow, limits);
    for i := 0 to |limits|
      invariant AllPositive(LimitPoints(fast, slow, limits[..i]))
      invariant AreRows(t, LimitPoints(fast, slow, limits[..i]), results)
    {
      var pt := Point(fast, slow, limits[i]);
      LimitPointsStep(fast, slow, limits, i);
      AllPositiveAppend(LimitPoints(fast, slow, limits[..i]), [pt]);
      OnePositive(pt);
      if limits[i] == 0 {
        LimitPointsNegative(fast, slow, limits, i);
        return None;
      }
      var halts, first, drawdown := ReplayRow(t, PointPolicy(pt));
      var row := SweepResult(fast, FAST_WINDOW, slow, SLOW_WINDOW, limits[i], halts, first, drawdown);
      RowOf(t, pt, row);
      OneRow(t, pt, row);
      AreRowsAppend(t, LimitPoints(fast, slow, limits[..i]), [pt], results, [row]);
      results := results + [row];
    }
    assert limits[..|limits|] == limits;
    rows := Some(results);
  }

  lemma RowOf(t: Trades, pt: Point, row: SweepResult)
    requires t.Aligned() && pt.limit > 0
    requires row.fastThreshold == pt.fast && row.fastWindow == FAST_WINDOW
    requires row.slowThreshold == pt.slow && row.slowWindow == SLOW_WINDOW && row.revertLimit == pt.limit
    requires row.totalHalts == |HaltSet(PointPolicy(pt), t.Timeline())|
    requires IsFirstHalt(PointPolicy(pt), t.Timeline(), row.firstHaltIndex)
    requires row.totalDrawdownPrevented == Prevented(PointPolicy(pt), t.Timeline())
    ensures IsRow(t, pt, row)
  {
    hide HaltSet, IsFirstHalt, Prevented;
  }

  lemma OneRow(t: Trades, pt: Point, row: SweepResult)
    requires t.Aligned() && IsRow(t, pt, row)
    ensures AreRows(t, [pt], [row])
  {
    hide IsRow;
  }

  lemma OnePositive(pt: Point)
    ensures AllPositive([pt]) <==> pt.limit > 0
  {
    assert [pt][0] == pt;
  }

  lemma LimitPointsNone(fast: real, slow: real, limits: seq<nat>)
    ensures LimitPoints(fast, slow, limits[..0]) == []
  {
    assert limits[..0] == [];
  }

  lemma LimitPointsStep(fast: real, slow: real, limits: seq<nat>, i: nat)
    requires i < |limits|
    ensures LimitPoints(fast, slow, limits[..i + 1])
            == LimitPoints(fast, slow, limits[..i]) + [Point(fast, slow, limits[i])]
  {
    assert limits[..i + 1][..i] == limits[..i];
  }

  lemma LimitPointsNegative(fast: real, slow: real, limits: seq<nat>, i: nat)
    requires i < |limits| && limits[i] == 0
    ensures !AllPositive(LimitPoints(fast, slow, limits))
  {
    LimitPointsHold(fast, slow, limits, Point(fast, slow, 0));
    assert limits[i] in limits;
  }

  lemma SlowPointsStep(fast: real, slows: seq<real>, limits: seq<nat>, i: nat)
    requires i < |slows|
    ensures SlowPoints(fast, slows[..i + 1], limits)
            == SlowPoints(fast, slows[..i], limits)
               + if fast >= slows[i] then [] else LimitPoints(fast, slows[i], limits)
  {
    assert slows[..i + 1][..i] == slows[..i];
  }

  lemma GridStep(fasts: seq<real>, slows: seq<real>, limits: seq<nat>, i: nat)
    requires i < |fasts|
    ensures Grid(fasts[..i + 1], slows, limits)
            == Grid(fasts[..i], slows, limits) + SlowPoints(fasts[i], slows, limits)
  {
    assert fasts[..i + 1][..i] == fasts[..i];
  }

  lemma {:induction false} SlowPointsGrow(fast: real, slows: seq<real>, limits: seq<nat>, i: nat)
    requires i <= |slows| && AllPositive(SlowPoints(fast, slows, limits))
    ensures AllPositive(SlowPoints(fast, slows[..i], limits))
    decreases |slows|
  {
    if i == |slows| {
      assert slows[..i] == slows;
    } else {
      var n := |slows| - 1;
      AllPositiveAppend(SlowPoints(fast, slows[..n], limits),
        if fast >= slows[n] then [] else LimitPoints(fast, slows[n], limits));
      SlowPointsGrow(fast, slows[..n], limits, i);
      assert slows[..n][..i] == slows[..i];
    }
  }

  lemma {:induction false} GridGrow(fasts: seq<real>, slows: seq<real>, limits: seq<nat>, i: nat)
    requires i <= |fasts| && AllPositive(Grid(fasts, slows, limits))
    ensures AllPositive(Grid(fasts[..i], slows, limits))
    decreases |fasts|
  {
    if i == |fasts| {
      assert fasts[..i] == fasts;
    } else {
      var n := |fasts| - 1;
      AllPositiveAppend(Grid(fasts[..n], slows, limits), SlowPoints(fasts[n], slows, limits));
      GridGrow(fasts[..n], slows, limits, i);
      assert fasts[..n][..i] == fasts[..i];
    }
  }

  method SweepSlows(t: Trades, fast: real, slows: seq<real>, limits: seq<nat>)
    returns (rows: Option<seq<SweepResult>>)
    requires t.Aligned()
    ensures rows.Some? <==> AllPositive(SlowPoints(fast, slows, limits))
    ensures rows.Some? ==> AreRows(t, SlowPoints(fast, slows, limits), rows.value)
  {
    hide IsRow, AllPositive, AreRows;
    var results: seq<SweepResult> := [];
    EmptySweep(t);
    for i := 0 to |slows|
      invariant AllPositive(SlowPoints(fast, slows[..i], limits))
      invariant AreRows(t, SlowPoints(fast, slows[..i], limits), results)
    {
      SlowPointsStep(fast, slows, limits, i);
      if fast >= slows[i] {
        assert SlowPoints(fast, slows[..i], limits) + [] == SlowPoints(fast, slows[..i], limits);
        continue;
      }
      var more := SweepLimits(t, fast, slows[i], limits);
      AllPositiveAppend(SlowPoints(fast, slows[..i], limits), LimitPoints(fast, slows[i], limits));
      if more.None? {
        if AllPositive(SlowPoints(fast, slows, limits)) {
          SlowPointsGrow(fast, slows, limits, i + 1);
        }
        return None;
      }
      AreRowsAppend(t, SlowPoints(fast, slows[..i], limits), LimitPoints(fast, slows[i], limits),
                    results, more.value);
      results := results + more.value;
    }
    assert slows[..|slows|] == slows;
    rows := Some(results);
  }

  lemma EmptySweep(t: Trades)
    requires t.Aligned()
    ensures AllPositive([]) && AreRows(t, [], [])
  {
  }

  lemma RowsFromColumns(t: Trades, points: seq<Point>, rows: seq<SweepResult>)
    requires t.Aligned() && AreRows(t, points, rows)
    ensures |rows| == |points| && forall k :: 0 <= k < |rows| ==> RowSays(t, points[k], rows[k])
  {
    hide IsRow, RowSays;
    forall k | 0 <= k < |rows| ensures RowSays(t, points[k], rows[k]) {
      RowFromColumns(t, points[k], rows[k]);
    }
  }

  lemma AllPositiveExactly(points: seq<Point>)
    ensures AllPositive(points) <==> !exists k :: 0 <= k < |points| && points[k].limit == 0
  {
  }

  /**
   * The whole sweep: one row per grid point, in loop order, each matching the
   * declarative account of its replay.
   */
  method RunSweepRaw(t: Trades, fasts: seq<real>, slows: seq<real>, limits: seq<nat>)
    returns (outcome: SweepOutcome)
    ensures outcome.LengthMismatch? <==> |t.realized| != |t.predicted| || |t.isRevert| != |t.predicted|
    ensures outcome.RevertLimitPanic? <==>
            t.Aligned() && exists k :: 0 <= k < |Grid(fasts, slows, limits)| && Grid(fasts, slows, limits)[k].limit == 0
    ensures outcome.Rows? ==>
              && t.Aligned() && AreRows(t, Grid(fasts, slows, limits), outcome.rows)
              && |outcome.rows| == |Grid(fasts, slows, limits)|
              && forall k :: 0 <= k < |outcome.rows| ==> RowSays(t, Grid(fasts, slows, limits)[k], outcome.rows[k])
  {
    hide IsRow, AllPositive, AreRows, RowSays;
    if |t.realized| != |t.predicted| || |t.isRevert| != |t.predicted| {
      return LengthMismatch;
    }
    var results: seq<SweepResult> := [];
    EmptySweep(t);
    for i := 0 to |fasts|
      invariant AllPositive(Grid(fasts[..i], slows, limits))
      invariant AreRows(t, Grid(fasts[..i], slows, limits), results)
    {
      GridStep(fasts, slows, limits, i);
      var more := SweepSlows(t, fasts[i], slows, limits);
      AllPositiveAppend(Grid(fasts[..i], slows, limits), SlowPoints(fasts[i], slows, limits));
      if more.None? {
        if AllPositive(Grid(fasts, slows, limits)) {
          GridGrow(fasts, slows, limits, i + 1);
        }
        assert !AllPositive(Grid(fasts, slows, limits));
        AllPositiveExactly(Grid(fasts, slows, limits));
        assert t.Aligned();
        outcome := RevertLimitPanic;
        return;
      }
      AreRowsAppend(t, Grid(fasts[..i], slows, limits), SlowPoints(fasts[i], slows, limits),
                    results, more.value);
      results := results + more.value;
    }
    assert fasts[..|fasts|] == fasts;
    outcome := Rows(results);
    RowsFromColumns(t, Grid(fasts, slows, limits), results);
    AllPositiveExactly(Grid(fasts, slows, limits));
  }

  // ---------------------------------------------------------------------
  // Rows of tighter points.

  /** A row with thresholds no lower and a limit no higher halts no later, no less often, and prevents no less. */
  lemma TighterRow(t: Trades, a: Point, b: Point, x: SweepResult, y: SweepResult)
    requires t.Aligned() && IsRow(t, a, x) && IsRow(t, b, y)
    requires a.fast <= b.fast && a.slow <= b.slow && b.limit <= a.limit
    ensures NoLater(y.firstHaltIndex, x.firstHaltIndex)
    ensures x.totalHalts <= y.totalHalts
    ensures x.totalDrawdownPrevented <= y.totalDrawdownPrevented
  {
    hide HaltSet, IsFirstHalt, Prevented;
    var p, q, tl := PointPolicy(a), PointPolicy(b), t.Timeline();
    assert Tighter(p, q);
    TighterHaltsNoLater(p, q, tl, x.firstHaltIndex, y.firstHaltIndex);
    TighterHaltsMore(p, q, tl);
  }
}
