/** A table of recorded trades, and what its columns alone say about halts. */
module Columns {
  import opened History
  import opened Policy
  import opened Samples

  const DEFAULT_GAS_USED := 21_000

  datatype Trades = Trades(
    predicted: seq<int>,
    realized: seq<int>,
    isRevert: seq<bool>,
    gasUsed: seq<nat>,
    gasPrice: seq<nat>)
  {
    predicate Aligned() {
      |realized| == |predicted| && |isRevert| == |predicted|
    }

    /** The event row `i` stands for; missing gas columns have defaults. */
    function Entry(i: nat): HistoryEntry
      requires Aligned() && i < |predicted|
    {
      if isRevert[i] then
        RevertedTx(RevertEvent(Repeat(0, 32), i, None,
          if i < |gasUsed| then gasUsed[i] else DEFAULT_GAS_USED,
          if i < |gasPrice| then gasPrice[i] else 0))
      else ConfirmedPair(predicted[i], realized[i])
    }

    function Timeline(): (tl: History.Timeline)
      requires Aligned()
      ensures |tl| == |predicted| && forall i :: 0 <= i < |tl| ==> tl[i] == Entry(i)
    {
      seq(|predicted|, i requires 0 <= i < |predicted| => Entry(i))
    }
  }

  // ---------------------------------------------------------------------
  // Halts, read off the columns.

  /** The rows before `n` that are no reverts and have a positive prediction, in order. */
  function GoodRows(t: Trades, n: nat): (rows: seq<nat>)
    requires t.Aligned() && n <= |t.predicted|
    ensures forall j :: 0 <= j < |rows| ==> rows[j] < n && !t.isRevert[rows[j]] && t.predicted[rows[j]] > 0
  {
    if n == 0 then []
    else GoodRows(t, n - 1) + if !t.isRevert[n - 1] && t.predicted[n - 1] > 0 then [n - 1] else []
  }

  lemma {:induction false} GoodRowsInOrder(t: Trades, n: nat)
    requires t.Aligned() && n <= |t.predicted|
    ensures forall a, b :: 0 <= a < b < |GoodRows(t, n)| ==> GoodRows(t, n)[a] < GoodRows(t, n)[b]
  {
    if n > 0 {
      GoodRowsInOrder(t, n - 1);
    }
  }

  /** Every good row is among them. */
  lemma {:induction false} GoodRowsAll(t: Trades, n: nat, k: nat)
    requires t.Aligned() && k < n <= |t.predicted| && !t.isRevert[k] && t.predicted[k] > 0
    ensures k in GoodRows(t, n)
  {
    if k < n - 1 {
      GoodRowsAll(t, n - 1, k);
    }
  }

  predicate AllPredict(t: Trades, rows: seq<nat>)
    requires t.Aligned()
  {
    forall j :: 0 <= j < |rows| ==> rows[j] < |t.predicted| && t.predicted[rows[j]] > 0
  }

  /** Realized over predicted profit, summed over these rows. */
  function RatioTotal(t: Trades, rows: seq<nat>): real
    requires t.Aligned() && AllPredict(t, rows)
  {
    if rows == [] then 0.0
    else
      var k := rows[|rows| - 1];
      RatioTotal(t, rows[..|rows| - 1]) + t.realized[k] as real / t.predicted[k] as real
  }

  /**
   * The rows up to `i` halt a policy with these thresholds and revert limit:
   * the last `limit` rows are reverts, or the last three good rows each realized
   * less than the fast threshold's share, or the last twenty on average less
   * than the slow one's.
   */
  predicate RowHalts(t: Trades, fast: real, slow: real, limit: nat, i: nat)
    requires t.Aligned() && i < |t.predicted|
  {
    var good := GoodRows(t, i + 1);
    || (i + 1 >= limit && forall k :: i + 1 - limit <= k <= i ==> t.isRevert[k])
    || (|good| >= 3 && forall j :: |good| - 3 <= j < |good| ==>
          t.realized[good[j]] as real / t.predicted[good[j]] as real < fast)
    || (|good| >= 20 && RatioTotal(t, good[|good| - 20..]) < 20.0 * slow)
  }

  /** What the losing trades among the first `n` rows that halt would have lost. */
  function ColumnLoss(t: Trades, fast: real, slow: real, limit: nat, n: nat): int
    requires t.Aligned() && n <= |t.predicted|
  {
    if n == 0 then 0
    else
      var k := n - 1;
      ColumnLoss(t, fast, slow, limit, k)
      + if RowHalts(t, fast, slow, limit, k) && !t.isRevert[k] && t.predicted[k] > t.realized[k]
        then t.predicted[k] - t.realized[k] else 0
  }

  /** The tables differ in their gas columns at most. */
  predicate SameButGas(t: Trades, u: Trades) {
    t.predicted == u.predicted && t.realized == u.realized && t.isRevert == u.isRevert
  }

  lemma {:induction false} SameGoodRows(t: Trades, u: Trades, n: nat)
    requires t.Aligned() && SameButGas(t, u) && n <= |t.predicted|
    ensures GoodRows(t, n) == GoodRows(u, n)
  {
    if n > 0 {
      SameGoodRows(t, u, n - 1);
    }
  }

  lemma {:induction false} SameRatioTotal(t: Trades, u: Trades, rows: seq<nat>)
    requires t.Aligned() && SameButGas(t, u) && AllPredict(t, rows)
    ensures RatioTotal(t, rows) == RatioTotal(u, rows)
  {
    if rows != [] {
      SameRatioTotal(t, u, rows[..|rows| - 1]);
    }
  }

  lemma SameRowHalts(t: Trades, u: Trades, fast: real, slow: real, limit: nat, i: nat)
    requires t.Aligned() && SameButGas(t, u) && i < |t.predicted|
    ensures RowHalts(t, fast, slow, limit, i) <==> RowHalts(u, fast, slow, limit, i)
  {
    hide GoodRows, RatioTotal;
    SameGoodRows(t, u, i + 1);
    var good := GoodRows(t, i + 1);
    if |good| >= 20 {
      SameRatioTotal(t, u, good[|good| - 20..]);
    }
  }

  lemma {:induction false} SameColumnLoss(t: Trades, u: Trades, fast: real, slow: real, limit: nat, n: nat)
    requires t.Aligned() && SameButGas(t, u) && n <= |t.predicted|
    ensures ColumnLoss(t, fast, slow, limit, n) == ColumnLoss(u, fast, slow, limit, n)
  {
    hide RowHalts;
    if n > 0 {
      SameRowHalts(t, u, fast, slow, limit, n - 1);
      SameColumnLoss(t, u, fast, slow, limit, n - 1);
    }
  }

  // ---------------------------------------------------------------------
  // The history the rows stand for has these good rows as its eligible pairs.

  function RowPairs(t: Trades, rows: seq<nat>): (qs: seq<Pair>)
    requires t.Aligned() && forall j :: 0 <= j < |rows| ==> rows[j] < |t.predicted|
    ensures |qs| == |rows|
    ensures forall j :: 0 <= j < |rows| ==> qs[j] == Pair(t.predicted[rows[j]], t.realized[rows[j]])
  {
    seq(|rows|, j requires 0 <= j < |rows| => Pair(t.predicted[rows[j]], t.realized[rows[j]]))
  }

  lemma EligibleOfEntry(t: Trades, k: nat)
    requires t.Aligned() && k < |t.predicted|
    ensures Eligible([t.Entry(k)])
            == if !t.isRevert[k] && t.predicted[k] > 0 then [Pair(t.predicted[k], t.realized[k])] else []
  {
    PairsOfOne(t.Entry(k));
    assert forall q: Pair :: [q][..0] == [];
    var q := Pair(t.predicted[k], t.realized[k]);
    assert Positive([q]) == Positive([q][..0]) + if q.predicted > 0 then [q] else [];
  }

  lemma RowPairsMore(t: Trades, rows: seq<nat>, i: nat)
    requires t.Aligned() && AllPredict(t, rows) && i < |t.predicted| && t.predicted[i] > 0
    ensures AllPredict(t, rows + [i])
    ensures RowPairs(t, rows + [i]) == RowPairs(t, rows) + [Pair(t.predicted[i], t.realized[i])]
  {
  }

  lemma GoodRowsSnoc(t: Trades, n: nat)
    requires t.Aligned() && 0 < n <= |t.predicted|
    ensures GoodRows(t, n)
            == if !t.isRevert[n - 1] && t.predicted[n - 1] > 0 then GoodRows(t, n - 1) + [n - 1] else GoodRows(t, n - 1)
  {
  }

  lemma GoodPairsSnoc(t: Trades, n: nat)
    requires t.Aligned() && 0 < n <= |t.predicted|
    ensures RowPairs(t, GoodRows(t, n))
            == RowPairs(t, GoodRows(t, n - 1))
               + if !t.isRevert[n - 1] && t.predicted[n - 1] > 0
                 then [Pair(t.predicted[n - 1], t.realized[n - 1])] else []
  {
    hide RowPairs, GoodRows;
    GoodRowsSnoc(t, n);
    if !t.isRevert[n - 1] && t.predicted[n - 1] > 0 {
      RowPairsMore(t, GoodRows(t, n - 1), n - 1);
    }
  }

  lemma GoodRowsStep(t: Trades, n: nat)
    requires t.Aligned() && 0 < n <= |t.predicted|
    ensures RowPairs(t, GoodRows(t, n)) == RowPairs(t, GoodRows(t, n - 1)) + Eligible([t.Entry(n - 1)])
  {
    hide Eligible, RowPairs, GoodRows;
    EligibleOfEntry(t, n - 1);
    GoodPairsSnoc(t, n);
  }

  lemma TimelineStep(t: Trades, n: nat)
    requires t.Aligned() && 0 < n <= |t.predicted|
    ensures t.Timeline()[..n] == t.Timeline()[..n - 1] + [t.Entry(n - 1)]
  {
  }

  lemma {:induction false} EligibleOfRows(t: Trades, n: nat)
    requires t.Aligned() && n <= |t.predicted|
    ensures Eligible(t.Timeline()[..n]) == RowPairs(t, GoodRows(t, n))
  {
    if n > 0 {
      hide Eligible, GoodRows, RowPairs;
      EligibleOfRows(t, n - 1);
      TimelineStep(t, n);
      GoodRowsStep(t, n);
      EligibleAppend(t.Timeline()[..n - 1], [t.Entry(n - 1)]);
    }
  }

  lemma {:induction false} RatioTotalIs(t: Trades, rows: seq<nat>)
    requires t.Aligned() && AllPredict(t, rows)
    ensures forall q :: q in RowPairs(t, rows) ==> q.predicted > 0
    ensures SumReal(Ratios(RowPairs(t, rows))) == RatioTotal(t, rows)
  {
    if rows != [] {
      var front := rows[..|rows| - 1];
      RatioTotalIs(t, front);
      assert RowPairs(t, rows)[..|rows| - 1] == RowPairs(t, front);
      assert Ratios(RowPairs(t, rows))[..|rows| - 1] == Ratios(RowPairs(t, front));
    }
  }

  lemma FastOfRows(t: Trades, rows: seq<nat>, fast: real)
    requires t.Aligned() && AllPredict(t, rows)
    ensures FastTrips(FastGuardConfig(fast, 3), RowPairs(t, rows))
            <==> |rows| >= 3 && forall j :: |rows| - 3 <= j < |rows| ==>
                   t.realized[rows[j]] as real / t.predicted[rows[j]] as real < fast
  {
    hide Underperforms;
    var qs := RowPairs(t, rows);
    forall j | 0 <= j < |rows|
      ensures Underperforms(qs[j], fast) <==> t.realized[rows[j]] as real / t.predicted[rows[j]] as real < fast
    {
      UnderRatio(qs[j], fast);
    }
  }

  lemma SlowOfRows(t: Trades, rows: seq<nat>, slow: real)
    requires t.Aligned() && AllPredict(t, rows)
    ensures (forall q :: q in RowPairs(t, rows) ==> q.predicted > 0)
    ensures SlowTrips(SlowGuardConfig(slow, 20), RowPairs(t, rows))
            <==> |rows| >= 20 && RatioTotal(t, rows[|rows| - 20..]) < 20.0 * slow
  {
    hide SumReal, Ratios, RatioTotal;
    RatioTotalIs(t, rows);
    if |rows| >= 20 {
      var last := rows[|rows| - 20..];
      RatioTotalIs(t, last);
      assert LastN(RowPairs(t, rows), 20) == RowPairs(t, last);
    }
  }

  lemma BurstOfRows(t: Trades, limit: nat, i: nat)
    requires t.Aligned() && i < |t.predicted|
    ensures BurstTrips(RevertBurstConfig(limit), t.Timeline()[..i + 1])
            <==> i + 1 >= limit && forall k :: i + 1 - limit <= k <= i ==> t.isRevert[k]
  {
    var tl := t.Timeline()[..i + 1];
    assert forall k :: 0 <= k <= i ==> (tl[k].RevertedTx? <==> t.isRevert[k]);
  }
}
