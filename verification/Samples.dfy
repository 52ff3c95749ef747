/** Simple timelines that other modules use as witnesses, and what the guards read off them. */
module Samples {
  import opened Bytes
  import opened History
  import opened Policy

  // ---------------------------------------------------------------------
  // Runs of one entry.

  function Repeat<T>(x: T, n: nat): (s: seq<T>)
    ensures |s| == n && forall i :: 0 <= i < n ==> s[i] == x
  {
    seq(n, _ => x)
  }

  function Trade(predicted: int, realized: int): HistoryEntry {
    ConfirmedPair(predicted, realized)
  }

  function CostlyRevert(fee: nat): HistoryEntry {
    RevertedTx(RevertEvent(Repeat(0, 32), 0, None, 1, fee))
  }

  lemma RepeatSnoc<T>(x: T, n: nat)
    requires n > 0
    ensures Repeat(x, n)[..n - 1] == Repeat(x, n - 1)
  {
  }

  lemma {:induction false} PairsOfRepeat(predicted: int, realized: int, n: nat)
    ensures Pairs(Repeat(Trade(predicted, realized), n)) == Repeat(Pair(predicted, realized), n)
  {
    if n > 0 {
      RepeatSnoc(Trade(predicted, realized), n);
      PairsOfRepeat(predicted, realized, n - 1);
      assert Repeat(Pair(predicted, realized), n)
          == Repeat(Pair(predicted, realized), n - 1) + [Pair(predicted, realized)];
    }
  }

  lemma {:induction false} PositiveOfRepeat(q: Pair, n: nat)
    requires q.predicted > 0
    ensures Positive(Repeat(q, n)) == Repeat(q, n)
  {
    if n > 0 {
      RepeatSnoc(q, n);
      PositiveOfRepeat(q, n - 1);
      var all, fewer := Repeat(q, n), Repeat(q, n - 1);
      hide Repeat;
      assert all == fewer + [q];
      assert all[n - 1] == q;
      assert Positive(all) == Positive(fewer) + [q];
    }
  }

  lemma EligibleOfRepeat(predicted: int, realized: int, n: nat)
    requires predicted > 0
    ensures Eligible(Repeat(Trade(predicted, realized), n)) == Repeat(Pair(predicted, realized), n)
  {
    PairsOfRepeat(predicted, realized, n);
    PositiveOfRepeat(Pair(predicted, realized), n);
  }

  lemma EligibleAppend(a: Timeline, b: Timeline)
    ensures Eligible(a + b) == Eligible(a) + Eligible(b)
    ensures Pairs(a + b) == Pairs(a) + Pairs(b)
  {
    PairsAppend(a, b);
    PositiveAppend(Pairs(a), Pairs(b));
  }

  lemma EligibleAppend3(a: Timeline, b: Timeline, c: Timeline)
    ensures Eligible(a + b + c) == Eligible(a) + (Eligible(b) + Eligible(c))
    ensures Pairs(a + b + c) == Pairs(a) + (Pairs(b) + Pairs(c))
  {
    hide Eligible, Pairs;
    EligibleAppend(a + b, c);
    EligibleAppend(a, b);
  }

  lemma PairsOfOne(e: HistoryEntry)
    ensures Pairs([e]) == match e case ConfirmedPair(p, r) => [Pair(p, r)] case RevertedTx(_) => []
  {
    SingleByKind(e);
  }

  lemma EligibleOfOne(predicted: int, realized: int)
    requires predicted > 0
    ensures Eligible([Trade(predicted, realized)]) == [Pair(predicted, realized)]
  {
    PairsOfOne(Trade(predicted, realized));
    PositiveOfOne(Pair(predicted, realized));
  }

  lemma PositiveOfOne(q: Pair)
    requires q.predicted > 0
    ensures Positive([q]) == [q]
  {
    assert [q][..0] == [];
    assert Positive([q][..0]) == [];
  }

  /** The largest integer strictly below `x`. */
  function IntBelow(x: real): (n: int)
    ensures n as real < x
  {
    x.Floor - 1
  }

  lemma SlippageOfOne(q: Pair)
    ensures Slippage([q]) == q.predicted - q.realized
    ensures TotalRealized([q]) == q.realized && TotalPredicted([q]) == q.predicted
  {
    assert [q][..0] == [];
  }

  lemma RatioOfUnit(r: int)
    ensures Ratio(Pair(1, r)) == r as real
  {
  }

  // ---------------------------------------------------------------------
  // Many trades that realized nothing, one that realized `r`, then the rest.

  lemma EligibleAfterLoss(n: nat, r: int, kept: Timeline)
    ensures Eligible(Repeat(Trade(1, 0), n) + [Trade(1, r)] + kept)
            == Repeat(Pair(1, 0), n) + ([Pair(1, r)] + Eligible(kept))
  {
    hide Eligible;
    EligibleAppend3(Repeat(Trade(1, 0), n), [Trade(1, r)], kept);
    EligibleOfRepeat(1, 0, n);
    EligibleOfOne(1, r);
  }

  lemma WindowAfterLoss(n: nat, r: int, s: seq<Pair>)
    requires |s| < n
    ensures LastN(Repeat(Pair(1, 0), n) + ([Pair(1, r)] + s), n)
            == Repeat(Pair(1, 0), n - 1 - |s|) + ([Pair(1, r)] + s)
  {
  }

  lemma {:induction false} TotalsOfUnitZeros(n: nat)
    ensures TotalRealized(Repeat(Pair(1, 0), n)) == 0
    ensures TotalPredicted(Repeat(Pair(1, 0), n)) == n
  {
    if n > 0 {
      RepeatSnoc(Pair(1, 0), n);
      TotalsOfUnitZeros(n - 1);
    }
  }

  lemma TotalsAfterLoss(m: nat, r: int, s: seq<Pair>)
    ensures var w := Repeat(Pair(1, 0), m) + ([Pair(1, r)] + s);
            && TotalRealized(w) == r + TotalRealized(s)
            && TotalPredicted(w) == m + 1 + TotalPredicted(s)
  {
    var z, one := Repeat(Pair(1, 0), m), [Pair(1, r)];
    TotalRealizedAppend(z, one + s);
    TotalRealizedAppend(one, s);
    TotalPredictedAppend(z, one + s);
    TotalPredictedAppend(one, s);
    SlippageOfOne(Pair(1, r));
    TotalsOfUnitZeros(m);
  }

  lemma {:induction false} RatioSumOfUnitZeros(n: nat)
    ensures SumReal(Ratios(Repeat(Pair(1, 0), n))) == 0.0
  {
    hide Ratio;
    if n > 0 {
      RatioOfUnit(0);
      RepeatSnoc(Pair(1, 0), n);
      RatioSumOfUnitZeros(n - 1);
      assert Ratios(Repeat(Pair(1, 0), n))[..n - 1] == Ratios(Repeat(Pair(1, 0), n - 1));
    }
  }

  lemma RatioSumAfterLoss(m: nat, r: int, s: seq<Pair>)
    requires forall q :: q in s ==> q.predicted > 0
    ensures SumReal(Ratios(Repeat(Pair(1, 0), m) + ([Pair(1, r)] + s))) == r as real + SumReal(Ratios(s))
  {
    hide Ratio;
    var z, one := Repeat(Pair(1, 0), m), [Pair(1, r)];
    RatiosAppend(z, one + s);
    RatiosAppend(one, s);
    SumRealAppend(Ratios(z), Ratios(one) + Ratios(s));
    SumRealAppend(Ratios(one), Ratios(s));
    RatioSumOfUnitZeros(m);
    RatioOfUnit(r);
    assert Ratios(one) == [r as real];
    assert [r as real][..0] == [];
    assert SumReal(Ratios(one)) == r as real;
  }

  // ---------------------------------------------------------------------
  // Timelines of confirmed pairs only.

  type Sequence = seq<Pair>

  function SequenceTimeline(s: Sequence): (tl: Timeline)
    ensures |tl| == |s|
    ensures forall i :: 0 <= i < |s| ==> tl[i] == ConfirmedPair(s[i].predicted, s[i].realized)
  {
    seq(|s|, i requires 0 <= i < |s| => ConfirmedPair(s[i].predicted, s[i].realized))
  }

  lemma {:induction false} EligibleOfSequence(s: Sequence)
    requires forall q :: q in s ==> q.predicted > 0
    ensures Eligible(SequenceTimeline(s)) == s
  {
    if s != [] {
      var front, last := s[..|s| - 1], s[|s| - 1];
      assert SequenceTimeline(s) == SequenceTimeline(front) + [Trade(last.predicted, last.realized)];
      EligibleOfSequence(front);
      hide Eligible;
      EligibleAppend(SequenceTimeline(front), [Trade(last.predicted, last.realized)]);
      EligibleOfOne(last.predicted, last.realized);
    }
  }

  lemma SequencePrefix(s: Sequence, i: nat)
    requires i <= |s|
    ensures SequenceTimeline(s)[..i] == SequenceTimeline(s[..i])
  {
  }
}
