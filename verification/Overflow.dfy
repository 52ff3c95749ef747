/** When the source's 128-bit sums are the model's unbounded ones. */
module Overflow {
  import opened Bytes
  import opened Arith
  import opened History
  import opened Policy
  import opened Samples
  import opened Replay

  // The source's integers wrap around in a release build and panic in a debug
  // build. So: when no step of an evaluation overflows at all, and exactly when
  // sums that wrap are the ideal ones.

  predicate Within(x: int, bound: nat) { x <= bound && -x <= bound }

  /** Every profit of the window is at most `bound` in size. */
  predicate Bounded(ps: seq<Pair>, bound: nat) {
    forall i :: 0 <= i < |ps| ==> Within(ps[i].predicted, bound) && Within(ps[i].realized, bound)
  }

  lemma {:induction false} SumsBounded(ps: seq<Pair>, bound: nat)
    requires Bounded(ps, bound)
    ensures Within(TotalPredicted(ps), Times(|ps|, bound))
    ensures Within(TotalRealized(ps), Times(|ps|, bound))
    ensures Within(Slippage(ps), Times(|ps|, 2 * bound))
  {
    hide Times;
    TimesStep(|ps|, bound);
    TimesStep(|ps|, 2 * bound);
    TimesNonNegative(|ps|, bound);
    TimesNonNegative(|ps|, 2 * bound);
    if ps != [] {
      assert Bounded(ps[..|ps| - 1], bound);
      SumsBounded(ps[..|ps| - 1], bound);
    }
  }

  /**
   * With profits no larger than 2^127 over twice the window, every single
   * difference and every partial sum of every window of pairs stays within
   * 128 bits, newest pair first as the source adds them.
   */
  lemma WindowSumsFit(ps: seq<Pair>, window: nat, bound: nat, m: nat)
    requires Bounded(ps, bound) && m <= window && Times(window, 2 * bound) < TWO_127
    ensures var w := LastN(ps, m);
            && -TWO_127 < TotalPredicted(w) < TWO_127
            && -TWO_127 < TotalRealized(w) < TWO_127
            && -TWO_127 < Slippage(w) < TWO_127
            && forall i :: 0 <= i < |w| ==> -TWO_127 < w[i].predicted - w[i].realized < TWO_127
  {
    hide Times, TotalPredicted, TotalRealized, Slippage;
    var w := LastN(ps, m);
    assert Bounded(w, bound);
    SumsBounded(w, bound);
    TimesGrows(|w|, window, bound);
    TimesGrows(|w|, window, 2 * bound);
    TimesDoubles(window, bound);
    if w != [] {
      TimesGrows(1, window, 2 * bound);
      TimesIs(1, 2 * bound);
    }
  }

  lemma TimesDoubles(n: nat, k: nat)
    ensures Times(n, k) <= Times(n, 2 * k)
  {
    assert n * (2 * k) == n * k + n * k;
    TimesNonNegative(n, k);
  }

  /** If the fees of a whole window fit 128 bits, so does every partial sum of them. */
  lemma FeeSumsFit(tl: Timeline, window: nat, m: nat)
    requires m <= window && GasBurned(LastN(tl, window)) < TWO_128
    ensures GasBurned(LastN(tl, m)) < TWO_128
  {
    var long, short := LastN(tl, window), LastN(tl, m);
    assert long == long[..|long| - |short|] + short;
    hide LastN, GasBurned;
    GasBurnedAppend(long[..|long| - |short|], short);
  }

  // ---------------------------------------------------------------------
  // Wrapping arithmetic.

  /** The signed 128-bit integer congruent to `n` modulo 2^128. */
  function Wrap(n: int): (r: I128) {
    (n + TWO_127) % TWO_128 - TWO_127
  }

  lemma WrapIs(n: int)
    ensures Wrap(n) == n - (n + TWO_127) / TWO_128 * TWO_128
  {
  }

  lemma WrapShift(n: int, k: int)
    ensures Wrap(n - k * TWO_128) == Wrap(n)
  {
  }

  lemma WrapAdd(a: int, b: int)
    ensures Wrap(Wrap(a) + Wrap(b)) == Wrap(a + b)
  {
    WrapIs(a);
    WrapIs(b);
    WrapShift(a + b, (a + TWO_127) / TWO_128 + (b + TWO_127) / TWO_128);
    hide Wrap;
  }

  lemma WrapExactly(n: int)
    ensures Wrap(n) == n <==> -TWO_127 <= n < TWO_127
  {
  }

  /** What the guards sum over a window of pairs. */
  datatype Column = Predicted | Realized | Difference

  function Cell(c: Column, q: Pair): int {
    match c
    case Predicted => q.predicted
    case Realized => q.realized
    case Difference => q.predicted - q.realized
  }

  function Ideal(c: Column, ps: seq<Pair>): int {
    match c
    case Predicted => TotalPredicted(ps)
    case Realized => TotalRealized(ps)
    case Difference => Slippage(ps)
  }

  /** The source's sum: newest pair first, every result wrapped. */
  function MachineSum(c: Column, ps: seq<Pair>): I128 {
    if ps == [] then 0 else Wrap(MachineSum(c, ps[1..]) + Wrap(Cell(c, ps[0])))
  }

  lemma IdealFront(c: Column, ps: seq<Pair>)
    requires ps != []
    ensures Ideal(c, ps) == Ideal(c, ps[1..]) + Cell(c, ps[0])
  {
    assert ps == [ps[0]] + ps[1..];
    SlippageOfOne(ps[0]);
    hide TotalPredicted, TotalRealized, Slippage;
    TotalPredictedAppend([ps[0]], ps[1..]);
    TotalRealizedAppend([ps[0]], ps[1..]);
    SlippageAppend([ps[0]], ps[1..]);
  }

  lemma {:induction false} MachineSumIsWrapped(c: Column, ps: seq<Pair>)
    ensures MachineSum(c, ps) == Wrap(Ideal(c, ps))
  {
    hide Wrap, Cell;
    if ps == [] {
      WrapExactly(0);
    } else {
      MachineSumIsWrapped(c, ps[1..]);
      IdealFront(c, ps);
      hide Ideal;
      WrapAdd(Ideal(c, ps[1..]), Cell(c, ps[0]));
    }
  }

  /** A wrapping sum is the ideal one exactly when that fits 128 bits, whatever happened on the way. */
  lemma MachineSumExactly(c: Column, ps: seq<Pair>)
    ensures MachineSum(c, ps) == Ideal(c, ps) <==> -TWO_127 <= Ideal(c, ps) < TWO_127
  {
    hide Wrap, MachineSum, Ideal;
    MachineSumIsWrapped(c, ps);
    WrapExactly(Ideal(c, ps));
  }

  /** So with bounded profits the sums the guards compare are the model's. */
  lemma WindowSumsAgree(c: Column, ps: seq<Pair>, window: nat, bound: nat)
    requires Bounded(ps, bound) && Times(window, 2 * bound) < TWO_127
    ensures MachineSum(c, LastN(ps, window)) == Ideal(c, LastN(ps, window))
  {
    hide Times, MachineSum, TotalPredicted, TotalRealized, Slippage, LastN;
    WindowSumsFit(ps, window, bound, window);
    MachineSumExactly(c, LastN(ps, window));
  }

  function Fee(e: HistoryEntry): nat {
    match e
    case ConfirmedPair(_, _) => 0
    case RevertedTx(ev) => ev.gasUsed * ev.effectiveGasPrice
  }

  /** The source's fee sum: newest entry first, products and sums wrapped to 128 bits. */
  function MachineFees(tl: Timeline): U128 {
    if tl == [] then 0 else (MachineFees(tl[1..]) + Fee(tl[0]) % TWO_128) % TWO_128
  }

  lemma ModAdd(a: nat, b: nat)
    ensures (a % TWO_128 + b % TWO_128) % TWO_128 == (b + a) % TWO_128
  {
  }

  lemma GasFront(tl: Timeline)
    requires tl != []
    ensures GasBurned(tl) == Fee(tl[0]) + GasBurned(tl[1..])
  {
    assert tl == [tl[0]] + tl[1..] && [tl[0]][..0] == [];
    GasBurnedAppend([tl[0]], tl[1..]);
  }

  lemma {:induction false} MachineFeesAreWrapped(tl: Timeline)
    ensures MachineFees(tl) == GasBurned(tl) % TWO_128
  {
    hide Fee, GasBurned;
    if tl == [] {
      GasOfNone();
    } else {
      MachineFeesAreWrapped(tl[1..]);
      GasFront(tl);
      ModAdd(GasBurned(tl[1..]), Fee(tl[0]));
    }
  }

  /** The wrapping fee sum is the ideal one exactly when that fits 128 bits. */
  lemma {:induction false} MachineFeesExactly(tl: Timeline)
    ensures MachineFees(tl) == GasBurned(tl) <==> GasBurned(tl) < TWO_128
  {
    hide GasBurned, MachineFees;
    MachineFeesAreWrapped(tl);
  }

  // ---------------------------------------------------------------------
  // The batch engine's drawdown accumulator.

  /** The source's accumulator: trade by trade, differences and sums wrapped. */
  function MachinePrevented(p: ReconcilePolicy, tl: Timeline): I128
    requires p.WellFormed()
  {
    if tl == [] then 0
    else
      var sum := MachinePrevented(p, tl[..|tl| - 1]);
      if Decide(p, tl).Halt? then Wrap(sum + Wrap(Shortfall(tl[|tl| - 1]))) else sum
  }

  lemma {:induction false} MachinePreventedIsWrapped(p: ReconcilePolicy, tl: Timeline)
    requires p.WellFormed()
    ensures MachinePrevented(p, tl) == Wrap(Prevented(p, tl))
  {
    hide Wrap, Decide, Shortfall;
    if tl == [] {
      WrapExactly(0);
    } else {
      MachinePreventedIsWrapped(p, tl[..|tl| - 1]);
      WrapAdd(Prevented(p, tl[..|tl| - 1]), Shortfall(tl[|tl| - 1]));
    }
  }

  lemma {:induction false} PreventedGrows(p: ReconcilePolicy, tl: Timeline, i: nat)
    requires p.WellFormed() && i <= |tl|
    ensures Prevented(p, tl[..i]) <= Prevented(p, tl)
    ensures i < |tl| && Decide(p, tl[..i + 1]).Halt? ==> Shortfall(tl[i]) <= Prevented(p, tl)
  {
    hide Decide, Shortfall;
    if i == |tl| {
      assert tl[..i] == tl;
    } else {
      var front := tl[..|tl| - 1];
      if i < |front| {
        PreventedGrows(p, front, i);
        assert front[..i] == tl[..i] && front[..i + 1] == tl[..i + 1];
      } else {
        assert tl[..i + 1] == tl;
      }
    }
  }

  /**
   * The accumulator reports the ideal total exactly when that fits 128 bits;
   * and then no difference and no partial sum on the way overflows.
   */
  lemma {:induction false} MachinePreventedExactly(p: ReconcilePolicy, tl: Timeline)
    requires p.WellFormed()
    ensures MachinePrevented(p, tl) == Prevented(p, tl) <==> Prevented(p, tl) < TWO_127
    ensures Prevented(p, tl) < TWO_127 ==>
              forall i :: 0 <= i < |tl| ==>
                && Prevented(p, tl[..i]) < TWO_127
                && (Decide(p, tl[..i + 1]).Halt? ==> Shortfall(tl[i]) < TWO_127)
  {
    hide Wrap, MachinePrevented, Prevented, Decide, Shortfall;
    MachinePreventedIsWrapped(p, tl);
    WrapExactly(Prevented(p, tl));
    forall i | 0 <= i < |tl|
      ensures Prevented(p, tl[..i]) <= Prevented(p, tl)
      ensures Decide(p, tl[..i + 1]).Halt? ==> Shortfall(tl[i]) <= Prevented(p, tl)
    {
      PreventedGrows(p, tl, i);
    }
  }
}
