/** How much history a policy must have seen before it can halt at all. */
module ShortHistory {
  import opened History
  import opened Policy
  import opened Survival

  lemma TripNeedsPairs(p: ReconcilePolicy, g: Guard, tl: Timeline)
    requires p.WellFormed() && Trips(p, g, tl)
    ensures |Pairs(tl)| >= PairsNeeded(p, g)
  {
    hide Pairs, Positive, Slippage, TotalRealized, TotalPredicted, SumReal, Ratios, BurstTrips, GasTrips;
    PositiveShorter(Pairs(tl));
  }

  /** A guard that is immune on nothing at all never trips within the limits. */
  lemma ImmuneNeverTrips(b: Limits, p: ReconcilePolicy, g: Guard, tl: Timeline)
    requires b.Valid() && p.WellFormed() && Immune(b, p, g, []) && AllFit(b, tl)
    ensures !Trips(p, g, tl)
  {
    hide Trips, Immune, Decide, Fits;
    GuardSurvivesExactly(b, p, g, []);
    assert SameVerdict(p, g, tl, [], []);
    var none: Timeline := [];
    assert tl + none + none == tl && none + none == none;
    EmptyContinues(p);
    DecideHalts(p, []);
  }

  /** No history within the limits that has fewer than `n` confirmed pairs halts. */
  ghost predicate WaitsFor(b: Limits, p: ReconcilePolicy, n: nat)
    requires p.WellFormed()
  {
    forall tl :: AllFit(b, tl) && |Pairs(tl)| < n ==> Decide(p, tl) == Continue
  }

  /**
   * Histories with fewer than `n` pairs, reverts not counted, continue exactly
   * when every guard that can trip at all waits for `n` pairs. With `n` the fast
   * window this is when an insufficient history is sure to continue.
   */
  lemma WaitsExactly(b: Limits, p: ReconcilePolicy, n: nat)
    requires b.Valid() && p.WellFormed() && n > 0
    ensures WaitsFor(b, p, n) <==> forall g :: Immune(b, p, g, []) || PairsNeeded(p, g) >= n
  {
    hide Trips, Immune, Decide, AllFit, PairsNeeded, Pairs;
    if forall g :: Immune(b, p, g, []) || PairsNeeded(p, g) >= n {
      forall tl | AllFit(b, tl) && |Pairs(tl)| < n ensures Decide(p, tl) == Continue {
        ContinuesEarly(b, p, n, tl);
      }
    } else {
      var g :| !(Immune(b, p, g, []) || PairsNeeded(p, g) >= n);
      var dropped := GuardNotices(b, p, g, []);
      assert dropped + [] == dropped;
      DecideHalts(p, dropped);
    }
  }

  lemma ContinuesEarly(b: Limits, p: ReconcilePolicy, n: nat, tl: Timeline)
    requires b.Valid() && p.WellFormed() && AllFit(b, tl) && |Pairs(tl)| < n
    requires forall g :: Immune(b, p, g, []) || PairsNeeded(p, g) >= n
    ensures Decide(p, tl) == Continue
  {
    hide Trips, Immune, Decide, AllFit, PairsNeeded, Pairs;
    forall g ensures !Trips(p, g, tl) {
      if Trips(p, g, tl) {
        TripNeedsPairs(p, g, tl);
        ImmuneNeverTrips(b, p, g, tl);
      }
    }
    DecideHalts(p, tl);
  }

  /** In particular a policy with a burst guard may halt on reverts alone, whatever its windows. */
  lemma RevertsHaltWithoutPairs(b: Limits, p: ReconcilePolicy)
    requires b.Valid() && p.WellFormed() && p.revertBurst.Some?
    ensures !WaitsFor(b, p, p.fast.window)
  {
    WaitsExactly(b, p, p.fast.window);
    assert !Immune(b, p, Burst, []);
    assert PairsNeeded(p, Burst) == 0;
  }
}
